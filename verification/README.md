# QuickJS regular expressions and number conversion: a verified model

This project models two parts of QuickJS and proves what they are for.

* The regular expression engine, `engines/quickjs/libregexp.c`: the one-pass compiler that appends, inserts, patches
  and rotates bytecode, the pass that allocates loop registers, and the backtracking matcher with its single stack of
  choice points, lookahead frames and undo pairs. Compiling a pattern and executing the result gives what section 22.2
  of ECMA-262 says, captures included, for the pattern in which counted repetitions stop at 2^31 - 1; for the pattern
  itself that is right just when the two have the same result (`RegexMain.RegExpExec`).
* The conversion of 64-bit floating point numbers to text and back, `engines/quickjs/dtoa.c`: limb bignums, division
  by precomputed inverses, a division chain with a sticky bit, rounding shifts, and a digit search that checks itself
  by converting back. Text is read as the nearest double, and the text printed for a double reads back as that double,
  for every bit pattern, every radix from 2 to 36 and every exponent format (`TextRoundTrip.PrintAndRead`).

## The regular expression half

* `EcmaSemantics` states the matchers of section 22.2.2 with continuations (`Match`, `Repeat`), and the same rules
  as the ordered list of all ways to match (`Sem`); the two agree.
* `TreeSemantics` gives the same matchers once more directly on parse trees, with the word characters and line
  terminators written out; `TreeLaws` proves that the pattern made of a tree means what the tree does.
* `Codegen` is the emitted code as a function of the pattern; `Emitter` (the parser's methods on `ParseState`) is
  proved to build it, `Registers` to allocate its registers, `Closed` that its jumps stay inside.
* `StructuredRun` says what the emitted code does, in terms of words and registers; `Simulation` relates it to the
  semantics, including where captures are reset and where empty iterations are not checked (`Progress`).
* `SnapshotVM` is a matcher whose choice points hold full snapshots; `CodegenCorrect` proves that it runs emitted
  code like `StructuredRun`.
* `BacktrackVM` is the matcher with the undo log; each instruction refines the snapshot matcher (`UndoLog`).
* `Capped` puts the maximum of 2^31 - 1 into the counted repetitions that have none. The code stays the same, so what
  is shown for patterns whose counters fit holds, for the pattern with the maximum, for all patterns of the parser.

The subject is a sequence of characters; case folding and white space are abstract tables (`Env`). The 31-bit counter
of a counted repetition without a maximum has to outlast the subject, together with the mandatory iterations when these
can be empty (`Simulation.CountersFit`); where it does, the maximum makes no difference (`RegexMain.ExecFits`). For the
family of patterns `(?:|a){min,}` this is also necessary: `RegexMain.CounterLimit` proves that the machine finds the
match of ECMA-262 if and only if the counters fit. For other patterns the exact condition is that ECMA-262 gives the
same result with and without the maximum.

## The number half

* `Limbs` and `InvDiv` are the loops over arrays of 32-bit limbs, each with the exact equation it solves; `Bignum` is
  the buffer with its length (`Mpb`), up to the rounding shift; `Rounding`, `Powers` and `RealPowers` say what is
  computed.
* `RadixPower` and `Scaling` multiply or divide by a power of the radix, keeping a sticky bit; `Float64` rounds the
  result to a mantissa and an exponent. `NearestEven` and `Doubles` show that this is the nearest double of IEEE
  754-2019, subnormals, ties and infinity included (`IsNearest`).
* `Log2Radix` proves that the logarithm that the search starts from, a product with a 24-bit fraction, is exact for
  exponents up to 2048, `DigitBounds` and `DigitErrors` that the most digits always pin the double down, `RoundTrip`
  that what is near enough rounds back, and `Capacity` that the buffers of 52 limbs are long enough. `Dtoa` is the digit
  search, which ends where the double rounded to one digit less is read as another double.
* `NumberText` specifies the text of a double without looking at the code: which digits are shown, and where the dot,
  zeros and exponent are, by the cases of Number::toString. `DigitChoice` proves that the digits of the search, and
  those of integers that are printed without one, are the digits to show, and that there is only one such text.
* `Shortest` proves when the digits found are as few as possible, which Number::toString of ECMA-262 asks for: always,
  but for powers of two above the smallest normal number. These have a smaller gap below than above, and the digits
  found are too many if and only if the next number above with one digit less is read as the double (`FoundIsShortest`).
  So 2^-24 is printed with all 17 digits, `5.9604644775390625e-8`, although `5.960464477539063e-8` is read as the same
  double (`NotShortest`).
* `Digits` and `DtoaText` write the digits and the text, and `DtoaLength` shows that they fit in the length that callers
  allocate. `Numerals` says what a text stands for, and `Atod` with `AtodRounding` and the limits of `AtodTables` reads
  it; `AtodText` is the reading of whole texts. `AtodLaws` and `AtodCase` say what that does in terms of the parts that
  a text is made of. `TextRoundTrip` prints, and puts both directions together.

`AtodLimits` is about where reading does not give the nearest double.

* The build uses `-fwrapv` (`engines/quickjs/Makefile:150`), so the exponent of a numeral wraps around at 32 bits: the
  text `0.00000000000000000001e-2147483639` is read as infinity and not as zero (`WrapsToInfinity`). `WrapsRight` and,
  by the guards of the code, `WrapsBySize` say when a wrapped size still comes out right.
* Of an exponent that is over the limit no more digits are read. `BeyondRight` and `BeyondFits` say when the infinity or
  zero that is returned is right; it is for all texts shorter than 2^28 characters.
* In a radix that is no power of two only so many digits are taken (38 in decimal). The double is the nearest one to the
  whole numeral if and only if no point halfway between two doubles lies between the digits that are taken and all
  digits (`ReadsWhole`). It is not for a numeral of 39 digits just above such a point (`LeavesOutDigits`).

## Model

| member | source | states |
|---|---|---|
| `RegexMain.RegExpExec` | engines/quickjs/libregexp.c:2522-3364 | compile, then execute, for every tree of the parser and every subject: refused exactly when the tree has an error or a limit of 255 captures or registers is exceeded, otherwise the result of RegExpBuiltinExec (section 22.2.7.2 of ECMA-262) with all captures for the pattern whose counted repetitions stop at INT32_MAX; that is the result of the matcher of the tree itself if and only if the two are the same, as they are where the counters fit |
| `TreeLaws.DisjIs` | engines/quickjs/libregexp.c:1845-2440 | the pattern made of a parse tree matches, with every continuation, as the matcher that sections 22.2.2.3 to 22.2.2.7 of ECMA-262 give for the tree: which parentheses capture, the order of terms and alternatives, quantifiers, lookarounds and back references |
| `TreeLaws.DisjGroups` | engines/quickjs/libregexp.c:1986-2010 | the groups of a pattern are the capturing parentheses of its tree, counted on the tree |
| `TreeLaws.DisjAccepted` | engines/quickjs/libregexp.c:1845-2440 | a pattern is well-formed exactly when no quantifier of its tree has a minimum above its maximum and no class too many ranges |
| `TreeLaws.WordChars` | engines/quickjs/libregexp.c:3138-3171 | a character counts for word boundaries if and only if it is one of the 63 of section 22.2.2.9, or with case folding one of the two that fold to s and k |
| `TreeLaws.LineTerminators` | engines/quickjs/libregexp.c:2616-2619 | the line terminators are the four of section 12.3 |
| `TreeLaws.Assertions` | engines/quickjs/libregexp.c:2985-3004 | anchors and word boundaries (lines 3138-3171) hold where the characters on both sides, in these terms, say so |
| `TreeLaws.Classes` | engines/quickjs/libregexp.c:1225-1259 | a class has a character if and only if one of its intervals does, after folding |
| `RegexMain.Compile` | engines/quickjs/libregexp.c:2522-2614 | the compiler accepts a pattern exactly within its limits, and the program is the code of the pattern between the search prefix and the match |
| `RegexMain.Execute` | engines/quickjs/libregexp.c:3326-3364 | running a program from a position finds a match exactly when the specification does for the pattern with that maximum, with the same captures |
| `RegexMain.ExecFits` | engines/quickjs/libregexp.c:3077-3126 | where every counter outlasts the subject and the mandatory iterations that may be empty, the maximum of INT32_MAX does not change the result of the specification |
| `RegexMain.CounterLimit` | engines/quickjs/libregexp.c:3061-3126 | for (?:&#124;a){min,} on a subject of a's the machine stops after INT32_MAX iterations, so it agrees with the specification if and only if min plus the length is at most INT32_MAX |
| `EcmaSemantics.MatchIsFirst` | engines/quickjs/libregexp.c:2774-3321 | the continuation semantics of section 22.2.2 is the first success in the ordered list of ways to match, for every continuation |
| `Simulation.SimNode` | engines/quickjs/libregexp.c:2196-2440 | for patterns whose counters fit: what emitted code does is related way by way, and in order, to the specification, including skipped checks, skipped resets and captures that are left open |
| `Capped.SimCapped` | engines/quickjs/libregexp.c:2196-2440 | for all patterns of the parser: what emitted code does is related way by way, and in order, to the specification of the pattern whose counted repetitions stop at INT32_MAX |
| `Capped.CapCode` | engines/quickjs/libregexp.c:2266-2361 | putting that maximum into a pattern does not change its code |
| `CodegenCorrect.RunCorrect` | engines/quickjs/libregexp.c:2774-3321 | the snapshot machine started at the code of a pattern comes out in exactly the states of its structured run, in order, whatever frames and registers are there |
| `Progress.NoCheckNeeded` | engines/quickjs/libregexp.c:1557-1628 | if the scan of an atom says that no check is needed, every run through the atom moves strictly in the direction of matching |
| `Direction.EmptyIteration` | engines/quickjs/libregexp.c:2266-2361 | the check of the machine for an advance in the direction of matching refuses just the iterations that end where they began, which is the rule of RepeatMatcher |
| `ClassTest.TestIsClass` | engines/quickjs/libregexp.c:1225-1259 | the range test emitted for a class, 16 or 32 bits wide and with 0xffff for infinity, passes a character if and only if the class has it |
| `BacktrackVM.Exec.TestChar` | engines/quickjs/libregexp.c:2930-2948 | the test of one character, with the binary searches over ranges of lines 3229-3307, decides the test of the specification |
| `Closed.CodeClosed` | engines/quickjs/libregexp.c:2196-2440 | every jump in emitted code lands inside it or at its end, registers are in the range allocated to it, and captures in the range of the pattern |
| `Registers.CodeBalanced` | engines/quickjs/libregexp.c:2442-2505 | loop instructions are bracketed: the stack of the allocation returns to its depth, never runs out, and gives enclosing loops different registers |
| `Registers.ComputeRegisterCount` | engines/quickjs/libregexp.c:2444-2505 | the in-place pass writes the allocated registers and their number, or fails exactly above the limit |
| `Emitter.ParseState.EmitQuantifier` | engines/quickjs/libregexp.c:2257-2361 | inserting in front of the atom, truncating and patching leave the code of the quantifier in place of the atom |
| `Emitter.ParseState.EmitRange` | engines/quickjs/libregexp.c:1225-1259 | the range instruction for a boundary list, or an error exactly when there are too many |
| `Emitter.ParseState.EmitLook` | engines/quickjs/libregexp.c:1950-1984 | the lookaround with its jump patched after the body |
| `Emitter.ParseState.EmitAlternative` | engines/quickjs/libregexp.c:2372-2404 | terms in order, or reversed by rotation for lookbehind; an error exactly when a term has one |
| `Emitter.ParseState.EmitDisjunction` | engines/quickjs/libregexp.c:2406-2440 | alternatives joined by a split inserted before what is there and a jump patched behind it |
| `BacktrackVM.Exec.Interpret` | engines/quickjs/libregexp.c:2774-3321 | the matcher with the undo log ends as the snapshot machine does |
| `BacktrackVM.Exec.DoSave` | engines/quickjs/libregexp.c:2803-2812 | saving a word with its undo pair is a step of the snapshot machine |
| `BacktrackVM.Exec.DoRegister` | engines/quickjs/libregexp.c:2813-2833 | a register whose old value is already in the log of the newest frame is not logged again, and still every snapshot is kept |
| `BacktrackVM.Exec.DoLookMatch` | engines/quickjs/libregexp.c:2874-2906 | leaving a positive lookahead drops its choice points and merges their log segments, as the snapshot machine drops frames |
| `BacktrackVM.Exec.DoNegLookMatch` | engines/quickjs/libregexp.c:2907-2925 | leaving a negative lookahead restores all words and fails |
| `BacktrackVM.Exec.DoLoopSplit` | engines/quickjs/libregexp.c:3077-3126 | the counted loop: decrement, check for an advance, and the choice between another iteration and leaving |
| `BacktrackVM.Exec.DoBackRef` | engines/quickjs/libregexp.c:3172-3228 | a back reference in either direction, with or without case folding |
| `BacktrackVM.Exec.TestAssertion` | engines/quickjs/libregexp.c:2985-3004 | anchors decided from the characters around the position; word boundaries (lines 3138-3171) likewise |
| `UndoLog.LeaveFrames` | engines/quickjs/libregexp.c:2874-2906 | merging log segments keeps the snapshot of every frame that stays, also when the data at the base of the stack is dropped |
| `UndoLog.DrainPops` | engines/quickjs/libregexp.c:2874-2906 | draining frames down to the lookahead is popping to it in the list of snapshots |
| `InvDiv.InverseOf` | engines/quickjs/dtoa.c:107-113 | the precomputed inverse of a normalized divisor |
| `InvDiv.Udiv1Norm` | engines/quickjs/dtoa.c:115-135 | exact quotient and remainder by the inverse, under 32- and 64-bit wrap-around |
| `InvDiv.Div1Norm` | engines/quickjs/dtoa.c:186-199 | in-place division of a whole bignum by a normalized divisor, with quotient and remainder for the original one |
| `Bignum.Mpb.ShrRound` | engines/quickjs/dtoa.c:313-398 | value divided by 2^shift and rounded in the given mode, or multiplied exactly for a negative shift |
| `Bignum.Mpb.FloorLog2` | engines/quickjs/dtoa.c:448-456 | position of the highest bit, or -1 for zero |
| `RadixPower.PowUi` | engines/quickjs/dtoa.c:242-269 | the power modulo 2^64, from tables or by squaring |
| `RadixPower.PowUiInv` | engines/quickjs/dtoa.c:271-292 | the power shifted up to a full limb, with its shift and inverse |
| `Scaling.MulPow` | engines/quickjs/dtoa.c:891-956 | the value times a power of the radix, as floor and sticky bit with enough bits left when that is a division |
| `Float64.MulPowRound` | engines/quickjs/dtoa.c:958-967 | m * 2^e * radix^f rounded once to an integer |
| `Float64.RoundToD` | engines/quickjs/dtoa.c:969-1001 | the mantissa and exponent of the rounded real that a bignum stands for |
| `Float64.MulPowRoundToD` | engines/quickjs/dtoa.c:1003-1013 | a * radix^f rounded once to a mantissa and exponent, subnormals included |
| `NearestEven.RoundsToNearestEven` | engines/quickjs/dtoa.c:969-1013 | the result is as near as any k * 2^q with a 53-bit k, and even when another one is just as near |
| `Doubles.PackedIsNearest` | engines/quickjs/dtoa.c:1590-1610 | the bits packed from a rounded mantissa are the nearest double, overflow to infinity and underflow included |
| `Doubles.UnpackIs` | engines/quickjs/dtoa.c:1126-1163 | taking a finite double apart gives a normalized mantissa, and packing it gives the bits back |
| `Doubles.ValueIs` | engines/quickjs/dtoa.c:1126-1163 | what bits stand for is what section 3.4 of IEEE 754-2019 says: a fraction of 52 bits behind a 1 or, for subnormals, behind a 0 |
| `Doubles.NearestUnique` | engines/quickjs/dtoa.c:1590-1610 | there is only one nearest double |
| `Halfway.NearestIsRank` | engines/quickjs/dtoa.c:1590-1610 | the bits of the nearest double count the halfway points that a number is over |
| `Halfway.CloserIsNearest` | engines/quickjs/dtoa.c:1590-1610 | what is as close to a double as a number that is read as it, is read as it too, with care below powers of two |
| `Log2Radix.LogIsExact` | engines/quickjs/dtoa.c:460-488 | the 24-bit fraction gives the exact floor of the logarithm for exponents from -2048 to 2048 and every radix |
| `DigitBounds.MaxDigitsEnough` | engines/quickjs/dtoa.c:722-725 | the table gives as few digits as possible such that one less still makes 2^53 numbers, and few enough for 64 bits |
| `DigitErrors.DigitCount` | engines/quickjs/dtoa.c:1175-1210 | the first exponent gives at most one digit too many and the next one none, so the inner loop runs at most twice |
| `DigitErrors.FirstNear` | engines/quickjs/dtoa.c:1186-1233 | the most digits with the first exponent are within the rounding interval of the double |
| `DigitErrors.SecondNear` | engines/quickjs/dtoa.c:1186-1233 | the same with the second exponent, where the double rounds up to a power of the radix or is above it |
| `RoundTrip.RoundsBack` | engines/quickjs/dtoa.c:1180-1233 | a number within the rounding interval of a double, which is narrower below a power of two, rounds to that double |
| `Capacity.PrintingFits` | engines/quickjs/dtoa.c:60-66 | 52 limbs are enough for every scaling in the digit search |
| `Capacity.ParsingFits` | engines/quickjs/dtoa.c:60-66 | 52 limbs are enough for converting the digits back |
| `Dtoa.FreeFormat` | engines/quickjs/dtoa.c:1180-1236 | the digits found are the double rounded to so many digits, the last of them not zero, and are read as it; rounding to any more digits, up to the most, is too, and rounding to one digit less is not |
| `Dtoa.RoundedBack` | engines/quickjs/dtoa.c:1216-1232 | converting digits back gives the mantissa and exponent of a double if and only if that is the nearest double to them |
| `Shortest.ClosestDigits` | engines/quickjs/dtoa.c:1196-1213 | no number with as many digits is closer to the double than its rounding, with either exponent |
| `Shortest.FoundIsShortest` | engines/quickjs/dtoa.c:1193-1233 | a number with one digit less than the search finds is read as the double if and only if the double is a power of two above the smallest normal number and the next such number above it is read as it |
| `Shortest.NotShortest` | engines/quickjs/dtoa.c:1193-1233 | for 2^-24 the search finds 17 digits, while a number of 16 digits is read as it |
| `NumberText.RepresentationIs` | engines/quickjs/dtoa.c:605-689 | a numeral without zeros in front is the representation of its number by the characters 0 to 9 and a to z |
| `NumberText.TextIsLayout` | engines/quickjs/dtoa.c:1277-1316 | the text written for digits and exponent is laid out as Number::toString (section 6.1.6.1.20 of ECMA-262) does it, with 21 and -6 as the bounds in decimal, and always or never with an exponent where that is asked for |
| `NumberText.DigitLetters` | engines/quickjs/dtoa.c:1320-1330 | the value of a character is its place among the digits and small letters, or the digits and capital letters |
| `DigitChoice.FoundIsShown` | engines/quickjs/dtoa.c:1180-1236 | what the search finds is what should be shown: no number with as many digits is closer, the first and last digits are not zero, so many digits and any more are enough to be read as the double, and one less is not |
| `DigitChoice.IntegerIsShown` | engines/quickjs/dtoa.c:1168-1179 | all digits of an integer below 2^53 without the zeros at its end, for which there is no search, are what should be shown too |
| `DigitChoice.TextUnique` | engines/quickjs/dtoa.c:1106-1318 | a double has just one text in each radix and format |
| `DigitChoice.ShownIsShortest` | engines/quickjs/dtoa.c:1193-1233 | for the digits shown, in the search or for an integer: one digit less is read as the double if and only if that is a power of two above the smallest normal number and the next such number above it is read as it |
| `Digits.OutputDigits` | engines/quickjs/dtoa.c:845-889 | the digits written, a limb at a time, are the numeral of the value modulo the power of the radix |
| `DtoaText.PutFree` | engines/quickjs/dtoa.c:1277-1316 | the text of the digits: with an exponent, behind zeros, or with a dot or zeros, in no more room than it takes |
| `DtoaText.PutInteger` | engines/quickjs/dtoa.c:615-689 | the digits of an integer below 2^53 in any radix, without zeros in front and fewer than are always enough |
| `DtoaLength.TextFits` | engines/quickjs/dtoa.c:1031-1082 | the text of a double that is no integer, with its sign, is within the length that callers compute, in every exponent format; for subnormals because one digit less is too few |
| `DtoaLength.CloseIsNearest` | engines/quickjs/dtoa.c:1186-1233 | a number less than 2^-1075 from a double has it as the nearest one |
| `TextRoundTrip.JsDtoa` | engines/quickjs/dtoa.c:1106-1318 | what is written for any double in free format, into a buffer of the length that callers compute, is its text: sign, the digits that should be shown, and their layout, or a word |
| `TextRoundTrip.Print` | engines/quickjs/dtoa.c:1031-1318 | the same as a string, which is never longer than that length; in decimal that is 25 characters unless exponents are disabled |
| `TextRoundTrip.TextReadsBack` | engines/quickjs/dtoa.c:1106-1620 | the text of a double, as specified, is read as its bits and its sign, in every radix and format and with any prefixes allowed |
| `AtodTables.LimitsAreExact` | engines/quickjs/dtoa.c:735-751 | in a radix that is no power of two the largest exponent is that of the first power above 2^1024, and the smallest that of the last one not above 2^-1075 |
| `AtodTables.AtodDigitsExact` | engines/quickjs/dtoa.c:727-733 | the digits that are taken are as many as 128 bits can hold, and in a power of two as many as 64 bits can |
| `AtodTables.AtodDigitsFit` | engines/quickjs/dtoa.c:727-733 | they fit in four limbs |
| `Atod.MulBase` | engines/quickjs/dtoa.c:1332-1351 | multiply by the base of a limb of digits and add, where a base of 0 stands for 2^32 |
| `Atod.ReadDigits` | engines/quickjs/dtoa.c:1461-1510 | the number of the digits taken, their count and place of the dot, and whether a digit left out is not zero |
| `Atod.ReadExponent` | engines/quickjs/dtoa.c:1532-1563 | the exponent of a numeral, or that it is over the limit |
| `Atod.ToDouble` | engines/quickjs/dtoa.c:1577-1610 | the nearest double to the literal, with its size as 32-bit arithmetic leaves it |
| `Atod.ReadNumber` | engines/quickjs/dtoa.c:1418-1620 | not a number exactly for a text that is no numeral; infinity or zero for an exponent over the limit; otherwise the nearest double, or that of the wrapped literal when its size leaves 32 bits |
| `AtodLimits.WrapsRight` | engines/quickjs/dtoa.c:1577-1593 | a size beyond 32 bits comes out right if and only if what is left of it overflows too, or is as small |
| `AtodLimits.WrapsBySize` | engines/quickjs/dtoa.c:1577-1593 | a size beyond 32 bits comes out right when what is left of it meets the same guard, and wrong when it meets the other one or is inside both |
| `AtodLimits.WrapsToInfinity` | engines/quickjs/dtoa.c:1577-1593 | a decimal numeral that should be zero and is read as infinity |
| `AtodLimits.BeyondRight` | engines/quickjs/dtoa.c:1538-1562 | giving up on an exponent over the limit is right if and only if the literal does overflow, or is as small |
| `AtodLimits.BeyondFits` | engines/quickjs/dtoa.c:1538-1562 | it is right for all texts shorter than 2^28 characters |
| `AtodLimits.KeptIsAll` | engines/quickjs/dtoa.c:1483-1525 | leaving digits out does not change the number exactly when they are zeros, or the radix is a power of two |
| `AtodLimits.ReadsWhole` | engines/quickjs/dtoa.c:1483-1525 | the double that is read is the nearest one to the numeral with all its digits if and only if no halfway point is between that numeral and the digits that are taken |
| `AtodLimits.LeavesOutDigits` | engines/quickjs/dtoa.c:1483-1525 | a decimal numeral of 39 digits that is not read as its nearest double |
| `AtodText.JsAtod` | engines/quickjs/dtoa.c:1354-1620 | sign, prefixes of all radixes, octal numbers with a leading zero and the word for infinity, and otherwise the number that the text stands for |
| `AtodLaws.TextIs` | engines/quickjs/dtoa.c:1376-1566 | a text made of a sign, a prefix, digits with a dot and an exponent is read as the numeral of those digits and that exponent, with radix 16 for 0x, 8 for 0o, 2 for 0b, 8 for a leading zero where that is allowed, and 10 or the given radix without a prefix |
| `AtodLaws.IntegerIs` | engines/quickjs/dtoa.c:1386-1516 | the same for integers: the double is the nearest one to the number of the digits in that radix, up to the digits taken |
| `AtodLaws.ParseLayout` | engines/quickjs/dtoa.c:1461-1566 | digits with a dot, a marker, an optional sign and decimal digits are the numeral with that exponent, for e and E in decimal, @ in other radixes, and p and P in radixes 2, 4, 8 and 16 |
| `AtodLaws.ParseMarkerAlone` | engines/quickjs/dtoa.c:1532-1537 | a marker without digits behind it makes no number |
| `AtodLaws.ParseEnds` | engines/quickjs/dtoa.c:1516-1566 | any other character ends the number |
| `AtodLaws.InfinityIs` | engines/quickjs/dtoa.c:1415-1418 | the word for infinity with any sign, whatever follows |
| `AtodLaws.PrefixAlone` | engines/quickjs/dtoa.c:1411-1414 | a prefix of two characters without a digit behind it is not a number |
| `AtodCase.AlikeParse` | engines/quickjs/dtoa.c:1320-1566 | exchanging small and capital letters leaves the numeral of a text unchanged |
| `AtodCase.AlikeText` | engines/quickjs/dtoa.c:1354-1620 | and the double that is read, unless just one of the texts is the word for infinity |
| `TextRoundTrip.PrintAndRead` | engines/quickjs/dtoa.c:1031-1620 | printing a double into a buffer of the length that callers compute and reading the text gives the same bits, for every double, radix, exponent format and set of prefixes allowed, except the sign of a zero that is not printed |

## Left out

Regular expressions:

- The lexing of pattern text: the compiler's input is a tree of terms, so escapes, decimal escapes, group names, flags,
  modifiers and the refusal of a quantifier after a lookbehind are not modelled.
- The byte layout of the code: an instruction is one element, and a jump counts instructions.
- Subjects are sequences of code points: the decoding of UTF-16 surrogate pairs is not modelled.
- Case folding and canonicalization of classes, string sets of the v flag, timeouts, memory errors and the growth of
  the stack are left out.
- `BacktrackVM.Exec.DoNegLookMatch`: tests for the bottom of the stack where the source relies on the frame being there.
- An explicit maximum of 2147483647 is read as no maximum, as the source does.

Number conversion:

- The fixed and fractional formats of printing.
- Where in a text the number that was read ends.
- Reading with digit separators or in integers-only mode. The zero byte at the end of a text is not modelled.
- `Atod.ReadNumber`: positions in a text fit in the 32-bit integers that the source uses for them.
- `Float64.RoundToD`: where no bit of a number is left, the source shifts a zero by 64 bits or more, which C leaves
  undefined and the model takes to be zero.
- `TextRoundTrip.PrintAndRead`: the word printed for no number is itself a numeral in a radix above 23.

Other parts of the repository:

- The native compiler of PTJS, the code point sets and the sort are not part of this model.
- The bytecode interpreter, the standard library and the command line tools are not part of this model.
