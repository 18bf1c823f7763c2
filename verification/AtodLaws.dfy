// What texts of numbers stand for: a sign, a prefix, digits with a dot, and an exponent. The texts are put together
// from these parts, and prefixes and markers are written out here once more, apart from the code that reads them.
module AtodLaws {
  import Arith
  import opened RealPowers
  import opened RadixPower
  import opened Doubles
  import opened Digits
  import opened AtodTables
  import opened Numerals
  import opened AtodRounding
  import opened Atod
  import opened AtodLimits
  import opened AtodText

  // ---- Digits and dot ----

  // A run of digits.
  lemma {:induction false} ScanRun(s: string, p: nat, start: nat, radix: nat, dot: bool, t: string)
    requires radix <= RADIX_MAX && p + |t| <= |s| && s[p..p + |t|] == t && AllDigits(t, radix)
    ensures Scan(s, p, start, radix, dot) == Join(t, if dot then |t| else 0, Scan(s, p + |t|, start, radix, dot))
    decreases |t|
  {
    if t == "" {
      var r := Scan(s, p, start, radix, dot);
      assert "" + r.digits == r.digits;
    } else {
      assert s[p] == t[0] && s[p + 1..p + 1 + |t[1..]|] == t[1..];
      ScanRun(s, p + 1, start, radix, dot, t[1..]);
      var r := Scan(s, p + |t|, start, radix, dot);
      assert [t[0]] + (t[1..] + r.digits) == t + r.digits by {
        assert t == [t[0]] + t[1..];
      }
    }
  }

  // Digits, perhaps a dot and more digits, and then something else.
  datatype Layout = Layout(front: string, dotted: bool, back: string, tail: string) {
    function Text(): string {
      front + (if dotted then "." + back else "") + tail
    }

    predicate Valid(radix: nat) {
      && (front != "" || back != "") && AllDigits(front, radix) && AllDigits(back, radix) && (!dotted ==> back == "")
      && EndsDigits(tail, radix)
    }
  }

  predicate EndsDigits(tail: string, radix: nat) {
    tail == "" || (tail[0] != '.' && !IsDigit(tail[0], radix))
  }

  lemma ScanLayout(s: string, p: nat, start: nat, radix: nat, x: Layout)
    requires 2 <= radix <= RADIX_MAX && start <= p <= |s| && s[p..] == x.Text() && x.Valid(radix)
    ensures Scan(s, p, start, radix, false) == Scanned(x.front + x.back, |x.back|, |s| - |x.tail|)
  {
    if x.dotted {
      DottedParts(s, p, x.front, x.back, x.tail);
      ScanDotted(s, p, start, radix, x.front, x.back, x.tail, p + |x.front|, |s| - |x.tail|);
    } else {
      PlainParts(s, p, x.front, x.tail);
      ScanPlain(s, p, start, radix, x.front, x.tail, |s| - |x.tail|);
      assert x.front + x.back == x.front;
    }
  }

  lemma PlainParts(s: string, p: nat, front: string, tail: string)
    requires p <= |s| && s[p..] == front + "" + tail
    ensures |front| + |tail| == |s| - p && s[p..p + |front|] == front && s[|s| - |tail|..] == tail
  {
    var t := s[p..];
    assert s[p..p + |front|] == t[..|front|] && s[|s| - |tail|..] == t[|front|..];
  }

  lemma DottedParts(s: string, p: nat, front: string, back: string, tail: string)
    requires p <= |s| && s[p..] == front + ("." + back) + tail
    ensures |front| + 1 + |back| + |tail| == |s| - p && s[p..p + |front|] == front && s[p + |front|] == '.'
    ensures s[p + |front| + 1..|s| - |tail|] == back && s[|s| - |tail|..] == tail
  {
    var t := s[p..];
    assert s[p..p + |front|] == t[..|front|] && s[p + |front|] == t[|front|];
    assert s[p + |front| + 1..|s| - |tail|] == t[|front| + 1..|front| + 1 + |back|];
    assert s[|s| - |tail|..] == t[|front| + 1 + |back|..];
  }

  lemma ScanPlain(s: string, p: nat, start: nat, radix: nat, front: string, tail: string, q: nat)
    requires 2 <= radix <= RADIX_MAX && q == p + |front| <= |s| && s[p..q] == front && s[q..] == tail
    requires AllDigits(front, radix) && EndsDigits(tail, radix)
    ensures Scan(s, p, start, radix, false) == Scanned(front, 0, q)
  {
    ScanRun(s, p, start, radix, false, front);
    ScanEnd(s, q, start, radix, false, tail);
    assert front + "" == front;
  }

  lemma ScanDotted(s: string, p: nat, start: nat, radix: nat, front: string, back: string, tail: string, d: nat, q: nat)
    requires 2 <= radix <= RADIX_MAX && start <= p && d == p + |front| && q == d + 1 + |back| <= |s|
    requires (front != "" || back != "") && s[p..d] == front && s[d] == '.' && s[d + 1..q] == back && s[q..] == tail
    requires AllDigits(front, radix) && AllDigits(back, radix) && EndsDigits(tail, radix)
    ensures Scan(s, p, start, radix, false) == Scanned(front + back, |back|, q)
  {
    ScanRun(s, p, start, radix, false, front);
    DotCounts(s, d, start, radix, back, q);
    ScanRun(s, d + 1, start, radix, true, back);
    ScanEnd(s, q, start, radix, true, tail);
    assert back + "" == back;
  }

  lemma DotCounts(s: string, d: nat, start: nat, radix: nat, back: string, q: nat)
    requires start <= d && q == d + 1 + |back| <= |s| && s[d] == '.' && s[d + 1..q] == back && AllDigits(back, radix)
    requires d > start || back != ""
    ensures IsDot(s, d, start, radix)
  {
    if back != "" {
      assert s[d + 1] == back[0];
    }
  }

  lemma ScanEnd(s: string, q: nat, start: nat, radix: nat, dot: bool, tail: string)
    requires q <= |s| && s[q..] == tail && EndsDigits(tail, radix)
    ensures Scan(s, q, start, radix, dot) == Scanned("", 0, q)
  {
    if tail != "" {
      assert s[q] == tail[0];
    }
  }

  // ---- Exponents ----

  // The letters and signs in front of an exponent, in small and capital letters.
  predicate IsMarker(c: char, radix: nat) {
    if radix == 10 then c == 'e' || c == 'E' else c == '@' || (radix in {2, 4, 8, 16} && (c == 'p' || c == 'P'))
  }

  predicate IsSignText(sign: string) {
    sign == "" || sign == "+" || sign == "-"
  }

  lemma {:induction false} DecimalRun(s: string, p: nat, t: string)
    requires p <= |s| && s[p..] == t && AllDigits(t, 10)
    ensures Decimals(s, p) == t
    decreases |t|
  {
    if t != "" {
      assert s[p] == t[0] && s[p + 1..] == t[1..];
      DecimalRun(s, p + 1, t[1..]);
      assert t == [t[0]] + t[1..];
    }
  }

  // What is behind the digits: nothing, or an exponent.
  datatype Power = NoPower | Power(marker: char, sign: string, digits: string) {
    function Text(): string {
      if NoPower? then "" else [marker] + sign + digits
    }

    predicate Valid(radix: nat) {
      NoPower? || (IsMarker(marker, radix) && IsSignText(sign) && digits != "" && AllDigits(digits, 10))
    }

    function Value(): int {
      if NoPower? then 0
      else
        var n: int := NumberOf(digits, 10);
        if sign == "-" then -n else n
    }

    // The exponent is one of two.
    predicate Binary() {
      Power? && (marker == 'p' || marker == 'P')
    }
  }

  lemma MarkerEnds(c: char, radix: nat)
    requires 2 <= radix <= RADIX_MAX && IsMarker(c, radix)
    ensures !IsDigit(c, radix) && c != '.'
  {
  }

  lemma MarkerIs(s: string, p: nat, start: nat, radix: nat)
    requires 2 <= radix <= RADIX_MAX
    ensures HasExponent(s, p, start, radix) <==> p > start && IsMarker(At(s, p), radix)
  {
  }

  lemma TailIs(s: string, p: nat, x: Layout, q: int)
    requires p <= |s| && s[p..] == x.Text() && q == |s| - |x.tail|
    ensures p <= q && s[q..] == x.tail
  {
    var t := s[p..];
    assert t[|t| - |x.tail|..] == x.tail;
    assert s[q..] == t[|t| - |x.tail|..];
  }

  // The numeral for digits and an exponent.
  lemma ParseLayout(s: string, p: nat, start: nat, radix: nat, x: Layout, e: Power)
    requires 2 <= radix <= RADIX_MAX && start <= p <= |s| && s[p..] == x.Text() && x.Valid(radix) && e.Valid(radix)
    requires x.tail == e.Text()
    ensures Parse(s, p, start, radix) == Numeral(x.front + x.back, |x.back|, e.Value(), e.Binary())
  {
    ScanLayout(s, p, start, radix, x);
    var q := |s| - |x.tail|;
    TailIs(s, p, x, q);
    ParsePower(s, q, start, radix, Scanned(x.front + x.back, |x.back|, q), e);
  }

  lemma ParsePower(s: string, q: nat, start: nat, radix: nat, r: Scanned, e: Power)
    requires 2 <= radix <= RADIX_MAX && start < q <= |s| && r.end == q && e.Valid(radix) && s[q..] == e.Text()
    ensures WithExponent(s, r, start, radix) == Numeral(r.digits, r.fraction, e.Value(), e.Binary())
  {
    MarkerIs(s, q, start, radix);
    if e.Power? {
      ScanPower(s, q, e);
    }
  }

  lemma ScanPower(s: string, q: nat, e: Power)
    requires q <= |s| && e.Power? && IsSignText(e.sign) && e.digits != "" && AllDigits(e.digits, 10)
    requires s[q..] == e.Text()
    ensures At(s, q) == e.marker && ScanExponent(s, q + 1) == Exponent(e.sign == "-", e.digits)
  {
    PowerParts(s, q, e);
    DecimalRun(s, q + 1 + |e.sign|, e.digits);
  }

  lemma PowerParts(s: string, q: nat, e: Power)
    requires q <= |s| && e.Power? && IsSignText(e.sign) && e.digits != "" && AllDigits(e.digits, 10)
    requires s[q..] == e.Text()
    ensures q + 1 + |e.sign| <= |s| && s[q] == e.marker && s[q + 1 + |e.sign|..] == e.digits
    ensures (At(s, q + 1) == '-' <==> e.sign == "-") && (IsSign(At(s, q + 1)) <==> e.sign != "")
  {
    var t := s[q..];
    assert s[q] == t[0] && s[q + 1] == t[1] && s[q + 1 + |e.sign|..] == t[1 + |e.sign|..];
    if e.sign == "" {
      assert t[1] == e.digits[0];
    }
  }

  // A marker without digits behind it makes no number.
  lemma ParseMarkerAlone(s: string, p: nat, start: nat, radix: nat, x: Layout, c: char, sign: string, rest: string)
    requires 2 <= radix <= RADIX_MAX && start <= p <= |s| && s[p..] == x.Text() && x.Valid(radix)
    requires IsMarker(c, radix) && IsSignText(sign) && x.tail == [c] + (sign + rest)
    requires rest == "" || (!IsDigit(rest[0], 10) && (sign == "" ==> !IsSign(rest[0])))
    ensures Parse(s, p, start, radix) == NoNumeral
  {
    ScanLayout(s, p, start, radix, x);
    var q := |s| - |x.tail|;
    TailIs(s, p, x, q);
    MarkerIs(s, q, start, radix);
    NoDecimals(s, q, c, sign, rest);
  }

  lemma NoDecimals(s: string, q: nat, c: char, sign: string, rest: string)
    requires q <= |s| && s[q..] == [c] + (sign + rest) && IsSignText(sign)
    requires rest == "" || (!IsDigit(rest[0], 10) && (sign == "" ==> !IsSign(rest[0])))
    ensures At(s, q) == c && ScanExponent(s, q + 1).digits == ""
  {
    var t := s[q..];
    assert s[q] == t[0] && (sign != "" ==> At(s, q + 1) == t[1]);
    assert rest != "" ==> At(s, q + 1 + |sign|) == t[1 + |sign|] == rest[0];
  }

  // Other characters end the number.
  lemma ParseEnds(s: string, p: nat, start: nat, radix: nat, x: Layout)
    requires 2 <= radix <= RADIX_MAX && start <= p <= |s| && s[p..] == x.Text() && x.Valid(radix)
    requires x.tail == "" || !IsMarker(x.tail[0], radix)
    ensures Parse(s, p, start, radix) == Numeral(x.front + x.back, |x.back|, 0, false)
  {
    ScanLayout(s, p, start, radix, x);
    var q := |s| - |x.tail|;
    assert x.tail != "" ==> s[q] == s[p..][q - p] == x.tail[0];
    MarkerIs(s, q, start, radix);
  }

  // ---- Prefixes ----

  // Which prefix stands for which radix. A radix of 0 leaves it to the prefix.
  predicate Prefixed(pre: string, base: nat, radix: nat, flags: Flags) {
    || ((pre == "0x" || pre == "0X") && base == 16 && (radix == 0 || radix == 16))
    || ((pre == "0o" || pre == "0O") && base == 8 && radix == 0 && flags.binOct)
    || ((pre == "0b" || pre == "0B") && base == 2 && radix == 0 && flags.binOct)
    || (pre == "0" && base == 8 && radix == 0 && flags.legacyOctal)
    || (pre == "" && base == (if radix == 0 then 10 else radix) && 2 <= base <= 36)
  }

  // Without a prefix: octal digits behind a zero, where those are allowed, and the word for infinity in radixes that
  // have its letters.
  predicate ReadsOtherwise(x: Layout, radix: nat, flags: Flags) {
    || (radix == 0 && flags.legacyOctal && |x.front| > 1 && x.front[0] == '0' && AllDigits(x.front[1..], 8))
    || (|x.Text()| >= 8 && x.Text()[..8] == "Infinity")
  }

  // A number that is put together from its parts.
  predicate IsNumberText(pre: string, x: Layout, e: Power, base: nat, radix: nat, flags: Flags) {
    && Prefixed(pre, base, radix, flags) && x.Valid(base) && e.Valid(base) && x.tail == e.Text()
    && if pre == "" then !ReadsOtherwise(x, radix, flags) else x.front != ""
  }

  // Octal digits and what ends them.
  lemma {:induction false} OctalRun(s: string, p: nat, t: string)
    requires p + |t| <= |s| && s[p..p + |t|] == t && AllDigits(t, 8) && !IsDigit(At(s, p + |t|), 8)
    ensures OctalEnd(s, p) == p + |t|
    decreases |t|
  {
    if t != "" {
      assert s[p] == t[0] && s[p + 1..p + 1 + |t[1..]|] == t[1..];
      OctalRun(s, p + 1, t[1..]);
    }
  }

  // Decimal digits that are not all octal.
  lemma {:induction false} OctalStops(s: string, p: nat, t: string)
    requires p + |t| <= |s| && s[p..p + |t|] == t && AllDigits(t, 10) && !AllDigits(t, 8)
    ensures At(s, OctalEnd(s, p)) == '8' || At(s, OctalEnd(s, p)) == '9'
    decreases |t|
  {
    assert s[p] == t[0] && s[p + 1..p + 1 + |t[1..]|] == t[1..];
    if IsDigit(t[0], 8) {
      assert t == [t[0]] + t[1..];
      OctalStops(s, p + 1, t[1..]);
    }
  }

  // The characters of a text from start on.
  lemma CharsBehind(s: string, start: nat, t: string)
    requires start <= |s| && s[start..] == t
    ensures forall i :: 0 <= i < |t| ==> At(s, start + i) == t[i]
    ensures At(s, start + |t|) == '\0'
  {
    forall i | 0 <= i < |t|
      ensures At(s, start + i) == t[i]
    {
      assert s[start..][i] == s[start + i];
    }
  }

  lemma LetterPrefix(s: string, start: nat, pre: string, t: string, base: nat, radix: nat, flags: Flags)
    requires start <= |s| && s[start..] == pre + t && Prefixed(pre, base, radix, flags) && |pre| == 2
    requires radix == 0 || 2 <= radix <= RADIX_MAX
    ensures PrefixOf(s, start, radix, flags) == (2, base)
    ensures At(s, start + 2) == if t == "" then '\0' else t[0]
  {
    CharsBehind(s, start, pre + t);
    assert At(s, start + 0) == pre[0] && At(s, start + 1) == pre[1];
    if t != "" {
      assert At(s, start + 2) == (pre + t)[2] == t[0];
    }
  }

  lemma ZeroPrefix(s: string, start: nat, x: Layout, e: Power, base: nat, radix: nat, flags: Flags)
    requires start <= |s| && s[start..] == "0" + x.Text() && IsNumberText("0", x, e, base, radix, flags)
    ensures PrefixOf(s, start, radix, flags) == (1, base)
  {
    CharsBehind(s, start, "0" + x.Text());
    assert At(s, start + 0) == '0' && At(s, start + 1) == x.Text()[0] == x.front[0];
    FrontEnds(x, e, 8);
    AfterFront(s, start + 1, x);
    OctalRun(s, start + 1, x.front);
  }

  // What comes after the digits in front is no digit.
  lemma FrontEnds(x: Layout, e: Power, base: nat)
    requires 2 <= base <= RADIX_MAX && x.Valid(base) && e.Valid(base) && x.tail == e.Text()
    ensures |x.Text()| > |x.front| ==>
              var c := x.Text()[|x.front|]; !IsDigit(c, base) && (c == '.' || IsMarker(c, base))
  {
  }

  lemma AfterFront(s: string, p: nat, x: Layout)
    requires p <= |s| && s[p..] == x.Text()
    ensures p + |x.front| <= |s| && s[p..p + |x.front|] == x.front
    ensures At(s, p + |x.front|) == if |x.Text()| > |x.front| then x.Text()[|x.front|] else '\0'
  {
    assert s[p..p + |x.front|] == s[p..][..|x.front|];
    CharsBehind(s, p, x.Text());
  }

  // What may be behind a leading zero.
  lemma AfterZero(s: string, start: nat, x: Layout, e: Power, base: nat)
    requires start <= |s| && s[start..] == x.Text() && 2 <= base <= RADIX_MAX && x.Valid(base) && e.Valid(base)
    requires x.tail == e.Text() && At(s, start) == '0'
    ensures x.front != "" && x.front[0] == '0'
    ensures var c := At(s, start + 1);
      if |x.front| > 1 then c == x.front[1] && IsDigit(c, base) else c == '.' || c == '\0' || IsMarker(c, base)
  {
    FrontEnds(x, e, base);
    AfterFront(s, start, x);
    CharsBehind(s, start, x.Text());
    assert x.Text() != "" && At(s, start + 0) == x.Text()[0];
    if |x.front| > 1 {
      assert At(s, start + 1) == x.Text()[1] == x.front[1];
    }
  }

  lemma NotOctal(s: string, start: nat, x: Layout)
    requires start <= |s| && s[start..] == x.Text() && AllDigits(x.front, 10)
    requires |x.front| > 1 ==> !AllDigits(x.front[1..], 8)
    requires '0' <= At(s, start + 1) <= '9' ==> |x.front| > 1
    ensures !IsLegacyOctal(s, start)
  {
    if |x.front| > 1 {
      AfterFront(s, start, x);
      assert s[start + 1..start + 1 + |x.front[1..]|] == x.front[1..];
      OctalStops(s, start + 1, x.front[1..]);
    }
  }

  lemma NoPrefix(s: string, start: nat, x: Layout, e: Power, base: nat, radix: nat, flags: Flags)
    requires start <= |s| && s[start..] == x.Text() && IsNumberText("", x, e, base, radix, flags)
    ensures PrefixOf(s, start, radix, flags) == (0, base)
  {
    if At(s, start) == '0' {
      AfterZero(s, start, x, e, base);
      if radix == 0 && flags.legacyOctal {
        NotOctal(s, start, x);
      }
    }
  }

  lemma PrefixIs(s: string, start: nat, pre: string, x: Layout, e: Power, base: nat, radix: nat, flags: Flags)
    requires start <= |s| && s[start..] == pre + x.Text() && IsNumberText(pre, x, e, base, radix, flags)
    ensures PrefixOf(s, start, radix, flags) == (|pre|, base)
  {
    if pre == "" {
      assert pre + x.Text() == x.Text();
      NoPrefix(s, start, x, e, base, radix, flags);
    } else if pre == "0" {
      ZeroPrefix(s, start, x, e, base, radix, flags);
    } else {
      LetterPrefix(s, start, pre, x.Text(), base, radix, flags);
    }
  }

  // ---- Whole texts ----

  lemma NoInfinity(s: string, start: nat, x: Layout)
    requires start <= |s| && s[start..] == x.Text() && !(|x.Text()| >= 8 && x.Text()[..8] == "Infinity")
    ensures !HasInfinity(s, start)
  {
    if start + 8 <= |s| {
      assert s[start..start + 8] == s[start..][..8];
    }
  }

  lemma Dropped(s: string, start: nat, pre: string, t: string)
    requires start <= |s| && s[start..] == pre + t
    ensures start + |pre| <= |s| && s[start + |pre|..] == t
  {
    assert s[start + |pre|..] == s[start..][|pre|..];
  }

  // Behind the sign.
  lemma NumberBehind(s: string, start: nat, pre: string, x: Layout, e: Power, base: nat, radix: nat, flags: Flags,
                     r: Result)
    requires start <= |s| && s[start..] == pre + x.Text() && IsNumberText(pre, x, e, base, radix, flags)
    requires ReadBehind(s, start, |pre|, base, r)
    ensures IsResult(Numeral(x.front + x.back, |x.back|, e.Value(), e.Binary()), base, r)
  {
    var p := start + |pre|;
    Dropped(s, start, pre, x.Text());
    if pre == "" {
      NoInfinity(s, start, x);
    } else {
      AfterFront(s, p, x);
      assert At(s, p) == x.front[0];
    }
    BehindIs(s, start, |pre|, p, base, r);
    ParseLayout(s, p, start, base, x, e);
  }

  lemma BehindIs(s: string, start: nat, skip: nat, p: nat, base: nat, r: Result)
    requires 2 <= base <= RADIX_MAX && ReadBehind(s, start, skip, base, r) && p == start + skip
    requires if skip > 0 then IsDigit(At(s, p), base) else !HasInfinity(s, start)
    ensures IsResult(Parse(s, p, start, base), base, r)
  {
  }

  // The sign is not looked at again.
  lemma SignIs(s: string, sign: string, u: string)
    requires IsSignText(sign) && s == sign + u && u != "" && !IsSign(u[0])
    ensures SignEnd(s) == |sign| && s[|sign|..] == u && (At(s, 0) == '-' <==> sign == "-")
  {
  }

  lemma NumberBegins(pre: string, x: Layout, e: Power, base: nat, radix: nat, flags: Flags)
    requires IsNumberText(pre, x, e, base, radix, flags)
    ensures pre + x.Text() != "" && !IsSign((pre + x.Text())[0])
  {
    var t := x.Text();
    if pre == "" {
      assert pre + t == t;
      if x.front != "" {
        assert t[0] == x.front[0];
      }
    }
  }

  // A sign, a prefix, digits with a dot and an exponent are read as the numeral of those digits and that exponent, in
  // the radix that the prefix stands for.
  lemma TextIs(s: string, sign: string, pre: string, x: Layout, e: Power, base: nat, radix: nat, flags: Flags,
               r: Result)
    requires IsSignText(sign) && s == sign + (pre + x.Text()) && IsNumberText(pre, x, e, base, radix, flags)
    requires (radix == 0 || 2 <= radix <= RADIX_MAX) && ReadTo(s, radix, flags, r)
    ensures IsResult(Numeral(x.front + x.back, |x.back|, e.Value(), e.Binary()), base, r)
    ensures At(s, 0) == '-' <==> sign == "-"
  {
    NumberBegins(pre, x, e, base, radix, flags);
    SignIs(s, sign, pre + x.Text());
    PrefixIs(s, |sign|, pre, x, e, base, radix, flags);
    NumberBehind(s, |sign|, pre, x, e, base, radix, flags, r);
  }

  // The word for infinity, whatever follows it.
  lemma InfinityIs(s: string, sign: string, rest: string, radix: nat, flags: Flags, r: Result)
    requires IsSignText(sign) && s == sign + ("Infinity" + rest) && (radix == 0 || 2 <= radix <= RADIX_MAX)
    requires ReadTo(s, radix, flags, r)
    ensures r == Bits(INFINITY) && (At(s, 0) == '-' <==> sign == "-")
  {
    SignIs(s, sign, "Infinity" + rest);
    var start := |sign|;
    CharsBehind(s, start, "Infinity" + rest);
    assert At(s, start + 0) == 'I';
    assert s[start..start + 8] == s[start..][..8];
  }

  // A prefix of two characters without a digit behind it.
  lemma PrefixAlone(s: string, sign: string, pre: string, rest: string, base: nat, radix: nat, flags: Flags, r: Result)
    requires IsSignText(sign) && s == sign + (pre + rest) && (radix == 0 || 2 <= radix <= RADIX_MAX)
    requires Prefixed(pre, base, radix, flags) && |pre| == 2 && (rest == "" || !IsDigit(rest[0], base))
    requires ReadTo(s, radix, flags, r)
    ensures r == NotANumber
  {
    SignIs(s, sign, pre + rest);
    LetterPrefix(s, |sign|, pre, rest, base, radix, flags);
  }

  // ---- Integers ----

  // An integer in the radix of its prefix, or in decimal without one, is read as the nearest double to the number of
  // its digits. In radixes that are no power of two only so many of them are taken.
  lemma IntegerIs(s: string, sign: string, pre: string, t: string, base: nat, radix: nat, flags: Flags, r: Result)
    requires IsSignText(sign) && s == sign + (pre + t) && (radix == 0 || 2 <= radix <= RADIX_MAX)
    requires Prefixed(pre, base, radix, flags) && t != "" && AllDigits(t, base) && |t| < LONG
    requires pre == "" && |t| >= 8 ==> t[..8] != "Infinity"
    requires pre == "" && radix == 0 && flags.legacyOctal && |t| > 1 && t[0] == '0' ==> !AllDigits(t[1..], 8)
    requires ReadTo(s, radix, flags, r)
    ensures r.Bits? && IsNearest(KeptNumber(t, base) as real, r.a)
    ensures base in {2, 4, 8, 16, 32} || |Significant(t)| <= AtodMaxDigits(base)
            ==> KeptNumber(t, base) == NumberOf(t, base)
    ensures At(s, 0) == '-' <==> sign == "-"
  {
    var x := Layout(t, false, "", "");
    assert x.Text() == t && t + "" == t;
    TextIs(s, sign, pre, x, NoPower, base, radix, flags, r);
    WholeInRange(t, base);
    KeptIsAll(t, base);
  }

  lemma WholeInRange(t: string, base: nat)
    requires 2 <= base <= RADIX_MAX && AllDigits(t, base) && |t| < LONG
    ensures var x := Numeral(t, 0, 0, false); InRange(x, base) && Value(x, base) == KeptNumber(t, base) as real
  {
    SignificantNumber(t, base);
    SizeFits(|Significant(t)|, base);
    assert RP(base, 0) == 1.0;
  }

  lemma SizeFits(n: nat, base: nat)
    requires 2 <= base <= RADIX_MAX && n < LONG
    ensures var size := TopExponent(n, 0, 0, false, base); Int32(size) == size
  {
    if PowerOfTwo(base) {
      Arith.MulLe(n, LONG, RadixBits(base), 5);
    }
    Int32Same(TopExponent(n, 0, 0, false, base));
  }
}
