// Reading a number from the start of its text: sign, prefix, the word for infinity, and the number.
module AtodText {
  import opened RadixPower
  import opened Doubles
  import opened Digits
  import opened Numerals
  import opened AtodRounding
  import opened Atod

  // What a caller allows besides: binary and octal prefixes, and octal numbers with a leading zero.
  datatype Flags = Flags(binOct: bool, legacyOctal: bool)

  predicate HasInfinity(s: string, start: nat) {
    At(s, start) != '0' && start + 8 <= |s| && s[start..start + 8] == "Infinity"
  }

  function SignEnd(s: string): nat {
    if IsSign(At(s, 0)) then 1 else 0
  }

  function OctalEnd(s: string, i: nat): nat
    decreases |s| - i
  {
    if '0' <= At(s, i) <= '7' then OctalEnd(s, i + 1) else i
  }

  // Digits that are all octal.
  predicate IsLegacyOctal(s: string, start: nat) {
    var end := At(s, OctalEnd(s, start + 1));
    '0' <= At(s, start + 1) <= '9' && end != '8' && end != '9'
  }

  // The length of the prefix, and the radix of the digits. A radix of 0 leaves it to the prefix.
  function PrefixOf(s: string, start: nat, radix: nat, flags: Flags): (r: (nat, nat))
    requires radix == 0 || 2 <= radix <= RADIX_MAX
    ensures 2 <= r.1 <= RADIX_MAX
  {
    var c := At(s, start + 1);
    var plain := (0, if radix == 0 then 10 else radix);
    if At(s, start) != '0' then plain
    else if (c == 'x' || c == 'X') && (radix == 0 || radix == 16) then (2, 16)
    else if radix != 0 then plain
    else if (c == 'o' || c == 'O') && flags.binOct then (2, 8)
    else if (c == 'b' || c == 'B') && flags.binOct then (2, 2)
    else if flags.legacyOctal && IsLegacyOctal(s, start) then (1, 8)
    else plain
  }

  // What a text is read as, behind its sign and with a prefix of so many characters.
  ghost predicate ReadBehind(s: string, start: nat, skip: nat, base: nat, r: Result)
    requires 2 <= base <= RADIX_MAX
  {
    ReadFrom(Parse(s, start + skip, start, base), skip > 0 && !IsDigit(At(s, start + skip), base),
             skip == 0 && HasInfinity(s, start), base, r)
  }

  // Without a digit behind the prefix there is no number.
  ghost predicate ReadFrom(x: Numeral, none: bool, infinite: bool, base: nat, r: Result)
    requires 2 <= base <= RADIX_MAX
  {
    if none then r == NotANumber else if infinite then r == Bits(INFINITY) else IsResult(x, base, r)
  }

  ghost predicate ReadTo(s: string, radix: nat, flags: Flags, r: Result)
    requires radix == 0 || 2 <= radix <= RADIX_MAX
  {
    var (skip, base) := PrefixOf(s, SignEnd(s), radix, flags);
    ReadBehind(s, SignEnd(s), skip, base, r)
  }

  // Reads behind the zero at start.
  method SkipPrefix(s: string, start: nat, radix: nat, flags: Flags) returns (skip: nat, base: nat)
    requires (radix == 0 || 2 <= radix <= RADIX_MAX) && At(s, start) == '0'
    ensures (skip, base) == PrefixOf(s, start, radix, flags)
  {
    var c := At(s, start + 1);
    skip, base := 0, if radix == 0 then 10 else radix;
    if (c == 'x' || c == 'X') && (radix == 0 || radix == 16) {
      skip, base := 2, 16;
    } else if (c == 'o' || c == 'O') && radix == 0 && flags.binOct {
      skip, base := 2, 8;
    } else if (c == 'b' || c == 'B') && radix == 0 && flags.binOct {
      skip, base := 2, 2;
    } else if '0' <= c <= '9' && radix == 0 && flags.legacyOctal {
      var i := start + 1;
      while '0' <= At(s, i) <= '7'
        invariant OctalEnd(s, i) == OctalEnd(s, start + 1)
        decreases |s| - i
      {
        i := i + 1;
      }
      if At(s, i) != '8' && At(s, i) != '9' {
        skip, base := 1, 8;
      }
    }
  }

  // From the prefix on.
  method ReadText(s: string, start: nat, radix: nat, flags: Flags) returns (r: Result)
    requires (radix == 0 || 2 <= radix <= RADIX_MAX) && start <= |s| <= INT32_MAX
    ensures ReadBehind(s, start, PrefixOf(s, start, radix, flags).0, PrefixOf(s, start, radix, flags).1, r)
  {
    var skip: nat, base: nat := 0, if radix == 0 then 10 else radix;
    if At(s, start) == '0' {
      skip, base := SkipPrefix(s, start, radix, flags);
      if skip > 0 && !IsDigit(At(s, start + skip), base) {
        return NotANumber;
      }
    } else if start + 8 <= |s| && s[start..start + 8] == "Infinity" {
      return Bits(INFINITY);
    }
    r := ReadNumber(s, start + skip, start, base);
  }

  method JsAtod(s: string, radix: nat, flags: Flags) returns (negative: bool, r: Result)
    requires (radix == 0 || 2 <= radix <= RADIX_MAX) && |s| <= INT32_MAX
    ensures negative == (At(s, 0) == '-') && ReadTo(s, radix, flags, r)
  {
    var p := 0;
    negative := false;
    if At(s, p) == '+' {
      p := p + 1;
    } else if At(s, p) == '-' {
      negative := true;
      p := p + 1;
    }
    r := ReadText(s, p, radix, flags);
  }
}
