// The text of a double in free format: digits with a dot, with zeros around them, or with an exponent.
module DtoaText {
  import opened Arith
  import opened Powers
  import opened Bignum
  import opened RadixPower
  import opened DigitBounds
  import opened Digits

  datatype ExponentMode = Auto | Enabled | Disabled

  // ---- What is written ----

  // A numeral without zeros in front.
  predicate IsShortNumeral(s: string, n: nat, radix: nat) {
    IsNumeral(s, n, radix) && s != "" && (s[0] != '0' || |s| == 1)
  }

  lemma ShortOfOne(s: string, n: nat, radix: nat)
    requires IsShortNumeral(s, n, radix) && n > 0
    ensures s[0] != '0'
  {
    if |s| == 1 {
      NumberOne(s[0], radix);
    }
  }

  function WithDot(ds: string, dot: nat): string
    requires dot <= |ds|
  {
    if dot == |ds| then ds else ds[..dot] + "." + ds[dot..]
  }

  function Marker(radix: nat): char {
    if radix == 10 then 'e' else if PowerOfTwo(radix) && RadixBits(radix) <= 4 then 'p' else '@'
  }

  // The exponent that is written, which counts bits where the marker is that of a binary one.
  function ShownExponent(radix: nat, ex: int): int {
    if Marker(radix) == 'p' && PowerOfTwo(radix) then (ex - 1) * RadixBits(radix) else ex - 1
  }

  predicate Scientific(mode: ExponentMode, ex: int, radix: nat)
    requires 2 <= radix <= RADIX_MAX
  {
    mode == Enabled || (mode == Auto && (ex <= -6 || ex > MaxDigits(radix) + 4))
  }

  // es are the digits of the exponent.
  function FreeText(ds: string, ex: int, radix: nat, scientific: bool, es: string): string
    requires ds != ""
  {
    if scientific then WithDot(ds, 1) + [Marker(radix), if ShownExponent(radix, ex) < 0 then '-' else '+'] + es
    else if ex <= 0 then "0." + ZeroDigits(-ex) + ds
    else WithDot(ds, if |ds| < ex then |ds| else ex) + ZeroDigits(if ex > |ds| then ex - |ds| else 0)
  }

  // ---- Writing ----

  method PutChar(buf: array<char>, q: nat, c: char)
    requires q < buf.Length
    modifies buf
    ensures buf[..q + 1] == old(buf[..q]) + [c]
  {
    buf[q] := c;
  }

  method PutZeros(buf: array<char>, q: nat, n: nat)
    requires q + n <= buf.Length
    modifies buf
    ensures buf[..q + n] == old(buf[..q]) + ZeroDigits(n)
  {
    ghost var was := buf[..q];
    var i := 0;
    assert was + ZeroDigits(0) == was;
    while i < n
      invariant 0 <= i <= n && buf[..q + i] == was + ZeroDigits(i)
    {
      buf[q + i] := '0';
      assert buf[..q + i + 1] == buf[..q + i] + ['0'];
      assert ZeroDigits(i + 1) == ZeroDigits(i) + ['0'];
      i := i + 1;
    }
  }

  // Room for one character at q.
  method MoveUp(buf: array<char>, q: nat, n: nat)
    requires q + n < buf.Length
    modifies buf
    ensures buf[..q] == old(buf[..q]) && buf[q + 1..q + n + 1] == old(buf[q..q + n])
  {
    var i := n;
    while i > 0
      invariant 0 <= i <= n
      invariant forall k :: 0 <= k < q + i ==> buf[k] == old(buf[k])
      invariant forall k :: q + i < k <= q + n ==> buf[k] == old(buf[k - 1])
    {
      i := i - 1;
      buf[q + i + 1] := buf[q + i];
    }
  }

  // The total lowest digits of r with a dot in front of the digit at dot.
  method PutDotted(buf: array<char>, q: nat, r: Mpb, radix: nat, total: nat, dot: nat)
    returns (q': nat, ghost ds: string)
    requires 2 <= radix <= RADIX_MAX && r.Valid() && 0 < total && dot <= total
    requires q + total + (if dot < total then 1 else 0) <= buf.Length
    modifies buf, r`len, r.tab
    ensures |ds| == total && IsNumeral(ds, LowDigits(old(r.Value()), radix, total), radix)
    ensures q <= q' <= q + total + 1 && q' <= buf.Length && buf[..q'] == old(buf[..q]) + WithDot(ds, dot)
  {
    ghost var was := buf[..q];
    OutputDigits(buf, q, r, radix, total);
    ds := buf[q..q + total];
    assert buf[..q + total] == was + ds by {
      assert buf[..][..q] == was && buf[..][q..q + total] == ds;
    }
    q' := q + total;
    if dot != total {
      InsertDot(buf, q, dot, total, was, ds);
      q' := q' + 1;
    }
  }

  method InsertDot(buf: array<char>, q: nat, dot: nat, total: nat, ghost was: string, ghost ds: string)
    requires dot < total == |ds| && q + total < buf.Length && q == |was| && buf[..q + total] == was + ds
    modifies buf
    ensures buf[..q + total + 1] == was + WithDot(ds, dot)
  {
    assert buf[..q + dot] == was + ds[..dot] by {
      assert buf[..q + dot] == (was + ds)[..q + dot];
    }
    assert buf[q + dot..q + total] == ds[dot..] by {
      assert buf[q + dot..q + total] == (was + ds)[q + dot..];
    }
    MoveUp(buf, q + dot, total - dot);
    buf[q + dot] := '.';
    DotInserted(buf[..q + total + 1], was, ds, q + dot, dot);
  }

  lemma DotInserted(now: string, was: string, ds: string, i: nat, dot: nat)
    requires dot < |ds| && i == |was| + dot && |now| == |was| + |ds| + 1
    requires now[..i] == was + ds[..dot] && now[i] == '.' && now[i + 1..] == ds[dot..]
    ensures now == was + WithDot(ds, dot)
  {
    assert now == now[..i] + [now[i]] + now[i + 1..];
  }

  // The digits of n, at most k of them: first from the end of an array of max characters, then copied.
  method PutNumber(buf: array<char>, q: nat, n0: nat, radix: nat, max: nat, ghost k: nat)
    returns (q': nat, ghost ds: string)
    requires 2 <= radix <= RADIX_MAX && 0 < k <= max && q + k <= buf.Length && n0 < Pow(radix, k)
    modifies buf
    ensures q < q' <= q + k && IsShortNumeral(ds, n0, radix) && |ds| == q' - q && buf[..q'] == old(buf[..q]) + ds
  {
    var digits := new char[max];
    var n: nat, i: nat := n0, max;
    ghost var left := k;
    NumberStart(digits[..], max, n0, radix, k);
    while true
      invariant 0 < left <= i <= max && max - i == k - left && Unfinished(digits[..], i, n0, n, radix, left)
      invariant n > 0 || i == max
      decreases i
      modifies digits
    {
      var c, m := NextDigit(n, radix);
      i, left := i - 1, left - 1;
      UnfinishedStep(digits[..], i, n0, n, radix, c, m, left);
      digits[i] := c;
      n := m;
      if n == 0 {
        break;
      }
    }
    ds := digits[i..];
    assert ds == digits[..][i..];
    UnfinishedEnd(digits[..], i, n0, radix, left);
    CopyIn(buf, q, digits, i);
    q' := q + (max - i);
  }

  // The digits from i on have been made, and the rest of n0 has at most so many more.
  predicate Unfinished(digits: string, i: nat, n0: nat, n: nat, radix: nat, left: nat) {
    i <= |digits| && Written(digits[i..], n0, n, radix) && n < Pow(radix, left)
  }

  lemma NumberStart(digits: string, max: nat, n0: nat, radix: nat, k: nat)
    requires |digits| == max && n0 < Pow(radix, k)
    ensures Unfinished(digits, max, n0, n0, radix, k)
  {
    assert digits[max..] == "";
    assert n0 == n0 * Pow(radix, 0);
  }

  lemma UnfinishedStep(digits: string, i: nat, n0: nat, n: nat, radix: nat, c: char, m: nat, left: nat)
    requires Unfinished(digits, i + 1, n0, n, radix, left + 1) && radix > 0
    requires IsDigit(c, radix) && IsPlain(c) && n == m * radix + ToDigit(c)
    ensures Unfinished(digits[i := c], i, n0, m, radix, left) && (left == 0 ==> m == 0)
  {
    WrittenStep(digits[i + 1..], n0, n, radix, c, m);
    assert digits[i := c][i..] == [c] + digits[i + 1..];
    QuotientBelow(m, radix, ToDigit(c), Pow(radix, left));
    assert Pow(radix, 0) == 1;
  }

  lemma QuotientBelow(m: nat, r: nat, d: nat, p: nat)
    requires r > 0 && m * r + d < r * p
    ensures m < p
  {
    if m >= p {
      MulLe(p, m, r, r);
      Commute(p, r);
    }
  }

  lemma UnfinishedEnd(digits: string, i: nat, n0: nat, radix: nat, left: nat)
    requires Unfinished(digits, i, n0, 0, radix, left) && i < |digits| && (digits[i] != '0' || i + 1 == |digits|)
    ensures IsShortNumeral(digits[i..], n0, radix)
  {
  }

  method CopyIn(buf: array<char>, q: nat, digits: array<char>, i: nat)
    requires buf != digits && i <= digits.Length && q + (digits.Length - i) <= buf.Length
    modifies buf
    ensures buf[..q + (digits.Length - i)] == old(buf[..q]) + digits[i..]
  {
    var k := 0;
    var n := digits.Length - i;
    while k < n
      invariant 0 <= k <= n
      invariant buf[..q] == old(buf[..q]) && buf[q..q + k] == digits[i..i + k]
    {
      buf[q + k] := digits[i + k];
      assert buf[q..q + k + 1] == buf[q..q + k] + [digits[i + k]];
      k := k + 1;
    }
    assert buf[..q + n] == buf[..q] + buf[q..q + n];
  }

  // ---- Integers ----

  const BILLION: nat := 1_000_000_000

  // The exponent is a parameter: of a power with literal arguments the verifier would unfold every factor.
  lemma Nine(k: nat)
    requires k == 9
    ensures Pow(10, k) == BILLION
  {
  }

  // t has nine more digits than s.
  lemma NineMore(s: string, t: string, n1: nat, n0: nat)
    requires IsNumeral(s, n1, 10) && |t| == 9 && IsNumeral(t, LowDigits(n0, 10, 9), 10) && n0 < BILLION
    ensures IsNumeral(s + t, n1 * BILLION + n0, 10)
  {
    Nine(9);
    NumberConcat(s, t, 10);
    AllLow(n0, 10, 9);
    assert NumberOf(t, 10) == n0;
  }

  method PutNine(buf: array<char>, q: nat, n: nat, ghost was: string, ghost s: string, ghost n1: nat)
    returns (q': nat, ghost ds: string)
    requires q + 9 <= buf.Length && n < BILLION && IsShortNumeral(s, n1, 10) && n1 > 0 && buf[..q] == was + s
    modifies buf
    ensures q' == q + 9 && IsShortNumeral(ds, n1 * BILLION + n, 10) && |ds| == |s| + 9 && buf[..q'] == was + ds
  {
    PutDigits(buf, q, n, 10, 9);
    ghost var t := buf[q..q + 9];
    NineMore(s, t, n1, n);
    ds := s + t;
    ShortOfOne(s, n1, 10);
    q' := q + 9;
    assert buf[..q'] == (was + s) + t;
    assert (was + s) + t == was + (s + t);
  }

  // A number of up to 64 bits in decimal, nine digits at a time from the end, and at most k digits in all.
  method PutU64(buf: array<char>, q: nat, n: nat, ghost k: nat) returns (q': nat, ghost ds: string)
    requires n < 0x1_0000_0000_0000_0000 && 0 < k && n < Pow(10, k) && q + k <= buf.Length
    modifies buf
    ensures q < q' <= q + k && IsShortNumeral(ds, n, 10) && |ds| == q' - q && buf[..q'] == old(buf[..q]) + ds
  {
    ghost var was := buf[..q];
    if n < 0x1_0000_0000 {
      ghost var k0 := AtMostTen(n, k);
      q', ds := PutNumber(buf, q, n, 10, 10, k0);
    } else {
      var n1, n0 := n / BILLION, n % BILLION;
      NineLess(n, k);
      if n1 >= 0x1_0000_0000 {
        var n2 := n1 / BILLION;
        n1 := n1 % BILLION;
        NineLess(n / BILLION, k - 9);
        q', ds := PutTwo(buf, q, n2, k - 18);
        q', ds := PutNine(buf, q', n1, was, ds, n2);
        n1 := n2 * BILLION + n1;
      } else {
        ghost var k1 := AtMostTen(n1, k - 9);
        q', ds := PutNumber(buf, q, n1, 10, 10, k1);
      }
      q', ds := PutNine(buf, q', n0, was, ds, n1);
    }
  }

  // Numbers below 2^32 have at most ten digits.
  lemma AtMostTen(n: nat, k: nat) returns (k0: nat)
    requires n < 0x1_0000_0000 && 0 < k && n < Pow(10, k)
    ensures 0 < k0 <= 10 && k0 <= k && n < Pow(10, k0)
  {
    TenDigits(10);
    k0 := if k <= 10 then k else 10;
  }

  // Without the last nine digits.
  lemma NineLess(n: nat, k: nat)
    requires n >= BILLION && n < Pow(10, k)
    ensures k > 9 && n / BILLION < Pow(10, k - 9)
  {
    Nine(9);
    if k <= 9 {
      PowMono(10, k, 9);
    }
    PowAdd(10, 9, k - 9);
    DivBelow(n, BILLION, Pow(10, k - 9));
  }

  // As for Nine, the exponent is a parameter.
  lemma TenDigits(k: nat)
    requires k == 10
    ensures Pow(10, k) == 10 * BILLION
  {
  }

  // At most two digits.
  method PutTwo(buf: array<char>, q: nat, n: nat, ghost k: nat) returns (q': nat, ghost ds: string)
    requires n < 100 && 0 < k && n < Pow(10, k) && q + k <= buf.Length
    modifies buf
    ensures q < q' <= q + k && IsShortNumeral(ds, n, 10) && |ds| == q' - q && buf[..q'] == old(buf[..q]) + ds
  {
    ghost var was := buf[..q];
    OneDigit(n, k);
    q' := q;
    var m := n;
    ds := "";
    if m >= 10 {
      ds := [DigitChar(m / 10)];
      NumberOne(ds[0], 10);
      buf[q'] := DigitChar(m / 10);
      q' := q' + 1;
      m := m % 10;
    }
    ghost var last := [DigitChar(m)];
    NumberConcat(ds, last, 10);
    NumberOne(last[0], 10);
    assert Pow(10, 1) == 10;
    buf[q'] := DigitChar(m);
    q' := q' + 1;
    ds := ds + last;
    assert buf[..q'] == was + ds;
  }

  lemma OneDigit(n: nat, k: nat)
    requires n < Pow(10, k)
    ensures n >= 10 ==> k >= 2
  {
    assert Pow(10, 1) == 10 * Pow(10, 0);
  }

  // A number below 2^53 in any radix takes less digits than are always enough.
  method PutInteger(buf: array<char>, q: nat, n: nat, radix: nat) returns (q': nat, ghost ds: string)
    requires 2 <= radix <= RADIX_MAX && 0 < n < Pow(2, 53) && q + MaxDigits(radix) - 1 <= buf.Length
    modifies buf
    ensures q < q' <= q + MaxDigits(radix) - 1 && IsShortNumeral(ds, n, radix) && |ds| == q' - q
    ensures buf[..q'] == old(buf[..q]) + ds
  {
    Power53(53);
    var k := MaxDigits(radix) - 1;
    IntegerLength(n, radix, k);
    if radix == 10 {
      q', ds := PutU64(buf, q, n, k);
    } else if PowerOfTwo(radix) {
      q', ds := PutBinary(buf, q, n, radix, k);
    } else {
      q', ds := PutNumber(buf, q, n, radix, 41, k);
    }
  }

  // In a power of two the number of digits is known from that of the bits.
  method PutBinary(buf: array<char>, q: nat, n: nat, radix: nat, ghost k: nat) returns (q': nat, ghost ds: string)
    requires PowerOfTwo(radix) && 0 < n < Pow(radix, k) && q + k <= buf.Length
    modifies buf
    ensures q < q' <= q + k && IsShortNumeral(ds, n, radix) && |ds| == q' - q && buf[..q'] == old(buf[..q]) + ds
  {
    var l := (BitLen(n) + RadixBits(radix) - 1) / RadixBits(radix);
    BinaryLength(n, radix, l, k);
    BinaryFirst(n, radix, l);
    ghost var was := buf[..q];
    PutDigits(buf, q, n, radix, l);
    q', ds := q + l, buf[q..q + l];
    assert buf[..q'] == was + ds;
    NoZeroInFront(ds, n, radix);
  }

  // As for Nine, the exponent is a parameter.
  lemma Power53(k: nat)
    requires k == 53
    ensures Pow(2, k) == 0x20_0000_0000_0000
  {
    Float64.M53Is();
  }

  // The digits of all bits.
  lemma BinaryLength(n: nat, radix: nat, l: nat, max: nat)
    requires PowerOfTwo(radix) && 0 < n < Pow(radix, max) && l == (BitLen(n) + RadixBits(radix) - 1) / RadixBits(radix)
    ensures 0 < l <= max && LowDigits(n, radix, l) == n
  {
    var k := RadixBits(radix);
    RadixBitsIs(radix);
    BitLenIs(n);
    BitsAtMost(n, radix, k, BitLen(n), max);
    var q, m := Parts(BitLen(n) + k - 1, k);
    LengthBetween(BitLen(n), k, l, m, max);
    PowerAbove(n, radix, k, BitLen(n), l);
    AllLow(n, radix, l);
  }

  lemma BitsAtMost(n: nat, radix: nat, k: nat, bits: nat, max: nat)
    requires radix == Pow(2, k) && bits > 0 && Pow(2, bits - 1) <= n < Pow(radix, max)
    ensures bits <= k * max
  {
    PowPow(2, k, max);
    if bits > k * max {
      PowMono(2, k * max, bits - 1);
    }
  }

  lemma PowerAbove(n: nat, radix: nat, k: nat, bits: nat, l: nat)
    requires radix == Pow(2, k) && n < Pow(2, bits) && bits <= k * l
    ensures n < Pow(radix, l)
  {
    PowPow(2, k, l);
    PowMono(2, bits, k * l);
  }

  // None of them is too many.
  lemma BinaryFirst(n: nat, radix: nat, l: nat)
    requires PowerOfTwo(radix) && 0 < n && l == (BitLen(n) + RadixBits(radix) - 1) / RadixBits(radix)
    ensures 0 < l && Pow(radix, l - 1) <= n
  {
    var k := RadixBits(radix);
    RadixBitsIs(radix);
    BitLenIs(n);
    var q, m := Parts(BitLen(n) + k - 1, k);
    LengthAtLeast(BitLen(n), k, l, m);
    PowerAtMost(n, radix, k, BitLen(n), l - 1);
  }

  lemma PowerAtMost(n: nat, radix: nat, k: nat, bits: nat, l: nat)
    requires radix == Pow(2, k) && k * l < bits && Pow(2, bits - 1) <= n
    ensures Pow(radix, l) <= n
  {
    PowPow(2, k, l);
    PowMono(2, k * l, bits - 1);
  }

  lemma LengthAtLeast(bits: nat, k: nat, l: nat, m: nat)
    requires k > 0 && 0 < bits && bits + k - 1 == l * k + m && m < k
    ensures 0 < l && k * (l - 1) < bits
  {
    Commute(l, k);
  }

  // A numeral of a number that is not below the power.
  lemma NoZeroInFront(s: string, n: nat, radix: nat)
    requires IsNumeral(s, n, radix) && s != "" && Pow(radix, |s| - 1) <= n
    ensures s[0] != '0'
  {
    assert s == [s[0]] + s[1..];
    NumberFront(s[0], s[1..], radix);
    NumberBound(s[1..], radix);
  }

  lemma LengthBetween(bits: nat, k: nat, l: nat, m: nat, max: nat)
    requires k > 0 && 0 < bits <= k * max && bits + k - 1 == l * k + m && m < k
    ensures 0 < l <= max && bits <= k * l
  {
    Commute(l, k);
    if l > max {
      MulLe(max + 1, l, k, k);
      Commute(max + 1, k);
    }
  }

  lemma IntegerLength(n: nat, radix: nat, k: nat)
    requires 2 <= radix <= RADIX_MAX && n < Pow(2, 53) && k == MaxDigits(radix) - 1
    ensures 0 < k && n < Pow(radix, k) && (radix > 2 ==> k <= 41)
  {
    MaxDigitsEnough(radix);
    Power53(53);
  }

  // ---- Free format ----

  // How long the text of p digits is at most.
  function TextLength(p: nat, ex: int, scientific: bool): nat {
    if scientific then p + (if p > 1 then 1 else 0) + 6
    else if ex <= 0 then 2 + (0 - ex) + p
    else if p > ex then p + 1
    else ex
  }

  lemma AllLow(n: nat, radix: nat, p: nat)
    requires radix > 0 && n < Pow(radix, p)
    ensures LowDigits(n, radix, p) == n
  {
    DivModIs(n, Pow(radix, p), 0, n);
  }

  method PutFree(buf: array<char>, q: nat, r: Mpb, radix: nat, p: nat, ex: int, mode: ExponentMode)
    returns (q': nat, ghost ds: string, ghost es: string)
    requires 2 <= radix <= RADIX_MAX && r.Valid() && r.Value() < Pow(radix, p) && p > 0 && -2000 <= ex <= 2000
    requires q + TextLength(p, ex, Scientific(mode, ex, radix)) <= buf.Length
    modifies buf, r`len, r.tab
    ensures |ds| == p && IsNumeral(ds, old(r.Value()), radix) && q' <= buf.Length
    ensures Scientific(mode, ex, radix) ==> IsExponent(es, radix, ex)
    ensures buf[..q'] == old(buf[..q]) + FreeText(ds, ex, radix, Scientific(mode, ex, radix), es)
  {
    AllLow(r.Value(), radix, p);
    es := "";
    if Scientific(mode, ex, radix) {
      q', ds, es := PutScientific(buf, q, r, radix, p, ex);
    } else if ex <= 0 {
      q', ds := PutBehindDot(buf, q, r, radix, p, 0 - ex);
    } else {
      q', ds := PutInFront(buf, q, r, radix, p, ex);
    }
  }

  method PutScientific(buf: array<char>, q: nat, r: Mpb, radix: nat, p: nat, ex: int)
    returns (q': nat, ghost ds: string, ghost es: string)
    requires 2 <= radix <= RADIX_MAX && r.Valid() && p > 0 && -2000 <= ex <= 2000
    requires q + TextLength(p, ex, true) <= buf.Length
    modifies buf, r`len, r.tab
    ensures |ds| == p && IsNumeral(ds, LowDigits(old(r.Value()), radix, p), radix) && q' <= buf.Length
    ensures IsExponent(es, radix, ex)
    ensures buf[..q'] == old(buf[..q]) + FreeText(ds, ex, radix, true, es)
  {
    ghost var was := buf[..q];
    q', ds := PutDotted(buf, q, r, radix, p, 1);
    q', es := PutExponent(buf, q', radix, ex);
    ghost var mark := [Marker(radix), if ShownExponent(radix, ex) < 0 then '-' else '+'];
    assert (was + WithDot(ds, 1)) + (mark + es) == was + (WithDot(ds, 1) + mark + es);
  }

  predicate IsExponent(es: string, radix: nat, ex: int) {
    var e := ShownExponent(radix, ex);
    IsShortNumeral(es, if e < 0 then 0 - e else e, 10)
  }

  method PutExponent(buf: array<char>, q: nat, radix: nat, ex: int) returns (q': nat, ghost es: string)
    requires 2 <= radix <= RADIX_MAX && -2000 <= ex <= 2000 && q + 6 <= buf.Length
    modifies buf
    ensures q' <= buf.Length && IsExponent(es, radix, ex)
    ensures buf[..q'] == old(buf[..q]) + ([Marker(radix), if ShownExponent(radix, ex) < 0 then '-' else '+'] + es)
  {
    ghost var was := buf[..q];
    var e := ShownExponent(radix, ex);
    assert -10000 < e < 10000;
    PutChar(buf, q, Marker(radix));
    PutChar(buf, q + 1, if e < 0 then '-' else '+');
    ghost var mark := [Marker(radix), if e < 0 then '-' else '+'];
    assert buf[..q + 2] == was + mark;
    FourDigits(4);
    q', es := PutNumber(buf, q + 2, if e < 0 then 0 - e else e, 10, 10, 4);
    assert (was + mark) + es == was + (mark + es);
  }

  // As for Nine, the exponent is a parameter.
  lemma FourDigits(k: nat)
    requires k == 4
    ensures Pow(10, k) == 10000
  {
  }

  method PutBehindDot(buf: array<char>, q: nat, r: Mpb, radix: nat, p: nat, zeros: nat)
    returns (q': nat, ghost ds: string)
    requires 2 <= radix <= RADIX_MAX && r.Valid() && p > 0 && q + 2 + zeros + p <= buf.Length
    modifies buf, r`len, r.tab
    ensures |ds| == p && IsNumeral(ds, LowDigits(old(r.Value()), radix, p), radix) && q' <= buf.Length
    ensures buf[..q'] == old(buf[..q]) + ("0." + ZeroDigits(zeros) + ds)
  {
    ghost var was := buf[..q];
    PutChar(buf, q, '0');
    PutChar(buf, q + 1, '.');
    assert buf[..q + 2] == was + "0.";
    PutZeros(buf, q + 2, zeros);
    q', ds := PutDotted(buf, q + 2 + zeros, r, radix, p, p);
    assert ((was + "0.") + ZeroDigits(zeros)) + ds == was + ("0." + ZeroDigits(zeros) + ds);
  }

  method PutInFront(buf: array<char>, q: nat, r: Mpb, radix: nat, p: nat, ex: nat) returns (q': nat, ghost ds: string)
    requires 2 <= radix <= RADIX_MAX && r.Valid() && p > 0 && ex > 0 && q + TextLength(p, ex, false) <= buf.Length
    modifies buf, r`len, r.tab
    ensures |ds| == p && IsNumeral(ds, LowDigits(old(r.Value()), radix, p), radix) && q' <= buf.Length
    ensures buf[..q'] == old(buf[..q]) + (WithDot(ds,
                                                  if p < ex then p else ex) + ZeroDigits(if ex > p then ex - p else 0))
  {
    ghost var was := buf[..q];
    q', ds := PutDotted(buf, q, r, radix, p, if p < ex then p else ex);
    ghost var front := WithDot(ds, if p < ex then p else ex);
    var zeros := if ex > p then ex - p else 0;
    PutZeros(buf, q', zeros);
    q' := q' + zeros;
    assert (was + front) + ZeroDigits(zeros) == was + (front + ZeroDigits(zeros));
  }
}
