/** Printing and parsing numbers in the kernel's C library. */
module Numbers {
  import opened Basics

  const ULONG_MAX := 0xFFFF_FFFF_FFFF_FFFF
  const TWO_63 := 0x8000_0000_0000_0000
  const NUMBUFSIZ := 24

  // A C string; reading at its end gives the terminator.
  function At(s: string, i: nat): char {
    if i < |s| then s[i] else '\0'
  }

  predicate IsSpace(c: char) {
    '\t' <= c <= '\r' || c == ' '
  }

  // ---- Digits ----

  // strtoul's three digit tests, in its order.
  function DigitOf(c: char, base: nat): (d: Option<nat>)
    ensures d.Some? ==> d.value < base
  {
    if '0' <= c && c as int < '0' as int + base then Some(c as int - '0' as int)
    else if base > 10 && 'a' <= c && c as int < 'a' as int + base - 10 then Some(c as int - 'a' as int + 10)
    else if base > 10 && 'A' <= c && c as int < 'A' as int + base - 10 then Some(c as int - 'A' as int + 10)
    else None
  }

  // The digits of C11 section 7.22.1.4.
  function StandardDigit(c: char, base: nat): Option<nat> {
    var d := if '0' <= c <= '9' then c as int - '0' as int
             else if 'a' <= c <= 'z' then c as int - 'a' as int + 10
             else if 'A' <= c <= 'Z' then c as int - 'A' as int + 10
             else 36;
    if d < base then Some(d) else None
  }

  // strtoul's digits are the standard ones except, in bases above 10, on the characters just after '9'.
  lemma DigitsAreStandard(c: char, base: nat)
    requires 2 <= base <= 36
    ensures DigitOf(c, base) == StandardDigit(c, base) <==> !('9' < c && c as int < '0' as int + base)
  {
  }

  // For example, ':' counts as the digit 10 in base 16.
  lemma ColonIsAccepted()
    ensures DigitOf(':', 16) == Some(10) && StandardDigit(':', 16) == None
    ensures Parse(":", 16) == (10, 1)
  {
    assert RunEnd(":", 0, 16) == 1;
    assert ":"[0..1] == ":" && ":"[..0] == "";
    TimesIsProduct(0, 16);
  }

  // The position after the longest run of digits from i.
  function RunEnd(s: string, i: nat, base: nat): (e: nat)
    requires i <= |s|
    ensures i <= e <= |s| && DigitOf(At(s, e), base).None?
    ensures forall j :: i <= j < e ==> DigitOf(s[j], base).Some?
    decreases |s| - i
  {
    if i < |s| && DigitOf(s[i], base).Some? then RunEnd(s, i + 1, base) else i
  }

  predicate AllDigits(s: string, base: nat) {
    forall i :: 0 <= i < |s| ==> DigitOf(s[i], base).Some?
  }

  // The number a digit string denotes, without any bound.
  function Value(s: string, base: nat): nat
    requires AllDigits(s, base)
  {
    if s == [] then 0 else Times(Value(s[..|s| - 1], base), base) + DigitOf(s[|s| - 1], base).value
  }

  // The product, as repeated addition: proofs that only compare strings need not reason about products.
  function Times(v: nat, base: nat): nat {
    if base == 0 then 0 else Times(v, base - 1) + v
  }

  lemma {:induction false} TimesIsProduct(v: nat, base: nat)
    ensures Times(v, base) == v * base
  {
    if base > 0 {
      TimesIsProduct(v, base - 1);
    }
  }

  // ---- strtoul as a function ----

  function SkipSpace(s: string, i: nat): (j: nat)
    requires i <= |s|
    ensures i <= j <= |s| && !IsSpace(At(s, j))
    decreases |s| - i
  {
    if IsSpace(At(s, i)) then SkipSpace(s, i + 1) else i
  }

  // The base in force and where the digits start.
  function Prefix(s: string, i: nat, base: nat): (r: (nat, nat))
    requires i <= |s|
    ensures i <= r.1 <= |s| && (base > 0 ==> r.0 == base) && (base == 0 ==> r.0 in {8, 10, 16})
  {
    var hex := At(s, i) == '0' && (At(s, i + 1) == 'x' || At(s, i + 1) == 'X');
    if base == 0 then
      if hex then (16, i + 2) else if At(s, i) == '0' then (8, i) else (10, i)
    else if base == 16 && hex then (16, i + 2)
    else (base, i)
  }

  function Saturate(v: nat): nat {
    if v > ULONG_MAX then ULONG_MAX else v
  }

  // -u in 64 bits.
  function Negate(u: nat): nat
    requires u <= ULONG_MAX
  {
    if u == 0 then 0 else TWO_64 - u
  }

  lemma NegateWraps(u: nat)
    requires u <= ULONG_MAX
    ensures Negate(u) == (0 - u) % TWO_64
  {
  }

  // The digits after a sign: base, value and end.
  function ParseDigits(s: string, j: nat, base: nat): (r: (nat, nat))
    requires j <= |s|
    ensures r.0 <= ULONG_MAX && r.1 <= |s|
  {
    var (b, k) := Prefix(s, j, base);
    var e := RunEnd(s, k, b);
    (Saturate(Value(s[k..e], b)), e)
  }

  // Where the digits start, given where the spaces end.
  function AfterSign(s: string, i: nat): (j: nat)
    requires i <= |s|
    ensures i <= j <= |s|
  {
    if At(s, i) == '-' || At(s, i) == '+' then i + 1 else i
  }

  function WithSign(negative: bool, d: (nat, nat)): (nat, nat)
    requires d.0 <= ULONG_MAX
  {
    (if negative then Negate(d.0) else d.0, d.1)
  }

  // Value and end position. The value is saturated first and negated afterwards.
  function Parse(s: string, base: nat): (r: (nat, nat))
    ensures r.1 <= |s|
  {
    var i := SkipSpace(s, 0);
    WithSign(At(s, i) == '-', ParseDigits(s, AfterSign(s, i), base))
  }

  // ---- strtoul as code ----

  lemma MulLe(a: nat, b: nat, c: nat)
    requires a <= b
    ensures a * c <= b * c
  {
  }

  lemma DivTest(x: nat, a: nat, base: nat)
    requires base > 0
    ensures x > a / base <==> x * base > a
  {
    var q, r := a / base, a % base;
    assert a == q * base + r;
    if x > q {
      MulLe(q + 1, x, base);
      assert (q + 1) * base == q * base + base;
    } else {
      MulLe(x, q, base);
    }
  }

  // strtoul's overflow test.
  predicate Overflows(x: nat, digit: nat, base: nat)
    requires 2 <= base && digit <= ULONG_MAX
    ensures Overflows(x, digit, base) <==> x * base + digit > ULONG_MAX
  {
    DivTest(x, ULONG_MAX - digit, base);
    x > (ULONG_MAX - digit) / base
  }

  // One round of the digit loop: what the flag and the accumulator become.
  lemma Round(x: nat, overflow: bool, v: nat, digit: nat, base: nat)
    requires 2 <= base && digit < base <= 36 && x <= ULONG_MAX
    requires if overflow then v > ULONG_MAX else x == v
    ensures
      var v' := v * base + digit;
      if Overflows(x, digit, base) then v' > ULONG_MAX
      else 0 <= x * base + digit <= ULONG_MAX && (if overflow then v' > ULONG_MAX else x * base + digit == v')
  {
    if overflow {
      MulLe(1, base, v);
      assert v * base == base * v;
    }
  }

  lemma ValueMore(s: string, k: nat, e: nat, base: nat)
    requires k <= e < |s| && AllDigits(s[k..e], base) && DigitOf(s[e], base).Some?
    ensures AllDigits(s[k..e + 1], base)
    ensures Value(s[k..e + 1], base) == Value(s[k..e], base) * base + DigitOf(s[e], base).value
  {
    assert s[k..e + 1][..e - k] == s[k..e];
    TimesIsProduct(Value(s[k..e], base), base);
  }

  method AddDigit(x: nat, overflow: bool, digit: nat, base: nat, ghost v: nat) returns (x': nat, overflow': bool)
    requires 2 <= base && digit < base <= 36 && x <= ULONG_MAX
    requires if overflow then v > ULONG_MAX else x == v
    ensures x' <= ULONG_MAX
    ensures if overflow' then v * base + digit > ULONG_MAX else x' == v * base + digit
  {
    Round(x, overflow, v, digit, base);
    x', overflow' := x, overflow;
    if Overflows(x, digit, base) {
      overflow' := true;
    } else {
      x' := x * base + digit;
    }
  }

  // The accumulator is exact until the first overflow; from then on the sticky flag is what counts.
  method Accumulate(s: string, k: nat, base: nat) returns (x: nat, e: nat)
    requires k <= |s| && 2 <= base <= 36
    ensures e == RunEnd(s, k, base) && x == Saturate(Value(s[k..e], base))
  {
    x, e := 0, k;
    var overflow := false;
    while true
      invariant k <= e <= |s| && RunEnd(s, e, base) == RunEnd(s, k, base)
      invariant AllDigits(s[k..e], base) && x <= ULONG_MAX
      invariant if overflow then Value(s[k..e], base) > ULONG_MAX else x == Value(s[k..e], base)
      decreases |s| - e
    {
      var d := DigitOf(At(s, e), base);
      if d.None? {
        break;
      }
      var digit := d.value;
      ValueMore(s, k, e, base);
      x, overflow := AddDigit(x, overflow, digit, base, Value(s[k..e], base));
      e := e + 1;
    }
    if overflow {
      x := ULONG_MAX;
    }
  }

  method SkipSpaces(s: string) returns (i: nat)
    ensures i == SkipSpace(s, 0)
  {
    i := 0;
    while IsSpace(At(s, i))
      invariant i <= |s| && SkipSpace(s, i) == SkipSpace(s, 0)
      decreases |s| - i
    {
      i := i + 1;
    }
  }

  method ReadPrefix(s: string, j: nat, base: nat) returns (b: nat, i: nat)
    requires j <= |s|
    ensures (b, i) == Prefix(s, j, base)
  {
    b, i := base, j;
    if base == 0 {
      if At(s, i) == '0' && (At(s, i + 1) == 'x' || At(s, i + 1) == 'X') {
        b := 16;
        i := i + 2;
      } else if At(s, i) == '0' {
        b := 8;
      } else {
        b := 10;
      }
    } else if base == 16 && At(s, i) == '0' && (At(s, i + 1) == 'x' || At(s, i + 1) == 'X') {
      i := i + 2;
    }
  }

  method Strtoul(s: string, base: nat) returns (x: nat, e: nat)
    requires base == 0 || 2 <= base <= 36
    ensures (x, e) == Parse(s, base)
  {
    var i := SkipSpaces(s);
    var negative := At(s, i) == '-';
    if negative || At(s, i) == '+' {
      i := i + 1;
    }
    var b;
    b, i := ReadPrefix(s, i, base);
    x, e := Accumulate(s, i, b);
    if negative {
      NegateWraps(x);
      x := (0 - x) % TWO_64;
    }
  }

  // ---- strtol ----

  // The clamped magnitude with its sign.
  function Signed(u: nat, negative: bool): int {
    var bound := TWO_63 - if negative then 0 else 1;
    var clamped := if u > bound then bound else u;
    if negative then -clamped else clamped
  }

  function ParseSigned(s: string, base: nat): int {
    var i := SkipSpace(s, 0);
    var negative := At(s, i) == '-';
    Signed(Parse(s[if negative then i + 1 else i..], base).0, negative)
  }

  // The end of strtol: clamp, negate in 64 bits, reinterpret as signed.
  method ToLong(magnitude: nat, negative: bool) returns (x: int)
    ensures x == Signed(magnitude, negative)
  {
    var u := magnitude;
    var bound := TWO_63 - if negative then 0 else 1;
    if u > bound {
      u := bound;
    }
    if negative {
      NegateWraps(u);
      u := (0 - u) % TWO_64;
    }
    x := if u >= TWO_63 then u - TWO_64 else u;
  }

  method Strtol(s: string, base: nat) returns (x: int)
    requires base == 0 || 2 <= base <= 36
    ensures x == ParseSigned(s, base)
  {
    var i := SkipSpaces(s);
    var negative := At(s, i) == '-';
    if negative {
      i := i + 1;
    }
    var u, _ := Strtoul(s[i..], base);
    x := ToLong(u, negative);
  }

  // ---- What they compute on numerals ----

  lemma {:induction false} RunEndTail(s: string, i: nat, base: nat)
    requires i <= |s| && forall j :: i <= j < |s| ==> DigitOf(s[j], base).Some?
    ensures RunEnd(s, i, base) == |s|
    decreases |s| - i
  {
    if i < |s| {
      RunEndTail(s, i + 1, base);
    }
  }

  // No digit is a space or a sign, so an unsigned numeral is read as it stands.
  lemma ParseNumeral(s: string, base: nat)
    requires 2 <= base <= 36 && AllDigits(s, base)
    ensures Parse(s, base) == (Saturate(Value(s, base)), |s|)
  {
    if s != [] {
      assert DigitOf(s[0], base).Some?;
    }
    if |s| > 1 {
      assert DigitOf(s[1], base).Some?;
    }
    assert SkipSpace(s, 0) == 0;
    assert Prefix(s, 0, base) == (base, 0);
    RunEndTail(s, 0, base);
    assert s[0..|s|] == s;
  }

  // For bases 2 to 10 and digit strings of any length, strtoul returns min(value, 2^64 - 1).
  lemma StrtoulSaturates(s: string, base: nat)
    requires 2 <= base <= 10 && forall i :: 0 <= i < |s| ==> '0' <= s[i] && s[i] as int < '0' as int + base
    ensures AllDigits(s, base)
    ensures Parse(s, base) == (if Value(s, base) < TWO_64 then Value(s, base) else TWO_64 - 1, |s|)
  {
    assert forall i :: 0 <= i < |s| ==> DigitOf(s[i], base).Some?;
    ParseNumeral(s, base);
  }

  function Clamp(v: int): int {
    if v > TWO_63 - 1 then TWO_63 - 1 else if v < -TWO_63 then -TWO_63 else v
  }

  // ---- Place value, prefixes, signs and leading spaces ----

  function Pow(base: nat, n: nat): nat {
    if n == 0 then 1 else Pow(base, n - 1) * base
  }

  // The first digit of a numeral counts as many powers of the base as digits follow it.
  lemma {:induction false} PlaceValue(c: char, s: string, base: nat)
    requires DigitOf(c, base).Some? && AllDigits(s, base)
    ensures AllDigits([c] + s, base)
    ensures Value([c] + s, base) == DigitOf(c, base).value * Pow(base, |s|) + Value(s, base)
    decreases |s|
  {
    var t, d := [c] + s, DigitOf(c, base).value;
    if s == [] {
      assert t[..0] == [];
      TimesIsProduct(0, base);
    } else {
      var n := |s| - 1;
      PlaceValue(c, s[..n], base);
      assert t[..|t| - 1] == [c] + s[..n] && t[|t| - 1] == s[n];
      TimesIsProduct(Value([c] + s[..n], base), base);
      TimesIsProduct(Value(s[..n], base), base);
      Distribute(d, Pow(base, n), Value(s[..n], base), base);
    }
  }

  lemma Distribute(d: nat, p: nat, v: nat, base: nat)
    ensures (d * p + v) * base == d * (p * base) + v * base
  {
  }

  // With base 0, a numeral that does not start with 0 is decimal.
  lemma ParseDecimal(s: string)
    requires AllDigits(s, 10) && (s != "" ==> s[0] != '0')
    ensures Parse(s, 0) == (Saturate(Value(s, 10)), |s|)
  {
    if s != [] {
      assert DigitOf(s[0], 10).Some?;
    }
    assert SkipSpace(s, 0) == 0;
    assert Prefix(s, 0, 0) == (10, 0);
    RunEndTail(s, 0, 10);
    assert s[0..|s|] == s;
  }

  // One that starts with 0 and goes on with octal digits is octal.
  lemma ParseOctal(s: string)
    requires AllDigits(s, 8)
    ensures Parse("0" + s, 0) == (Saturate(Value(s, 8)), |s| + 1)
  {
    var t := ['0'] + s;
    assert t == "0" + s;
    LeadingZero(s, 8);
    OctalPrefix(t, s);
    RunEndTail(t, 0, 8);
    assert t[0..|t|] == t;
    ParseAt(t, 0, 0, 0, ParseDigits(t, 0, 0));
  }

  lemma LeadingZero(s: string, base: nat)
    requires base > 0 && AllDigits(s, base)
    ensures AllDigits(['0'] + s, base) && Value(['0'] + s, base) == Value(s, base)
  {
    PlaceValue('0', s, base);
    assert DigitOf('0', base) == Some(0);
  }

  lemma OctalPrefix(t: string, s: string)
    requires AllDigits(s, 8) && t == ['0'] + s
    ensures Prefix(t, 0, 0) == (8, 0)
  {
    assert s != [] ==> At(t, 1) == s[0] && DigitOf(s[0], 8).Some?;
  }

  // After 0x or 0X it is hexadecimal, with base 0 and with base 16.
  lemma ParseHex(s: string, x: char, base: nat)
    requires AllDigits(s, 16) && (x == 'x' || x == 'X') && (base == 0 || base == 16)
    ensures Parse(['0', x] + s, base) == (Saturate(Value(s, 16)), |s| + 2)
  {
    var t := ['0', x] + s;
    assert At(t, 0) == '0' && At(t, 1) == x;
    assert Prefix(t, 0, base) == (16, 2);
    HexDigits(t, s);
    ParseAt(t, base, 0, 0, ParseDigits(t, 0, base));
  }

  lemma HexDigits(t: string, s: string)
    requires AllDigits(s, 16) && |t| == |s| + 2 && t[2..] == s
    ensures RunEnd(t, 2, 16) == |t| && t[2..|t|] == s
  {
    assert forall j :: 2 <= j < |t| ==> t[j] == t[2..][j - 2];
    RunEndTail(t, 2, 16);
  }

  // s is what is left of t after k characters.
  predicate Tail(t: string, k: nat, s: string) {
    |t| == k + |s| && forall i :: 0 <= i < |s| ==> t[k + i] == s[i]
  }

  lemma TailAt(t: string, k: nat, s: string, i: nat)
    requires Tail(t, k, s)
    ensures At(t, k + i) == At(s, i)
  {
  }

  // The tail is read as if it stood alone.
  lemma {:induction false} SkipSpaceShift(t: string, k: nat, s: string, i: nat)
    requires Tail(t, k, s) && i <= |s|
    ensures SkipSpace(t, k + i) == k + SkipSpace(s, i)
    decreases |s| - i
  {
    TailAt(t, k, s, i);
    if IsSpace(At(s, i)) {
      SkipSpaceShift(t, k, s, i + 1);
    }
  }

  lemma {:induction false} SkipSpaceOver(t: string, k: nat, s: string, i: nat)
    requires Tail(t, k, s) && i <= k && forall j :: i <= j < k ==> IsSpace(t[j])
    ensures SkipSpace(t, i) == k + SkipSpace(s, 0)
    decreases k - i
  {
    if i < k {
      SkipSpaceOver(t, k, s, i + 1);
    } else {
      SkipSpaceShift(t, k, s, 0);
    }
  }

  lemma {:induction false} RunEndShift(t: string, k: nat, s: string, i: nat, base: nat)
    requires Tail(t, k, s) && i <= |s|
    ensures RunEnd(t, k + i, base) == k + RunEnd(s, i, base)
    decreases |s| - i
  {
    if i < |s| && DigitOf(s[i], base).Some? {
      RunEndShift(t, k, s, i + 1, base);
    }
  }

  lemma PrefixShift(t: string, k: nat, s: string, j: nat, base: nat)
    requires Tail(t, k, s) && j <= |s|
    ensures Prefix(t, k + j, base) == (Prefix(s, j, base).0, k + Prefix(s, j, base).1)
  {
    TailAt(t, k, s, j);
    TailAt(t, k, s, j + 1);
  }

  lemma ParseDigitsShift(t: string, k: nat, s: string, j: nat, base: nat)
    requires Tail(t, k, s) && j <= |s|
    ensures ParseDigits(t, k + j, base) == (ParseDigits(s, j, base).0, k + ParseDigits(s, j, base).1)
  {
    PrefixShift(t, k, s, j, base);
    var (b, n) := Prefix(s, j, base);
    RunEndShift(t, k, s, n, b);
    var e := RunEnd(s, n, b);
    assert t[k + n..k + e] == s[n..e];
  }

  lemma ParseAt(s: string, base: nat, i: nat, j: nat, d: (nat, nat))
    requires i == SkipSpace(s, 0) && j == AfterSign(s, i) && d == ParseDigits(s, j, base)
    ensures Parse(s, base).1 == d.1
    ensures Parse(s, base).0 == if At(s, i) == '-' then Negate(d.0) else d.0
  {
  }

  // Where the spaces and the sign end in s and in t.
  lemma LocateDigits(t: string, k: nat, s: string) returns (i: nat, j: nat)
    requires Tail(t, k, s) && forall n :: 0 <= n < k ==> IsSpace(t[n])
    ensures i == SkipSpace(s, 0) && k + i == SkipSpace(t, 0) && At(t, k + i) == At(s, i)
    ensures j == AfterSign(s, i) && k + j == AfterSign(t, k + i)
  {
    i := SkipSpace(s, 0);
    j := AfterSign(s, i);
    SkipSpaceOver(t, k, s, 0);
    TailAt(t, k, s, i);
  }

  // Leading spaces change nothing but the end position, whatever follows.
  lemma ParseSpaces(t: string, k: nat, s: string, base: nat)
    requires Tail(t, k, s) && forall n :: 0 <= n < k ==> IsSpace(t[n])
    ensures Parse(t, base).0 == Parse(s, base).0 && Parse(t, base).1 == k + Parse(s, base).1
  {
    var i, j := LocateDigits(t, k, s);
    ParseDigitsShift(t, k, s, j, base);
    ParseAt(s, base, i, j, ParseDigits(s, j, base));
    ParseAt(t, base, k + i, k + j, ParseDigits(t, k + j, base));
  }

  predicate Plain(s: string) {
    !IsSpace(At(s, 0)) && At(s, 0) != '-' && At(s, 0) != '+'
  }

  // A sign in front of what starts with neither a space nor a sign.
  lemma ParseSign(s: string, base: nat, sign: char)
    requires Plain(s) && (sign == '+' || sign == '-')
    ensures Parse(s, base).0 <= ULONG_MAX
    ensures Parse([sign] + s, base).0 == if sign == '-' then Negate(Parse(s, base).0) else Parse(s, base).0
    ensures Parse([sign] + s, base).1 == 1 + Parse(s, base).1
  {
    var t := [sign] + s;
    assert At(t, 0) == sign && Tail(t, 1, s);
    ParseDigitsShift(t, 1, s, 0, base);
    ParseAt(s, base, 0, 0, ParseDigits(s, 0, base));
    ParseAt(t, base, 0, 1, ParseDigits(t, 1, base));
  }

  // The same for strtol: spaces are skipped, and the sign decides the sign of the clamped value.
  lemma SignedSpaces(t: string, k: nat, s: string, base: nat)
    requires Tail(t, k, s) && forall j :: 0 <= j < k ==> IsSpace(t[j])
    ensures ParseSigned(t, base) == ParseSigned(s, base)
  {
    var i := SkipSpace(s, 0);
    var n := if At(s, i) == '-' then i + 1 else i;
    SkipSpaceOver(t, k, s, 0);
    TailAt(t, k, s, i);
    assert t[k + n..] == s[n..];
    SignedAt(s, base, i, s[n..]);
    SignedAt(t, base, k + i, s[n..]);
  }

  lemma SignedAt(s: string, base: nat, i: nat, rest: string)
    requires i == SkipSpace(s, 0) && rest == s[if At(s, i) == '-' then i + 1 else i..]
    ensures ParseSigned(s, base) == Signed(Parse(rest, base).0, At(s, i) == '-')
  {
  }

  lemma SignedPlain(s: string, base: nat)
    requires Plain(s)
    ensures Parse(s, base).0 <= ULONG_MAX && ParseSigned(s, base) == Clamp(Parse(s, base).0)
  {
    ParseAt(s, base, 0, 0, ParseDigits(s, 0, base));
    assert s[0..] == s;
  }

  lemma SignedSign(s: string, base: nat, sign: char)
    requires Plain(s) && (sign == '+' || sign == '-')
    ensures ParseSigned([sign] + s, base)
         == if sign == '-' then Clamp(0 - (Parse(s, base).0 as int)) else Clamp(Parse(s, base).0)
  {
    var t := [sign] + s;
    ParseSign(s, base, sign);
    assert At(t, 0) == sign && t[1..] == s && t[0..] == t;
    SignedAt(t, base, 0, if sign == '-' then s else t);
  }

  // After a minus sign strtoul negates; that is the standard's result if and only if the number fits,
  // since on overflow the standard asks for ULONG_MAX and the saturated value has been negated to 1.
  lemma StrtoulNegative(s: string, base: nat)
    requires 2 <= base <= 36 && AllDigits(s, base)
    ensures Parse("-" + s, base).0 == Negate(Saturate(Value(s, base)))
    ensures
      var standard := if Value(s, base) > ULONG_MAX then ULONG_MAX else Negate(Value(s, base));
      Parse("-" + s, base).0 == standard <==> Value(s, base) <= ULONG_MAX
  {
    ParseNumeral(s, base);
    NumeralIsPlain(s, base);
    ParseSign(s, base, '-');
    assert ['-'] + s == "-" + s;
  }

  lemma NumeralIsPlain(s: string, base: nat)
    requires 2 <= base <= 36 && AllDigits(s, base)
    ensures Plain(s)
  {
    assert s != [] ==> DigitOf(s[0], base).Some?;
  }

  lemma StrtolPlain(s: string, base: nat)
    requires 2 <= base <= 36 && AllDigits(s, base)
    ensures ParseSigned(s, base) == Clamp(Value(s, base))
  {
    NumeralIsPlain(s, base);
    SignedPlain(s, base);
    ParseNumeral(s, base);
    ClampSaturated(ParseSigned(s, base), Parse(s, base).0, Value(s, base), 1);
  }

  lemma StrtolMinus(s: string, t: string, base: nat)
    requires 2 <= base <= 36 && AllDigits(s, base) && t == ['-'] + s
    ensures ParseSigned(t, base) == Clamp(0 - (Value(s, base) as int))
  {
    NumeralIsPlain(s, base);
    SignedSign(s, base, '-');
    ParseNumeral(s, base);
    ClampSaturated(ParseSigned(t, base), Parse(s, base).0, Value(s, base), -1);
  }

  // Saturating before clamping makes no difference.
  lemma ClampSaturated(p: int, u: nat, v: nat, sign: int)
    requires u == Saturate(v) && (sign == 1 || sign == -1) && p == Clamp(if sign == 1 then u else 0 - u)
    ensures p == Clamp(if sign == 1 then v else 0 - v)
  {
  }

  // strtol clamps to the range of long, for numerals of any length with at most one minus sign.
  lemma StrtolClamps(s: string, negative: bool, base: nat)
    requires 2 <= base <= 36 && AllDigits(s, base)
    ensures
      var v := Value(s, base) as int;
      ParseSigned((if negative then "-" else "") + s, base) == Clamp(if negative then 0 - v else v)
  {
    if negative {
      StrtolMinus(s, "-" + s, base);
    } else {
      StrtolPlain(s, base);
      assert "" + s == s;
    }
  }

  // ---- Printing ----

  const UPPER_DIGITS := "0123456789ABCDEF"
  const LOWER_DIGITS := "0123456789abcdef"

  function DigitChar(d: nat, upper: bool): char
    requires d < 16
  {
    if d < 10 then '0' + d as char else (if upper then 'A' else 'a') + (d - 10) as char
  }

  // The two tables hold the digits in order.
  lemma DigitTable(d: nat)
    requires d < 16
    ensures UPPER_DIGITS[d] == DigitChar(d, true) && LOWER_DIGITS[d] == DigitChar(d, false)
  {
  }

  lemma DigitCharParses(d: nat, upper: bool, base: nat)
    requires d < base <= 16 && (base == 10 || base == 16)
    ensures DigitOf(DigitChar(d, upper), base) == Some(d)
  {
  }

  // Upper and lower case differ exactly in the letters.
  lemma DigitCase(d: nat)
    requires d < 16
    ensures if d < 10 then '0' <= DigitChar(d, true) == DigitChar(d, false) <= '9'
            else 'A' <= DigitChar(d, true) <= 'F' && 'a' <= DigitChar(d, false) <= 'f'
  {
  }

  // The bases printed: 16, or else 10.
  function Radix(hex: bool): nat {
    if hex then 16 else 10
  }

  function Quotient(v: nat, hex: bool): nat {
    if hex then v / 16 else v / 10
  }

  function Remainder(v: nat, hex: bool): (d: nat)
    ensures d < Radix(hex) && v == Quotient(v, hex) * Radix(hex) + d
  {
    if hex then v % 16 else v % 10
  }

  // The numeral of a number, most significant digit first.
  function Numeral(v: nat, hex: bool, upper: bool): (s: string)
    ensures |s| > 0
    decreases v
  {
    var front := if Quotient(v, hex) == 0 then [] else Numeral(Quotient(v, hex), hex, upper);
    front + [DigitChar(Remainder(v, hex), upper)]
  }

  // The largest number of digits of a 64-bit value.
  function Room(hex: bool): nat {
    if hex then 16 else 20
  }

  // Numbers with at most n digits.
  function Limit(hex: bool, n: nat): nat
    decreases n
  {
    if n == 0 then 1 else Limit(hex, n - 1) * Radix(hex)
  }

  lemma FitsRoom(hex: bool)
    ensures ULONG_MAX < Limit(hex, Room(hex))
  {
    if hex {
      assert Limit(hex, 4) == 0x1_0000;
      assert Limit(hex, 8) == 0x1_0000_0000;
      assert Limit(hex, 12) == 0x1_0000_0000_0000;
      assert Limit(hex, 16) == 0x1_0000_0000_0000_0000;
    } else {
      assert Limit(hex, 5) == 100000;
      assert Limit(hex, 10) == 10000000000;
      assert Limit(hex, 15) == 1000000000000000;
      assert Limit(hex, 20) == 100000000000000000000;
    }
  }

  lemma OneDigitLess(v: nat, hex: bool, n: nat)
    requires v < Limit(hex, n + 1)
    ensures Quotient(v, hex) < Limit(hex, n) && (v > 0 ==> Quotient(v, hex) < v) && (n == 0 ==> Quotient(v, hex) == 0)
  {
  }

  lemma NumeralStep(v: nat, hex: bool, upper: bool)
    ensures
      var front := if Quotient(v, hex) != 0 then Numeral(Quotient(v, hex), hex, upper) else [];
      Numeral(v, hex, upper) == front + [DigitChar(Remainder(v, hex), upper)]
  {
  }

  // digits[val % base]; val /= base
  method TakeDigit(v: nat, hex: bool, upper: bool, ghost room: nat) returns (digit: char, rest: nat)
    requires v < Limit(hex, room + 1)
    ensures Numeral(v, hex, upper) == (if rest != 0 then Numeral(rest, hex, upper) else []) + [digit]
    ensures rest < Limit(hex, room) && (v > 0 ==> rest < v) && (room == 0 ==> rest == 0)
  {
    var digits := if upper then UPPER_DIGITS else LOWER_DIGITS;
    OneDigitLess(v, hex, room);
    NumeralStep(v, hex, upper);
    DigitTable(Remainder(v, hex));
    digit, rest := digits[Remainder(v, hex)], Quotient(v, hex);
  }

  // *--numbuf_end = digit
  method PutBefore(buf: array<char>, start: nat, digit: char)
    requires buf.Length == NUMBUFSIZ && 0 < start <= NUMBUFSIZ - 1
    modifies buf
    ensures buf[start - 1..NUMBUFSIZ - 1] == [digit] + old(buf[start..NUMBUFSIZ - 1])
    ensures buf[NUMBUFSIZ - 1] == old(buf[NUMBUFSIZ - 1]) && forall i :: 0 <= i < start - 1 ==> buf[i] == old(buf[i])
  {
    buf[start - 1] := digit;
  }

  // The digits of a number that are still to be written once it has been divided; none for 0.
  function Front(v: nat, hex: bool, upper: bool): string {
    if v != 0 then Numeral(v, hex, upper) else []
  }

  // One round of fill_numbuf's loop: the last digit of v goes before what has been written.
  method EmitDigit(buf: array<char>, start: nat, v: nat, hex: bool, upper: bool, ghost left: nat) returns (rest: nat)
    requires buf.Length == NUMBUFSIZ && 0 < start <= NUMBUFSIZ - 1 && 0 < left && v < Limit(hex, left)
    modifies buf
    ensures Numeral(v, hex, upper) + old(buf[start..NUMBUFSIZ - 1])
         == Front(rest, hex, upper) + buf[start - 1..NUMBUFSIZ - 1]
    ensures buf[NUMBUFSIZ - 1] == old(buf[NUMBUFSIZ - 1]) && forall i :: 0 <= i < start - 1 ==> buf[i] == old(buf[i])
    ensures rest < Limit(hex, left - 1) && (v > 0 ==> rest < v) && (left == 1 ==> rest == 0)
  {
    var digit;
    digit, rest := TakeDigit(v, hex, upper, left - 1);
    PutBefore(buf, start, digit);
    Regroup(Front(rest, hex, upper), digit, old(buf[start..NUMBUFSIZ - 1]));
  }

  lemma Regroup(front: string, digit: char, tail: string)
    ensures front + [digit] + tail == front + ([digit] + tail)
  {
  }

  // Writes the numeral at the end of the buffer; a negative base selects lower-case digits.
  // The loop never leaves the buffer: a 64-bit value has at most 20 decimal or 16 hexadecimal digits.
  method FillNumbuf(buf: array<char>, value: nat, base: int) returns (start: nat)
    requires buf.Length == NUMBUFSIZ && value <= ULONG_MAX && base in {10, 16, -16}
    modifies buf
    ensures NUMBUFSIZ - 1 - Room(base != 10) <= start < NUMBUFSIZ - 1
    ensures buf[start..NUMBUFSIZ - 1] == Numeral(value, base != 10, base >= 0)
    ensures buf[NUMBUFSIZ - 1] == '\0' && forall i :: 0 <= i < start ==> buf[i] == old(buf[i])
  {
    var hex, upper := base != 10, base >= 0;
    ghost var left: nat, goal := Room(hex), Numeral(value, hex, upper);
    FitsRoom(hex);
    start := NUMBUFSIZ - 1;
    buf[start] := '\0';
    var val: nat := EmitDigit(buf, start, value, hex, upper, left);
    assert goal == goal + [];
    start, left := start - 1, left - 1;
    while val != 0
      invariant start == NUMBUFSIZ - 1 - Room(hex) + left < NUMBUFSIZ - 1
      invariant val < Limit(hex, left) && (left == 0 ==> val == 0)
      invariant goal == Front(val, hex, upper) + buf[start..NUMBUFSIZ - 1]
      invariant buf[NUMBUFSIZ - 1] == '\0' && forall i :: 0 <= i < start ==> buf[i] == old(buf[i])
      decreases val
    {
      val := EmitDigit(buf, start, val, hex, upper, left);
      start, left := start - 1, left - 1;
    }
    assert goal == [] + buf[start..NUMBUFSIZ - 1];
  }

  lemma {:induction false} NumeralValue(v: nat, hex: bool, upper: bool)
    ensures AllDigits(Numeral(v, hex, upper), Radix(hex)) && Value(Numeral(v, hex, upper), Radix(hex)) == v
    decreases v
  {
    var q := Quotient(v, hex);
    if q == 0 {
      LastDigit([], v, hex, upper);
    } else {
      NumeralValue(q, hex, upper);
      LastDigit(Numeral(q, hex, upper), v, hex, upper);
    }
    NumeralStep(v, hex, upper);
  }

  // A positive base prints no lower-case letter, and a negative one no upper-case letter.
  lemma {:induction false} NumeralCase(v: nat, hex: bool, upper: bool)
    ensures forall i :: 0 <= i < |Numeral(v, hex, upper)| ==>
      var c := Numeral(v, hex, upper)[i];
      '0' <= c <= '9' || (if upper then 'A' <= c <= 'F' else 'a' <= c <= 'f')
    decreases v
  {
    DigitCase(Remainder(v, hex));
    if Quotient(v, hex) != 0 {
      NumeralCase(Quotient(v, hex), hex, upper);
    }
    NumeralStep(v, hex, upper);
  }

  lemma LastDigit(front: string, v: nat, hex: bool, upper: bool)
    requires AllDigits(front, Radix(hex)) && Value(front, Radix(hex)) == Quotient(v, hex)
    ensures
      var s := front + [DigitChar(Remainder(v, hex), upper)];
      AllDigits(s, Radix(hex)) && Value(s, Radix(hex)) == v
  {
    var d := Remainder(v, hex);
    DigitCharParses(d, upper, Radix(hex));
    NumeralMore(front, DigitChar(d, upper), Radix(hex));
  }

  lemma NumeralMore(front: string, c: char, base: nat)
    requires AllDigits(front, base) && DigitOf(c, base).Some?
    ensures AllDigits(front + [c], base)
    ensures Value(front + [c], base) == Value(front, base) * base + DigitOf(c, base).value
  {
    assert (front + [c])[..|front|] == front;
    TimesIsProduct(Value(front, base), base);
  }

  // Parsing what was printed gives back exactly the number, for every 64-bit value.
  lemma PrintThenParse(v: nat, hex: bool, upper: bool)
    requires v <= ULONG_MAX
    ensures Parse(Numeral(v, hex, upper), Radix(hex)) == (v, |Numeral(v, hex, upper)|)
  {
    NumeralValue(v, hex, upper);
    ParseNumeral(Numeral(v, hex, upper), Radix(hex));
  }

  // The smallest number that does not fit, with a minus sign: strtoul returns 1, not ULONG_MAX.
  lemma NegativeOverflow() returns (s: string)
    ensures AllDigits(s, 10) && Value(s, 10) == TWO_64 && Parse("-" + s, 10).0 == 1
  {
    s := Numeral(TWO_64, false, true);
    NumeralValue(TWO_64, false, true);
    StrtoulNegative(s, 10);
  }
}
