/** What the chunks of a format print (src/external/talloc/lib/replace/snprintf.c), and where that is what section 7.21.6.1 of
    C11 asks for. */
module PrintfText {
  const TWO64: nat := 0x1_0000_0000_0000_0000
  const LLONG_MIN: int := -0x8000_0000_0000_0000
  const LLONG_MAX: int := 0x7FFF_FFFF_FFFF_FFFF

  /** DP_F_MINUS, DP_F_PLUS, DP_F_SPACE, DP_F_ZERO, DP_F_UP and DP_F_UNSIGNED. */
  datatype Flags = Flags(minus: bool, plus: bool, space: bool, zero: bool, upper: bool, unsigned: bool)

  type Long = v: int | LLONG_MIN <= v <= LLONG_MAX

  /** A chunk with its value; min is the width, max the precision (-1 where none is given). */
  datatype Chunk =
    | Literal(text: string)
    | Integer(value: Long, base: nat, min: int, max: int, flags: Flags)
    | Str(text: string, min: int, max: int, minus: bool)
    | Character(c: char)
    | Percent

  predicate Known(c: Chunk) {
    c.Integer? ==> c.base == 8 || c.base == 10 || c.base == 16
  }

  function Max(a: int, b: int): int {
    if a >= b then a else b
  }

  function Repeat(c: char, n: int): (s: string)
    ensures |s| == Max(n, 0) && forall i :: 0 <= i < |s| ==> s[i] == c
  {
    if n <= 0 then "" else [c] + Repeat(c, n - 1)
  }

  // ----- integers -----

  /** The magnitude that is converted. */
  function Magnitude(v: Long, unsigned: bool): (u: nat)
    ensures u < TWO64
  {
    var x: int := v;
    if x >= 0 then x else if unsigned then x + TWO64 else -x
  }

  function SignOf(v: Long, f: Flags): string {
    if f.unsigned then ""
    else if v < 0 then "-"
    else if f.plus then "+"
    else if f.space then " "
    else ""
  }

  const LOWER := "0123456789abcdef"
  const UPPER := "0123456789ABCDEF"

  function Digit(d: nat, upper: bool): (c: char)
    requires d < 16
    ensures c != ' ' && c != '+' && c != '-' && (c == '0' <==> d == 0)
  {
    if upper then UPPER[d] else LOWER[d]
  }

  function Digits(u: nat, base: nat, upper: bool): (s: string)
    requires 2 <= base <= 16
    ensures |s| > 0
  {
    if u < base then [Digit(u, upper)] else Digits(u / base, base, upper) + [Digit(u % base, upper)]
  }

  /** What `fmtint` prints. */
  function IntText(v: Long, base: nat, min: int, max: int, f: Flags): string
    requires 2 <= base <= 16
  {
    LayOut(Digits(Magnitude(v, f.unsigned), base, f.upper), SignOf(v, f), min, max, f)
  }

  function LayOut(digits: string, sign: string, min: int, max: int, f: Flags): string {
    var spad := Max(min - Max(Max(max, 0), |digits|) - |sign|, 0);
    var zpad := Max(Max(max, 0) - |digits|, 0);
    var zeros := if f.zero then Max(zpad, spad) else zpad;
    var spaces := if f.zero then 0 else spad;
    (if f.minus then "" else Repeat(' ', spaces)) + sign + Repeat('0', zeros) + digits
    + (if f.minus then Repeat(' ', spaces) else "")
  }

  // ----- everything -----

  /** How much of a string is printed. */
  function Shown(text: string, max: int): (n: nat)
    ensures n <= |text|
  {
    if max == -1 || max >= |text| then |text| else Max(max, 0)
  }

  function Padded(s: string, width: int, left: bool): string {
    if left then s + Repeat(' ', width - |s|) else Repeat(' ', width - |s|) + s
  }

  function ChunkText(c: Chunk): string
    requires Known(c)
  {
    match c
    case Literal(text) => text
    case Integer(v, base, min, max, f) => IntText(v, base, min, max, f)
    case Str(text, min, max, minus) => Padded(text[..Shown(text, max)], min, minus)
    case Character(ch) => [ch]
    case Percent => "%"
  }

  /** The whole output, not cut off. */
  function Text(cs: seq<Chunk>): string
    requires forall c :: c in cs ==> Known(c)
  {
    if cs == [] then "" else ChunkText(cs[0]) + Text(cs[1..])
  }

  lemma {:induction false} TextMore(cs: seq<Chunk>, k: nat)
    requires (forall c :: c in cs ==> Known(c)) && k < |cs|
    ensures Text(cs[..k + 1]) == Text(cs[..k]) + ChunkText(cs[k])
  {
    if k == 0 {
      assert cs[..1] == [cs[0]];
    } else {
      TextMore(cs[1..], k - 1);
      assert cs[..k + 1][1..] == cs[1..][..k] && cs[..k][1..] == cs[1..][..k - 1];
    }
  }

  // ----- the digits -----

  function DigitValue(c: char): (d: nat)
    ensures d < 16
  {
    if '0' <= c <= '9' then c as int - '0' as int
    else if 'a' <= c <= 'f' then c as int - 'a' as int + 10
    else if 'A' <= c <= 'F' then c as int - 'A' as int + 10
    else 0
  }

  /** The number that digits denote. */
  function Denotes(s: string, base: nat): nat {
    if s == "" then 0 else Denotes(s[..|s| - 1], base) * base + DigitValue(s[|s| - 1])
  }

  lemma DigitIs(d: nat, upper: bool)
    requires d < 16
    ensures DigitValue(Digit(d, upper)) == d
  {
    assert LOWER[d] == if d < 10 then ('0' as int + d) as char else ('a' as int + d - 10) as char;
    assert UPPER[d] == if d < 10 then ('0' as int + d) as char else ('A' as int + d - 10) as char;
  }

  /** The digits denote the number, and the first one is zero only for zero. */
  lemma {:induction false} DigitsDenote(u: nat, base: nat, upper: bool)
    requires 2 <= base <= 16
    ensures Denotes(Digits(u, base, upper), base) == u
    ensures Digits(u, base, upper)[0] == '0' <==> u == 0
    decreases u
  {
    var s := Digits(u, base, upper);
    DigitIs(u % base, upper);
    if u < base {
      DigitIs(u, upper);
      assert s[..0] == "";
    } else {
      Smaller(u, base);
      DigitsDenote(u / base, base, upper);
      assert s[..|s| - 1] == Digits(u / base, base, upper);
    }
  }

  lemma Smaller(u: nat, base: nat)
    requires 2 <= base <= u
    ensures 0 < u / base < u && u / base * base + u % base == u
  {
  }

  function Pow8(k: nat): nat {
    if k == 0 then 1 else 8 * Pow8(k - 1)
  }

  lemma {:induction false} DigitsFew(u: nat, base: nat, upper: bool, k: nat)
    requires base == 8 || base == 10 || base == 16
    requires k > 0 && u < Pow8(k)
    ensures |Digits(u, base, upper)| <= k
    decreases k
  {
    if u >= base {
      assert k > 1 by { assert Pow8(1) == 8 * Pow8(0); }
      assert u / base <= u / 8 < Pow8(k - 1);
      DigitsFew(u / base, base, upper, k - 1);
    }
  }

  /** The conversion buffer of `fmtint` has 22 places for digits, and that is enough. */
  lemma DigitsFit(v: Long, base: nat, f: Flags)
    requires base == 8 || base == 10 || base == 16
    ensures |Digits(Magnitude(v, f.unsigned), base, f.upper)| <= 22
  {
    assert Pow8(4) == 0x1000 by { assert Pow8(2) == 8 * Pow8(1); }
    assert Pow8(8) == 0x100_0000 by { assert Pow8(6) == 8 * Pow8(5); }
    assert Pow8(12) == 0x10_0000_0000 by { assert Pow8(10) == 8 * Pow8(9); }
    assert Pow8(16) == 0x1_0000_0000_0000 by { assert Pow8(14) == 8 * Pow8(13); }
    assert Pow8(20) == 0x1000_0000_0000_0000 by { assert Pow8(18) == 8 * Pow8(17); }
    assert Pow8(22) == 64 * Pow8(20) by { assert Pow8(21) == 8 * Pow8(20); }
    DigitsFew(Magnitude(v, f.unsigned), base, f.upper, 22);
  }

  lemma {:induction false} OnlyDigits(u: nat, base: nat, upper: bool, i: nat)
    requires 2 <= base <= 16 && i < |Digits(u, base, upper)|
    ensures Digits(u, base, upper)[i] !in " +-"
    decreases u
  {
    if u >= base {
      Smaller(u, base);
      if i < |Digits(u / base, base, upper)| {
        OnlyDigits(u / base, base, upper, i);
      }
    }
  }

  // ----- C11 -----

  function Abs(x: int): nat {
    if x < 0 then -x else x
  }

  /** The sign of a conversion: a signed one writes `-` for negative values, and for others `+` or a space as the flags say,
      of which `+` counts. */
  function C11Sign(v: Long, f: Flags): string {
    match (f.unsigned, v < 0, f.plus, f.space)
    case (false, true, _, _) => "-"
    case (false, false, true, _) => "+"
    case (false, false, false, true) => " "
    case _ => ""
  }

  /** The number written: an unsigned conversion reads the value modulo 2^64. */
  function C11Number(v: Long, unsigned: bool): nat {
    var x: int := v;
    if unsigned then x % TWO64 else Abs(x)
  }

  /** c is a digit of the base, a letter of the case asked for. */
  predicate IsDigit(c: char, base: nat, upper: bool) {
    DigitValue(c) < base && ('0' <= c <= '9' || if upper then 'A' <= c <= 'F' else 'a' <= c <= 'f')
  }

  /** s is the number u in the base, without spare zeros. */
  predicate IsNumeral(s: string, u: nat, base: nat, upper: bool) {
    && s != "" && (|s| > 1 ==> s[0] != '0')
    && (forall i :: 0 <= i < |s| ==> IsDigit(s[i], base, upper))
    && Denotes(s, base) == u
  }

  /** t is s in a field of that width. */
  predicate IsField(t: string, s: string, width: int, left: bool) {
    && |t| == Max(|s|, width)
    && if left then t[..|s|] == s && Blank(t[|s|..]) else t[|t| - |s|..] == s && Blank(t[..|t| - |s|])
  }

  predicate Blank(text: string) {
    forall i :: 0 <= i < |text| ==> text[i] == ' '
  }

  /** An integer conversion as C11 has it: the precision is the least number of digits, zero with precision zero has none, a
      negative width means `-`, and the flag `0` counts for nothing beside `-` or a precision. */
  ghost predicate C11Prints(t: string, v: Long, base: nat, width: int, precision: int, f: Flags) {
    exists ds {:trigger IsNumeral(ds, C11Number(v, f.unsigned), base, f.upper)} ::
      && IsNumeral(ds, C11Number(v, f.unsigned), base, f.upper)
      && C11LaidOut(t, if v == 0 && precision == 0 then "" else ds, C11Sign(v, f), width, precision, f)
  }

  predicate C11LaidOut(t: string, significant: string, sign: string, width: int, precision: int, f: Flags) {
    var digits := Repeat('0', precision - |significant|) + significant;
    if f.zero && !f.minus && width >= 0 && precision < 0 then
      t == sign + Repeat('0', width - |sign| - |digits|) + digits
    else
      IsField(t, sign + digits, Abs(width), f.minus || width < 0)
  }

  /** The same as a function of what `fmtint` computes. */
  function C11Int(v: Long, base: nat, width: int, precision: int, f: Flags): string
    requires 2 <= base <= 16
  {
    var u := Magnitude(v, f.unsigned);
    C11LayOut(if u == 0 && precision == 0 then "" else Digits(u, base, f.upper), SignOf(v, f), width, precision, f)
  }

  function C11LayOut(significant: string, sign: string, width: int, precision: int, f: Flags): string {
    var digits := Repeat('0', precision - |significant|) + significant;
    if f.zero && !f.minus && width >= 0 && precision < 0 then
      sign + Repeat('0', width - |sign| - |digits|) + digits
    else
      Padded(sign + digits, Abs(width), f.minus || width < 0)
  }

  /** There is one field of a width. */
  lemma FieldIs(t: string, s: string, width: int, left: bool)
    ensures IsField(t, s, width, left) <==> t == Padded(s, width, left)
  {
    var pad := Repeat(' ', width - |s|);
    assert (s + pad)[..|s|] == s && (s + pad)[|s|..] == pad;
    assert (pad + s)[..|pad|] == pad && (pad + s)[|pad|..] == s;
    if IsField(t, s, width, left) {
      if left { assert t == t[..|s|] + t[|s|..]; } else { assert t == t[..|t| - |s|] + t[|t| - |s|..]; }
    }
  }

  lemma SignAndNumber(v: Long, f: Flags)
    ensures SignOf(v, f) == C11Sign(v, f) && Magnitude(v, f.unsigned) == C11Number(v, f.unsigned)
  {
  }

  lemma DigitIsDigit(d: nat, base: nat, upper: bool)
    requires d < base <= 16
    ensures IsDigit(Digit(d, upper), base, upper)
  {
    DigitIs(d, upper);
    assert LOWER[d] == if d < 10 then ('0' as int + d) as char else ('a' as int + d - 10) as char;
    assert UPPER[d] == if d < 10 then ('0' as int + d) as char else ('A' as int + d - 10) as char;
  }

  lemma {:induction false} DigitsAreDigits(u: nat, base: nat, upper: bool)
    requires 2 <= base <= 16
    ensures forall i :: 0 <= i < |Digits(u, base, upper)| ==> IsDigit(Digits(u, base, upper)[i], base, upper)
    decreases u
  {
    DigitIsDigit(u % base, base, upper);
    if u >= base {
      Smaller(u, base);
      DigitsAreDigits(u / base, base, upper);
    }
  }

  lemma {:induction false} OneDigit(u: nat, base: nat, upper: bool)
    requires 2 <= base <= 16
    ensures |Digits(u, base, upper)| > 1 <==> u >= base
  {
  }

  lemma DigitsAreNumeral(u: nat, base: nat, upper: bool)
    requires 2 <= base <= 16
    ensures IsNumeral(Digits(u, base, upper), u, base, upper)
  {
    DigitsDenote(u, base, upper);
    DigitsAreDigits(u, base, upper);
    OneDigit(u, base, upper);
  }

  lemma SameDigit(c: char, base: nat, upper: bool)
    requires base <= 16 && IsDigit(c, base, upper)
    ensures c == Digit(DigitValue(c), upper)
  {
    var d := DigitValue(c);
    assert LOWER[d] == if d < 10 then ('0' as int + d) as char else ('a' as int + d - 10) as char;
    assert UPPER[d] == if d < 10 then ('0' as int + d) as char else ('A' as int + d - 10) as char;
  }

  lemma {:induction false} NotZero(s: string, base: nat, upper: bool)
    requires 2 <= base <= 16 && s != "" && s[0] != '0' && forall i :: 0 <= i < |s| ==> IsDigit(s[i], base, upper)
    ensures Denotes(s, base) > 0
    decreases |s|
  {
    var front, c := s[..|s| - 1], s[|s| - 1];
    if |s| > 1 {
      NotZero(front, base, upper);
      Times(1, Denotes(front, base), base);
    } else {
      NonzeroDigit(c, base, upper);
    }
  }

  lemma NonzeroDigit(c: char, base: nat, upper: bool)
    requires c != '0' && IsDigit(c, base, upper)
    ensures DigitValue(c) > 0
  {
  }

  /** There is one numeral of a number. */
  lemma {:induction false} NumeralIs(s: string, u: nat, base: nat, upper: bool)
    requires 2 <= base <= 16 && IsNumeral(s, u, base, upper)
    ensures s == Digits(u, base, upper)
    decreases |s|
  {
    NumeralParts(s, u, base, upper);
    var front := s[..|s| - 1];
    if |s| > 1 {
      NumeralIs(front, u / base, base, upper);
      assert s == front + [Digit(u % base, upper)];
    } else {
      LastDigit(s, u, base, upper);
    }
  }

  lemma LastDigit(s: string, u: nat, base: nat, upper: bool)
    requires 2 <= base <= 16 && |s| == 1 && u < base && s[0] == Digit(u % base, upper)
    ensures s == Digits(u, base, upper)
  {
    assert u % base == u;
    assert s == [s[0]];
  }

  lemma NumeralParts(s: string, u: nat, base: nat, upper: bool)
    requires 2 <= base <= 16 && IsNumeral(s, u, base, upper)
    ensures s[|s| - 1] == Digit(u % base, upper)
    ensures if |s| > 1 then u >= base && IsNumeral(s[..|s| - 1], u / base, base, upper) else u < base
  {
    var front, c := s[..|s| - 1], s[|s| - 1];
    SameDigit(c, base, upper);
    Split(Denotes(front, base), base, DigitValue(c), u);
    if |s| > 1 { NotZero(front, base, upper); }
  }

  lemma Split(q: nat, base: nat, r: nat, u: nat)
    requires r < base && u == q * base + r
    ensures u / base == q && u % base == r && (u >= base <==> q > 0)
  {
    var k, m := u / base, u % base;
    assert u == k * base + m;
    NotMore(k, q, base, m, r);
    NotMore(q, k, base, r, m);
  }

  lemma NotMore(k: nat, q: nat, base: nat, m: nat, r: nat)
    requires m < base && r < base && k * base + m == q * base + r
    ensures k <= q && (q == 0 ==> q * base + r < base) && (q > 0 ==> q * base >= base)
  {
    if q < k { Times(q + 1, k, base); }
    if q > 0 { Times(1, q, base); }
  }

  lemma Times(a: nat, b: nat, c: nat)
    requires a <= b
    ensures a * c <= b * c
  {
  }

  /** What `fmtint` is compared with below is what the standard asks for. */
  lemma C11IntIs(t: string, v: Long, base: nat, width: int, precision: int, f: Flags)
    requires 2 <= base <= 16
    ensures C11Prints(t, v, base, width, precision, f) <==> t == C11Int(v, base, width, precision, f)
  {
    var u := C11Number(v, f.unsigned);
    SignAndNumber(v, f);
    DigitsAreNumeral(u, base, f.upper);
    var ds := Digits(u, base, f.upper);
    LaidOut(t, if v == 0 && precision == 0 then "" else ds, C11Sign(v, f), width, precision, f);
    forall s | IsNumeral(s, u, base, f.upper) ensures s == ds { NumeralIs(s, u, base, f.upper); }
  }

  lemma LaidOut(t: string, significant: string, sign: string, width: int, precision: int, f: Flags)
    ensures C11LaidOut(t, significant, sign, width, precision, f) <==> t == C11LayOut(significant, sign, width, precision, f)
  {
    FieldIs(t, sign + (Repeat('0', precision - |significant|) + significant), Abs(width), f.minus || width < 0);
  }

  /** Whatever the width, the precision and the flags, the number can be read off: between blanks, of which there are some on
      one side at most, stand the sign, zeros, and the number. */
  lemma IntReads(v: Long, base: nat, min: int, max: int, f: Flags) returns (l: nat, z: nat, ds: string, r: nat)
    requires 2 <= base <= 16
    ensures IsNumeral(ds, C11Number(v, f.unsigned), base, f.upper)
    ensures IntText(v, base, min, max, f) == Repeat(' ', l) + C11Sign(v, f) + Repeat('0', z) + ds + Repeat(' ', r)
    ensures (f.minus ==> l == 0) && (!f.minus ==> r == 0) && z + |ds| >= max
  {
    SignAndNumber(v, f);
    ds := Digits(Magnitude(v, f.unsigned), base, f.upper);
    DigitsAreNumeral(Magnitude(v, f.unsigned), base, f.upper);
    var sign := SignOf(v, f);
    var spad := Max(min - Max(Max(max, 0), |ds|) - |sign|, 0);
    var zpad := Max(Max(max, 0) - |ds|, 0);
    z := if f.zero then Max(zpad, spad) else zpad;
    var spaces := if f.zero then 0 else spad;
    l, r := if f.minus then 0 else spaces, if f.minus then spaces else 0;
    assert IntText(v, base, min, max, f) == LayOut(ds, sign, min, max, f);
  }

  /** How much the output of `fmtint` falls short of the width before padding. */
  function Short(v: Long, base: nat, min: int, max: int, f: Flags): int
    requires 2 <= base <= 16
  {
    Abs(min) - |SignOf(v, f)| - Max(max, |Digits(Magnitude(v, f.unsigned), base, f.upper)|)
  }

  /** Where `fmtint` goes by the standard: not for zero with precision zero; and where there is something to pad, not with a
      negative width nor with the flag `0` beside `-` or a precision. */
  predicate IntConforms(v: Long, base: nat, min: int, max: int, f: Flags)
    requires 2 <= base <= 16
  {
    && !(v == 0 && max == 0)
    && (Short(v, base, min, max, f) <= 0 || (min >= 0 && !(f.zero && (f.minus || max >= 0))))
  }

  lemma NoneRepeated(c: char, n: int)
    ensures Repeat(c, n) == Repeat(c, Max(n, 0)) && (n <= 0 ==> Repeat(c, n) == "")
  {
  }

  lemma AgreesUnpadded(digits: string, sign: string, min: int, max: int, f: Flags)
    requires |digits| > 0 && Abs(min) - |sign| - Max(max, |digits|) <= 0
    ensures LayOut(digits, sign, min, max, f) == C11LayOut(digits, sign, min, max, f)
  {
    var zeros := Max(Max(max, 0) - |digits|, 0);
    var text := sign + (Repeat('0', zeros) + digits);
    NoneRepeated('0', max - |digits|);
    Regroup("", sign, Repeat('0', zeros), digits, "");
    NoneRepeated(' ', 0);
    assert LayOut(digits, sign, min, max, f) == text;
    NoneRepeated(' ', Abs(min) - |text|);
  }

  lemma AgreesZeros(digits: string, sign: string, min: int, max: int, f: Flags)
    requires |digits| > 0 && min - |sign| - |digits| > 0 && f.zero && !f.minus && max < 0
    ensures LayOut(digits, sign, min, max, f) == C11LayOut(digits, sign, min, max, f)
  {
    var pad := min - |sign| - |digits|;
    assert LayOut(digits, sign, min, max, f) == sign + Repeat('0', pad) + digits;
    assert Repeat('0', max - |digits|) + digits == digits;
  }

  lemma AgreesSpaces(digits: string, sign: string, min: int, max: int, f: Flags)
    requires |digits| > 0 && min - |sign| - Max(max, |digits|) > 0 && min >= 0 && !f.zero
    ensures LayOut(digits, sign, min, max, f) == C11LayOut(digits, sign, min, max, f)
  {
    var zeros := Repeat('0', max - |digits|);
    var pad := min - |sign| - Max(max, |digits|);
    assert C11LayOut(digits, sign, min, max, f) == Padded(sign + (zeros + digits), min, f.minus);
    if f.minus {
      Regroup("", sign, zeros, digits, Repeat(' ', pad));
    } else {
      Regroup(Repeat(' ', pad), sign, zeros, digits, "");
    }
  }

  lemma Regroup(a: string, b: string, c: string, d: string, e: string)
    ensures a + b + c + d + e == a + (b + (c + d)) + e
    ensures a == "" ==> a + b + c + d + e == b + (c + d) + e
    ensures e == "" ==> a + b + c + d + e == a + (b + (c + d))
  {
  }

  lemma IntAgrees(v: Long, base: nat, min: int, max: int, f: Flags)
    requires 2 <= base <= 16 && IntConforms(v, base, min, max, f)
    ensures IntText(v, base, min, max, f) == C11Int(v, base, min, max, f)
  {
    var digits, sign := Digits(Magnitude(v, f.unsigned), base, f.upper), SignOf(v, f);
    if Short(v, base, min, max, f) <= 0 {
      AgreesUnpadded(digits, sign, min, max, f);
    } else if f.zero {
      AgreesZeros(digits, sign, min, max, f);
    } else {
      AgreesSpaces(digits, sign, min, max, f);
    }
  }

  lemma HasIt(a: string, b: string, c: string, e: string)
    ensures '0' in a + b + c + ['0'] + e
  {
    var t := a + b + c + ['0'] + e;
    assert t[|a| + |b| + |c|] == '0';
  }

  lemma ZeroLaidOut(sign: string, min: int, f: Flags)
    requires '0' !in sign
    ensures '0' in LayOut(['0'], sign, min, 0, f) && '0' !in C11LayOut("", sign, min, 0, f)
  {
    var spad := Max(min - 1 - |sign|, 0);
    var zeros, spaces := if f.zero then spad else 0, if f.zero then 0 else spad;
    HasIt(if f.minus then "" else Repeat(' ', spaces), sign, Repeat('0', zeros), if f.minus then Repeat(' ', spaces) else "");
    assert sign + (Repeat('0', 0) + "") == sign;
    NoZeroPadded(sign, Abs(min), f.minus || min < 0);
  }

  lemma NoZeroPadded(s: string, width: int, left: bool)
    requires '0' !in s
    ensures '0' !in Padded(s, width, left)
  {
  }

  lemma ZeroShown(v: Long, base: nat, min: int, max: int, f: Flags)
    requires 2 <= base <= 16 && v == 0 && max == 0
    ensures IntText(v, base, min, max, f) != C11Int(v, base, min, max, f)
  {
    ZeroLaidOut(SignOf(v, f), min, f);
    assert Digits(0, base, f.upper) == ['0'];
  }

  lemma NegativeWidth(v: Long, base: nat, min: int, max: int, f: Flags)
    requires 2 <= base <= 16 && !(v == 0 && max == 0) && Short(v, base, min, max, f) > 0 && min < 0
    ensures |IntText(v, base, min, max, f)| < |C11Int(v, base, min, max, f)|
  {
  }

  lemma ZeroBesideMinus(v: Long, base: nat, min: int, max: int, f: Flags)
    requires 2 <= base <= 16 && !(v == 0 && max == 0) && Short(v, base, min, max, f) > 0 && min >= 0 && f.zero && f.minus
    ensures IntText(v, base, min, max, f) != C11Int(v, base, min, max, f)
  {
    var u := Magnitude(v, f.unsigned);
    var digits := Digits(u, base, f.upper);
    OnlyDigits(u, base, f.upper, |digits| - 1);
    var s, t := IntText(v, base, min, max, f), C11Int(v, base, min, max, f);
    assert s[|s| - 1] == digits[|digits| - 1];
    assert t[|t| - 1] == ' ';
  }

  lemma SpacesFirst(v: Long, base: nat, min: int, max: int, f: Flags)
    requires 2 <= base <= 16 && !(v == 0 && max == 0) && Short(v, base, min, max, f) > 0 && min >= 0 && !f.minus && max >= 0
    ensures var t, n := C11Int(v, base, min, max, f), |SignOf(v, f)|;
      n < |t| && t[n] in " +-"
  {
    var digits := Digits(Magnitude(v, f.unsigned), base, f.upper);
    var sign := SignOf(v, f);
    var pad := Short(v, base, min, max, f);
    var rest := sign + (Repeat('0', max - |digits|) + digits);
    var t := C11Int(v, base, min, max, f);
    assert t == Repeat(' ', pad) + rest;
    if |sign| >= pad {
      assert t[|sign|] == rest[|sign| - pad] == sign[0];
    } else {
      assert t[|sign|] == ' ';
    }
  }

  /** With a precision the flag `0` still fills, and up to whichever of the two is larger. */
  lemma ZeroBesidePrecision(v: Long, base: nat, min: int, max: int, f: Flags)
    requires 2 <= base <= 16 && !(v == 0 && max == 0) && Short(v, base, min, max, f) > 0 && min >= 0
    requires f.zero && !f.minus && max >= 0
    ensures IntText(v, base, min, max, f) != C11Int(v, base, min, max, f)
  {
    var digits := Digits(Magnitude(v, f.unsigned), base, f.upper);
    var sign := SignOf(v, f);
    SpacesFirst(v, base, min, max, f);
    var zeros := Max(Max(max - |digits|, 0), Short(v, base, min, max, f));
    assert IntText(v, base, min, max, f)[|sign|] == Repeat('0', zeros)[0];
  }

  /** `fmtint` prints what C11 asks for exactly under that condition. */
  lemma IntExact(v: Long, base: nat, min: int, max: int, f: Flags)
    requires 2 <= base <= 16
    ensures C11Prints(IntText(v, base, min, max, f), v, base, min, max, f) <==> IntConforms(v, base, min, max, f)
  {
    C11IntIs(IntText(v, base, min, max, f), v, base, min, max, f);
    if IntConforms(v, base, min, max, f) {
      IntAgrees(v, base, min, max, f);
    } else if v == 0 && max == 0 {
      ZeroShown(v, base, min, max, f);
    } else if min < 0 {
      NegativeWidth(v, base, min, max, f);
    } else if f.minus {
      ZeroBesideMinus(v, base, min, max, f);
    } else {
      ZeroBesidePrecision(v, base, min, max, f);
    }
  }

  /** A string conversion as C11 has it: a negative precision is none, a negative width means `-`. */
  predicate C11PrintsStr(t: string, text: string, width: int, precision: int, minus: bool) {
    IsField(t, if precision < 0 || precision >= |text| then text else text[..precision], Abs(width), minus || width < 0)
  }

  function C11Str(text: string, width: int, precision: int, minus: bool): string {
    var shown := if precision < 0 || precision >= |text| then text else text[..precision];
    Padded(shown, Abs(width), minus || width < 0)
  }

  lemma StrAgrees(text: string, min: int, max: int, minus: bool)
    ensures ChunkText(Str(text, min, max, minus)) == C11Str(text, min, max, minus) <==>
      && (max >= -1 || (Blank(text) && |text| <= Max(min, 0)))
      && (min >= 0 || -min <= Shown(text, max))
  {
    var s, t := ChunkText(Str(text, min, max, minus)), C11Str(text, min, max, minus);
    if max >= -1 {
      assert text[..Shown(text, max)] == if max < 0 || max >= |text| then text else text[..max];
    } else {
      assert text[..0] == "";
      assert s == Repeat(' ', min);
      var shift := if minus || min < 0 then 0 else Max(Abs(min) - |text|, 0);
      assert forall i :: 0 <= i < |text| ==> t[shift + i] == text[i];
      if s == t {
        assert forall i :: 0 <= i < |text| ==> s[shift + i] == text[i];
      }
    }
  }

  /** `fmtstr` prints what C11 asks for except where a negative width would pad, or a precision below -1 hides something. */
  lemma StrExact(text: string, min: int, max: int, minus: bool)
    ensures C11PrintsStr(ChunkText(Str(text, min, max, minus)), text, min, max, minus) <==>
      && (max >= -1 || (Blank(text) && |text| <= Max(min, 0)))
      && (min >= 0 || -min <= (if 0 <= max < |text| then max else if max < -1 then 0 else |text|))
  {
    FieldIs(ChunkText(Str(text, min, max, minus)), if max < 0 || max >= |text| then text else text[..max], Abs(min), minus || min < 0);
    StrAgrees(text, min, max, minus);
  }

  /** A character ignores its width; `%%` prints one `%`. */
  lemma CharExact(c: char, min: int, minus: bool)
    ensures IsField(ChunkText(Character(c)), [c], Abs(min), minus || min < 0) <==> Abs(min) <= 1
    ensures ChunkText(Percent) == ['%']
  {
    FieldIs(ChunkText(Character(c)), [c], Abs(min), minus || min < 0);
  }
}
