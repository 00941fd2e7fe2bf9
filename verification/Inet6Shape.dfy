/** What an address printed by `inet_ntop6` of src/external/talloc/lib/replace/inet_ntop.c looks like. */
module Inet6Shape {
  import opened Basics
  import opened Inet6Text
  import opened Inet6Grammar

  // ----- numbers as texts -----

  predicate LowerHex(c: char) {
    '0' <= c <= '9' || 'a' <= c <= 'f'
  }

  function DigitOf(c: char): int {
    if c <= '9' then c as int - '0' as int else c as int - 'a' as int + 10
  }

  function ValueOf(p: string, base: nat): int {
    if p == "" then 0 else ValueOf(p[..|p| - 1], base) * base + DigitOf(p[|p| - 1])
  }

  /** p is the lower-case hexadecimal numeral of w, without spare zeros. */
  ghost predicate HexOf(p: string, w: nat) {
    p != "" && (forall k :: 0 <= k < |p| ==> LowerHex(p[k])) && (|p| > 1 ==> p[0] != '0') && ValueOf(p, 16) == w
  }

  /** p is the decimal numeral of n, without spare zeros. */
  ghost predicate DecOf(p: string, n: nat) {
    p != "" && (forall k :: 0 <= k < |p| ==> '0' <= p[k] <= '9') && (|p| > 1 ==> p[0] != '0') && ValueOf(p, 10) == n
  }

  lemma DigitIs(d: nat)
    requires d < 16
    ensures LowerHex(HexDigit(d)) && DigitOf(HexDigit(d)) == d
    ensures d < 10 ==> '0' <= HexDigit(d) <= '9'
    ensures HexDigit(d) == '0' <==> d == 0
  {
  }

  lemma LastDigit(p: string, c: char, base: nat)
    ensures ValueOf(p + [c], base) == ValueOf(p, base) * base + DigitOf(c)
  {
    assert (p + [c])[..|p + [c]| - 1] == p;
  }

  lemma HexStep(p: string, v: nat, d: nat)
    requires HexOf(p, v) && v > 0 && d < 16 && p[0] != '0'
    ensures HexOf(p + [HexDigit(d)], v * 16 + d) && (p + [HexDigit(d)])[0] != '0'
  {
    DigitIs(d);
    LastDigit(p, HexDigit(d), 16);
  }

  lemma {:induction false} HexIs(w: nat)
    ensures HexOf(Hex(w), w) && (w > 0 ==> Hex(w)[0] != '0')
    decreases w
  {
    if w < 16 {
      DigitIs(w);
      assert Hex(w) == [] + [HexDigit(w)];
      LastDigit([], HexDigit(w), 16);
    } else {
      HexIs(w / 16);
      HexStep(Hex(w / 16), w / 16, w % 16);
    }
  }

  lemma DecStep(p: string, v: nat, d: nat)
    requires DecOf(p, v) && v > 0 && d < 10 && p[0] != '0'
    ensures DecOf(p + [HexDigit(d)], v * 10 + d) && (p + [HexDigit(d)])[0] != '0'
  {
    DigitIs(d);
    LastDigit(p, HexDigit(d), 10);
  }

  lemma {:induction false} DecIs(n: nat)
    ensures DecOf(Dec(n), n) && (n > 0 ==> Dec(n)[0] != '0')
    decreases n
  {
    if n < 10 {
      DigitIs(n);
      assert Dec(n) == [] + [HexDigit(n)];
      LastDigit([], HexDigit(n), 10);
    } else {
      DecIs(n / 10);
      DecStep(Dec(n / 10), n / 10, n % 10);
    }
  }

  // ----- the shape of an address -----

  ghost predicate WordAt(src: seq<Byte>, ps: seq<string>, lo: nat, k: nat)
    requires Address(src)
  {
    k < |ps| && lo + k < 8 && HexOf(ps[k], Word(src, lo + k))
  }

  /** The words from lo up to hi, in order. */
  ghost predicate WordsFrom(src: seq<Byte>, ps: seq<string>, lo: nat, hi: nat)
    requires Address(src)
  {
    lo + |ps| == hi && forall k: nat {:trigger WordAt(src, ps, lo, k)} :: k < |ps| ==> WordAt(src, ps, lo, k)
  }

  /** The last four bytes. */
  ghost predicate Octets(src: seq<Byte>, os: seq<string>)
    requires Address(src)
  {
    |os| == 4 && DecOf(os[0], src[12]) && DecOf(os[1], src[13]) && DecOf(os[2], src[14]) && DecOf(os[3], src[15])
  }

  /** They are written as `d.d.d.d`. */
  ghost predicate QuadOf(src: seq<Byte>, p: string)
    requires Address(src)
  {
    exists os: seq<string> {:trigger Octets(src, os)} :: Octets(src, os) && p == Joined(os, '.')
  }

  /** Six zero words and one that is not, or five and 0xffff. */
  predicate LikeIPv4(src: seq<Byte>)
    requires Address(src)
  {
    && (forall i: nat :: i < 5 ==> Word(src, i) == 0)
    && ((Word(src, 5) == 0 && Word(src, 6) != 0) || Word(src, 5) == 0xffff)
  }

  /** The words from lo on; the last two as a quad where the address is like an IPv4 address. */
  ghost predicate LastFrom(src: seq<Byte>, ps: seq<string>, lo: nat)
    requires Address(src)
  {
    if LikeIPv4(src) then ps != [] && WordsFrom(src, ps[..|ps| - 1], lo, 6) && QuadOf(src, ps[|ps| - 1])
    else WordsFrom(src, ps, lo, 8)
  }

  ghost predicate ZeroWords(src: seq<Byte>, b: nat, e: nat)
    requires Address(src)
  {
    b <= e <= 8 && forall i: nat :: b <= i < e ==> Word(src, i) == 0
  }

  /** The longest run of zero words, and the first of these. */
  ghost predicate FirstLongest(src: seq<Byte>, b: nat, e: nat)
    requires Address(src)
  {
    && ZeroWords(src, b, e)
    && forall b': nat, e': nat :: ZeroWords(src, b', e') ==> e' - b' < e - b || (e' - b' == e - b && b <= b')
  }

  /** With the words from b to e left out for `::`. */
  ghost predicate GapShaped(src: seq<Byte>, b: nat, e: nat, s: string)
    requires Address(src)
  {
    exists front, back {:trigger Joined(front, ':'), Joined(back, ':')} ::
      && WordsFrom(src, front, 0, b) && LastFrom(src, back, e) && s == Joined(front, ':') + ("::" + Joined(back, ':'))
  }

  /** Eight words, where no two zero words are adjacent; or the words before the first longest run of zero words and those
      behind it, with `::` between them. */
  ghost predicate Shaped(src: seq<Byte>, s: string)
    requires Address(src)
  {
    if exists i: nat {:trigger Word(src, i)} :: i < 7 && Word(src, i) == 0 && Word(src, i + 1) == 0 then
      exists b: nat, e: nat {:trigger FirstLongest(src, b, e)} :: FirstLongest(src, b, e) && GapShaped(src, b, e, s)
    else
      exists ps {:trigger Joined(ps, ':')} :: WordsFrom(src, ps, 0, 8) && s == Joined(ps, ':')
  }

  lemma {:induction false} TextsAre(src: seq<Byte>, lo: nat, hi: nat, k: nat)
    requires Address(src) && lo <= hi <= 8 && k < hi - lo
    ensures WordAt(src, WordTexts(src, lo, hi), lo, k)
    decreases hi - lo
  {
    if k == 0 {
      HexIs(Word(src, lo));
    } else {
      TextsAre(src, lo + 1, hi, k - 1);
      assert WordTexts(src, lo, hi)[k] == WordTexts(src, lo + 1, hi)[k - 1];
    }
  }

  lemma TextsFrom(src: seq<Byte>, lo: nat, hi: nat)
    requires Address(src) && lo <= hi <= 8
    ensures WordsFrom(src, WordTexts(src, lo, hi), lo, hi)
  {
    forall k: nat | k < hi - lo ensures WordAt(src, WordTexts(src, lo, hi), lo, k) { TextsAre(src, lo, hi, k); }
  }

  lemma JoinedFour(a: string, b: string, c: string, d: string)
    ensures Joined([a, b, c, d], '.') == a + ("." + (b + ("." + (c + ("." + d)))))
  {
    assert [c, d][1..] == [d];
    assert Joined([c, d], '.') == c + ("." + d);
    assert [b, c, d][1..] == [c, d];
    assert Joined([b, c, d], '.') == b + ("." + (c + ("." + d)));
    assert [a, b, c, d][1..] == [b, c, d];
  }

  lemma DottedIs(src: seq<Byte>)
    requires Address(src)
    ensures QuadOf(src, Dotted(src[12], src[13], src[14], src[15]))
  {
    var a, b, c, d := Dec(src[12]), Dec(src[13]), Dec(src[14]), Dec(src[15]);
    DecIs(src[12]);
    DecIs(src[13]);
    DecIs(src[14]);
    DecIs(src[15]);
    assert Octets(src, [a, b, c, d]);
    JoinedFour(a, b, c, d);
  }

  lemma EmbeddedExactly(src: seq<Byte>, best: Run)
    requires Address(src) && Best(src, best)
    ensures Embedded(src, best) <==> LikeIPv4(src)
  {
    if Embedded(src, best) {
      assert ZeroRun(src, best.base, best.len);
      if best.len == 6 && Word(src, 6) == 0 { SevenZeros(src); }
    }
    if LikeIPv4(src) {
      var n := if Word(src, 5) == 0 then 6 else 5;
      assert ZeroRun(src, 0, n);
      RunWithin(src, best, n);
    }
  }

  lemma SevenZeros(src: seq<Byte>)
    requires Address(src) && ZeroRun(src, 0, 6) && Word(src, 6) == 0
    ensures ZeroRun(src, 0, 7)
  {
    forall i: nat | i < 7 ensures Word(src, i) == 0 { }
  }

  lemma RunWithin(src: seq<Byte>, best: Run, n: nat)
    requires Address(src) && Best(src, best) && 5 <= n <= 6 && ZeroRun(src, 0, n) && Word(src, n) != 0
    ensures best == Run(0, n)
  {
    assert ZeroRun(src, best.base, best.len);
  }

  // ----- what is printed has that shape -----

  function Tailed(ps: seq<string>): string {
    if ps == [] then "" else ":" + Joined(ps, ':')
  }

  lemma TailedMore(p: string, ps: seq<string>)
    ensures Joined([p] + ps, ':') == p + Tailed(ps) && Tailed([p] + ps) == ":" + (p + Tailed(ps))
  {
    assert ([p] + ps)[1..] == ps;
  }

  /** What is printed of the words from lo on. */
  function BackTexts(src: seq<Byte>, best: Run, lo: nat): seq<string>
    requires Address(src) && lo <= 8
  {
    if Embedded(src, best) && lo <= 6 then WordTexts(src, lo, 6) + [Dotted(src[12], src[13], src[14], src[15])]
    else WordTexts(src, lo, 8)
  }

  lemma BackMore(src: seq<Byte>, best: Run, i: nat)
    requires Address(src) && i < 8 && !(i == 6 && Embedded(src, best))
    ensures Tailed(BackTexts(src, best, i)) == ":" + (Hex(Word(src, i)) + Tailed(BackTexts(src, best, i + 1)))
  {
    var h := Hex(Word(src, i));
    assert BackTexts(src, best, i) == [h] + BackTexts(src, best, i + 1);
    TailedMore(h, BackTexts(src, best, i + 1));
  }

  lemma RestStep(src: seq<Byte>, best: Run, i: nat)
    requires Address(src) && 0 < i < 8 && !(i == 6 && Embedded(src, best)) && !Inside(best, i)
    ensures Rest(src, best, i) == ":" + (Hex(Word(src, i)) + Rest(src, best, i + 1))
  {
  }

  predicate Behind(best: Run, i: nat) {
    best.base == -1 || (0 <= best.base <= best.base + best.len < 8 && best.base + best.len <= i)
  }

  /** From word i on the texts are printed, each behind a colon. */
  ghost predicate Printed(src: seq<Byte>, best: Run, i: nat)
    requires Address(src)
  {
    i <= 8 && Rest(src, best, i) == Tailed(BackTexts(src, best, i))
  }

  lemma RestEnd(src: seq<Byte>, best: Run)
    requires Address(src) && Behind(best, 8) && !Embedded(src, best)
    ensures Printed(src, best, 8)
  {
  }

  lemma RestQuad(src: seq<Byte>, best: Run)
    requires Address(src) && Embedded(src, best)
    ensures Printed(src, best, 6)
  {
    var d := Dotted(src[12], src[13], src[14], src[15]);
    assert WordTexts(src, 6, 6) + [d] == [d] + [];
    TailedMore(d, []);
    assert d + Tailed([]) == d;
  }

  lemma RestMore(src: seq<Byte>, best: Run, i: nat)
    requires Address(src) && 0 < i < 8 && !(i == 6 && Embedded(src, best)) && !Inside(best, i) && Printed(src, best, i + 1)
    ensures Printed(src, best, i)
  {
    RestStep(src, best, i);
    BackMore(src, best, i);
  }

  /** Behind the run, or without one. */
  lemma {:induction false} RestBehind(src: seq<Byte>, best: Run, i: nat)
    requires Address(src) && 0 < i <= 8 && Behind(best, i) && (Embedded(src, best) ==> i <= 6)
    ensures Printed(src, best, i)
    decreases 8 - i
  {
    if i == 8 {
      RestEnd(src, best);
    } else if i == 6 && Embedded(src, best) {
      RestQuad(src, best);
    } else {
      RestBehind(src, best, i + 1);
      RestMore(src, best, i);
    }
  }

  lemma RestAfter(src: seq<Byte>, best: Run)
    requires Address(src) && 0 <= best.base && 0 < best.len && best.base + best.len <= 8
    requires Embedded(src, best) ==> best.base + best.len <= 6
    ensures Rest(src, best, best.base + best.len) == ":" + Joined(BackTexts(src, best, best.base + best.len), ':')
  {
    var e := best.base + best.len;
    if e < 8 {
      RestBehind(src, best, e);
      BackSome(src, best, e);
    }
  }

  lemma BackSome(src: seq<Byte>, best: Run, lo: nat)
    requires Address(src) && lo < 8
    ensures BackTexts(src, best, lo) != []
  {
  }

  lemma RestSkips(src: seq<Byte>, best: Run, i: nat)
    requires Address(src) && i < 8 && Inside(best, i) && i != best.base
    ensures Rest(src, best, i) == Rest(src, best, i + 1)
  {
    assert "" + Rest(src, best, i + 1) == Rest(src, best, i + 1);
  }

  lemma {:induction false} RestInside(src: seq<Byte>, best: Run, i: nat)
    requires Address(src) && 0 <= best.base < i <= best.base + best.len <= 8
    ensures Rest(src, best, i) == Rest(src, best, best.base + best.len)
    decreases 8 - i
  {
    if i < best.base + best.len {
      RestSkips(src, best, i);
      RestInside(src, best, i + 1);
    }
  }

  lemma {:induction false} RestFront(src: seq<Byte>, best: Run, i: nat)
    requires Address(src) && i <= best.base && 0 < best.len && best.base + best.len <= 8
    requires Embedded(src, best) ==> best.base + best.len <= 6
    ensures var front := WordTexts(src, i, best.base);
      Rest(src, best, i) == (if i > 0 then Tailed(front) else Joined(front, ':')) + ("::" + Joined(BackTexts(src, best, best.base + best.len), ':'))
    decreases best.base - i
  {
    var t := Joined(BackTexts(src, best, best.base + best.len), ':');
    if i == best.base {
      RestInside(src, best, i + 1);
      RestAfter(src, best);
      Assoc(":", ":", t);
      assert ":" + ":" == "::";
      assert "" + ("::" + t) == "::" + t;
    } else {
      RestFront(src, best, i + 1);
      if i > 0 { RestStep(src, best, i); }
      var h, m := Hex(Word(src, i)), Tailed(WordTexts(src, i + 1, best.base));
      TailedMore(h, WordTexts(src, i + 1, best.base));
      FrontStep(h, m, "::" + t);
    }
  }

  lemma FrontStep(h: string, m: string, r: string)
    ensures h + (m + r) == (h + m) + r && ":" + (h + (m + r)) == (":" + (h + m)) + r && "" + (h + (m + r)) == h + (m + r)
  {
  }

  lemma BackIs(src: seq<Byte>, best: Run)
    requires Address(src) && Best(src, best) && best.base >= 0
    ensures var lo := best.base + best.len; lo <= 8 && LastFrom(src, BackTexts(src, best, lo), lo)
  {
    var lo := best.base + best.len;
    assert ZeroRun(src, best.base, best.len);
    EmbeddedExactly(src, best);
    if Embedded(src, best) {
      var ps := BackTexts(src, best, lo);
      assert ps[..|ps| - 1] == WordTexts(src, lo, 6);
      TextsFrom(src, lo, 6);
      DottedIs(src);
    } else {
      TextsFrom(src, lo, 8);
    }
  }

  lemma WholeText(src: seq<Byte>, best: Run)
    requires Address(src) && best.base == -1
    ensures Ntop6(src, best) == Joined(WordTexts(src, 0, 8), ':')
  {
    var h := Hex(Word(src, 0));
    RestBehind(src, best, 1);
    TailedMore(h, WordTexts(src, 1, 8));
    assert "" + (h + Rest(src, best, 1)) == h + Rest(src, best, 1);
  }

  lemma NoGap(src: seq<Byte>, best: Run, i: nat)
    requires Address(src) && Best(src, best) && best.base == -1 && i < 7
    ensures !(Word(src, i) == 0 && Word(src, i + 1) == 0)
  {
    if Word(src, i) == 0 && Word(src, i + 1) == 0 { assert ZeroRun(src, i, 2); }
  }

  lemma BestIsLongest(src: seq<Byte>, best: Run)
    requires Address(src) && Best(src, best) && best.base >= 0
    ensures 0 <= best.base && 2 <= best.len && best.base + best.len <= 8
    ensures FirstLongest(src, best.base, best.base + best.len)
    ensures Word(src, best.base) == 0 && Word(src, best.base + 1) == 0
  {
    assert ZeroRun(src, best.base, best.len);
    forall b: nat, e: nat | ZeroWords(src, b, e) ensures e - b < best.len || (e - b == best.len && best.base <= b) {
      if b < e { assert ZeroRun(src, b, e - b); }
    }
  }

  /** The printed text: lower-case words without spare zeros, `::` for the first longest run of two zero words or more, and a
      dotted quad exactly where the address is like an IPv4 address. */
  lemma TextShaped(src: seq<Byte>, best: Run)
    requires Address(src) && Best(src, best)
    ensures Shaped(src, Ntop6(src, best))
  {
    if best.base == -1 {
      forall i: nat | i < 7 ensures !(Word(src, i) == 0 && Word(src, i + 1) == 0) { NoGap(src, best, i); }
      WholeText(src, best);
      TextsFrom(src, 0, 8);
    } else {
      BestIsLongest(src, best);
      GapText(src, best);
    }
  }

  lemma GapText(src: seq<Byte>, best: Run)
    requires Address(src) && Best(src, best) && 0 <= best.base && 2 <= best.len && best.base + best.len <= 8
    ensures GapShaped(src, best.base, best.base + best.len, Ntop6(src, best))
  {
    BackIs(src, best);
    TextsFrom(src, 0, best.base);
    RestFront(src, best, 0);
  }
}
