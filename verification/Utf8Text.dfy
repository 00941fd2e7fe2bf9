/** Characters of UTF-8 text as src/string/string.c cuts and compares them, and what that is on well-formed text
    (section 3 of RFC 3629). Text is a sequence of bytes without NUL. */
module Utf8Text {
  import opened Basics

  /** `(b & 0xC0) == 0x80`. */
  predicate Continues(b: Byte) {
    0x80 <= b < 0xC0
  }

  /** The bytes `come_string_len` counts. */
  function Len(s: seq<Byte>): nat {
    if s == [] then 0 else (if Continues(s[0]) then 0 else 1) + Len(s[1..])
  }

  /** Where the character that starts at p ends: one byte further and past all continuation bytes. */
  function Next(s: seq<Byte>, p: nat): (q: nat)
    requires p < |s|
    ensures p < q <= |s|
    decreases |s| - p
  {
    if p + 1 < |s| && Continues(s[p + 1]) then Next(s, p + 1) else p + 1
  }

  /** The text cut before every byte that does not continue a character. */
  function Chars(s: seq<Byte>): seq<seq<Byte>> {
    if s == [] then [] else [s[..Next(s, 0)]] + Chars(s[Next(s, 0)..])
  }

  function Flat(cs: seq<seq<Byte>>): seq<Byte> {
    if cs == [] then [] else cs[0] + Flat(cs[1..])
  }

  lemma {:induction false} CharsCover(s: seq<Byte>)
    ensures Flat(Chars(s)) == s
    decreases |s|
  {
    if s != [] {
      CharsCover(s[Next(s, 0)..]);
    }
  }

  lemma {:induction false} LenSkips(s: seq<Byte>, p: nat)
    requires p < |s|
    ensures Len(s[p..]) == (if Continues(s[p]) then 0 else 1) + Len(s[Next(s, p)..])
    ensures Next(s, p) < |s| ==> !Continues(s[Next(s, p)])
    decreases |s| - p
  {
    assert s[p..][1..] == s[p + 1..];
    if p + 1 < |s| && Continues(s[p + 1]) {
      LenSkips(s, p + 1);
    }
  }

  /** `come_string_len` is the number of characters, unless the text starts in the middle of one. */
  lemma {:induction false} LenCountsChars(s: seq<Byte>)
    ensures |Chars(s)| == Len(s) + (if s != [] && Continues(s[0]) then 1 else 0)
    decreases |s|
  {
    if s != [] {
      var q := Next(s, 0);
      LenSkips(s, 0);
      assert s[0..] == s;
      LenCountsChars(s[q..]);
      if q < |s| { assert s[q..][0] == s[q]; }
    }
  }

  lemma {:induction false} FlatLength(cs: seq<seq<Byte>>, k: nat)
    requires k < |cs| && forall i :: 0 <= i < |cs| ==> cs[i] != []
    ensures |Flat(cs[..k])| < |Flat(cs)|
  {
    if k > 0 {
      FlatLength(cs[1..], k - 1);
      assert cs[..k][1..] == cs[1..][..k - 1];
    }
  }

  lemma {:induction false} CharsNotEmpty(s: seq<Byte>, i: nat)
    requires i < |Chars(s)|
    ensures Chars(s)[i] != []
    decreases |s|
  {
    if i > 0 {
      CharsNotEmpty(s[Next(s, 0)..], i - 1);
    }
  }

  /** Putting the characters below `come_string_len` together gives the text back exactly when the text does not start in
      the middle of a character. */
  lemma PiecesJoin(s: seq<Byte>)
    ensures Len(s) <= |Chars(s)|
    ensures Flat(Chars(s)[..Len(s)]) == s <==> s == [] || !Continues(s[0])
  {
    LenCountsChars(s);
    CharsCover(s);
    if s == [] || !Continues(s[0]) {
      assert Chars(s)[..Len(s)] == Chars(s);
    } else {
      forall i | 0 <= i < |Chars(s)| ensures Chars(s)[i] != [] {
        CharsNotEmpty(s, i);
      }
      FlatLength(Chars(s), Len(s));
    }
  }

  // ----- positions -----

  /** Where the first k characters end. */
  function Start(s: seq<Byte>, k: nat): (p: nat)
    requires k <= |Chars(s)|
    ensures p <= |s|
    decreases |s|
  {
    if k == 0 then 0 else Next(s, 0) + Start(s[Next(s, 0)..], k - 1)
  }

  lemma {:induction false} NextShift(s: seq<Byte>, d: nat, p: nat)
    requires d + p < |s|
    ensures Next(s, d + p) == d + Next(s[d..], p)
    decreases |s| - p
  {
    if p + 1 < |s[d..]| {
      assert s[d..][p + 1] == s[d + p + 1];
      NextShift(s, d, p + 1);
    }
  }

  lemma {:induction false} StartInside(s: seq<Byte>, k: nat)
    requires k <= |Chars(s)|
    ensures k < |Chars(s)| <==> Start(s, k) < |s|
    decreases |s|
  {
    if k > 0 {
      StartInside(s[Next(s, 0)..], k - 1);
    }
  }

  lemma StartMore(s: seq<Byte>, k: nat)
    requires k < |Chars(s)|
    ensures var d := Next(s, 0);
      d <= |s| && k <= |Chars(s[d..])| && Start(s, k + 1) == d + Start(s[d..], k) && Chars(s) == [s[..d]] + Chars(s[d..])
  {
  }

  /** The k-th character goes from where the first k end to the next start. */
  ghost predicate StepsOver(s: seq<Byte>, k: nat) {
    && k < |Chars(s)| && Start(s, k) < |s| && Start(s, k + 1) == Next(s, Start(s, k))
    && s[Start(s, k)..Start(s, k + 1)] == Chars(s)[k]
  }

  lemma FirstStep(s: seq<Byte>)
    requires Chars(s) != []
    ensures StepsOver(s, 0)
  {
    StartMore(s, 0);
    assert Start(s[Next(s, 0)..], 0) == 0;
  }

  lemma LaterStep(s: seq<Byte>, k: nat, d: nat, i: nat, j: nat)
    requires k < |Chars(s)| && d <= |s| && Start(s, k) == d + i && Start(s, k + 1) == d + j
    requires i < |s[d..]| && j == Next(s[d..], i) && s[d..][i..j] == Chars(s)[k]
    ensures StepsOver(s, k)
  {
    StepMoves(s, d, i, j);
  }

  lemma StepBefore(s: seq<Byte>, k: nat) returns (d: nat, i: nat, j: nat)
    requires k + 1 < |Chars(s)| && Next(s, 0) <= |s| && StepsOver(s[Next(s, 0)..], k)
    ensures d <= |s| && Start(s, k + 1) == d + i && Start(s, k + 2) == d + j
    ensures i < |s[d..]| && j == Next(s[d..], i) && s[d..][i..j] == Chars(s)[k + 1]
  {
    d := Next(s, 0);
    i, j := Start(s[d..], k), Start(s[d..], k + 1);
    StartMore(s, k);
    StartMore(s, k + 1);
  }

  lemma StepMoves(s: seq<Byte>, d: nat, i: nat, j: nat)
    requires d <= |s| && i < |s[d..]| && j == Next(s[d..], i)
    ensures d + i < |s| && d + j == Next(s, d + i) && s[d + i..d + j] == s[d..][i..j]
  {
    NextShift(s, d, i);
    Shifted(s, d, i, j);
  }

  /** Stepping over one more character. */
  lemma {:induction false} StartStep(s: seq<Byte>, k: nat)
    requires k < |Chars(s)|
    ensures StepsOver(s, k)
    decreases |s|
  {
    if k == 0 {
      FirstStep(s);
    } else {
      StartMore(s, k - 1);
      StartStep(s[Next(s, 0)..], k - 1);
      var d, i, j := StepBefore(s, k - 1);
      LaterStep(s, k, d, i, j);
    }
  }

  lemma Shifted(s: seq<Byte>, d: nat, i: nat, j: nat)
    requires d <= |s| && i <= j <= |s[d..]|
    ensures s[d + i..d + j] == s[d..][i..j]
  {
  }

  lemma Adjoining(s: seq<Byte>, a: nat, b: nat, c: nat)
    requires a <= b <= c <= |s|
    ensures s[a..c] == s[a..b] + s[b..c]
  {
  }

  lemma {:induction false} StartMonotone(s: seq<Byte>, j: nat, k: nat)
    requires j <= k <= |Chars(s)|
    ensures Start(s, j) <= Start(s, k)
    ensures s[Start(s, j)..Start(s, k)] == Flat(Chars(s)[j..k])
    decreases k
  {
    if j < k {
      StartMonotone(s, j, k - 1);
      StartStep(s, k - 1);
      FlatLast(Chars(s)[j..k]);
      assert Chars(s)[j..k][..k - 1 - j] == Chars(s)[j..k - 1];
      Adjoining(s, Start(s, j), Start(s, k - 1), Start(s, k));
    }
  }

  lemma {:induction false} FlatLast(cs: seq<seq<Byte>>)
    requires cs != []
    ensures Flat(cs) == Flat(cs[..|cs| - 1]) + cs[|cs| - 1]
  {
    if |cs| > 1 {
      FlatLast(cs[1..]);
      assert cs[..|cs| - 1][1..] == cs[1..][..|cs| - 2];
    }
  }

  function Clip(n: nat, i: nat): nat {
    if i < n then i else n
  }

  /** Characters i to j - 1, as far as there are any. */
  function Slice(s: seq<Byte>, i: nat, j: nat): seq<Byte> {
    var n := |Chars(s)|;
    if Clip(n, i) <= Clip(n, j) then Flat(Chars(s)[Clip(n, i)..Clip(n, j)]) else []
  }

  /** One character is what `come_string_at` gives, and behind the last there is none. */
  lemma SliceOne(s: seq<Byte>, i: nat)
    ensures Slice(s, i, i + 1) == if i < |Chars(s)| then Chars(s)[i] else []
  {
    if i < |Chars(s)| {
      var cs := Chars(s)[i..i + 1];
      assert cs == [Chars(s)[i]];
      FlatLast(cs);
      assert cs[..0] == [];
    }
  }

  /** Adjoining slices join. */
  lemma SliceJoin(s: seq<Byte>, i: nat, j: nat, k: nat)
    requires i <= j <= k
    ensures Slice(s, i, k) == Slice(s, i, j) + Slice(s, j, k)
  {
    var n, cs := |Chars(s)|, Chars(s);
    var a, b, c := Clip(n, i), Clip(n, j), Clip(n, k);
    assert cs[a..c] == cs[a..b] + cs[b..c];
    FlatTwo(cs[a..b], cs[b..c]);
  }

  lemma {:induction false} FlatTwo(a: seq<seq<Byte>>, b: seq<seq<Byte>>)
    ensures Flat(a + b) == Flat(a) + Flat(b)
  {
    if a == [] {
      assert a + b == b;
    } else {
      FlatTwo(a[1..], b);
      assert (a + b)[1..] == a[1..] + b && (a + b)[0] == a[0];
    }
  }

  /** The whole text is one slice, and what starts where it ends or before is empty. */
  lemma SliceAll(s: seq<Byte>, i: nat, j: nat)
    requires j <= i
    ensures Slice(s, 0, |Chars(s)|) == s && Slice(s, i, j) == []
  {
    CharsCover(s);
    assert Chars(s)[0..|Chars(s)|] == Chars(s);
  }

  // ----- comparison -----

  /** `come_utf8_char_width`, of what is left of the text. */
  function Width(s: seq<Byte>): (w: nat)
    requires s != []
    ensures 0 < w <= |s|
  {
    Clip(|s|, Announced(s[0]))
  }

  /** The length the first byte of a character announces. */
  function Announced(b: Byte): nat {
    if 0xC0 <= b < 0xE0 then 2 else if 0xE0 <= b < 0xF0 then 3 else if 0xF0 <= b < 0xF8 then 4 else 1
  }

  /** The first difference of two characters; their lengths decide where one begins with the other. */
  function CharDiff(p: seq<Byte>, q: seq<Byte>): int {
    if p == [] || q == [] then |p| - |q|
    else if p[0] != q[0] then p[0] - q[0]
    else CharDiff(p[1..], q[1..])
  }

  /** A byte of a C string, with the NUL at its end. */
  function At(s: seq<Byte>, i: nat): Byte
    requires i <= |s|
  {
    if i < |s| then s[i] else 0
  }

  /** `come_string_cmp` for n > 0. */
  function Compare(a: seq<Byte>, b: seq<Byte>, n: nat): int {
    if n == 0 then 0
    else if a == [] || b == [] then At(a, 0) - At(b, 0)
    else
      var d := CharDiff(a[..Width(a)], b[..Width(b)]);
      if d != 0 then d else Compare(a[Width(a)..], b[Width(b)..], n - 1)
  }

  /** `strcmp`. */
  function ByteOrder(a: seq<Byte>, b: seq<Byte>): int {
    if a == [] || b == [] || a[0] != b[0] then At(a, 0) - At(b, 0) else ByteOrder(a[1..], b[1..])
  }

  function Sign(x: int): int {
    if x < 0 then -1 else if x > 0 then 1 else 0
  }

  // ----- well-formed text -----

  /** A Unicode scalar value other than NUL. */
  type CodePoint = c: int | 0 < c <= 0x10FFFF && !(0xD800 <= c <= 0xDFFF) witness 1

  /** A continuation byte with the last six bits. */
  function Trail(c: nat): (b: Byte)
    ensures Continues(b)
  {
    0x80 + c % 0x40
  }

  /** The bits before those. */
  function Above(c: nat): nat {
    c / 0x40
  }

  /** The table of section 3 of RFC 3629. */
  function Encode(c: CodePoint): (s: seq<Byte>)
    ensures 1 <= |s| <= 4
  {
    if c < 0x80 then
      [c]
    else if c < 0x800 then
      assert Above(c) < 0x20;
      [0xC0 + Above(c), Trail(c)]
    else if c < 0x1_0000 then
      assert Above(c) < 0x400;
      assert Above(Above(c)) < 0x10;
      [0xE0 + Above(Above(c)), Trail(Above(c)), Trail(c)]
    else
      assert Above(c) < 0x4400;
      assert Above(Above(c)) < 0x110;
      assert Above(Above(Above(c))) < 8;
      [0xF0 + Above(Above(Above(c))), Trail(Above(Above(c))), Trail(Above(c)), Trail(c)]
  }

  function EncodeAll(cs: seq<CodePoint>): seq<Byte> {
    if cs == [] then [] else Encode(cs[0]) + EncodeAll(cs[1..])
  }

  lemma StartsFresh(cs: seq<CodePoint>)
    ensures cs != [] ==> EncodeAll(cs) != [] && !Continues(EncodeAll(cs)[0])
  {
    if cs != [] { EncodeShape(cs[0]); }
  }

  lemma EncodeShape(c: CodePoint)
    ensures Announced(Encode(c)[0]) == |Encode(c)|
    ensures forall i :: 0 <= i < |Encode(c)| ==> Encode(c)[i] > 0 && (Continues(Encode(c)[i]) <==> i > 0)
  {
    if 0x800 <= c < 0x1_0000 {
      assert Above(c) < 0x400;
      assert Above(Above(c)) < 0x10;
    } else if 0x1_0000 <= c {
      assert Above(c) < 0x4400;
      assert Above(Above(c)) < 0x110;
    }
  }

  lemma {:induction false} NextAfter(s: seq<Byte>, p: nat, w: nat)
    requires p < w <= |s| && (w < |s| ==> !Continues(s[w])) && forall i :: p < i < w ==> Continues(s[i])
    ensures Next(s, p) == w
    decreases w - p
  {
    if p + 1 < w {
      NextAfter(s, p + 1, w);
    }
  }

  /** The character at the front is the first code point, by its continuation bytes and by the width it announces. */
  lemma FirstChar(c: CodePoint, rest: seq<CodePoint>)
    ensures var s := Encode(c) + EncodeAll(rest);
      Next(s, 0) == |Encode(c)| == Width(s) && s[..|Encode(c)|] == Encode(c) && s[|Encode(c)|..] == EncodeAll(rest)
    ensures Encode(c)[0] > 0
  {
    EncodeShape(c);
    StartsFresh(rest);
    NextAfter(Encode(c) + EncodeAll(rest), 0, |Encode(c)|);
  }

  /** On well-formed text the characters are the code points. */
  lemma {:induction false} CharsAreCodePoints(cs: seq<CodePoint>)
    ensures |Chars(EncodeAll(cs))| == |cs| == Len(EncodeAll(cs))
    ensures forall i :: 0 <= i < |cs| ==> Chars(EncodeAll(cs))[i] == Encode(cs[i])
  {
    if cs != [] {
      FirstChar(cs[0], cs[1..]);
      CharsAreCodePoints(cs[1..]);
      assert Chars(EncodeAll(cs)) == [Encode(cs[0])] + Chars(EncodeAll(cs[1..]));
      StartsFresh(cs);
      LenCountsChars(EncodeAll(cs));
    }
  }

  lemma SplitOrder(x: nat, y: nat)
    requires x < y
    ensures Above(x) < Above(y) || (Above(x) == Above(y) && Trail(x) < Trail(y))
  {
  }

  ghost predicate Before(p: seq<Byte>, q: seq<Byte>) {
    exists i :: 0 <= i < |p| && i < |q| && p[i] < q[i] && forall j :: 0 <= j < i ==> p[j] == q[j]
  }

  lemma BeforeAt(p: seq<Byte>, q: seq<Byte>, i: nat)
    requires i < |p| && i < |q| && p[i] < q[i] && forall j :: 0 <= j < i ==> p[j] == q[j]
    ensures Before(p, q)
  {
  }

  /** The order of two code points shows at the first byte where they differ. */
  lemma EncodeOrder(x: CodePoint, y: CodePoint)
    requires x < y
    ensures Before(Encode(x), Encode(y))
  {
    if y < 0x80 || (x < 0x80 <= y) || (x < 0x800 <= y) || (x < 0x1_0000 <= y) {
      BeforeAt(Encode(x), Encode(y), 0);
    } else {
      SplitOrder(x, y);
      if y < 0x800 {
        BeforeAt(Encode(x), Encode(y), if Above(x) < Above(y) then 0 else 1);
      } else {
        LongOrder(x, y);
      }
    }
  }

  lemma LongOrder(x: CodePoint, y: CodePoint)
    requires x < y && ((0x800 <= x && y < 0x1_0000) || 0x1_0000 <= x)
    ensures Before(Encode(x), Encode(y))
  {
    SplitOrder(x, y);
    var n := |Encode(x)|;
    if Above(x) == Above(y) {
      BeforeAt(Encode(x), Encode(y), n - 1);
    } else {
      SplitOrder(Above(x), Above(y));
      if Above(Above(x)) == Above(Above(y)) {
        BeforeAt(Encode(x), Encode(y), n - 2);
      } else if n == 3 {
        BeforeAt(Encode(x), Encode(y), 0);
      } else {
        SplitOrder(Above(Above(x)), Above(Above(y)));
        BeforeAt(Encode(x), Encode(y), if Above(Above(Above(x))) == Above(Above(Above(y))) then 1 else 0);
      }
    }
  }

  lemma {:induction false} DiffBefore(p: seq<Byte>, q: seq<Byte>)
    requires Before(p, q)
    ensures CharDiff(p, q) < 0 < CharDiff(q, p)
  {
    var i :| 0 <= i < |p| && i < |q| && p[i] < q[i] && forall j :: 0 <= j < i ==> p[j] == q[j];
    if i > 0 {
      BeforeAt(p[1..], q[1..], i - 1);
      DiffBefore(p[1..], q[1..]);
    }
  }

  /** The order of code point sequences, first difference first. */
  function Lexicographic(a: seq<CodePoint>, b: seq<CodePoint>): int {
    if a == [] || b == [] then Sign(|a| - |b|)
    else if a[0] < b[0] then -1
    else if a[0] > b[0] then 1
    else Lexicographic(a[1..], b[1..])
  }

  lemma {:induction false} SameChar(p: seq<Byte>)
    ensures CharDiff(p, p) == 0
  {
    if p != [] { SameChar(p[1..]); }
  }

  lemma PrefixRest(a: seq<CodePoint>, n: nat)
    requires a != [] && n > 0
    ensures var p := a[..Clip(|a|, n)]; p != [] && p[0] == a[0] && p[1..] == a[1..][..Clip(|a[1..]|, n - 1)]
  {
  }

  /** On well-formed text `come_string_cmp` orders the first n characters of both by code point. */
  lemma {:induction false} CompareIsOrder(a: seq<CodePoint>, b: seq<CodePoint>, n: nat)
    ensures Sign(Compare(EncodeAll(a), EncodeAll(b), n)) == Lexicographic(a[..Clip(|a|, n)], b[..Clip(|b|, n)])
    decreases n
  {
    if n > 0 && a != [] && b != [] {
      FirstChar(a[0], a[1..]);
      FirstChar(b[0], b[1..]);
      PrefixRest(a, n);
      PrefixRest(b, n);
      if a[0] < b[0] {
        EncodeOrder(a[0], b[0]);
        DiffBefore(Encode(a[0]), Encode(b[0]));
      } else if b[0] < a[0] {
        EncodeOrder(b[0], a[0]);
        DiffBefore(Encode(b[0]), Encode(a[0]));
      } else {
        SameChar(Encode(a[0]));
        CompareIsOrder(a[1..], b[1..], n - 1);
      }
    } else if n > 0 {
      if a != [] { FirstChar(a[0], a[1..]); }
      if b != [] { FirstChar(b[0], b[1..]); }
    }
  }

  lemma {:induction false} ByteOrderAfter(p: seq<Byte>, a: seq<Byte>, b: seq<Byte>)
    ensures ByteOrder(p + a, p + b) == ByteOrder(a, b)
  {
    if p == [] {
      assert p + a == a && p + b == b;
    } else {
      ByteOrderAfter(p[1..], a, b);
      assert (p + a)[1..] == p[1..] + a && (p + b)[1..] == p[1..] + b;
    }
  }

  /** The byte order, which n = 0 asks for, is the order by code point of the whole texts. */
  lemma {:induction false} BytesAreOrder(a: seq<CodePoint>, b: seq<CodePoint>)
    ensures Sign(ByteOrder(EncodeAll(a), EncodeAll(b))) == Lexicographic(a, b)
    decreases |a|
  {
    if a != [] { FirstChar(a[0], a[1..]); }
    if b != [] { FirstChar(b[0], b[1..]); }
    if a != [] && b != [] {
      if a[0] == b[0] {
        ByteOrderAfter(Encode(a[0]), EncodeAll(a[1..]), EncodeAll(b[1..]));
        BytesAreOrder(a[1..], b[1..]);
      } else if a[0] < b[0] {
        BytesDiffer(a[0], b[0], EncodeAll(a[1..]), EncodeAll(b[1..]));
      } else {
        BytesDiffer(b[0], a[0], EncodeAll(b[1..]), EncodeAll(a[1..]));
      }
    }
  }

  lemma BytesDiffer(x: CodePoint, y: CodePoint, a: seq<Byte>, b: seq<Byte>)
    requires x < y
    ensures ByteOrder(Encode(x) + a, Encode(y) + b) < 0 < ByteOrder(Encode(y) + b, Encode(x) + a)
  {
    EncodeOrder(x, y);
    var p, q := Encode(x), Encode(y);
    var i :| 0 <= i < |p| && i < |q| && p[i] < q[i] && forall j :: 0 <= j < i ==> p[j] == q[j];
    BeforeAt(p + a, q + b, i);
    OrderBefore(p + a, q + b);
  }

  lemma {:induction false} OrderBefore(p: seq<Byte>, q: seq<Byte>)
    requires Before(p, q)
    ensures ByteOrder(p, q) < 0 < ByteOrder(q, p)
  {
    var i :| 0 <= i < |p| && i < |q| && p[i] < q[i] && forall j :: 0 <= j < i ==> p[j] == q[j];
    if i > 0 {
      BeforeAt(p[1..], q[1..], i - 1);
      OrderBefore(p[1..], q[1..]);
    }
  }
}
