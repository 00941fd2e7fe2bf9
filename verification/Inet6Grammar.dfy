/** Which texts `inet_pton6` of src/external/talloc/lib/replace/inet_pton.c takes for addresses, and what it reads them as. */
module Inet6Grammar {
  import opened Basics
  import opened Inet6Text

  // ----- pieces between separators -----

  function Joined(ps: seq<string>, sep: char): string {
    if ps == [] then "" else if |ps| == 1 then ps[0] else ps[0] + ([sep] + Joined(ps[1..], sep))
  }

  function Pieces(s: string, sep: char): (ps: seq<string>)
    ensures |ps| > 0
  {
    if s == "" then [""]
    else
      var ps := Pieces(s[1..], sep);
      if s[0] == sep then [""] + ps else [[s[0]] + ps[0]] + ps[1..]
  }

  ghost predicate Free(ps: seq<string>, sep: char) {
    forall i :: 0 <= i < |ps| ==> sep !in ps[i]
  }

  lemma {:induction false} PiecesJoin(s: string, sep: char)
    ensures Joined(Pieces(s, sep), sep) == s && Free(Pieces(s, sep), sep)
  {
    if s != "" {
      PiecesJoin(s[1..], sep);
      var ps, t := Pieces(s, sep), Pieces(s[1..], sep);
      if s[0] == sep {
        assert ps[1..] == t;
      } else {
        assert ps[1..] == t[1..];
        assert s == [s[0]] + s[1..];
        assert |t| > 1 ==> [s[0]] + t[0] + ([sep] + Joined(t[1..], sep)) == [s[0]] + (t[0] + ([sep] + Joined(t[1..], sep)));
      }
    }
  }

  // ----- words and dotted quads -----

  /** The value of the hexadecimal digits q behind digits worth val, if it stays in 16 bits. */
  function Digits(q: string, val: nat): (r: Option<nat>)
    requires val <= 0xffff
    ensures r.Some? ==> r.value <= 0xffff
    decreases |q|
  {
    if q == "" then Some(val)
    else if HexValue(q[0]) < 0 || val * 16 + HexValue(q[0]) > 0xffff then None
    else Digits(q[1..], val * 16 + HexValue(q[0]))
  }

  /** Digits, as many as you like, that are worth at most 0xffff. */
  predicate IsWord(p: string) {
    p != "" && Digits(p, 0).Some?
  }

  predicate IsQuad(p: string) {
    Pton4(p).Some?
  }

  function PieceBytes(p: string): seq<Byte> {
    if IsWord(p) then [Digits(p, 0).value / 256, Digits(p, 0).value % 256]
    else if IsQuad(p) then Pton4(p).value
    else []
  }

  function AllBytes(ps: seq<string>): seq<Byte> {
    if ps == [] then [] else PieceBytes(ps[0]) + AllBytes(ps[1..])
  }

  // ----- the addresses -----

  /** An address as pieces between colons: words, of which the last may be a dotted quad or missing, and at most one gap, the
      piece between the two colons of `::`. Without a gap there are sixteen bytes, with one no more. */
  ghost predicate Body(ps: seq<string>, gap: int) {
    && |ps| > 0 && Free(ps, ':') && -1 <= gap < |ps| - 1
    && (forall i :: 0 <= i < |ps| - 1 ==> if i == gap then ps[i] == "" else IsWord(ps[i]))
    && (var last := ps[|ps| - 1]; last == "" || IsWord(last) || IsQuad(last))
    && (if gap == -1 then |AllBytes(ps)| == 16 else |AllBytes(ps)| <= 16)
  }

  /** The text of such an address: one that begins with its gap has another colon in front. */
  ghost predicate Spells(s: string, ps: seq<string>, gap: int) {
    Body(ps, gap) && s == (if gap == 0 then ":" else "") + Joined(ps, ':')
  }

  function Value(ps: seq<string>, gap: int): seq<Byte>
    requires -1 <= gap < |ps| && |AllBytes(ps)| <= 16 && (gap >= 0 ==> |AllBytes(ps[..gap])| <= |AllBytes(ps)|)
  {
    if gap == -1 then AllBytes(ps) else Expand(AllBytes(ps), |AllBytes(ps[..gap])|)
  }

  lemma {:induction false} BytesSplit(ps: seq<string>, n: nat)
    requires n <= |ps|
    ensures AllBytes(ps) == AllBytes(ps[..n]) + AllBytes(ps[n..])
    decreases n
  {
    if n > 0 {
      BytesSplit(ps[1..], n - 1);
      assert ps[..n][1..] == ps[1..][..n - 1] && ps[1..][n - 1..] == ps[n..];
    } else {
      assert ps[..0] == [] && ps[0..] == ps;
    }
  }

  // ----- reading one piece -----

  /** The digits of q end at a dot. */
  predicate DotFirst(q: string, val: nat)
    decreases |q|
  {
    q != "" && if HexValue(q[0]) < 0 then q[0] == '.' else val * 16 + HexValue(q[0]) <= 0xffff && DotFirst(q[1..], val * 16 + HexValue(q[0]))
  }

  /** What the scan makes of q, in which no colon is, and what follows. */
  lemma {:induction false} PieceScanned(q: string, rest: string, tok: string, out: seq<Byte>, colon: int, saw: bool, val: nat)
    requires ':' !in q && |out| <= 16 && -1 <= colon <= |out| && val <= 0xffff
    ensures Scan6(q + rest, tok, out, colon, saw, val) ==
              if Digits(q, val).Some? then Scan6(rest, tok, out, colon, saw || q != "", Digits(q, val).value)
              else if DotFirst(q, val) && |out| + 4 <= 16 && Pton4(tok).Some? then Scanned(out + Pton4(tok).value, colon)
              else Bad
    decreases |q|
  {
    if q == "" {
      assert q + rest == rest;
    } else {
      assert (q + rest)[1..] == q[1..] + rest;
      if HexValue(q[0]) >= 0 && val * 16 + HexValue(q[0]) <= 0xffff {
        PieceScanned(q[1..], rest, tok, out, colon, true, val * 16 + HexValue(q[0]));
      }
    }
  }

  /** No dotted quad has a colon in it. */
  lemma {:induction false} QuadFree(s: string, bs: seq<Byte>, saw: bool)
    requires 0 < |bs| <= 4 && ':' in s
    ensures Scan4(s, bs, saw).None?
    decreases |s|
  {
    assert s == [s[0]] + s[1..];
    if '0' <= s[0] <= '9' && bs[|bs| - 1] * 10 + HexValue(s[0]) <= 255 {
      QuadFree(s[1..], bs[..|bs| - 1] + [bs[|bs| - 1] * 10 + HexValue(s[0])], true);
    } else if s[0] == '.' && saw && |bs| < 4 {
      QuadFree(s[1..], bs + [0], false);
    }
  }

  /** The first octet of a quad is harmless to the hexadecimal scan. */
  lemma {:induction false} QuadDots(q: string, n: Byte, saw: bool, val: nat)
    requires Scan4(q, [n], saw).Some? && val < 4096 && (n < 100 ==> val < 256) && (n < 10 ==> val < 16) && (n == 0 ==> val == 0)
    ensures DotFirst(q, val) && Digits(q, val).None?
    decreases |q|
  {
    if '0' <= q[0] <= '9' {
      assert [n][..0] + [n * 10 + HexValue(q[0])] == [n * 10 + HexValue(q[0])];
      QuadDots(q[1..], n * 10 + HexValue(q[0]), true, val * 16 + HexValue(q[0]));
    }
  }

  /** A piece at the end of the text. */
  lemma LastPiece(p: string, out: seq<Byte>, colon: int)
    requires ':' !in p && |out| <= 16 && -1 <= colon <= |out|
    ensures Scan6(p, p, out, colon, false, 0) ==
              if (p == "" || IsWord(p) || IsQuad(p)) && |out + PieceBytes(p)| <= 16 then Scanned(out + PieceBytes(p), colon) else Bad
  {
    PieceScanned(p, "", p, out, colon, false, 0);
    assert p + "" == p;
    if IsQuad(p) { QuadDots(p, 0, false, 0); }
    if p == "" { assert out + [] == out; }
  }

  /** A piece with a colon behind it. */
  lemma InnerPiece(p: string, rest: string, out: seq<Byte>, colon: int)
    requires ':' !in p && |out| <= 16 && -1 <= colon <= |out|
    ensures Scan6(p + (":" + rest), p + (":" + rest), out, colon, false, 0) ==
              if p == "" then if colon >= 0 then Bad else Scan6(rest, rest, out, |out|, false, 0)
              else if IsWord(p) && |out + PieceBytes(p)| <= 16 then Scan6(rest, rest, out + PieceBytes(p), colon, false, 0)
              else Bad
  {
    var tok := p + (":" + rest);
    PieceScanned(p, ":" + rest, tok, out, colon, false, 0);
    assert (":" + rest)[1..] == rest;
    assert tok[|p|] == ':';
    QuadFree(tok, [0], false);
  }

  // ----- reading all pieces -----

  /** The same shape as `Body`, piece by piece; `gapped` tells whether there was a gap before. */
  predicate Shape(ps: seq<string>, gapped: bool)
    requires |ps| > 0
  {
    if |ps| == 1 then ps[0] == "" || IsWord(ps[0]) || IsQuad(ps[0])
    else if ps[0] == "" then !gapped && Shape(ps[1..], true)
    else IsWord(ps[0]) && Shape(ps[1..], gapped)
  }

  /** The place of the gap, or -1. */
  function Gap(ps: seq<string>): (gap: int)
    ensures -1 <= gap && (gap >= 0 ==> gap < |ps| - 1 && ps[gap] == "")
  {
    if |ps| <= 1 then -1 else if ps[0] == "" then 0 else if Gap(ps[1..]) < 0 then -1 else Gap(ps[1..]) + 1
  }

  lemma {:induction false} PiecesScanned(ps: seq<string>, out: seq<Byte>, colon: int)
    requires |ps| > 0 && Free(ps, ':') && |out| <= 16 && -1 <= colon <= |out|
    ensures var s := Joined(ps, ':');
      Scan6(s, s, out, colon, false, 0) ==
        if Shape(ps, colon >= 0) && |out + AllBytes(ps)| <= 16
        then Scanned(out + AllBytes(ps), if colon >= 0 || Gap(ps) < 0 then colon else |out + AllBytes(ps[..Gap(ps)])|)
        else Bad
    decreases |ps|
  {
    var p, t := ps[0], ps[1..];
    if |ps| == 1 {
      LastPiece(p, out, colon);
      assert AllBytes(ps) == PieceBytes(p) + [];
    } else {
      var rest := Joined(t, ':');
      InnerPiece(p, rest, out, colon);
      if p == "" {
        if colon < 0 { PiecesScanned(t, out, |out|); }
        assert ps[..0] == [] && PieceBytes(p) == [];
        assert out + AllBytes([]) == out && [] + AllBytes(t) == AllBytes(t);
      } else if IsWord(p) {
        assert out + (PieceBytes(p) + AllBytes(t)) == out + PieceBytes(p) + AllBytes(t);
        if |out + PieceBytes(p)| <= 16 {
          PiecesScanned(t, out + PieceBytes(p), colon);
          if Gap(t) >= 0 { FrontBytes(ps, out, Gap(t)); }
        }
      }
    }
  }

  lemma FrontBytes(ps: seq<string>, out: seq<Byte>, g: nat)
    requires |ps| > 1 && g < |ps| - 1
    ensures out + AllBytes(ps[..g + 1]) == out + PieceBytes(ps[0]) + AllBytes(ps[1..][..g])
  {
    var front := ps[..g + 1];
    assert front[1..] == ps[1..][..g] && front[0] == ps[0];
    BytesAssoc(out, PieceBytes(ps[0]), AllBytes(front[1..]));
  }

  lemma BytesAssoc(a: seq<Byte>, b: seq<Byte>, c: seq<Byte>)
    ensures a + (b + c) == a + b + c
  {
  }

  // ----- the two shapes agree -----

  lemma {:induction false} ShapeIsBody(ps: seq<string>, gapped: bool)
    requires |ps| > 0 && Shape(ps, gapped)
    ensures gapped ==> Gap(ps) == -1
    ensures forall i :: 0 <= i < |ps| - 1 ==> if i == Gap(ps) then ps[i] == "" else IsWord(ps[i])
    ensures var last := ps[|ps| - 1]; last == "" || IsWord(last) || IsQuad(last)
    decreases |ps|
  {
    if |ps| > 1 {
      var t := ps[1..];
      ShapeIsBody(t, gapped || ps[0] == "");
      forall i | 0 <= i < |ps| - 1 ensures if i == Gap(ps) then ps[i] == "" else IsWord(ps[i]) {
        if i > 0 { assert ps[i] == t[i - 1]; }
      }
      assert ps[|ps| - 1] == t[|t| - 1];
    }
  }

  lemma {:induction false} BodyIsShape(ps: seq<string>, gap: int, gapped: bool)
    requires |ps| > 0 && -1 <= gap < |ps| - 1 && (gapped ==> gap == -1)
    requires forall i :: 0 <= i < |ps| - 1 ==> if i == gap then ps[i] == "" else IsWord(ps[i])
    requires var last := ps[|ps| - 1]; last == "" || IsWord(last) || IsQuad(last)
    ensures Shape(ps, gapped) && Gap(ps) == gap
    decreases |ps|
  {
    if |ps| > 1 {
      var t := ps[1..];
      assert t[|t| - 1] == ps[|ps| - 1];
      var g := if gap > 0 then gap - 1 else -1;
      forall i | 0 <= i < |t| - 1 ensures if i == g then t[i] == "" else IsWord(t[i]) { assert t[i] == ps[i + 1]; }
      BodyIsShape(t, g, gapped || gap == 0);
    }
  }

  /** A text that does not begin with a colon has a first piece, unless it is empty. */
  lemma {:induction false} JoinedStarts(ps: seq<string>)
    requires |ps| > 0 && Free(ps, ':')
    ensures var s := Joined(ps, ':'); (|s| > 0 && s[0] == ':') <==> |ps| > 1 && ps[0] == ""
  {
  }

  lemma ScanIs(ps: seq<string>)
    requires |ps| > 0 && Free(ps, ':')
    ensures var s := Joined(ps, ':');
      Scan6(s, s, [], -1, false, 0) ==
        if Shape(ps, false) && |AllBytes(ps)| <= 16
        then Scanned(AllBytes(ps), if Gap(ps) < 0 then -1 else |AllBytes(ps[..Gap(ps)])|)
        else Bad
  {
    PiecesScanned(ps, [], -1);
    assert [] + AllBytes(ps) == AllBytes(ps);
    if Gap(ps) >= 0 { assert [] + AllBytes(ps[..Gap(ps)]) == AllBytes(ps[..Gap(ps)]); }
  }

  /** Every text of the grammar is read, and as its value. */
  lemma SpelledIsRead(s: string, ps: seq<string>, gap: int)
    requires Spells(s, ps, gap)
    ensures gap >= 0 ==> |AllBytes(ps[..gap])| <= |AllBytes(ps)|
    ensures Pton6(s) == Some(Value(ps, gap))
  {
    if gap >= 0 { BytesSplit(ps, gap); }
    var t := Joined(ps, ':');
    BodyIsShape(ps, gap, false);
    ScanIs(ps);
    JoinedStarts(ps);
    if gap == 0 {
      assert s[0] == ':' && s[1..] == t && s[1] == t[0];
    } else {
      assert s == t;
    }
  }

  lemma ScannedBody(t: string) returns (ps: seq<string>, gap: int)
    requires Scan6(t, t, [], -1, false, 0).Scanned?
    requires Scan6(t, t, [], -1, false, 0).colon >= 0 || |Scan6(t, t, [], -1, false, 0).out| == 16
    ensures Body(ps, gap) && t == Joined(ps, ':') && (gap == 0 <==> |t| > 0 && t[0] == ':')
  {
    ps := Pieces(t, ':');
    gap := Gap(ps);
    PiecesJoin(t, ':');
    ScanIs(ps);
    JoinedStarts(ps);
    ShapeIsBody(ps, false);
  }

  /** And no other text is. */
  lemma ReadIsSpelled(s: string) returns (ps: seq<string>, gap: int)
    requires Pton6(s).Some?
    ensures Spells(s, ps, gap)
  {
    if |s| > 0 && s[0] == ':' {
      ps, gap := ScannedBody(s[1..]);
      assert s == ":" + s[1..];
    } else {
      ps, gap := ScannedBody(s);
      assert s == "" + s;
    }
  }

  /** The texts that are read are exactly those of the grammar, and each is read as what it spells. */
  lemma ReadExactly(s: string, v: seq<Byte>)
    ensures Pton6(s) == Some(v) <==>
      exists ps, gap :: Spells(s, ps, gap) && (gap >= 0 ==> |AllBytes(ps[..gap])| <= |AllBytes(ps)|) && v == Value(ps, gap)
  {
    if Pton6(s) == Some(v) {
      var ps, gap := ReadIsSpelled(s);
      SpelledIsRead(s, ps, gap);
    }
    forall ps, gap | Spells(s, ps, gap) && (gap >= 0 ==> |AllBytes(ps[..gap])| <= |AllBytes(ps)|) && v == Value(ps, gap)
      ensures Pton6(s) == Some(v)
    {
      SpelledIsRead(s, ps, gap);
    }
  }

  // ----- dotted quads -----

  /** The value of the decimal digits q behind digits worth n, if it stays in a byte. */
  function Decimal(q: string, n: Byte): (r: Option<Byte>)
    decreases |q|
  {
    if q == "" then Some(n)
    else if !('0' <= q[0] <= '9') || n * 10 + HexValue(q[0]) > 255 then None
    else Decimal(q[1..], n * 10 + HexValue(q[0]))
  }

  predicate IsOctet(p: string) {
    p != "" && Decimal(p, 0).Some?
  }

  function Octets(ps: seq<string>): (bs: seq<Byte>)
    requires forall i :: 0 <= i < |ps| ==> IsOctet(ps[i])
    ensures |bs| == |ps|
  {
    if ps == [] then [] else assert IsOctet(ps[0]); [Decimal(ps[0], 0).value] + Octets(ps[1..])
  }

  lemma {:induction false} OctetScanned(q: string, rest: string, bs: seq<Byte>, n: Byte, saw: bool)
    requires '.' !in q && |bs| < 4
    ensures Scan4(q + rest, bs + [n], saw) ==
              if Decimal(q, n).Some? then Scan4(rest, bs + [Decimal(q, n).value], saw || q != "")
              else None
    decreases |q|
  {
    if q == "" {
      assert q + rest == rest;
    } else {
      assert (q + rest)[1..] == q[1..] + rest;
      if '0' <= q[0] <= '9' && n * 10 + HexValue(q[0]) <= 255 {
        assert (bs + [n])[..|bs|] == bs;
        OctetScanned(q[1..], rest, bs, n * 10 + HexValue(q[0]), true);
      }
    }
  }

  lemma {:induction false} OctetsScanned(ps: seq<string>, bs: seq<Byte>)
    requires |ps| > 0 && Free(ps, '.') && |bs| < 4
    ensures Scan4(Joined(ps, '.'), bs + [0], false) ==
              if |bs| + |ps| == 4 && (forall i :: 0 <= i < |ps| ==> IsOctet(ps[i])) then Some(bs + Octets(ps)) else None
    decreases |ps|
  {
    var p, t := ps[0], ps[1..];
    if |ps| == 1 {
      OctetScanned(p, "", bs, 0, false);
      assert p + "" == p;
      assert IsOctet(p) ==> [Decimal(p, 0).value] + Octets(t) == [Decimal(p, 0).value];
    } else {
      var rest := "." + Joined(t, '.');
      OctetScanned(p, rest, bs, 0, false);
      assert rest[1..] == Joined(t, '.');
      assert (forall i :: 0 <= i < |ps| ==> IsOctet(ps[i])) <==> IsOctet(p) && forall i :: 0 <= i < |t| ==> IsOctet(t[i]) by {
        assert ps == [p] + t;
      }
      if IsOctet(p) && |bs| < 3 {
        var v := Decimal(p, 0).value;
        OctetsScanned(t, bs + [v]);
        assert forall o: seq<Byte> :: bs + [v] + o == bs + ([v] + o);
      }
    }
  }

  /** A dotted quad is four numbers up to 255 with dots between them, and is read as those. */
  lemma QuadExactly(ps: seq<string>)
    requires |ps| > 0 && Free(ps, '.')
    ensures Pton4(Joined(ps, '.')) ==
              if |ps| == 4 && (forall i :: 0 <= i < |ps| ==> IsOctet(ps[i])) then Some(Octets(ps)) else None
  {
    OctetsScanned(ps, []);
    assert [] + [0] == [0];
    assert forall o: seq<Byte> :: [] + o == o;
  }

  // ----- beyond the standard -----

  lemma {:induction false} JoinedTwo(a: seq<string>, b: seq<string>, sep: char)
    requires |a| > 0 && |b| > 0
    ensures Joined(a + b, sep) == Joined(a, sep) + ([sep] + Joined(b, sep))
    decreases |a|
  {
    if |a| == 1 {
      assert (a + b)[1..] == b && (a + b)[0] == a[0];
    } else {
      assert (a + b)[1..] == a[1..] + b && (a + b)[0] == a[0];
      JoinedTwo(a[1..], b, sep);
      var h, m, r := a[0], Joined(a[1..], sep), Joined(b, sep);
      assert h + ([sep] + (m + ([sep] + r))) == h + ([sep] + m) + ([sep] + r);
    }
  }

  /** Section 2.2 of RFC 1884 ends an address with a word, a quad or `::`. The parser drops one more colon behind a last
      word. */
  lemma TrailingColon(s: string, ps: seq<string>, gap: int)
    requires Spells(s, ps, gap) && IsWord(ps[|ps| - 1])
    ensures Pton6(s + ":") == Pton6(s) && Pton6(s).Some?
  {
    var qs := ps + [""];
    JoinedTwo(ps, [""], ':');
    BytesSplit(qs, |ps|);
    assert qs[..|ps|] == ps && qs[|ps|..] == [""];
    assert AllBytes([""]) == [] by { assert [""][1..] == []; }
    assert AllBytes(qs) == AllBytes(ps);
    assert gap >= 0 ==> qs[..gap] == ps[..gap];
    assert Body(qs, gap);
    SpelledIsRead(s, ps, gap);
    assert s + ":" == (if gap == 0 then ":" else "") + Joined(qs, ':');
    SpelledIsRead(s + ":", qs, gap);
  }

  // ----- a full address with `::` -----

  /** The words from lo up to hi, printed. */
  function WordTexts(src: seq<Byte>, lo: nat, hi: nat): (ps: seq<string>)
    requires Address(src) && lo <= hi <= 8
    ensures |ps| == hi - lo
    decreases hi - lo
  {
    if lo == hi then [] else [Hex(Word(src, lo))] + WordTexts(src, lo + 1, hi)
  }

  lemma {:induction false} HexDigits(w: nat, q: string)
    requires w <= 0xffff
    ensures Digits(Hex(w) + q, 0) == Digits(q, w) && Hex(w) != ""
    decreases w
  {
    var d := HexDigit(w % 16);
    DigitValue(w % 16);
    OneDigit(d, q, w / 16);
    if w < 16 {
      assert Hex(w) == [d];
    } else {
      assert Hex(w) + q == Hex(w / 16) + ([d] + q);
      HexDigits(w / 16, [d] + q);
    }
  }

  lemma OneDigit(d: char, q: string, val: nat)
    requires HexValue(d) >= 0 && val * 16 + HexValue(d) <= 0xffff
    ensures Digits([d] + q, val) == Digits(q, val * 16 + HexValue(d))
  {
    assert ([d] + q)[1..] == q;
  }

  lemma {:induction false} HexFree(w: nat)
    ensures ':' !in Hex(w)
    decreases w
  {
    DigitValue(w % 16);
    if w >= 16 { HexFree(w / 16); }
  }

  lemma HexIsWord(src: seq<Byte>, i: nat)
    requires Address(src) && i < 8
    ensures var p := Hex(Word(src, i)); IsWord(p) && ':' !in p && PieceBytes(p) == src[2 * i..2 * i + 2]
  {
    var w := Word(src, i);
    HexDigits(w, "");
    assert Hex(w) + "" == Hex(w);
    HexFree(w);
    WordBytes(src, i);
  }

  lemma {:induction false} TextsRead(src: seq<Byte>, lo: nat, hi: nat)
    requires Address(src) && lo <= hi <= 8
    ensures var ps := WordTexts(src, lo, hi);
      AllBytes(ps) == src[2 * lo..2 * hi] && Free(ps, ':') && forall i :: 0 <= i < |ps| ==> IsWord(ps[i])
    decreases hi - lo
  {
    if lo < hi {
      HexIsWord(src, lo);
      TextsRead(src, lo + 1, hi);
      assert src[2 * lo..2 * hi] == src[2 * lo..2 * lo + 2] + src[2 * (lo + 1)..2 * hi];
      assert WordTexts(src, lo, hi)[1..] == WordTexts(src, lo + 1, hi);
    }
  }

  /** All eight words of an address, and `::` behind the first k. */
  function FullText(src: seq<Byte>, k: nat): string
    requires Address(src) && k <= 8
  {
    Joined(WordTexts(src, 0, k), ':') + ("::" + Joined(WordTexts(src, k, 8), ':'))
  }

  function FullPieces(src: seq<Byte>, k: nat): seq<string>
    requires Address(src) && k <= 8
  {
    WordTexts(src, 0, k) + ([""] + BackPieces(src, k))
  }

  /** Behind the gap: a text may not end with it, but with an empty piece. */
  function BackPieces(src: seq<Byte>, k: nat): (ps: seq<string>)
    requires Address(src) && k <= 8
    ensures |ps| > 0
  {
    if k == 8 then [""] else WordTexts(src, k, 8)
  }

  lemma Assoc(a: string, b: string, c: string)
    ensures a + (b + c) == a + b + c
  {
  }

  lemma GapJoined(back: seq<string>)
    requires |back| > 0
    ensures Joined([""] + back, ':') == ":" + Joined(back, ':')
  {
    assert ([""] + back)[1..] == back && ([""] + back)[0] == "";
    assert "" + (":" + Joined(back, ':')) == ":" + Joined(back, ':');
  }

  lemma FullJoined(src: seq<Byte>, k: nat)
    requires Address(src) && k <= 8
    ensures FullText(src, k) == (if k == 0 then ":" else "") + Joined(FullPieces(src, k), ':')
  {
    var front, back := WordTexts(src, 0, k), BackPieces(src, k);
    var t := Joined(back, ':');
    assert t == Joined(WordTexts(src, k, 8), ':');
    GapJoined(back);
    Assoc(":", ":", t);
    assert ":" + ":" == "::";
    if k == 0 {
      assert front + ([""] + back) == [""] + back;
      assert "" + ("::" + t) == "::" + t;
    } else {
      JoinedTwo(front, [""] + back, ':');
      var u := Joined(front, ':') + ("::" + t);
      assert "" + u == u;
    }
  }

  lemma BackRead(src: seq<Byte>, k: nat)
    requires Address(src) && k <= 8
    ensures var ps := BackPieces(src, k);
      AllBytes(ps) == src[2 * k..] && Free(ps, ':') && forall i :: 0 <= i < |ps| ==> IsWord(ps[i]) || (ps[i] == "" && i == |ps| - 1)
  {
    TextsRead(src, k, 8);
    if k == 8 { assert [""][1..] == [] && PieceBytes("") == []; }
  }

  lemma GapBytes(back: seq<string>)
    ensures AllBytes([""] + back) == AllBytes(back)
  {
    assert ([""] + back)[1..] == back && PieceBytes("") == [];
    assert [] + AllBytes(back) == AllBytes(back);
  }

  lemma FullBytes(src: seq<Byte>, k: nat)
    requires Address(src) && k <= 8
    ensures AllBytes(FullPieces(src, k)) == src && AllBytes(FullPieces(src, k)[..k]) == src[..2 * k]
  {
    var ps, back := FullPieces(src, k), BackPieces(src, k);
    TextsRead(src, 0, k);
    BackRead(src, k);
    BytesSplit(ps, k);
    GapBytes(back);
    assert ps[..k] == WordTexts(src, 0, k) && ps[k..] == [""] + back;
  }

  lemma FullShape(src: seq<Byte>, k: nat, i: nat)
    requires Address(src) && k <= 8 && i < |FullPieces(src, k)|
    ensures var ps := FullPieces(src, k);
      ':' !in ps[i] && if i == k then ps[i] == "" else IsWord(ps[i]) || (ps[i] == "" && i == |ps| - 1)
  {
    TextsRead(src, 0, k);
    BackRead(src, k);
    PieceAt(WordTexts(src, 0, k), BackPieces(src, k), i);
  }

  lemma PieceAt(front: seq<string>, back: seq<string>, i: nat)
    requires i < |front| + 1 + |back|
    ensures (front + ([""] + back))[i] == if i < |front| then front[i] else if i == |front| then "" else back[i - |front| - 1]
  {
  }

  lemma FullSpells(src: seq<Byte>, k: nat)
    requires Address(src) && k <= 8
    ensures Spells(FullText(src, k), FullPieces(src, k), k)
  {
    var ps := FullPieces(src, k);
    FullBytes(src, k);
    FullJoined(src, k);
    forall i: nat | i < |ps|
      ensures ':' !in ps[i] && if i == k then ps[i] == "" else IsWord(ps[i]) || (ps[i] == "" && i == |ps| - 1)
    {
      FullShape(src, k, i);
    }
  }

  /** `::` in a full address is not ignored, as the notice above the code has it: all words behind it are read as zero. */
  lemma FullAddressCut(src: seq<Byte>, k: nat)
    requires Address(src) && k <= 8
    ensures Pton6(FullText(src, k)) == Some(src[..2 * k] + Zeros(16 - 2 * k))
    ensures Pton6(FullText(src, k)) == Some(src) <==> forall i: nat :: k <= i < 8 ==> Word(src, i) == 0
  {
    FullSpells(src, k);
    FullBytes(src, k);
    var text, ps := FullText(src, k), FullPieces(src, k);
    SpelledIsRead(text, ps, k);
    ExpandFull(src, k);
    assert Pton6(text) == Some(Expand(src, 2 * k));
    CutIgnored(src, k);
  }

  lemma ExpandFull(src: seq<Byte>, k: nat)
    requires Address(src) && k <= 8
    ensures Expand(src, 2 * k) == src[..2 * k] + Zeros(16 - 2 * k)
  {
  }

  lemma CutIgnored(src: seq<Byte>, k: nat)
    requires Address(src) && k <= 8
    ensures src[..2 * k] + Zeros(16 - 2 * k) == src <==> forall i: nat :: k <= i < 8 ==> Word(src, i) == 0
  {
    var cut := src[..2 * k] + Zeros(16 - 2 * k);
    if cut == src {
      forall i: nat | k <= i < 8 ensures Word(src, i) == 0 { assert cut[2 * i] == 0 && cut[2 * i + 1] == 0; }
    }
    if forall i: nat :: k <= i < 8 ==> Word(src, i) == 0 {
      forall j | 2 * k <= j < 16 ensures src[j] == 0 { assert Word(src, j / 2) == 0; }
    }
  }
}
