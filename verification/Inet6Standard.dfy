/** The text addresses of section 2.2 of RFC 1884, and exactly what `inet_pton6` takes beyond them. */
module Inet6Standard {
  import opened Basics
  import opened Inet6Text
  import opened Inet6Grammar

  // ----- the standard -----

  /** One to four hexadecimal digits. */
  predicate Field(p: string) {
    0 < |p| <= 4 && forall i :: 0 <= i < |p| ==> HexValue(p[i]) >= 0
  }

  /** A decimal number up to 255, without spare zeros in front. */
  predicate PlainOctet(p: string) {
    IsOctet(p) && |p| <= 3 && (|p| > 1 ==> p[0] != '0')
  }

  ghost predicate PlainOctets(os: seq<string>) {
    forall i :: 0 <= i < |os| ==> PlainOctet(os[i])
  }

  /** `d.d.d.d`. */
  ghost predicate PlainQuad(p: string) {
    exists os {:trigger PlainOctets(os)} :: PlainOctets(os) && |os| == 4 && p == Joined(os, '.')
  }

  ghost predicate Fields(ps: seq<string>) {
    forall i :: 0 <= i < |ps| ==> Field(ps[i])
  }

  /** Fields, of which the last may be a dotted quad. */
  ghost predicate Ending(ps: seq<string>) {
    ps == [] || (Fields(ps[..|ps| - 1]) && (Field(ps[|ps| - 1]) || PlainQuad(ps[|ps| - 1])))
  }

  /** `x:x:x:x:x:x:x:x`, or with a quad for the last two. */
  ghost predicate Full(s: string, v: seq<Byte>) {
    exists ps {:trigger Ending(ps)} :: Ending(ps) && ps != [] && |AllBytes(ps)| == 16 && s == Joined(ps, ':') && v == AllBytes(ps)
  }

  function GapValue(ls: seq<string>, rs: seq<string>): seq<Byte>
    requires |AllBytes(ls)| + |AllBytes(rs)| <= 16
  {
    AllBytes(ls) + Zeros(16 - |AllBytes(ls)| - |AllBytes(rs)|) + AllBytes(rs)
  }

  /** With `::` for at least one group of sixteen zero bits. */
  ghost predicate Gapped(s: string, v: seq<Byte>) {
    exists ls, rs {:trigger Fields(ls), Ending(rs)} ::
      && Fields(ls) && Ending(rs) && |AllBytes(ls)| + |AllBytes(rs)| <= 14
      && s == Joined(ls, ':') + "::" + Joined(rs, ':')
      && v == GapValue(ls, rs)
  }

  ghost predicate Standard(s: string, v: seq<Byte>) {
    Full(s, v) || Gapped(s, v)
  }

  // ----- what goes beyond it -----

  /** A colon behind the last word. */
  predicate LateColon(ps: seq<string>, gap: int) {
    |ps| > 0 && ps[|ps| - 1] == "" && gap != |ps| - 2
  }

  /** More than four digits in a word, which then begins with zeros. */
  predicate LongWord(ps: seq<string>) {
    exists i :: 0 <= i < |ps| && IsWord(ps[i]) && |ps[i]| > 4
  }

  /** Spare zeros in an octet. */
  ghost predicate LongOctet(ps: seq<string>) {
    |ps| > 0 && IsQuad(ps[|ps| - 1]) && !PlainQuad(ps[|ps| - 1])
  }

  /** `::` with nothing left to stand for. */
  predicate IdleGap(ps: seq<string>, gap: int) {
    gap >= 0 && |AllBytes(ps)| == 16
  }

  ghost predicate Deviant(ps: seq<string>, gap: int) {
    LateColon(ps, gap) || LongWord(ps) || LongOctet(ps) || IdleGap(ps, gap)
  }

  ghost predicate Beyond(s: string) {
    exists ps, gap {:trigger Spells(s, ps, gap)} :: Spells(s, ps, gap) && Deviant(ps, gap)
  }

  // ----- words and quads -----

  function Power(n: nat): nat {
    if n == 0 then 1 else 16 * Power(n - 1)
  }

  lemma {:induction false} HexDigits(q: string, val: nat, n: nat)
    requires |q| <= n <= 4 && val < Power(4 - n) && forall i :: 0 <= i < |q| ==> HexValue(q[i]) >= 0
    ensures val <= 0xffff && Digits(q, val).Some?
    decreases |q|
  {
    FourPowers();
    if q != "" { HexDigits(q[1..], val * 16 + HexValue(q[0]), n - 1); }
  }

  lemma FourPowers()
    ensures Power(0) == 1 && Power(1) == 16 && Power(2) == 256 && Power(3) == 4096 && Power(4) == 65536
  {
  }

  lemma {:induction false} DigitsHex(q: string, val: nat)
    requires val <= 0xffff && Digits(q, val).Some?
    ensures forall i :: 0 <= i < |q| ==> HexValue(q[i]) >= 0
    decreases |q|
  {
    if q != "" {
      DigitsHex(q[1..], val * 16 + HexValue(q[0]));
      assert forall i :: 0 < i < |q| ==> q[i] == q[1..][i - 1];
    }
  }

  /** A field is a word of at most four digits. */
  lemma FieldIsWord(p: string)
    ensures Field(p) <==> IsWord(p) && |p| <= 4
  {
    FourPowers();
    if Field(p) { HexDigits(p, 0, 4); }
    if IsWord(p) { DigitsHex(p, 0); }
  }

  lemma {:induction false} DecimalDigits(q: string, n: Byte)
    requires Decimal(q, n).Some?
    ensures forall i :: 0 <= i < |q| ==> '0' <= q[i] <= '9'
    decreases |q|
  {
    if q != "" {
      DecimalDigits(q[1..], n * 10 + HexValue(q[0]));
      assert forall i :: 0 < i < |q| ==> q[i] == q[1..][i - 1];
    }
  }

  lemma PlainQuadIsQuad(p: string)
    requires PlainQuad(p)
    ensures IsQuad(p)
  {
    var os :| PlainOctets(os) && |os| == 4 && p == Joined(os, '.');
    forall i | 0 <= i < |os| ensures '.' !in os[i] && IsOctet(os[i]) {
      assert PlainOctet(os[i]);
      DecimalDigits(os[i], 0);
    }
    QuadExactly(os);
  }

  lemma QuadNotWord(p: string)
    ensures IsQuad(p) ==> p != "" && !IsWord(p)
  {
    if IsQuad(p) { QuadDots(p, 0, false, 0); }
  }

  lemma NoColon(p: string)
    requires IsWord(p) || IsQuad(p)
    ensures ':' !in p
  {
    if IsWord(p) {
      DigitsHex(p, 0);
    } else if ':' in p {
      QuadFree(p, [0], false);
    }
  }

  lemma {:induction false} EvenBytes(ps: seq<string>)
    ensures |AllBytes(ps)| % 2 == 0
  {
    if ps != [] { EvenBytes(ps[1..]); }
  }

  // ----- a standard address spells itself, without deviation -----

  lemma EndingPieces(ps: seq<string>)
    requires Ending(ps) && ps != []
    ensures forall i :: 0 <= i < |ps| - 1 ==> IsWord(ps[i]) && |ps[i]| <= 4
    ensures var last := ps[|ps| - 1]; last != "" && (IsWord(last) || IsQuad(last)) && (IsWord(last) ==> |last| <= 4) && (IsQuad(last) ==> PlainQuad(last))
    ensures Free(ps, ':')
  {
    var last := ps[|ps| - 1];
    forall i | 0 <= i < |ps| - 1 ensures IsWord(ps[i]) && |ps[i]| <= 4 && ':' !in ps[i] {
      assert Field(ps[..|ps| - 1][i]);
      FieldIsWord(ps[i]);
      NoColon(ps[i]);
    }
    FieldIsWord(last);
    if PlainQuad(last) { PlainQuadIsQuad(last); }
    QuadNotWord(last);
    NoColon(last);
  }

  lemma FieldsPieces(ps: seq<string>)
    requires Fields(ps)
    ensures forall i :: 0 <= i < |ps| ==> IsWord(ps[i]) && |ps[i]| <= 4
    ensures Free(ps, ':')
  {
    forall i | 0 <= i < |ps| ensures IsWord(ps[i]) && |ps[i]| <= 4 && ':' !in ps[i] {
      FieldIsWord(ps[i]);
      NoColon(ps[i]);
    }
  }

  lemma FullSpells(s: string, ps: seq<string>)
    requires Ending(ps) && ps != [] && |AllBytes(ps)| == 16 && s == Joined(ps, ':')
    ensures Spells(s, ps, -1) && !Deviant(ps, -1) && Value(ps, -1) == AllBytes(ps)
  {
    EndingPieces(ps);
    assert s == "" + s;
    assert Body(ps, -1);
    PlainWords(ps, -1);
  }

  /** No word too long. */
  lemma PlainWords(ps: seq<string>, gap: int)
    requires forall i :: 0 <= i < |ps| ==> IsWord(ps[i]) ==> |ps[i]| <= 4
    ensures !LongWord(ps)
  {
  }

  /** The pieces of an address with `::`. */
  function WithGap(ls: seq<string>, rs: seq<string>): seq<string> {
    ls + ([""] + if rs == [] then [""] else rs)
  }

  lemma GapJoined(ls: seq<string>, rs: seq<string>)
    ensures (if ls == [] then ":" else "") + Joined(WithGap(ls, rs), ':') == Joined(ls, ':') + "::" + Joined(rs, ':')
  {
    var tail := if rs == [] then [""] else rs;
    var t := Joined(tail, ':');
    assert t == Joined(rs, ':');
    assert ([""] + tail)[1..] == tail;
    assert Joined([""] + tail, ':') == ":" + t;
    if ls == [] {
      assert WithGap(ls, rs) == [""] + tail;
      assert ":" + (":" + t) == "" + "::" + t;
    } else {
      JoinedTwo(ls, [""] + tail, ':');
      assert Joined(ls, ':') + ([':'] + (":" + t)) == Joined(ls, ':') + "::" + t;
    }
  }

  lemma GapBytes(ls: seq<string>, rs: seq<string>)
    ensures AllBytes(WithGap(ls, rs)) == AllBytes(ls) + AllBytes(rs) && WithGap(ls, rs)[..|ls|] == ls
  {
    var ps := WithGap(ls, rs);
    var tail := if rs == [] then [""] else rs;
    assert ps[..|ls|] == ls && ps[|ls|..] == [""] + tail;
    BytesSplit(ps, |ls|);
    EmptyBytes(tail);
    if rs == [] {
      EmptyBytes([]);
      assert [""] + [] == [""];
    }
  }

  lemma EmptyBytes(tail: seq<string>)
    ensures AllBytes([""] + tail) == AllBytes(tail)
  {
    assert ([""] + tail)[1..] == tail;
    assert PieceBytes("") == [];
    assert [] + AllBytes(tail) == AllBytes(tail);
  }

  lemma GapBody(ls: seq<string>, rs: seq<string>)
    requires Fields(ls) && Ending(rs) && |AllBytes(ls)| + |AllBytes(rs)| <= 14
    ensures Body(WithGap(ls, rs), |ls|) && !Deviant(WithGap(ls, rs), |ls|)
  {
    var ps, k := WithGap(ls, rs), |ls|;
    GapBytes(ls, rs);
    forall i | 0 <= i < |ps|
      ensures ':' !in ps[i] && (IsWord(ps[i]) ==> |ps[i]| <= 4) && (i < |ps| - 1 ==> if i == k then ps[i] == "" else IsWord(ps[i]))
    {
      GapPieces(ls, rs, i);
    }
    GapLast(ls, rs);
    PlainWords(ps, k);
  }

  predicate GapPiece(ps: seq<string>, k: int, i: nat)
    requires i < |ps|
  {
    ':' !in ps[i] && (IsWord(ps[i]) ==> |ps[i]| <= 4) && (i < |ps| - 1 ==> if i == k then ps[i] == "" else IsWord(ps[i]))
  }

  lemma GapPieces(ls: seq<string>, rs: seq<string>, i: nat)
    requires Fields(ls) && Ending(rs) && i < |WithGap(ls, rs)|
    ensures GapPiece(WithGap(ls, rs), |ls|, i)
  {
    FieldsPieces(ls);
    if rs != [] { EndingPieces(rs); }
  }

  lemma GapLast(ls: seq<string>, rs: seq<string>)
    requires Ending(rs)
    ensures var ps := WithGap(ls, rs); var last := ps[|ps| - 1];
      && (last == "" ==> |ps| == |ls| + 2)
      && (last == "" || IsWord(last) || IsQuad(last))
      && (IsQuad(last) ==> PlainQuad(last))
  {
    if rs != [] { EndingPieces(rs); }
    QuadNotWord("");
  }

  lemma GappedSpells(s: string, ls: seq<string>, rs: seq<string>)
    requires Fields(ls) && Ending(rs) && |AllBytes(ls)| + |AllBytes(rs)| <= 14 && s == Joined(ls, ':') + "::" + Joined(rs, ':')
    ensures Spells(s, WithGap(ls, rs), |ls|) && !Deviant(WithGap(ls, rs), |ls|)
    ensures |AllBytes(WithGap(ls, rs)[..|ls|])| <= |AllBytes(WithGap(ls, rs))|
    ensures Value(WithGap(ls, rs), |ls|) == GapValue(ls, rs)
  {
    GapBody(ls, rs);
    GapJoined(ls, rs);
    GapBytes(ls, rs);
    var l, r := AllBytes(ls), AllBytes(rs);
    assert (l + r)[..|l|] == l && (l + r)[|l|..] == r;
  }

  // ----- and back -----

  lemma PlainPieces(ps: seq<string>, gap: int)
    requires Body(ps, gap) && !Deviant(ps, gap)
    ensures forall i :: 0 <= i < |ps| - 1 && i != gap ==> Field(ps[i])
    ensures var last := ps[|ps| - 1]; if last == "" then gap == |ps| - 2 else Field(last) || PlainQuad(last)
  {
    forall i | 0 <= i < |ps| && IsWord(ps[i]) ensures Field(ps[i]) { FieldIsWord(ps[i]); }
  }

  lemma NoBytes()
    ensures AllBytes([""]) == []
  {
    EmptyBytes([]);
    assert [""] + [] == [""];
  }

  lemma SpelledFull(s: string, ps: seq<string>)
    requires Spells(s, ps, -1) && !Deviant(ps, -1)
    ensures Full(s, AllBytes(ps))
  {
    PlainPieces(ps, -1);
    var front := ps[..|ps| - 1];
    forall i | 0 <= i < |front| ensures Field(front[i]) {}
    NoBytes();
    assert |ps| == 1 ==> ps == [ps[0]];
    assert Ending(ps);
    assert s == "" + s;
  }

  lemma SpelledGapped(s: string, ps: seq<string>, gap: nat)
    requires Spells(s, ps, gap) && !Deviant(ps, gap)
    ensures |AllBytes(ps[..gap])| <= |AllBytes(ps)| && Gapped(s, Value(ps, gap))
  {
    var ls, rs := SpelledParts(ps, gap);
    GapJoined(ls, rs);
    SpelledBytes(ps, gap, ls, rs);
    GappedSpells(s, ls, rs);
  }

  lemma SpelledParts(ps: seq<string>, gap: nat) returns (ls: seq<string>, rs: seq<string>)
    requires Body(ps, gap) && !Deviant(ps, gap)
    ensures ls == ps[..gap] && Fields(ls) && Ending(rs) && ps == WithGap(ls, rs)
  {
    PlainPieces(ps, gap);
    ls := ps[..gap];
    rs := if ps[gap + 1..] == [""] then [] else ps[gap + 1..];
    forall i | 0 <= i < |ls| ensures Field(ls[i]) {}
    SpelledEnding(ps, gap, rs);
    assert ps == ls + ([ps[gap]] + ps[gap + 1..]);
  }

  lemma SpelledBytes(ps: seq<string>, gap: nat, ls: seq<string>, rs: seq<string>)
    requires |AllBytes(ps)| <= 16 && !IdleGap(ps, gap) && ps == WithGap(ls, rs)
    ensures |AllBytes(ls)| + |AllBytes(rs)| <= 14 && AllBytes(ps) == AllBytes(ls) + AllBytes(rs)
  {
    GapBytes(ls, rs);
    EvenBytes(ps);
  }

  lemma SpelledEnding(ps: seq<string>, gap: nat, rs: seq<string>)
    requires Body(ps, gap) && !Deviant(ps, gap) && rs == if ps[gap + 1..] == [""] then [] else ps[gap + 1..]
    ensures Ending(rs)
  {
    PlainPieces(ps, gap);
    if rs != [] {
      var front, last := rs[..|rs| - 1], rs[|rs| - 1];
      assert last == ps[|ps| - 1] && (gap == |ps| - 2 ==> ps[gap + 1..] == [last]);
      forall i | 0 <= i < |front| ensures Field(front[i]) { assert front[i] == ps[gap + 1 + i]; }
    }
  }

  /** Exactly the addresses spelled without deviation are standard. */
  lemma StandardSpelled(s: string, ps: seq<string>, gap: int)
    requires Spells(s, ps, gap) && !Deviant(ps, gap)
    ensures (gap >= 0 ==> |AllBytes(ps[..gap])| <= |AllBytes(ps)|) && Standard(s, Value(ps, gap))
  {
    if gap < 0 { SpelledFull(s, ps); } else { SpelledGapped(s, ps, gap); }
  }

  // ----- there is one way to spell a text -----

  lemma {:induction false} PiecesOnly(ps: seq<string>, sep: char)
    requires |ps| > 0 && Free(ps, sep)
    ensures Pieces(Joined(ps, sep), sep) == ps
    decreases |ps|, |ps[0]|
  {
    var p, s := ps[0], Joined(ps, sep);
    if p == "" {
      if |ps| > 1 {
        assert s == [sep] + Joined(ps[1..], sep);
        PiecesOnly(ps[1..], sep);
      }
    } else {
      var qs := [p[1..]] + ps[1..];
      assert qs[1..] == ps[1..];
      assert Joined(qs, sep) == s[1..];
      assert p[0] in p && p[0] != sep && s[0] == p[0];
      PiecesOnly(qs, sep);
      assert [s[0]] + p[1..] == p;
    }
  }

  lemma OneSpelling(s: string, ps: seq<string>, gap: int, qs: seq<string>, other: int)
    requires Spells(s, ps, gap) && Spells(s, qs, other)
    ensures ps == qs && gap == other
  {
    StartTells(s, ps, gap);
    StartTells(s, qs, other);
    PiecesOnly(ps, ':');
    PiecesOnly(qs, ':');
    if gap == 0 {
      assert s[1..] == Joined(ps, ':') && s[1..] == Joined(qs, ':');
    } else {
      assert s == Joined(ps, ':') && s == Joined(qs, ':');
    }
    OneGap(ps, gap, other);
  }

  /** A text that begins with a colon begins with its gap. */
  lemma StartTells(s: string, ps: seq<string>, gap: int)
    requires Spells(s, ps, gap)
    ensures gap == 0 <==> |s| > 0 && s[0] == ':'
  {
    if gap != 0 {
      assert s == Joined(ps, ':');
      JoinedStarts(ps);
    }
  }

  lemma OneGap(ps: seq<string>, gap: int, other: int)
    requires Body(ps, gap) && Body(ps, other)
    ensures gap == other
  {
    if gap >= 0 { assert ps[gap] == ""; }
    if other >= 0 { assert ps[other] == ""; }
  }

  /** Every address of section 2.2 of RFC 1884 is read, and as what it stands for. Of what is read the rest is exactly the
      texts with a colon behind the last word, a word of more than four digits, an octet with spare zeros, or a `::` that
      stands for nothing. */
  lemma BeyondExactly(s: string, v: seq<Byte>)
    ensures Standard(s, v) <==> Pton6(s) == Some(v) && !Beyond(s)
    ensures Beyond(s) ==> Pton6(s).Some?
  {
    if Standard(s, v) { StandardIsRead(s, v); }
    if Beyond(s) {
      var ps, gap :| Spells(s, ps, gap) && Deviant(ps, gap);
      SpelledIsRead(s, ps, gap);
    }
    if Pton6(s) == Some(v) && !Beyond(s) {
      var ps, gap := ReadIsSpelled(s);
      StandardSpelled(s, ps, gap);
      SpelledIsRead(s, ps, gap);
    }
  }

  lemma StandardIsRead(s: string, v: seq<Byte>)
    requires Standard(s, v)
    ensures Pton6(s) == Some(v) && !Beyond(s)
  {
    if Full(s, v) {
      var ps :| Ending(ps) && ps != [] && |AllBytes(ps)| == 16 && s == Joined(ps, ':') && v == AllBytes(ps);
      FullSpells(s, ps);
      PlainIsRead(s, ps, -1);
    } else {
      GappedIsRead(s, v);
    }
  }

  lemma GappedIsRead(s: string, v: seq<Byte>)
    requires Gapped(s, v)
    ensures Pton6(s) == Some(v) && !Beyond(s)
  {
    var ls, rs :|
      && Fields(ls) && Ending(rs) && |AllBytes(ls)| + |AllBytes(rs)| <= 14
      && s == Joined(ls, ':') + "::" + Joined(rs, ':')
      && v == GapValue(ls, rs);
    GappedSpells(s, ls, rs);
    PlainIsRead(s, WithGap(ls, rs), |ls|);
  }

  lemma PlainIsRead(s: string, ps: seq<string>, gap: int)
    requires Spells(s, ps, gap) && !Deviant(ps, gap)
    ensures (gap >= 0 ==> |AllBytes(ps[..gap])| <= |AllBytes(ps)|) && Pton6(s) == Some(Value(ps, gap)) && !Beyond(s)
  {
    SpelledIsRead(s, ps, gap);
    forall qs, other | Spells(s, qs, other) ensures qs == ps && other == gap { OneSpelling(s, ps, gap, qs, other); }
  }
}
