/** IPv6 addresses as text: what the printer and the parser of src/external/talloc/lib/replace compute, and that parsing
    what was printed gives the address back. */
module Inet6Text {
  import opened Basics

  const NS_IN6ADDRSZ: nat := 16

  // ----- digits -----

  function HexDigit(d: nat): char
    requires d < 16
  {
    "0123456789abcdef"[d]
  }

  /** The value of a hexadecimal digit of either case, or -1. */
  function HexValue(c: char): (v: int)
    ensures -1 <= v < 16
  {
    if '0' <= c <= '9' then c as int - '0' as int
    else if 'a' <= c <= 'f' then c as int - 'a' as int + 10
    else if 'A' <= c <= 'F' then c as int - 'A' as int + 10
    else -1
  }

  /** `%x`. */
  function Hex(w: nat): string {
    if w < 16 then [HexDigit(w)] else Hex(w / 16) + [HexDigit(w % 16)]
  }

  /** `%hhu`. */
  function Dec(n: nat): string {
    if n < 10 then [HexDigit(n)] else Dec(n / 10) + [HexDigit(n % 10)]
  }

  // ----- printing -----

  predicate Address(src: seq<Byte>) {
    |src| == NS_IN6ADDRSZ
  }

  function Word(src: seq<Byte>, i: nat): (w: nat)
    requires Address(src) && i < 8
    ensures w <= 0xffff
  {
    src[2 * i] as int * 256 + src[2 * i + 1] as int
  }

  /** A run of zero words; base -1 for none. */
  datatype Run = Run(base: int, len: int)

  ghost predicate ZeroRun(src: seq<Byte>, base: int, len: int)
    requires Address(src)
  {
    0 <= base && 0 < len && base + len <= 8 && forall i: nat :: base <= i < base + len ==> Word(src, i) == 0
  }

  /** The run that `::` stands for: the longest of two words or more, and the first of these. */
  ghost predicate Best(src: seq<Byte>, best: Run)
    requires Address(src)
  {
    if best.base == -1 then forall b, n :: ZeroRun(src, b, n) ==> n < 2
    else
      && ZeroRun(src, best.base, best.len) && best.len >= 2
      && forall b, n :: ZeroRun(src, b, n) ==> n < best.len || (n == best.len && best.base <= b)
  }

  predicate Inside(best: Run, i: nat) {
    best.base != -1 && best.base <= i < best.base + best.len
  }

  /** An IPv4 address in the last four bytes. */
  predicate Embedded(src: seq<Byte>, best: Run)
    requires Address(src)
  {
    best.base == 0 && (best.len == 6 || (best.len == 5 && Word(src, 5) == 0xffff))
  }

  /** `%hhu.%hhu.%hhu.%hhu`. */
  function Dotted(a: Byte, b: Byte, c: Byte, d: Byte): string {
    Dec(a) + ("." + Tail(b, c, d))
  }

  function Tail(b: Byte, c: Byte, d: Byte): string {
    Dec(b) + ("." + (Dec(c) + ("." + Dec(d))))
  }

  /** What is printed from word i on. */
  function Rest(src: seq<Byte>, best: Run, i: nat): string
    requires Address(src) && i <= 8
    decreases 8 - i
  {
    if i == 8 then if best.base != -1 && best.base + best.len == 8 then ":" else ""
    else if Inside(best, i) then (if i == best.base then ":" else "") + Rest(src, best, i + 1)
    else
      (if i != 0 then ":" else "")
      + if i == 6 && Embedded(src, best) then Dotted(src[12], src[13], src[14], src[15])
        else Hex(Word(src, i)) + Rest(src, best, i + 1)
  }

  /** `inet_ntop6`. */
  function Ntop6(src: seq<Byte>, best: Run): string
    requires Address(src)
  {
    Rest(src, best, 0)
  }

  // ----- parsing -----

  /** `inet_pton4` from s on: bs are the octets so far, the last one still open; saw that it has a digit. */
  function Scan4(s: string, bs: seq<Byte>, saw: bool): (r: Option<seq<Byte>>)
    requires 0 < |bs| <= 4
    ensures r.Some? ==> |r.value| == 4
  {
    if s == "" then if saw && |bs| == 4 then Some(bs) else None
    else if '0' <= s[0] <= '9' then
      var octet := bs[|bs| - 1] * 10 + HexValue(s[0]);
      if octet > 255 then None else Scan4(s[1..], bs[..|bs| - 1] + [octet], true)
    else if s[0] == '.' && saw && |bs| < 4 then Scan4(s[1..], bs + [0], false)
    else None
  }

  function Pton4(s: string): (r: Option<seq<Byte>>)
    ensures r.Some? ==> |r.value| == 4
  {
    Scan4(s, [0], false)
  }

  datatype Scanned = Bad | Scanned(out: seq<Byte>, colon: int)

  /** The loop of `inet_pton6` on s: tok is the text from the start of the current token, out what has been stored,
      colon where `::` was (or -1), val the value of the hexadecimal digits seen since the last colon. */
  function Scan6(s: string, tok: string, out: seq<Byte>, colon: int, saw: bool, val: nat): (r: Scanned)
    requires |out| <= 16 && -1 <= colon <= |out| && val <= 0xffff
    ensures r.Scanned? ==> |r.out| <= 16 && -1 <= r.colon <= |r.out|
    decreases |s|
  {
    if s == "" then
      if !saw then Scanned(out, colon)
      else if |out| + 2 > 16 then Bad
      else Scanned(out + [val / 256, val % 256], colon)
    else if HexValue(s[0]) >= 0 then
      var v := val * 16 + HexValue(s[0]);
      if v > 0xffff then Bad else Scan6(s[1..], tok, out, colon, true, v)
    else if s[0] == ':' then
      if !saw then if colon >= 0 then Bad else Scan6(s[1..], s[1..], out, |out|, false, val)
      else if |out| + 2 > 16 then Bad
      else Scan6(s[1..], s[1..], out + [val / 256, val % 256], colon, false, 0)
    else if s[0] == '.' && |out| + 4 <= 16 && Pton4(tok).Some? then Scanned(out + Pton4(tok).value, colon)
    else Bad
  }

  function Zeros(n: nat): (z: seq<Byte>)
    ensures |z| == n && forall i :: 0 <= i < n ==> z[i] == 0
  {
    seq(n, i => 0)
  }

  /** What moving the bytes behind `::` to the end, one by one from the last, leaves. */
  function Expand(out: seq<Byte>, colon: nat): (r: seq<Byte>)
    requires colon <= |out| <= 16
    ensures |r| == 16
  {
    if |out| == 16 then out[..colon] + Zeros(16 - colon)
    else out[..colon] + Zeros(16 - |out|) + out[colon..]
  }

  /** `inet_pton6`. */
  function Pton6(s: string): Option<seq<Byte>> {
    if |s| > 0 && s[0] == ':' && !(|s| > 1 && s[1] == ':') then None
    else
      var t := if |s| > 0 && s[0] == ':' then s[1..] else s;
      match Scan6(t, t, [], -1, false, 0)
      case Bad => None
      case Scanned(out, colon) =>
        if colon >= 0 then Some(Expand(out, colon)) else if |out| == 16 then Some(out) else None
  }

  // ----- reading digits -----

  lemma DigitValue(d: nat)
    requires d < 16
    ensures HexValue(HexDigit(d)) == d && HexDigit(d) != ':' && HexDigit(d) != '.'
    ensures d < 10 <==> '0' <= HexDigit(d) <= '9'
  {
  }

  /** Digits of a word are read as its value. */
  lemma {:induction false} HexRead(w: nat, s: string, tok: string, out: seq<Byte>, colon: int)
    requires w <= 0xffff && |out| <= 16 && -1 <= colon <= |out|
    ensures Scan6(Hex(w) + s, tok, out, colon, false, 0) == Scan6(s, tok, out, colon, true, w)
    decreases w
  {
    if w < 16 {
      DigitValue(w);
      assert (Hex(w) + s)[1..] == s;
    } else {
      var d := HexDigit(w % 16);
      DigitValue(w % 16);
      assert Hex(w) + s == Hex(w / 16) + ([d] + s);
      HexRead(w / 16, [d] + s, tok, out, colon);
      assert ([d] + s)[1..] == s;
    }
  }

  /** Up to three decimal digits are harmless to the hexadecimal scan. */
  lemma {:induction false} DecSkipped(n: nat, s: string, tok: string, out: seq<Byte>, colon: int) returns (v: nat)
    requires n < 256 && |out| <= 16 && -1 <= colon <= |out|
    ensures v <= 0xffff && Scan6(Dec(n) + s, tok, out, colon, false, 0) == Scan6(s, tok, out, colon, true, v)
    ensures n < 10 ==> v < 16
    ensures n < 100 ==> v < 256
    decreases n
  {
    if n < 10 {
      DigitValue(n);
      v := n;
      assert (Dec(n) + s)[1..] == s;
    } else {
      var d := HexDigit(n % 10);
      DigitValue(n % 10);
      assert Dec(n) + s == Dec(n / 10) + ([d] + s);
      var u := DecSkipped(n / 10, [d] + s, tok, out, colon);
      v := u * 16 + n % 10;
      assert ([d] + s)[1..] == s;
    }
  }

  /** Decimal digits are read as their value by the IPv4 scan. */
  lemma {:induction false} DecRead(n: nat, s: string, bs: seq<Byte>)
    requires n < 256 && |bs| < 4
    ensures Scan4(Dec(n) + s, bs + [0], false) == Scan4(s, bs + [n], true)
    decreases n
  {
    if n < 10 {
      DigitValue(n);
      assert (Dec(n) + s)[1..] == s;
      assert (bs + [0])[..|bs|] + [n] == bs + [n];
    } else {
      var d := HexDigit(n % 10);
      DigitValue(n % 10);
      assert Dec(n) + s == Dec(n / 10) + ([d] + s);
      DecRead(n / 10, [d] + s, bs);
      assert ([d] + s)[1..] == s;
      assert (bs + [n / 10])[..|bs|] + [n] == bs + [n];
    }
  }

  lemma DotRead(n: nat, s: string, bs: seq<Byte>)
    requires n < 256 && |bs| < 3
    ensures Scan4(Dec(n) + ("." + s), bs + [0], false) == Scan4(s, bs + [n] + [0], false)
  {
    DecRead(n, "." + s, bs);
    assert ("." + s)[1..] == s;
  }

  lemma TailRead(a: Byte, b: Byte, c: Byte, d: Byte)
    ensures Scan4(Tail(b, c, d), [a] + [0], false) == Some([a, b, c, d])
  {
    DotRead(b, Dec(c) + ("." + Dec(d)), [a]);
    assert [a] + [b] == [a, b] && [a, b] + [c] == [a, b, c] && [a, b, c] + [d] == [a, b, c, d];
    DotRead(c, Dec(d), [a, b]);
    DecRead(d, "", [a, b, c]);
    assert Dec(d) + "" == Dec(d);
  }

  lemma DottedRead(a: Byte, b: Byte, c: Byte, d: Byte)
    ensures Pton4(Dotted(a, b, c, d)) == Some([a, b, c, d])
  {
    assert [] + [0] == [0] && [] + [a] == [a];
    DotRead(a, Tail(b, c, d), []);
    TailRead(a, b, c, d);
  }

  /** A dotted quad ends the scan. */
  lemma QuadRead(a: Byte, b: Byte, c: Byte, d: Byte, out: seq<Byte>, colon: int)
    requires |out| + 4 <= 16 && -1 <= colon <= |out|
    ensures var s := Dotted(a, b, c, d); Scan6(s, s, out, colon, false, 0) == Scanned(out + [a, b, c, d], colon)
  {
    var s := Dotted(a, b, c, d);
    var t := "." + Tail(b, c, d);
    var v := DecSkipped(a, t, s, out, colon);
    DottedRead(a, b, c, d);
  }

  // ----- reading what was printed -----

  /** The bytes of the words before the i-th. */
  function Upto(src: seq<Byte>, i: nat): seq<Byte>
    requires Address(src) && i <= 8
  {
    src[..2 * i]
  }

  lemma WordBytes(src: seq<Byte>, i: nat)
    requires Address(src) && i < 8
    ensures Word(src, i) / 256 == src[2 * i] && Word(src, i) % 256 == src[2 * i + 1]
  {
  }

  /** With the run at base (8 when there is none) still ahead: word i - 1 has been read but not stored. */
  lemma {:induction false} BeforeRun(src: seq<Byte>, best: Run, i: nat, tok: string)
    requires Address(src) && 0 < i <= 8 && (best.base == -1 || (i <= best.base && best.base + best.len <= 8 && best.len >= 2))
    ensures Scan6(Rest(src, best, i), tok, Upto(src, i - 1), -1, true, Word(src, i - 1)) ==
              if best.base == -1 then Scanned(src, -1)
              else AfterRun(src, best, best.base)
    decreases 8 - i
  {
    WordBytes(src, i - 1);
    var w, out := Word(src, i - 1), Upto(src, i);
    assert Upto(src, i - 1) + [w / 256, w % 256] == out;
    if i == 8 {
      assert out == src;
    } else if best.base == -1 || i < best.base {
      HexBehind(src, best, i, out, -1);
      BeforeRun(src, best, i + 1, Hex(Word(src, i)) + Rest(src, best, i + 1));
    } else {
      RunStarts(src, best);
      var s := Rest(src, best, best.base)[1..];
      assert Rest(src, best, i) == ":" + s;
    }
  }

  /** Where the scan gets once it has read the first colon of `::`. */
  function AfterRun(src: seq<Byte>, best: Run, base: nat): Scanned
    requires Address(src) && base < 8 && best.base == base
  {
    var s := Rest(src, best, base);
    if |s| > 0 then Scan6(s[1..], s[1..], Upto(src, base), -1, false, 0) else Bad
  }

  /** Inside the run nothing more is printed. */
  lemma {:induction false} RunSilent(src: seq<Byte>, best: Run, i: nat)
    requires Address(src) && best.base >= 0 && best.base + best.len <= 8 && best.base < i <= best.base + best.len
    ensures Rest(src, best, i) == Rest(src, best, best.base + best.len)
    decreases 8 - i
  {
    if i < best.base + best.len { RunSilent(src, best, i + 1); }
  }

  lemma RunStarts(src: seq<Byte>, best: Run)
    requires Address(src) && best.base >= 0 && best.len >= 2 && best.base + best.len <= 8
    ensures Rest(src, best, best.base) == ":" + Rest(src, best, best.base + best.len)
    ensures Rest(src, best, best.base + best.len) != "" && Rest(src, best, best.base + best.len)[0] == ':'
  {
    RunSilent(src, best, best.base + 1);
  }

  /** Behind the run, from its end e: word i - 1 has been read but not stored, and the scan of the rest comes out right. */
  ghost predicate ScansBehind(src: seq<Byte>, best: Run, i: nat, tok: string)
    requires Address(src) && best.base >= 0 && best.len >= 2 && best.base + best.len < i <= 8
  {
    var b, e := best.base, best.base + best.len;
    Scan6(Rest(src, best, i), tok, Upto(src, b) + src[2 * e..2 * (i - 1)], 2 * b, true, Word(src, i - 1))
      == Scanned(Upto(src, b) + src[2 * e..], 2 * b)
  }

  lemma BehindAll(src: seq<Byte>, best: Run, tok: string)
    requires Address(src) && best.base >= 0 && best.len >= 2 && best.base + best.len < 8
    ensures ScansBehind(src, best, 8, tok)
  {
    var b, e := best.base, best.base + best.len;
    OneMoreWord(src, b, e, 8);
    assert src[2 * e..16] == src[2 * e..];
  }

  lemma BehindQuad(src: seq<Byte>, best: Run, tok: string)
    requires Address(src) && Embedded(src, best) && best.len == 5
    ensures ScansBehind(src, best, 6, tok)
  {
    var before, out := Upto(src, 0) + src[10..10], Upto(src, 0) + src[10..12];
    OneMoreWord(src, 0, 5, 6);
    LastQuad(src, best, out, tok);
    ColonStores(Dotted(src[12], src[13], src[14], src[15]), tok, before, 0, Word(src, 5));
    assert out + src[12..] == Upto(src, 0) + src[10..];
  }

  lemma BehindHex(src: seq<Byte>, best: Run, i: nat, tok: string)
    requires Address(src) && best.base >= 0 && best.len >= 2 && best.base + best.len < i < 8 && !(i == 6 && Embedded(src, best))
    requires ScansBehind(src, best, i + 1, Hex(Word(src, i)) + Rest(src, best, i + 1))
    ensures ScansBehind(src, best, i, tok)
  {
    var b, e := best.base, best.base + best.len;
    OneMoreWord(src, b, e, i);
    HexBehind(src, best, i, Upto(src, b) + src[2 * e..2 * i], 2 * b);
    ColonStores(Hex(Word(src, i)) + Rest(src, best, i + 1), tok, Upto(src, b) + src[2 * e..2 * (i - 1)], 2 * b, Word(src, i - 1));
  }

  lemma {:induction false} BehindRun(src: seq<Byte>, best: Run, i: nat, tok: string)
    requires Address(src) && best.base >= 0 && best.len >= 2 && best.base + best.len < i <= 8
    requires Embedded(src, best) ==> i <= 6
    ensures ScansBehind(src, best, i, tok)
    decreases 8 - i
  {
    if i == 8 {
      BehindAll(src, best, tok);
    } else if i == 6 && Embedded(src, best) {
      BehindQuad(src, best, tok);
    } else {
      BehindRun(src, best, i + 1, Hex(Word(src, i)) + Rest(src, best, i + 1));
      BehindHex(src, best, i, tok);
    }
  }

  lemma ColonStores(s: string, tok: string, out: seq<Byte>, colon: int, w: nat)
    requires |out| + 2 <= 16 && -1 <= colon <= |out| && w <= 0xffff
    ensures Scan6(":" + s, tok, out, colon, true, w) == Scan6(s, s, out + [w / 256, w % 256], colon, false, 0)
  {
    assert (":" + s)[1..] == s;
  }

  lemma OneMoreWord(src: seq<Byte>, b: nat, e: nat, i: nat)
    requires Address(src) && b <= 8 && e < i <= 8
    ensures Upto(src, b) + src[2 * e..2 * (i - 1)] + [Word(src, i - 1) / 256, Word(src, i - 1) % 256] == Upto(src, b) + src[2 * e..2 * i]
  {
    WordBytes(src, i - 1);
    assert src[2 * e..2 * i] == src[2 * e..2 * (i - 1)] + [src[2 * (i - 1)], src[2 * (i - 1) + 1]];
  }

  lemma HexBehind(src: seq<Byte>, best: Run, i: nat, out: seq<Byte>, colon: int)
    requires Address(src) && 0 < i < 8 && !Inside(best, i) && !(i == 6 && Embedded(src, best)) && |out| <= 16 && -1 <= colon <= |out|
    ensures var s := Hex(Word(src, i)) + Rest(src, best, i + 1);
            && Rest(src, best, i) == ":" + s && Rest(src, best, i)[1..] == s
            && Scan6(s, s, out, colon, false, 0) == Scan6(Rest(src, best, i + 1), s, out, colon, true, Word(src, i))
  {
    var s := Hex(Word(src, i)) + Rest(src, best, i + 1);
    assert Rest(src, best, i) == ":" + s && (":" + s)[1..] == s;
    HexRead(Word(src, i), Rest(src, best, i + 1), s, out, colon);
  }

  /** The embedded IPv4 address, read from the colon before it or from behind that colon. */
  lemma LastQuad(src: seq<Byte>, best: Run, out: seq<Byte>, tok: string)
    requires Address(src) && Embedded(src, best) && |out| <= 12 && best.len <= 6
    ensures var s := Dotted(src[12], src[13], src[14], src[15]);
            && Rest(src, best, 6) == ":" + s && Rest(src, best, 6)[1..] == s
            && Scan6(s, s, out, 0, false, 0) == Scanned(out + src[12..], 0)
  {
    var s := Dotted(src[12], src[13], src[14], src[15]);
    LastFour(src);
    QuadRead(src[12], src[13], src[14], src[15], out, 0);
    assert Rest(src, best, 6) == ":" + s;
    assert (":" + s)[1..] == s;
  }

  lemma LastFour(src: seq<Byte>)
    requires Address(src)
    ensures src[12..] == [src[12], src[13], src[14], src[15]]
  {
  }

  /** `::` and all that follows it. */
  lemma RunRead(src: seq<Byte>, best: Run)
    requires Address(src) && best.base >= 0 && best.len >= 2 && best.base + best.len <= 8
    ensures AfterRun(src, best, best.base) == Scanned(Upto(src, best.base) + src[2 * (best.base + best.len)..], 2 * best.base)
  {
    var b, e := best.base, best.base + best.len;
    RunStarts(src, best);
    var s, out := Rest(src, best, e), Upto(src, b);
    assert (":" + s)[1..] == s;
    if e == 8 {
      assert s[1..] == "" && out + src[16..] == out;
    } else if e == 6 && Embedded(src, best) {
      LastQuad(src, best, out, "");
    } else {
      WordBehind(src, best, out);
    }
  }

  lemma WordBehind(src: seq<Byte>, best: Run, out: seq<Byte>)
    requires Address(src) && best.base >= 0 && best.len >= 2 && best.base + best.len < 8
    requires out == Upto(src, best.base) && !(best.base + best.len == 6 && Embedded(src, best))
    ensures var b, e := best.base, best.base + best.len;
            var t := Rest(src, best, e)[1..];
            Scan6(t, t, out, 2 * b, false, 0) == Scanned(out + src[2 * e..], 2 * b)
  {
    var b, e := best.base, best.base + best.len;
    HexBehind(src, best, e, out, 2 * b);
    assert out + src[2 * e..2 * e] == out;
    BehindRun(src, best, e + 1, Hex(Word(src, e)) + Rest(src, best, e + 1));
  }

  /** The zeros that `::` stood for come back. */
  lemma RunExpands(src: seq<Byte>, best: Run)
    requires Address(src) && best.base >= 0 && best.len >= 2 && ZeroRun(src, best.base, best.len)
    ensures Expand(Upto(src, best.base) + src[2 * (best.base + best.len)..], 2 * best.base) == src
  {
    var b, e := best.base, best.base + best.len;
    forall i | 2 * b <= i < 2 * e ensures src[i] == 0 {
      assert Word(src, i / 2) == 0;
    }
  }

  /** Parsing what was printed gives the address back, for every address. */
  lemma RoundTrip(src: seq<Byte>, best: Run)
    requires Address(src) && Best(src, best)
    ensures Pton6(Ntop6(src, best)) == Some(src)
  {
    var s := Ntop6(src, best);
    if best.base == 0 {
      RunStarts(src, best);
      RunRead(src, best);
      RunExpands(src, best);
    } else {
      var t := Rest(src, best, 1);
      assert s == Hex(Word(src, 0)) + t;
      HexFirst(Word(src, 0), t);
      HexRead(Word(src, 0), t, s, [], -1);
      BeforeRun(src, best, 1, s);
      if best.base > 0 {
        RunRead(src, best);
        RunExpands(src, best);
      }
    }
  }

  lemma {:induction false} HexFirst(w: nat, s: string)
    ensures |Hex(w)| > 0 && (Hex(w) + s)[0] != ':'
    decreases w
  {
    DigitValue(w % 16);
    if w >= 16 { HexFirst(w / 16, s); }
  }

  // ----- how long the text is -----

  lemma {:induction false} HexLength(w: nat)
    requires w <= 0xffff
    ensures |Hex(w)| == if w < 0x10 then 1 else if w < 0x100 then 2 else if w < 0x1000 then 3 else 4
    decreases w
  {
    if w >= 16 { HexLength(w / 16); }
  }

  lemma {:induction false} DecLength(n: nat)
    requires n < 256
    ensures 1 <= |Dec(n)| <= 3
    decreases n
  {
    if n >= 100 {
      assert |Dec(n / 100)| == 1;
    } else if n >= 10 {
      assert |Dec(n / 10)| == 1;
    }
  }

  lemma DottedLength(a: Byte, b: Byte, c: Byte, d: Byte)
    ensures |Dotted(a, b, c, d)| <= 15
  {
    DecLength(a);
    DecLength(b);
    DecLength(c);
    DecLength(d);
  }

  /** What is left to print from word i on. */
  lemma {:induction false} RestLength(src: seq<Byte>, best: Run, i: nat)
    requires Address(src) && i <= 8 && (best.base != -1 ==> best.base >= 0 && best.len >= 2 && best.base + best.len <= 8)
    ensures !Embedded(src, best) ==> |Rest(src, best, i)| <= 5 * (8 - i) + 1
    ensures Embedded(src, best) && i <= 6 ==> |Rest(src, best, i)| <= (if i == 6 then 16 else if i == 0 then 22 else 21)
    decreases 8 - i
  {
    if i < 8 {
      HexLength(Word(src, i));
      if i == 6 && Embedded(src, best) {
        DottedLength(src[12], src[13], src[14], src[15]);
      } else {
        RestLength(src, best, i + 1);
      }
    }
  }

  /** The text of every address, with its NUL, fits the 46 bytes of the buffer, and those callers are told to provide. */
  lemma FitsBuffer(src: seq<Byte>, best: Run)
    requires Address(src) && Best(src, best)
    ensures |Ntop6(src, best)| + 1 <= 46
  {
    RestLength(src, best, 0);
  }
}
