/** `inet_ntop6`, `inet_pton4` and `inet_pton6` of src/external/talloc/lib/replace, with their buffers. A source string ends
    where the sequence does. */
module Inet6 {
  import opened Basics
  import opened Inet6Text

  // ----- printing -----

  /** Of the runs of zeros before `limit`, best is the longest and first; base -1 if there is none. */
  ghost predicate BestBefore(src: seq<Byte>, best: Run, limit: int)
    requires Address(src)
  {
    if best.base == -1 then forall b, n :: ZeroRun(src, b, n) ==> b + n > limit
    else
      && ZeroRun(src, best.base, best.len) && best.base + best.len <= limit
      && forall b, n :: ZeroRun(src, b, n) && b + n <= limit ==> n < best.len || (n == best.len && best.base <= b)
  }

  /** cur is the run of zeros that ends before word i, if there is one, and starts behind a word that is not zero. */
  ghost predicate Current(src: seq<Byte>, cur: Run, i: nat)
    requires Address(src) && i <= 8
  {
    if cur.base == -1 then i > 0 ==> Word(src, i - 1) != 0
    else ZeroRun(src, cur.base, cur.len) && cur.base + cur.len == i && (cur.base > 0 ==> Word(src, cur.base - 1) != 0)
  }

  function Longer(best: Run, cur: Run): Run {
    if cur.base != -1 && (best.base == -1 || cur.len > best.len) then cur else best
  }

  /** A run of zeros lies before or inside the current one. */
  lemma CurrentClosed(src: seq<Byte>, best: Run, cur: Run, i: nat)
    requires Address(src) && i <= 8 && Current(src, cur, i) && BestBefore(src, best, if cur.base == -1 then i else cur.base)
    ensures BestBefore(src, Longer(best, cur), i)
  {
    if cur.base != -1 {
      forall b, n | ZeroRun(src, b, n) && b + n <= i ensures b + n <= cur.base || (cur.base <= b && n <= cur.len) {
        NotAcross(src, b, n, cur.base);
      }
    }
  }

  /** A run of zeros does not go across a place that a nonzero word ends. */
  lemma NotAcross(src: seq<Byte>, b: int, n: int, place: int)
    requires Address(src) && ZeroRun(src, b, n) && 0 <= place <= 8 && (place > 0 ==> Word(src, place - 1) != 0)
    ensures b + n <= place || place <= b
  {
  }

  lemma NotPast(src: seq<Byte>, best: Run, i: nat)
    requires Address(src) && i < 8 && Word(src, i) != 0 && BestBefore(src, best, i)
    ensures BestBefore(src, best, i + 1)
  {
    forall b, n | ZeroRun(src, b, n) ensures b + n <= i + 1 ==> b + n <= i {
      NotAcross(src, b, n, i + 1);
    }
  }

  /** The words of the address and the run to shorten. */
  method FindRun(src: seq<Byte>) returns (words: seq<nat>, best: Run)
    requires Address(src)
    ensures |words| == 8 && (forall i :: 0 <= i < 8 ==> words[i] == Word(src, i)) && Best(src, best)
  {
    var w := new nat[8](_ => 0);
    for i := 0 to 16
      invariant forall k :: 0 <= k < 8 ==>
                  w[k] == (if 2 * k < i then src[2 * k] as int * 256 else 0) + (if 2 * k + 1 < i then src[2 * k + 1] as int else 0)
    {
      // The two bytes share no bit, so `|=` adds.
      w[i / 2] := w[i / 2] + src[i] as int * (if i % 2 == 0 then 256 else 1);
    }
    words := w[..];
    best := Run(-1, 0);
    var cur := Run(-1, 0);
    for i := 0 to 8
      invariant Current(src, cur, i) && BestBefore(src, best, if cur.base == -1 then i else cur.base)
    {
      if words[i] == 0 {
        if cur.base == -1 { cur := Run(i, 1); } else { cur := cur.(len := cur.len + 1); }
      } else {
        CurrentClosed(src, best, cur, i);
        best := Longer(best, cur);
        NotPast(src, best, i);
        cur := cur.(base := -1);
      }
    }
    CurrentClosed(src, best, cur, 8);
    best := Longer(best, cur);
    if best.base != -1 && best.len < 2 { best := best.(base := -1); }
  }

  /** `*tp++` for every character of s. */
  method Put(tmp: array<char>, at: nat, s: string) returns (tp: nat)
    requires at + |s| <= tmp.Length
    modifies tmp
    ensures tp == at + |s| && tmp[..tp] == old(tmp[..at]) + s
  {
    for k := 0 to |s|
      invariant tmp[..at + k] == old(tmp[..at]) + s[..k]
    {
      tmp[at + k] := s[k];
      assert tmp[..at + k + 1] == tmp[..at + k] + [s[k]];
      assert s[..k + 1] == s[..k] + [s[k]];
    }
    assert s[..|s|] == s;
    tp := at + |s|;
  }

  lemma Appended(a: string, b: string, c: string, t: string)
    requires a + (b + c) == t
    ensures (a + b) + c == t && |a| + |b| <= |t|
  {
    assert (a + b) + c == a + (b + c);
  }

  /** The formatting loop of `inet_ntop6`. */
  method Format(src: seq<Byte>, words: seq<nat>, best: Run, tmp: array<char>) returns (tp: nat)
    requires Address(src) && Best(src, best) && |words| == 8 && forall i :: 0 <= i < 8 ==> words[i] == Word(src, i)
    requires tmp.Length == 46
    modifies tmp
    ensures tp < 46 && tmp[..tp] == Ntop6(src, best)
  {
    FitsBuffer(src, best);
    tp := FormatWords(src, words, best, tmp, Ntop6(src, best));
  }

  method FormatWords(src: seq<Byte>, words: seq<nat>, best: Run, tmp: array<char>, ghost text: string) returns (tp: nat)
    requires Address(src) && |words| == 8 && forall i :: 0 <= i < 8 ==> words[i] == Word(src, i)
    requires |text| < tmp.Length && text == Rest(src, best, 0)
    modifies tmp
    ensures tp <= |text| && tmp[..tp] == text
  {
    tp := 0;
    var i, done := 0, false;
    assert tmp[..0] + text == text;
    while i < 8
      invariant 0 <= i <= 8 && tp <= |text| && !done && tmp[..tp] + Rest(src, best, i) == text
    {
      RestIs(src, best, i);
      if best.base != -1 && i >= best.base && i < best.base + best.len {
        if i == best.base {
          Appended(tmp[..tp], ":", Rest(src, best, i + 1), text);
          tp := Put(tmp, tp, ":");
        }
      } else {
        tp, done := FormatWord(src, words, best, tmp, tp, i, text);
        if done { break; }
      }
      i := i + 1;
    }
    if !done { RestEnds(src, best, i); }
    if best.base != -1 && best.base + best.len == 8 { tp := Put(tmp, tp, ":"); }
  }

  /** One word outside the run, or the embedded IPv4 address, which ends the loop. */
  method FormatWord(src: seq<Byte>, words: seq<nat>, best: Run, tmp: array<char>, at: nat, i: nat, ghost text: string)
    returns (tp: nat, done: bool)
    requires Address(src) && |words| == 8 && i < 8 && !Inside(best, i) && forall i :: 0 <= i < 8 ==> words[i] == Word(src, i)
    requires at <= |text| < tmp.Length && tmp[..at] + Rest(src, best, i) == text
    modifies tmp
    ensures tp <= |text| && tmp[..tp] + (if done then "" else Rest(src, best, i + 1)) == text
    ensures done ==> best.base + best.len < 8
  {
    tp := at;
    RestIs(src, best, i);
    if i != 0 {
      Appended(tmp[..tp], ":", Body(src, best, i), text);
      tp := Put(tmp, tp, ":");
    }
    done := i == 6 && best.base == 0 && (best.len == 6 || (best.len == 5 && words[5] == 0xffff));
    if done {
      Appended(tmp[..tp], Dotted(src[12], src[13], src[14], src[15]), "", text);
      tp := Put(tmp, tp, Dotted(src[12], src[13], src[14], src[15]));
    } else {
      Appended(tmp[..tp], Hex(words[i]), Rest(src, best, i + 1), text);
      tp := Put(tmp, tp, Hex(words[i]));
    }
  }

  lemma RestEnds(src: seq<Byte>, best: Run, i: nat)
    requires Address(src) && i == 8
    ensures Rest(src, best, i) == if best.base != -1 && best.base + best.len == 8 then ":" else ""
  {
  }

  lemma RestIs(src: seq<Byte>, best: Run, i: nat)
    requires Address(src) && i < 8
    ensures Rest(src, best, i) ==
              if Inside(best, i) then if i == best.base then ":" + Rest(src, best, i + 1) else Rest(src, best, i + 1)
              else if i != 0 then ":" + Body(src, best, i)
              else Body(src, best, i)
  {
    if Inside(best, i) {
      assert "" + Rest(src, best, i + 1) == Rest(src, best, i + 1);
    } else if i == 6 && Embedded(src, best) {
      assert Dotted(src[12], src[13], src[14], src[15]) + "" == Dotted(src[12], src[13], src[14], src[15]);
    } else if i == 0 {
      assert "" + Body(src, best, i) == Body(src, best, i);
    }
  }

  /** What is printed from word i on, behind the colon. */
  ghost function Body(src: seq<Byte>, best: Run, i: nat): string
    requires Address(src) && i < 8
  {
    if i == 6 && Embedded(src, best) then Dotted(src[12], src[13], src[14], src[15]) + "" else Hex(Word(src, i)) + Rest(src, best, i + 1)
  }

  /** `inet_ntop6`: false, and dst untouched, when the text and its NUL do not fit in size. */
  method NtopSix(src: seq<Byte>, dst: array<char>, size: nat) returns (ok: bool, ghost best: Run)
    requires Address(src) && size <= dst.Length
    modifies dst
    ensures Best(src, best)
    ensures ok <==> |Ntop6(src, best)| + 1 <= size
    ensures ok ==> dst[..|Ntop6(src, best)| + 1] == Ntop6(src, best) + ['\0']
    ensures !ok ==> dst[..] == old(dst[..])
  {
    var words, run := FindRun(src);
    best := run;
    var tmp := new char[46];
    var tp := Format(src, words, run, tmp);
    tp := Put(tmp, tp, ['\0']);
    if tp > size { return false, best; }
    var n := Put(dst, 0, tmp[..tp]);
    ok := true;
  }

  // ----- parsing -----

  /** `inet_pton4` into the bytes of dst from `at` on; dst is left alone unless the text is good. */
  method PtonFour(src: string, dst: array<Byte>, at: nat) returns (ok: bool)
    requires at + 4 <= dst.Length
    modifies dst
    ensures ok <==> Pton4(src).Some?
    ensures dst[..] == if ok then old(dst[..at]) + Pton4(src).value + old(dst[at + 4..]) else old(dst[..])
  {
    var tmp := new Byte[4](_ => 0);
    ok := ScanFour(src, tmp);
    if ok { Store(dst, at, tmp[..]); }
  }

  /** The loop of `inet_pton4`. */
  method ScanFour(src: string, tmp: array<Byte>) returns (ok: bool)
    requires tmp.Length == 4 && tmp[0] == 0
    modifies tmp
    ensures ok <==> Pton4(src).Some?
    ensures ok ==> tmp[..] == Pton4(src).value
  {
    var sawDigit, octets, tp, i := false, 0, 0, 0;
    assert tmp[..1] == [0];
    while i < |src|
      invariant i <= |src| && tp < 4 && octets == (if sawDigit then tp + 1 else tp)
      invariant Pton4(src) == Scan4(src[i..], tmp[..tp + 1], sawDigit)
    {
      var ch := src[i];
      ghost var was := tmp[..tp + 1];
      assert src[i..][1..] == src[i + 1..];
      i := i + 1;
      if '0' <= ch <= '9' {
        var octet := tmp[tp] as int * 10 + HexValue(ch);
        if octet > 255 { return false; }
        tmp[tp] := octet;
        assert tmp[..tp + 1] == was[..tp] + [octet];
        if !sawDigit {
          octets := octets + 1;
          if octets > 4 { return false; }
          sawDigit := true;
        }
      } else if ch == '.' && sawDigit {
        if octets == 4 { return false; }
        tp := tp + 1;
        tmp[tp] := 0;
        assert tmp[..tp + 1] == was + [0];
        sawDigit := false;
      } else {
        return false;
      }
    }
    assert src[i..] == "";
    if octets < 4 { return false; }
    assert tmp[..tp + 1] == tmp[..];
    return true;
  }

  method Store(dst: array<Byte>, at: nat, bytes: seq<Byte>)
    requires at + |bytes| <= dst.Length
    modifies dst
    ensures dst[..] == old(dst[..at]) + bytes + old(dst[at + |bytes|..])
  {
    for k := 0 to |bytes|
      invariant dst[..at + k] == old(dst[..at]) + bytes[..k] && dst[at + k..] == old(dst[at + k..])
    {
      assert old(dst[at + k..])[1..] == old(dst[at + k + 1..]) && dst[at + k..][1..] == dst[at + k + 1..];
      dst[at + k] := bytes[k];
      assert dst[..at + k + 1] == dst[..at + k] + [bytes[k]];
      assert bytes[..k + 1] == bytes[..k] + [bytes[k]];
    }
    assert dst[..] == dst[..at + |bytes|] + dst[at + |bytes|..] && bytes[..|bytes|] == bytes;
  }

  /** Moves what lies behind `::` to the end of the buffer, from the last byte down, zeroing where it was. */
  method ShiftToEnd(tmp: array<Byte>, tp: nat, colon: nat)
    requires tmp.Length == 16 && colon <= tp <= 16 && forall k :: tp <= k < 16 ==> tmp[k] == 0
    modifies tmp
    ensures tmp[..] == Expand(old(tmp[..tp]), colon)
  {
    var n := tp - colon;
    ghost var was := tmp[..];
    for i := 1 to n + 1
      invariant forall x {:trigger tmp[x]} :: 16 - (i - 1) <= x < 16 ==> tmp[x] == if tp == 16 then 0 else was[x - (16 - tp)]
      invariant forall x {:trigger tmp[x]} :: tp - (i - 1) <= x < 16 - (i - 1) ==> tmp[x] == 0
      invariant forall x {:trigger tmp[x]} :: 0 <= x < tp - (i - 1) ==> tmp[x] == was[x]
    {
      assert tmp[tp - i] == was[tp - i];
      tmp[16 - i] := tmp[colon + n - i];
      tmp[colon + n - i] := 0;
    }
    assert old(tmp[..tp]) == was[..tp];
  }

  /** `inet_pton6`: dst is written only if the text is good. */
  method PtonSix(text: string, dst: array<Byte>) returns (ok: bool)
    requires dst.Length == NS_IN6ADDRSZ
    modifies dst
    ensures ok <==> Pton6(text).Some?
    ensures dst[..] == if ok then Pton6(text).value else old(dst[..])
  {
    var src := text;
    if |src| > 0 && src[0] == ':' {
      src := src[1..];
      if !(|src| > 0 && src[0] == ':') { return false; }
    }
    var tmp := new Byte[NS_IN6ADDRSZ](_ => 0);
    var good, tp, colon := ScanSix(src, tmp);
    if !good { return false; }
    if colon >= 0 {
      ShiftToEnd(tmp, tp, colon);
      tp := 16;
    }
    if tp != 16 { return false; }
    assert tmp[..16] == tmp[..];
    Store(dst, 0, tmp[..]);
    return true;
  }

  /** The loop of `inet_pton6`, and the bytes of a last word. */
  method ScanSix(src: string, tmp: array<Byte>) returns (good: bool, tp: nat, colon: int)
    requires tmp.Length == 16 && forall k :: 0 <= k < 16 ==> tmp[k] == 0
    modifies tmp
    ensures good <==> Scan6(src, src, [], -1, false, 0).Scanned?
    ensures good ==> tp <= 16 && Scan6(src, src, [], -1, false, 0) == Scanned(tmp[..tp], colon) && colon <= tp
    ensures good ==> forall k :: tp <= k < 16 ==> tmp[k] == 0
  {
    good, tp, colon := false, 0, -1;
    var curtok: nat, sawXdigit, val: nat, i: nat := 0, false, 0, 0;
    assert tmp[..0] == [] && src[0..] == src;
    while i < |src|
      invariant i <= |src| && curtok <= |src| && tp <= 16 && -1 <= colon <= tp && val <= 0xffff
      invariant forall k :: tp <= k < 16 ==> tmp[k] == 0
      invariant Scan6(src, src, [], -1, false, 0) == Scan6(src[i..], src[curtok..], tmp[..tp], colon, sawXdigit, val)
    {
      var ch := src[i];
      assert src[i..][1..] == src[i + 1..];
      i := i + 1;
      if HexValue(ch) >= 0 {
        val := val * 16 + HexValue(ch);
        if val > 0xffff { return; }
        sawXdigit := true;
      } else if ch == ':' {
        curtok := i;
        if !sawXdigit {
          if colon >= 0 { return; }
          colon := tp;
        } else {
          if tp + 2 > 16 { return; }
          tp := StoreWord(tmp, tp, val);
          sawXdigit, val := false, 0;
        }
      } else if ch == '.' && tp + 4 <= 16 {
        var quad := PtonFour(src[curtok..], tmp, tp);
        if !quad { return; }
        tp := tp + 4;
        good := true;
        return;
      } else {
        return;
      }
    }
    assert src[i..] == "";
    if sawXdigit {
      if tp + 2 > 16 { return; }
      tp := StoreWord(tmp, tp, val);
    }
    good := true;
  }

  method StoreWord(tmp: array<Byte>, at: nat, val: nat) returns (tp: nat)
    requires tmp.Length == 16 && at + 2 <= 16 && val <= 0xffff && forall k :: at <= k < 16 ==> tmp[k] == 0
    modifies tmp
    ensures tp == at + 2 && tmp[..tp] == old(tmp[..at]) + [val / 256, val % 256] && forall k :: tp <= k < 16 ==> tmp[k] == 0
  {
    tmp[at] := val / 256;
    tmp[at + 1] := val % 256;
    tp := at + 2;
    assert tmp[..tp] == tmp[..at] + [tmp[at], tmp[at + 1]];
  }
}
