/** `come_string_len`, `come_string_at`, `come_string_substr` and `come_string_cmp` of src/string/string.c. A pointer into the
    text is an index, and the byte at its end is NUL. */
module Utf8 {
  import opened Basics
  import opened Utf8Text

  /** `come_string_len`. */
  method StringLen(s: seq<Byte>) returns (count: nat)
    ensures count == Len(s)
  {
    count := 0;
    var p := 0;
    while p < |s|
      invariant 0 <= p <= |s| && count + Len(s[p..]) == Len(s)
    {
      assert s[p..][1..] == s[p + 1..];
      if !Continues(s[p]) { count := count + 1; }
      p := p + 1;
    }
  }

  /** The loop that moves to the next character; the test of the byte at the end, which is NUL, stops it. */
  method Advance(s: seq<Byte>, p: nat) returns (q: nat)
    requires p < |s| && 0 !in s
    ensures q == Next(s, p)
  {
    q := p + 1;
    while Continues(At(s, q))
      invariant p < q <= |s| && Next(s, p) == Next(s, q - 1)
      decreases |s| - q
    {
      q := q + 1;
    }
  }

  /** `come_string_at`: the character at an index; None where the source returns NULL. */
  method StringAt(s: seq<Byte>, index: nat) returns (r: Option<seq<Byte>>)
    requires 0 !in s
    ensures r == if index < |Chars(s)| then Some(Chars(s)[index]) else None
  {
    var p, current := 0, 0;
    StartInside(s, 0);
    while p < |s|
      invariant current <= index && current <= |Chars(s)| && p == Start(s, current)
      invariant current < |Chars(s)| <==> p < |s|
      decreases |s| - p
    {
      StartStep(s, current);
      StartInside(s, current + 1);
      var q := Advance(s, p);
      if current == index {
        return Some(s[p..q]);
      }
      p, current := q, current + 1;
    }
    r := None;
  }

  /** `come_string_substr`: the characters from start up to end, as far as the text has them. */
  method StringSubstr(s: seq<Byte>, start: nat, end: nat) returns (r: seq<Byte>)
    requires 0 !in s
    ensures r == Slice(s, start, end)
  {
    var p, charIdx := 0, 0;
    var startP, endP := -1, -1;
    StartInside(s, 0);
    while p < |s|
      invariant charIdx <= end && charIdx <= |Chars(s)| && p == Start(s, charIdx)
      invariant charIdx < |Chars(s)| <==> p < |s|
      invariant startP == if start < charIdx then Start(s, start) else -1
      invariant endP == -1
      decreases |s| - p
    {
      if charIdx == start { startP := p; }
      if charIdx == end {
        endP := p;
        break;
      }
      StartStep(s, charIdx);
      StartInside(s, charIdx + 1);
      p := Advance(s, p);
      charIdx := charIdx + 1;
    }
    assert charIdx == Clip(|Chars(s)|, end);
    if charIdx == start { startP := p; }
    if endP < 0 { endP := p; }
    if startP < 0 { startP := endP; }
    if startP > endP { startP := endP; }
    if start <= charIdx {
      StartMonotone(s, start, charIdx);
    }
    r := s[startP..endP];
  }

  /** `come_utf8_char_width`. */
  method CharWidth(s: seq<Byte>, p: nat) returns (actual: nat)
    requires p < |s| && 0 !in s
    ensures actual == Width(s[p..])
  {
    var width := Announced(s[p]);
    actual := 1;
    while actual < width && At(s, p + actual) != 0
      invariant 1 <= actual <= width && p + actual <= |s|
    {
      actual := actual + 1;
    }
  }

  /** `come_utf8_compare_next` without folding case: the difference of two characters, and where the next ones start. */
  method CompareNext(a: seq<Byte>, p: nat, b: seq<Byte>, q: nat) returns (diff: int, p': nat, q': nat)
    requires p < |a| && q < |b| && 0 !in a && 0 !in b
    ensures p' == p + Width(a[p..]) && q' == q + Width(b[q..])
    ensures diff == CharDiff(a[p..p'], b[q..q'])
  {
    var w1 := CharWidth(a, p);
    var w2 := CharWidth(b, q);
    var min := if w1 < w2 then w1 else w2;
    p', q' := p + w1, q + w2;
    var i := 0;
    while i < min
      invariant 0 <= i <= min
      invariant CharDiff(a[p..p'], b[q..q']) == CharDiff(a[p + i..p'], b[q + i..q'])
    {
      if a[p + i] != b[q + i] {
        diff := a[p + i];
        diff := diff - b[q + i];
        return;
      }
      assert a[p + i..p'][1..] == a[p + i + 1..p'] && b[q + i..q'][1..] == b[q + i + 1..q'];
      i := i + 1;
    }
    diff := w1;
    diff := diff - w2;
  }

  /** `strcmp`. */
  method Strcmp(a: seq<Byte>, b: seq<Byte>) returns (diff: int)
    requires 0 !in a && 0 !in b
    ensures diff == ByteOrder(a, b)
  {
    var i := 0;
    while i < |a| && At(a, i) == At(b, i)
      invariant 0 <= i <= |a| && i <= |b|
      invariant ByteOrder(a, b) == ByteOrder(a[i..], b[i..])
    {
      assert a[i..][1..] == a[i + 1..] && b[i..][1..] == b[i + 1..];
      i := i + 1;
    }
    diff := At(a, i) - At(b, i);
  }

  /** `come_string_cmp`. */
  method StringCmp(a: seq<Byte>, b: seq<Byte>, n: nat) returns (diff: int)
    requires 0 !in a && 0 !in b
    ensures diff == if n == 0 then ByteOrder(a, b) else Compare(a, b, n)
  {
    if n == 0 {
      diff := Strcmp(a, b);
      return;
    }
    var p: nat, q: nat, chars := 0, 0, 0;
    while chars < n
      invariant 0 <= chars <= n && p <= |a| && q <= |b|
      invariant Compare(a, b, n) == Compare(a[p..], b[q..], n - chars)
    {
      if At(a, p) == 0 || At(b, q) == 0 {
        return At(a, p) - At(b, q);
      }
      var p', q';
      diff, p', q' := CompareNext(a, p, b, q);
      CompareStep(a, p, p', b, q, q', n - chars);
      if diff != 0 { return; }
      p, q, chars := p', q', chars + 1;
    }
    diff := 0;
  }

  lemma CompareStep(a: seq<Byte>, p: nat, p': nat, b: seq<Byte>, q: nat, q': nat, left: nat)
    requires p < |a| && q < |b| && left > 0 && p' == p + Width(a[p..]) && q' == q + Width(b[q..])
    ensures p' <= |a| && q' <= |b|
    ensures Compare(a[p..], b[q..], left)
      == var d := CharDiff(a[p..p'], b[q..q']); if d != 0 then d else Compare(a[p'..], b[q'..], left - 1)
  {
    Cut(a, p, p');
    Cut(b, q, q');
  }

  lemma Cut(s: seq<Byte>, p: nat, q: nat)
    requires p <= q <= |s|
    ensures s[p..][..q - p] == s[p..q] && s[p..][q - p..] == s[q..]
  {
  }
}
