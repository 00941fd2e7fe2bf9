/** `come_string_split_n`, `come_string_join` and `come_string_replace` of src/string/string.c: one pass that counts, one
    that fills. What `malloc` and the copy from "" leave in a new buffer is arbitrary. */
module Strings {
  import opened Basics
  import opened StringSearch

  /** `strstr`. */
  method Strstr(s: string, sub: string, from: nat) returns (r: int)
    requires from <= |s|
    ensures r == Find(s, sub, from)
  {
    r := from;
    while r + |sub| <= |s|
      invariant from <= r && Find(s, sub, from) == Find(s, sub, r)
    {
      if s[r..r + |sub|] == sub { return; }
      r := r + 1;
    }
    r := -1;
  }

  /** The counting pass: as many matches as will be used. */
  method CountPass(s: string, sub: string, limit: int) returns (count: nat)
    requires sub != "" && limit >= -1
    ensures count == CountMatches(s, sub, 0, limit)
  {
    count := 0;
    var p: nat := 0;
    while true
      invariant p <= |s| && (limit >= 0 ==> count <= limit)
      invariant CountMatches(s, sub, 0, limit) == count + CountMatches(s, sub, p, if limit < 0 then -1 else limit - count)
      decreases |s| - p
    {
      var next := Strstr(s, sub, p);
      if next == -1 || (limit >= 0 && count >= limit) { break; }
      count := count + 1;
      p := next + |sub|;
    }
  }

  /** `memcpy`. */
  method Copy(dest: array<char>, at: nat, text: string) returns (end: nat)
    requires at + |text| <= dest.Length
    modifies dest
    ensures end == at + |text| && dest[..end] == old(dest[..at]) + text && dest[end..] == old(dest[at + |text|..])
  {
    for k := 0 to |text|
      invariant dest[..at + k] == old(dest[..at]) + text[..k] && dest[at + |text|..] == old(dest[at + |text|..])
    {
      dest[at + k] := text[k];
      assert dest[..at + k + 1] == dest[..at + k] + [text[k]];
      assert text[..k + 1] == text[..k] + [text[k]];
    }
    assert text[..|text|] == text;
    end := at + |text|;
  }

  lemma Fits(done: string, more: string, rest: string, whole: string)
    requires done + (more + rest) == whole
    ensures (done + more) + rest == whole && |done| + |more| <= |whole|
  {
    assert (done + more) + rest == done + (more + rest);
  }

  /** The data of a new string of the given length, of which only the final NUL is known. */
  method NewLen(len: nat) returns (data: array<char>)
    ensures fresh(data) && data.Length == len + 1 && data[len] == '\0'
  {
    data := new char[len + 1];
    data[len] := '\0';
  }

  /** `come_string_replace`, for results whose length is a `size_t`: the buffer made for the wrapped length is filled
      exactly. */
  method ReplaceString(a: string, oldStr: string, newStr: string, n: nat) returns (res: array<char>)
    requires |Replace(a, oldStr, newStr, n)| < SIZE_MODULUS
    ensures fresh(res) && res[..] == Replace(a, oldStr, newStr, n) + ['\0']
    ensures oldStr == "" ==> res[..] == a + ['\0']
  {
    if oldStr == "" {
      res := NewString(a);
      return;
    }
    var limit := if n == 0 then -1 else n;
    var count := CountPass(a, oldStr, limit);
    FinalLenRight(a, oldStr, newStr, n);
    var finalLen := FinalLen(|a|, count, |newStr|, |oldStr|);
    res := NewLen(finalLen);
    FillReplaced(a, oldStr, newStr, limit, res);
  }

  lemma FinalLenRight(a: string, oldStr: string, newStr: string, n: nat)
    requires oldStr != "" && |Replace(a, oldStr, newStr, n)| < SIZE_MODULUS
    ensures FinalLen(|a|, CountMatches(a, oldStr, 0, if n == 0 then -1 else n), |newStr|, |oldStr|) == |Replace(a, oldStr, newStr, n)|
  {
    FinalLenExact(a, oldStr, newStr, n);
  }

  /** `come_string_new`. */
  method NewString(a: string) returns (res: array<char>)
    ensures fresh(res) && res[..] == a + ['\0']
  {
    res := NewLen(|a|);
    var end := Copy(res, 0, a);
    assert res[..] == res[..|a|] + [res[|a|]];
  }

  /** The filling pass. */
  method FillReplaced(a: string, oldStr: string, newStr: string, limit: int, res: array<char>)
    requires oldStr != "" && limit >= -1 && res.Length == |Replaced(a, oldStr, newStr, 0, limit)| + 1 && res[res.Length - 1] == '\0'
    modifies res
    ensures res[..] == Replaced(a, oldStr, newStr, 0, limit) + ['\0']
  {
    ghost var whole := Replaced(a, oldStr, newStr, 0, limit);
    var p: nat, dest: nat, matches: nat := 0, 0, 0;
    ghost var left := limit;
    assert res[..0] + whole == whole;
    var more := true;
    while p < |a| && more
      invariant p <= |a| && dest <= |whole| && (limit >= 0 ==> matches <= limit) && res[|whole|] == '\0'
      invariant left == if limit < 0 then -1 else limit - matches
      invariant if more then Filling(res[..dest], a, oldStr, newStr, p, left, whole) else res[..dest] == whole
      decreases |a| - p, more
    {
      p, dest, more := FillOne(a, oldStr, newStr, res, p, dest, limit < 0 || matches < limit, left, whole);
      if more { matches, left := matches + 1, Less(left); }
    }
    if more { FillingEnds(res[..dest], a, oldStr, newStr, p, left, whole); }
    Filled(res, dest, whole);
  }

  /** One round: a segment and the new text, or what is left of the old text. */
  method FillOne(a: string, oldStr: string, newStr: string, res: array<char>, at: nat, from: nat, wanted: bool, ghost left: int, ghost whole: string)
    returns (p: nat, dest: nat, more: bool)
    requires oldStr != "" && at < |a| && res.Length == |whole| + 1 && from <= |whole| && (wanted <==> left != 0)
    requires Filling(res[..from], a, oldStr, newStr, at, left, whole)
    modifies res
    ensures p <= |a| && dest <= |whole| && res[|whole|] == old(res[|whole|]) && (more ==> at < p && wanted)
    ensures more ==> Filling(res[..dest], a, oldStr, newStr, p, Less(left), whole)
    ensures !more ==> p == at && res[..dest] == whole
  {
    var next := Strstr(a, oldStr, at);
    if next != -1 && wanted {
      FillingStep(res[..from], a, oldStr, newStr, at, left, whole);
      dest := CopyTwo(res, from, a[at..next], newStr, Replaced(a, oldStr, newStr, next + |oldStr|, Less(left)), whole);
      p := next + |oldStr|;
      more := true;
    } else {
      FillingEnds(res[..from], a, oldStr, newStr, at, left, whole);
      dest := CopyLast(res, from, a[at..], whole);
      p, more := at, false;
    }
  }

  /** `strcpy` of the rest. */
  method CopyLast(res: array<char>, from: nat, text: string, ghost whole: string) returns (dest: nat)
    requires res.Length == |whole| + 1 && from <= |whole| && res[..from] + text == whole
    modifies res
    ensures dest <= |whole| && res[..dest] == whole && res[|whole|] == old(res[|whole|])
  {
    ghost var was := res[from + |text|..];
    dest := Copy(res, from, text);
    assert res[|whole|] == res[dest..][0] && was[0] == old(res[|whole|]);
  }

  /** What has been filled, and what is still to be, make the whole. */
  ghost predicate Filling(done: string, a: string, sub: string, put: string, p: nat, left: int, whole: string)
    requires sub != "" && p <= |a|
  {
    done + Replaced(a, sub, put, p, left) == whole
  }

  lemma FillingStep(done: string, a: string, sub: string, put: string, p: nat, left: int, whole: string)
    requires sub != "" && p <= |a| && Filling(done, a, sub, put, p, left, whole) && Another(a, sub, p, left)
    ensures var next := Find(a, sub, p);
            && p <= next && next + |sub| <= |a|
            && done + (a[p..next] + put + Replaced(a, sub, put, next + |sub|, Less(left))) == whole
  {
    OneMatch(a, sub, put, p, left);
  }

  lemma FillingEnds(done: string, a: string, sub: string, put: string, p: nat, left: int, whole: string)
    requires sub != "" && p <= |a| && Filling(done, a, sub, put, p, left, whole)
    ensures !Another(a, sub, p, left) || p == |a| ==> done + a[p..] == whole && |done| + |a| - p == |whole|
  {
    if p == |a| { NothingLeft(a, sub, put, left); }
  }

  /** A segment and the new text. */
  method CopyTwo(res: array<char>, at: nat, segment: string, newStr: string, ghost rest: string, ghost whole: string) returns (dest: nat)
    requires at <= |whole| < res.Length && res[..at] + (segment + newStr + rest) == whole
    modifies res
    ensures dest <= |whole| && res[..dest] + rest == whole && res[|whole|] == old(res[|whole|])
  {
    assert segment + newStr + rest == segment + (newStr + rest);
    Fits(res[..at], segment, newStr + rest, whole);
    dest := Copy(res, at, segment);
    Fits(res[..dest], newStr, rest, whole);
    assert res[|whole|] == res[dest..][|whole| - dest];
    ghost var was := res[dest + |newStr|..];
    dest := Copy(res, dest, newStr);
    assert res[|whole|] == res[dest..][|whole| - dest];
  }

  lemma Filled(res: array<char>, dest: nat, whole: string)
    requires dest < res.Length == |whole| + 1 && res[..dest] == whole && res[res.Length - 1] == '\0'
    ensures res[..] == whole + ['\0']
  {
    assert res[..] == res[..dest] + [res[dest]];
  }

  lemma NothingLeft(a: string, sub: string, put: string, left: int)
    requires sub != ""
    ensures Replaced(a, sub, put, |a|, left) == "" && !Another(a, sub, |a|, left)
  {
  }

  /** `come_string_split_n`: the parts, as `items`. */
  method SplitN(a: string, sep: string, n: nat) returns (items: array<string>)
    ensures fresh(items) && items[..] == Split(a, sep, n)
    ensures sep == "" ==> items[..] == [a]
  {
    if sep == "" {
      items := new string[1][a];
      return;
    }
    var matched := CountPass(a, sep, n - 1);
    PartsCount(a, sep, 0, n - 1);
    var count := matched + 1;
    items := new string[count];
    FillParts(a, sep, n, items);
  }

  /** The filling pass. */
  method FillParts(a: string, sep: string, n: nat, items: array<string>)
    requires sep != "" && items.Length == |Parts(a, sep, 0, n - 1)|
    modifies items
    ensures items[..] == Parts(a, sep, 0, n - 1)
  {
    var p: nat, matches: nat := 0, 0;
    ghost var whole, left := Parts(a, sep, 0, n - 1), n - 1;
    assert items[..0] + whole == whole;
    for i := 0 to items.Length
      invariant p <= |a| && (n > 0 ==> matches <= n - 1) && left == if n == 0 then -1 else n - 1 - matches
      invariant if i < items.Length then matches == i && Listed(items[..i], a, sep, p, left, whole) else items[..i] == whole
    {
      ghost var so := items[..i];
      var part, next, more := NextPart(a, sep, p, n == 0 || matches < n - 1, left, so, whole);
      items[i] := part;
      assert items[..i + 1] == so + [part];
      p := next;
      if more { matches, left := matches + 1, Less(left); }
    }
    assert items[..] == items[..items.Length];
  }

  method NextPart(a: string, sep: string, at: nat, wanted: bool, ghost left: int, ghost so: seq<string>, ghost whole: seq<string>)
    returns (part: string, p: nat, more: bool)
    requires sep != "" && at <= |a| && (wanted <==> left != 0) && Listed(so, a, sep, at, left, whole)
    ensures p <= |a| && (more ==> wanted)
    ensures if more then Listed(so + [part], a, sep, p, Less(left), whole) && |so| + 1 < |whole| else so + [part] == whole
  {
    var next := Strstr(a, sep, at);
    if next != -1 && wanted {
      PartsStep(a, sep, at, left, so, whole);
      return a[at..next], next + |sep|, true;
    }
    PartsEnd(a, sep, at, left, so, whole);
    return a[at..], at, false;
  }

  /** The parts listed, and those still to come, make the whole. */
  ghost predicate Listed(so: seq<string>, a: string, sep: string, p: nat, left: int, whole: seq<string>)
    requires sep != "" && p <= |a|
  {
    so + Parts(a, sep, p, left) == whole
  }

  lemma PartsEnd(a: string, sep: string, p: nat, left: int, so: seq<string>, whole: seq<string>)
    requires sep != "" && p <= |a| && !Another(a, sep, p, left) && Listed(so, a, sep, p, left, whole)
    ensures so + [a[p..]] == whole
  {
  }

  lemma PartsStep(a: string, sep: string, p: nat, left: int, so: seq<string>, whole: seq<string>)
    requires sep != "" && p <= |a| && Another(a, sep, p, left) && Listed(so, a, sep, p, left, whole)
    ensures var next := Find(a, sep, p);
            && p <= next && next + |sep| <= |a|
            && Listed(so + [a[p..next]], a, sep, next + |sep|, Less(left), whole)
            && |so| + 1 < |whole|
  {
    OneMatch(a, sep, sep, p, left);
    var next := Find(a, sep, p);
    var rest := Parts(a, sep, next + |sep|, Less(left));
    assert so + ([a[p..next]] + rest) == (so + [a[p..next]]) + rest;
  }

  /** The text of a string object; NULL counts as an empty one. */
  function Text(o: Option<string>): string {
    if o.Some? then o.value else ""
  }

  ghost function Texts(items: seq<Option<string>>): (r: seq<string>)
    ensures |r| == |items| && forall k :: 0 <= k < |items| ==> r[k] == Text(items[k])
  {
    seq(|items|, k requires 0 <= k < |items| => Text(items[k]))
  }

  /** `come_string_join`: the texts of the list with the separator between them, where NULL stands for no list, an empty item
      or an empty separator. */
  method JoinList(list: array?<Option<string>>, sep: Option<string>) returns (res: array<char>)
    ensures fresh(res) && res[..] == Join(if list == null then [] else Texts(list[..]), Text(sep)) + ['\0']
  {
    if list == null || list.Length == 0 {
      res := NewLen(0);
      assert res[..] == [res[0]];
      return;
    }
    var total := JoinedLength(list, sep);
    res := NewLen(total);
    ghost var whole := Join(Texts(list[..]), Text(sep));
    var p := FillJoined(list, sep, res, whole);
    assert res[..p] + "" == res[..p];
    res[p] := '\0';
    assert res[..] == res[..p] + ['\0'];
  }

  /** The counting loop of join. */
  method JoinedLength(items: array<Option<string>>, sep: Option<string>) returns (total: nat)
    ensures total == |Join(Texts(items[..]), Text(sep))|
  {
    total := 0;
    ghost var texts := Texts(items[..]);
    assert texts[0..] == texts;
    for i := 0 to items.Length
      invariant total + |Joined(texts[i..], Text(sep))| == |Joined(texts, Text(sep))|
    {
      JoinedMore(texts[i..], Text(sep));
      assert texts[i..][1..] == texts[i + 1..];
      if items[i].Some? { total := total + |items[i].value|; }
      if i < items.Length - 1 { total := total + |Text(sep)|; }
    }
    JoinedIsJoin(texts, Text(sep));
  }

  /** The copying loop of join. */
  method FillJoined(items: array<Option<string>>, sep: Option<string>, res: array<char>, ghost whole: string) returns (p: nat)
    requires whole == Join(Texts(items[..]), Text(sep)) && res.Length == |whole| + 1
    modifies res
    ensures p == |whole| && res[..p] == whole
  {
    p := 0;
    ghost var texts := Texts(items[..]);
    JoinedIsJoin(texts, Text(sep));
    assert texts[0..] == texts;
    assert res[..0] + whole == whole;
    for i := 0 to items.Length
      invariant p <= |whole| && res[..p] + Joined(texts[i..], Text(sep)) == whole
    {
      JoinedMore(texts[i..], Text(sep));
      assert texts[i..][1..] == texts[i + 1..];
      ghost var rest := Joined(texts[i + 1..], Text(sep));
      ghost var tail := if i < items.Length - 1 then Text(sep) + rest else rest;
      Fits(res[..p], texts[i], tail, whole);
      assert res[..p] + "" == res[..p];
      if items[i].Some? { p := Copy(res, p, items[i].value); }
      assert res[..p] + tail == whole;
      if i < items.Length - 1 && sep.Some? {
        Fits(res[..p], sep.value, rest, whole);
        p := Copy(res, p, sep.value);
      }
      assert "" + rest == rest;
    }
  }

  /** What the loops of join add up: every item, and a separator behind every one but the last. */
  ghost function Joined(parts: seq<string>, sep: string): string {
    if parts == [] then "" else parts[0] + (if |parts| > 1 then sep + Joined(parts[1..], sep) else Joined(parts[1..], sep))
  }

  lemma JoinedMore(parts: seq<string>, sep: string)
    requires parts != []
    ensures Joined(parts, sep) == parts[0] + if |parts| > 1 then sep + Joined(parts[1..], sep) else ""
  {
  }

  lemma {:induction false} JoinedIsJoin(parts: seq<string>, sep: string)
    ensures Joined(parts, sep) == Join(parts, sep)
  {
    if |parts| > 1 {
      JoinedIsJoin(parts[1..], sep);
      assert parts[0] + (sep + Join(parts[1..], sep)) == parts[0] + sep + Join(parts[1..], sep);
    } else if |parts| == 1 {
      assert parts[0] + "" == parts[0];
    }
  }
}
