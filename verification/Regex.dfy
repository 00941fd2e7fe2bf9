/** The regex engine of src/string/string.c, with its loops and the array it records group spans in. A pointer into the
    text or the pattern is an index; -1 is NULL. */
module Regex {
  import opened Basics
  import opened RegexSyntax
  import opened RegexMeaning
  import opened RegexCaps

  /** `come_find_matching`. */
  method FindClosing(P: string, p: nat, open: char, close: char) returns (r: int)
    ensures r == match FindMatching(P, p, open, close) case None => -1 case Some(i) => i
  {
    var i, depth, escaped := p, 0, false;
    while i < |P|
      invariant FindMatching(P, p, open, close) == FindFrom(P, i, depth, escaped, open, close)
    {
      if escaped {
        escaped := false;
      } else if P[i] == '\\' {
        escaped := true;
      } else if P[i] == open {
        depth := depth + 1;
      } else if P[i] == close {
        depth := depth - 1;
        if depth == 0 { return i; }
      }
      i := i + 1;
    }
    return -1;
  }

  /** `come_group_index`. */
  method NumberGroup(P: string, group: nat) returns (idx: nat)
    requires group <= |P|
    ensures idx == GroupIndex(P, group)
  {
    idx := 0;
    var escaped := false;
    for p := 0 to group
      invariant escaped == Escaped(P, p) && idx == Parens(P, p)
    {
      if escaped {
        escaped := false;
      } else if P[p] == '\\' {
        escaped := true;
      } else if P[p] == '(' {
        idx := idx + 1;
      }
    }
    idx := idx + 1;
  }

  method ReadNumber(P: string, start: nat) returns (n: nat, p: nat)
    requires start <= |P|
    ensures (n, p) == Number(P, start, 0) && start <= p <= |P|
  {
    n, p := 0, start;
    while p < |P| && IsDigit(P[p])
      invariant start <= p <= |P| && Number(P, start, 0) == Number(P, p, n)
    {
      n, p := n * 10 + (P[p] as int - '0' as int), p + 1;
    }
  }

  /** `come_regex_read_quant`. */
  method ReadQuantifier(P: string, pat: nat) returns (min: int, max: int, rest: nat)
    requires pat <= |P|
    ensures var q := ReadQuant(P, pat); min == q.lo && max == q.hi && rest == q.rest
  {
    var c := At(P, pat);
    if c == '*' { return 0, -1, pat + 1; }
    if c == '+' { return 1, -1, pat + 1; }
    if c == '?' { return 0, 1, pat + 1; }
    if c == '{' {
      var a, p := ReadNumber(P, pat + 1);
      var b: int := a;
      if At(P, p) == ',' {
        p := p + 1;
        if At(P, p) == '}' {
          b := -1;
        } else {
          b, p := ReadNumber(P, p);
        }
      }
      if At(P, p) == '}' {
        return a, b, p + 1;
      }
    }
    return 1, 1, pat;
  }

  /** `come_match_class`. */
  method MatchClass(P: string, start: nat, end: nat, c: char) returns (m: bool)
    requires end <= |P|
    ensures m <==> ClassHas(P, start, end, c)
  {
    var negated, matched, p := false, false, start;
    if p < end && (P[p] == '^' || P[p] == '!') {
      negated := true;
      p := p + 1;
    }
    ghost var items := ClassItems(P, p, end);
    while p < end
      invariant SomeHas(items, c) <==> matched || SomeHas(ClassItems(P, p, end), c)
      decreases end - p
    {
      ghost var todo := ClassItems(P, p, end);
      OneMore(todo, c);
      var has, q := MatchClassItem(P, p, end, c);
      if has { matched := true; }
      p := q;
    }
    m := matched != negated;
  }

  /** One round of the loop of `come_match_class`. */
  method MatchClassItem(P: string, start: nat, end: nat, c: char) returns (has: bool, p: nat)
    requires start < end <= |P|
    ensures start < p && ClassItems(P, start, end) != []
    ensures has <==> ItemHas(ClassItems(P, start, end)[0], c)
    ensures ClassItems(P, p, end) == ClassItems(P, start, end)[1..]
  {
    p := start;
    if P[p] == '\\' && p + 1 < end && P[p + 1] in CLASS_ESCAPES {
      return EscapeHas(P[p + 1], c), p + 2;
    }
    var first;
    if P[p] == '\\' && p + 1 < end {
      first, p := P[p + 1], p + 2;
    } else {
      first, p := P[p], p + 1;
    }
    if p + 1 < end && P[p] == '-' {
      var last := P[p + 1];
      var escaped := last == '\\' && p + 2 < end;
      if escaped { last := P[p + 2]; }
      return first <= c <= last, p + if escaped then 3 else 2;
    }
    return c == first, p;
  }

  lemma OneMore(items: seq<ClassItem>, c: char)
    requires items != []
    ensures SomeHas(items, c) <==> ItemHas(items[0], c) || SomeHas(items[1..], c)
  {
    if SomeHas(items, c) && !ItemHas(items[0], c) {
      var k :| 0 <= k < |items| && ItemHas(items[k], c);
      assert items[1..][k - 1] == items[k];
    }
    if SomeHas(items[1..], c) {
      var k :| 0 <= k < |items[1..]| && ItemHas(items[1..][k], c);
      assert items[k + 1] == items[1..][k];
    }
  }

  method Restore(caps: array<Span>, saved: seq<Span>)
    requires caps.Length == |saved|
    modifies caps
    ensures caps[..] == saved
  {
    for i := 0 to |saved|
      invariant caps[..i] == saved[..i]
    {
      caps[i] := saved[i];
    }
  }

  /** `come_regex_match_atom_once`. */
  method MatchAtomOnce(P: string, T: string, pat: nat, text: nat, caps: array<Span>) returns (next: int, atomEnd: int)
    requires NoNul(P) && NoNul(T) && pat < |P| && text <= |T| && !Escaped(P, pat) && DecodeAtom(P, pat).GoodAtom?
    requires caps.Length == COME_REGEX_MAX_GROUPS
    modifies caps
    ensures next == match Once(P, T, DecodeAtom(P, pat).atom, text) case None => -1 case Some(e) => e
    ensures next <= |T| && caps[..] == OnceCaps(P, T, DecodeAtom(P, pat).atom, text, old(caps[..]))
    ensures atomEnd == if Startable(P, T, DecodeAtom(P, pat).atom, text) then DecodeAtom(P, pat).end else -1
    decreases |P| - pat, 1
  {
    OnceSound(P, T, DecodeAtom(P, pat).atom, text);
    if text == |T| && P[pat] != '$' { return -1, -1; }
    if P[pat] == '.' {
      return if text < |T| then text + 1 else -1, pat + 1;
    }
    if P[pat] == '\\' {
      if At(P, pat + 1) == '\0' { return -1, -1; }
      return if text < |T| && EscapeHas(P[pat + 1], T[text]) then text + 1 else -1, pat + 2;
    }
    if P[pat] == '[' {
      var close := FindClosing(P, pat, '[', ']');
      if close < 0 { return -1, -1; }
      var has := MatchClass(P, pat + 1, close, At(T, text));
      return if text < |T| && has then text + 1 else -1, close + 1;
    }
    if P[pat] == '(' {
      next, atomEnd := MatchGroup(P, T, pat, text, caps);
      return;
    }
    return if At(T, text) == P[pat] then text + 1 else -1, pat + 1;
  }

  method MatchGroup(P: string, T: string, pat: nat, text: nat, caps: array<Span>) returns (next: int, atomEnd: int)
    requires NoNul(P) && NoNul(T) && pat < |P| && text < |T| && !Escaped(P, pat) && DecodeAtom(P, pat).GoodAtom? && P[pat] == '('
    requires caps.Length == COME_REGEX_MAX_GROUPS
    modifies caps
    ensures next == match Once(P, T, DecodeAtom(P, pat).atom, text) case None => -1 case Some(e) => e
    ensures atomEnd == if next >= 0 then DecodeAtom(P, pat).end else -1
    ensures caps[..] == OnceCaps(P, T, DecodeAtom(P, pat).atom, text, old(caps[..]))
    decreases |P| - pat, 0
  {
    var close := FindClosing(P, pat, '(', ')');
    if close < 0 { return -1, -1; }
    var group := NumberGroup(P, pat);
    var saved := caps[..];
    if group < COME_REGEX_MAX_GROUPS { caps[group] := caps[group].(start := text); }
    var ok, end := MatchSeq(P, T, pat + 1, text, ')', caps);
    if !ok {
      Restore(caps, saved);
      return -1, -1;
    }
    UnclosedGroup(P, T, pat, text);
    if group < COME_REGEX_MAX_GROUPS { caps[group] := caps[group].(end := end); }
    return end, close + 1;
  }

  /** A group in whose body something is not closed never matches. */
  lemma UnclosedGroup(P: string, T: string, pat: nat, text: nat)
    requires pat < |P| && P[pat] == '(' && FindMatching(P, pat, '(', ')').Some? && DecodeAtom(P, pat).GoodAtom?
    requires First(P, T, Decode(P, pat + 1, ')').re, text).Some?
    ensures DecodeAtom(P, pat).atom.Group?
  {
    if Hopeless(Decode(P, pat + 1, ')').re) { HopelessFails(P, T, Decode(P, pat + 1, ')').re, text); }
  }

  /** `come_regex_match_seq`. */
  method MatchSeq(P: string, T: string, pat: nat, text: nat, stop: char, caps: array<Span>) returns (ok: bool, out: nat)
    requires NoNul(P) && NoNul(T) && pat <= |P| && text <= |T| && !Escaped(P, pat) && Decode(P, pat, stop).Good?
    requires caps.Length == COME_REGEX_MAX_GROUPS
    modifies caps
    ensures var r := First(P, T, Decode(P, pat, stop).re, text); ok == r.Some? && (ok ==> out == r.value)
    ensures caps[..] == FirstCaps(P, T, Decode(P, pat, stop).re, text, old(caps[..]))
    decreases |P| - pat, 5
  {
    out := 0;
    if (stop != '\0' && At(P, pat) == stop) || (stop == '\0' && At(P, pat) == '\0') {
      return true, text;
    }
    if At(P, pat) == '$' && (At(P, pat + 1) == '\0' || (stop != '\0' && At(P, pat + 1) == stop)) {
      return text == |T|, text;
    }
    ok, out := MatchItem(P, T, pat, text, stop, caps);
  }

  /** One item: the atom as often as it goes, then the rest of the pattern from the last position that works. */
  method MatchItem(P: string, T: string, pat: nat, text: nat, stop: char, caps: array<Span>) returns (ok: bool, out: nat)
    requires NoNul(P) && NoNul(T) && pat < |P| && text <= |T| && !Escaped(P, pat) && Decode(P, pat, stop).Good?
    requires !AtStop(P, pat, stop) && !DollarEnd(P, pat, stop)
    requires caps.Length == COME_REGEX_MAX_GROUPS
    modifies caps
    ensures var r := First(P, T, Decode(P, pat, stop).re, text); ok == r.Some? && (ok ==> out == r.value)
    ensures caps[..] == FirstCaps(P, T, Decode(P, pat, stop).re, text, old(caps[..]))
    decreases |P| - pat, 4
  {
    ok, out := false, 0;
    ghost var re := Decode(P, pat, stop).re;
    ghost var caps0 := caps[..];
    var firstEnd, atomEnd := MatchAtomOnce(P, T, pat, text, caps);
    if atomEnd < 0 {
      ItemNotBegun(P, T, re, text, caps0);
      return;
    }
    AtomAligned(P, pat);
    var min, max, rest := ReadQuantifier(P, atomEnd);
    if firstEnd < 0 && min > 0 {
      ItemNotBegun(P, T, re, text, caps0);
      return;
    }
    assert AtomIs(P, pat, re.atom) && RestIs(P, rest, stop, re.rest) && Begun(P, T, re.atom, text, caps0, caps[..]);
    ok, out := MatchRest(P, T, pat, text, rest, min, max, stop, caps, re, caps0);
  }

  /** The same from where the atom has been tried once and the quantifier read. */
  method MatchRest(P: string, T: string, pat: nat, text: nat, rest: nat, min: nat, max: int, stop: char, caps: array<Span>,
                   ghost re: Regex, ghost caps0: seq<Span>) returns (ok: bool, out: nat)
    requires NoNul(P) && NoNul(T) && pat < rest <= |P| && text <= |T|
    requires re.Then? && AtomIs(P, pat, re.atom) && re.lo == min && re.hi == max && RestIs(P, rest, stop, re.rest)
    requires caps.Length == COME_REGEX_MAX_GROUPS && Begun(P, T, re.atom, text, caps0, caps[..])
    modifies caps
    ensures Tried(P, T, re, text, caps0, ok, out, caps[..])
    decreases |P| - pat, 4, 0
  {
    var base := caps[..];
    var positions, count := Repeat(P, T, pat, text, max, caps, re.atom);
    ghost var kept := caps[..];
    if count - 1 < min {
      ItemFails(P, T, re, text, caps0, base, positions[..count], kept, 0);
      Restore(caps, base);
      return false, 0;
    }
    ok, out := TryRest(P, T, rest, positions, count, min, stop, caps, re.rest);
    ItemDone(P, T, re, text, caps0, base, positions[..count], kept, ok, out, caps[..]);
    if !ok { Restore(caps, base); }
  }

  /** The atom at pat. (The quantifier keeps proofs from looking into it.) */
  ghost predicate AtomIs(P: string, pat: nat, atom: Atom) {
    exists p: nat {:trigger DecodeAtom(P, p)} ::
      p == pat && p < |P| && !Escaped(P, p) && DecodeAtom(P, p).GoodAtom? && DecodeAtom(P, p).atom == atom
  }

  ghost predicate RestIs(P: string, rest: nat, stop: char, re: Regex) {
    exists r: nat {:trigger Decode(P, r, stop)} ::
      r == rest && r <= |P| && !Escaped(P, r) && Decode(P, r, stop).Good? && Decode(P, r, stop).re == re
  }

  /** The greedy loop: the positions it collects. */
  method Repeat(P: string, T: string, pat: nat, text: nat, max: int, caps: array<Span>, ghost atom: Atom)
    returns (positions: array<nat>, count: nat)
    requires NoNul(P) && NoNul(T) && pat < |P| && text <= |T| && AtomIs(P, pat, atom)
    requires caps.Length == COME_REGEX_MAX_GROUPS
    modifies caps
    ensures fresh(positions) && positions.Length == MAX_POSITIONS && 0 < count <= MAX_POSITIONS
    ensures InText(positions, count, T)
    ensures RunDone(P, T, atom, max, text, old(caps[..]), positions[..count], caps[..])
    decreases |P| - pat, 3
  {
    ghost var caps0, xs := caps[..], [text];
    positions, count := new nat[MAX_POSITIONS], 0;
    count := Push(positions, count, text, T);
    var cur := text;
    RunningStarts(P, T, atom, max, text, caps0);
    while (max < 0 || count <= max) && count < MAX_POSITIONS
      invariant 0 < count == |xs| <= MAX_POSITIONS && positions[..count] == xs && cur == xs[count - 1]
      invariant InText(positions, count, T)
      invariant Running(P, T, atom, max, text, caps0, xs, caps[..])
      decreases MAX_POSITIONS - count
    {
      ghost var had := caps[..];
      var next := RepeatOnce(P, T, pat, cur, caps, atom);
      if next < 0 {
        RunningEnds(P, T, atom, max, text, caps0, xs, had, caps[..]);
        return;
      }
      RunningOn(P, T, atom, max, text, caps0, xs, had, next, caps[..]);
      count := Push(positions, count, next, T);
      xs := xs + [next];
      cur := next;
    }
    RunningEnds(P, T, atom, max, text, caps0, xs, caps[..], caps[..]);
  }

  ghost predicate InText(positions: array<nat>, count: nat, T: string)
    reads positions
  {
    count <= positions.Length && forall x :: 0 <= x < count ==> positions[x] <= |T|
  }

  method Push(positions: array<nat>, count: nat, next: nat, T: string) returns (more: nat)
    requires count < positions.Length && InText(positions, count, T) && next <= |T|
    modifies positions
    ensures more == count + 1 && positions[..more] == old(positions[..count]) + [next] && InText(positions, more, T)
  {
    positions[count] := next;
    more := count + 1;
    assert positions[..more] == positions[..count] + [next];
  }

  /** One round: the atom once more, on a copy of the records that counts if the match moves on; -1 if it does not. */
  method RepeatOnce(P: string, T: string, pat: nat, cur: nat, caps: array<Span>, ghost atom: Atom) returns (next: int)
    requires NoNul(P) && NoNul(T) && pat < |P| && cur <= |T| && AtomIs(P, pat, atom)
    requires caps.Length == COME_REGEX_MAX_GROUPS
    modifies caps
    ensures -1 <= next <= |T| && Repeated(P, T, atom, cur, old(caps[..]), next, caps[..])
    decreases |P| - pat, 2
  {
    var tmp := new Span[COME_REGEX_MAX_GROUPS];
    Restore(tmp, caps[..]);
    var end, atomEnd := MatchAtomOnce(P, T, pat, cur, tmp);
    if end < 0 || end == cur { return -1; }
    Restore(caps, tmp[..]);
    next := end;
  }

  /** From the last position down to the min-th. */
  method TryRest(P: string, T: string, rest: nat, positions: array<nat>, count: nat, min: nat, stop: char, caps: array<Span>, ghost re: Regex)
    returns (ok: bool, out: nat)
    requires NoNul(P) && NoNul(T) && rest <= |P| && RestIs(P, rest, stop, re)
    requires 0 < count <= positions.Length && InText(positions, count, T)
    requires caps.Length == COME_REGEX_MAX_GROUPS
    modifies caps
    ensures positions[..count] == old(positions[..count])
    ensures RestTried(P, T, re, positions[..count], min, old(caps[..]), ok, out, caps[..])
    decreases |P| - rest, 6
  {
    ghost var xs, caps0 := positions[..count], caps[..];
    ok, out := false, 0;
    var i := count - 1;
    TryingStarts(P, T, re, xs, min);
    while i >= min
      invariant -1 <= i < count && positions[..count] == xs && caps[..] == caps0
      invariant Trying(P, T, re, xs, min, i)
    {
      var attempt := new Span[COME_REGEX_MAX_GROUPS];
      Restore(attempt, caps[..]);
      ok, out := MatchSeq(P, T, rest, positions[i], stop, attempt);
      if ok {
        TryingFinds(P, T, re, xs, min, i, caps0, out);
        Restore(caps, attempt[..]);
        return;
      }
      TryingOn(P, T, re, xs, min, i);
      i := i - 1;
    }
    TryingEnds(P, T, re, xs, min, i, caps0, out);
  }

  /** `come_regex_find`: where the leftmost match is; spans of groups are left in caps. */
  method Find(text: string, pattern: string, caps: array<Span>) returns (found: bool)
    requires NoNul(pattern) && NoNul(text) && caps.Length == COME_REGEX_MAX_GROUPS
    requires Decode(pattern, if At(pattern, 0) == '^' then 1 else 0, '\0').Good?
    modifies caps
    ensures var anchored := At(pattern, 0) == '^';
            var re := Decode(pattern, if anchored then 1 else 0, '\0').re;
            var r := Search(pattern, text, re, anchored, 0);
            && found == r.Some?
            && (found ==>
                  var (s, e) := r.value;
                  caps[..] == FirstCaps(pattern, text, re, s, NO_SPANS)[0 := Span(s, e)])
    ensures CapsOk(pattern, text, caps[..], 1)
  {
    var anchored := At(pattern, 0) == '^';
    var pat := if anchored then 1 else 0;
    ghost var re := Decode(pattern, pat, '\0').re;
    var p := 0;
    while true
      invariant p <= |text| && (anchored ==> p == 0)
      invariant Search(pattern, text, re, anchored, 0) == Search(pattern, text, re, anchored, p)
      decreases |text| - p
    {
      Restore(caps, NO_SPANS);
      var ok, end := MatchSeq(pattern, text, pat, p, '\0', caps);
      SearchRecords(pattern, text, pat, p);
      if ok {
        caps[0] := Span(p, end);
        return true;
      }
      if anchored || At(text, p) == '\0' { break; }
      p := p + 1;
    }
    return false;
  }

  /** Starting without records leaves good ones. */
  lemma SearchRecords(pattern: string, text: string, pat: nat, p: nat)
    requires pat <= |pattern| && !Escaped(pattern, pat) && Decode(pattern, pat, '\0').Good? && p <= |text|
    ensures CapsOk(pattern, text, FirstCaps(pattern, text, Decode(pattern, pat, '\0').re, p, NO_SPANS), 1)
  {
    var r := Decode(pattern, pat, '\0');
    DecodedRecords(pattern, text, pat, '\0', r.re, r.end, p, NO_SPANS);
    DecodedGroupsFrom(pattern, pat, '\0', r.re, r.end);
    FirstChanges(pattern, text, r.re, p, NO_SPANS);
    CapsOkLater(pattern, text, NO_SPANS, FirstCaps(pattern, text, r.re, p, NO_SPANS), Groups(pattern, r.re), 1, GroupIndex(pattern, pat));
  }
}
