/** What patterns mean: which stretches of the text they describe, and which stretch the engine finds. */
module RegexMeaning {
  import opened Basics
  import opened RegexSyntax

  // ----- characters -----

  predicate IsAlnum(c: char) {
    IsDigit(c) || 'a' <= c <= 'z' || 'A' <= c <= 'Z'
  }

  predicate IsSpace(c: char) {
    c == ' ' || '\t' <= c <= '\r'
  }

  /** `come_match_escape`. */
  predicate EscapeHas(esc: char, c: char) {
    match esc
    case 'd' => IsDigit(c)
    case 'D' => !IsDigit(c)
    case 's' => IsSpace(c)
    case 'S' => !IsSpace(c)
    case 'w' => IsAlnum(c) || c == '_'
    case 'W' => !(IsAlnum(c) || c == '_')
    case 't' => c == '\t'
    case 'n' => c == '\n'
    case 'r' => c == '\r'
    case _ => c == esc
  }

  datatype ClassItem = Kind(esc: char) | Range(first: char, last: char)

  predicate ItemHas(item: ClassItem, c: char) {
    match item
    case Kind(esc) => EscapeHas(esc, c)
    case Range(first, last) => first <= c <= last
  }

  const CLASS_ESCAPES := "dDsSwWtnr"

  /** The members of a class body between p and end. */
  function ClassItems(P: string, p: nat, end: nat): seq<ClassItem>
    requires end <= |P|
    decreases end - p
  {
    if p >= end then []
    else if P[p] == '\\' && p + 1 < end && P[p + 1] in CLASS_ESCAPES then [Kind(P[p + 1])] + ClassItems(P, p + 2, end)
    else
      var (first, q) := if P[p] == '\\' && p + 1 < end then (P[p + 1], p + 2) else (P[p], p + 1);
      if q + 1 < end && P[q] == '-' then
        var escaped := P[q + 1] == '\\' && q + 2 < end;
        [Range(first, if escaped then P[q + 2] else P[q + 1])] + ClassItems(P, if escaped then q + 3 else q + 2, end)
      else [Range(first, first)] + ClassItems(P, q, end)
  }

  predicate Negated(P: string, from: nat, to: nat)
    requires to <= |P|
  {
    from < to && P[from] in "^!"
  }

  predicate SomeHas(items: seq<ClassItem>, c: char) {
    exists k :: 0 <= k < |items| && ItemHas(items[k], c)
  }

  predicate ClassHas(P: string, from: nat, to: nat, c: char)
    requires to <= |P|
  {
    var negated := Negated(P, from, to);
    SomeHas(ClassItems(P, if negated then from + 1 else from, to), c) != negated
  }

  /** An atom other than a group describes single characters. */
  predicate CharHas(P: string, atom: Atom, c: char)
    requires !atom.Group?
  {
    match atom
    case Any => true
    case Escape(e) => EscapeHas(e, c)
    case Class(from, to) => to <= |P| && ClassHas(P, from, to, c)
    case Literal(l) => c == l
    case Unclosed => false
  }

  // ----- the meaning of a pattern -----

  ghost predicate AtomMatches(P: string, T: string, atom: Atom, i: nat, j: nat)
    decreases atom, 1
  {
    if atom.Group? then Matches(P, T, atom.body, i, j)
    else i < |T| && j == i + 1 && CharHas(P, atom, T[i])
  }

  /** k matches of the atom one after the other. */
  ghost predicate Repeats(P: string, T: string, atom: Atom, i: nat, j: nat, k: nat)
    decreases atom, 2, k
  {
    if k == 0 then i == j
    else exists m: nat {:trigger AtomMatches(P, T, atom, m, j)} :: i <= m <= j && Repeats(P, T, atom, i, m, k - 1) && AtomMatches(P, T, atom, m, j)
  }

  ghost predicate Matches(P: string, T: string, re: Regex, i: nat, j: nat)
    decreases re, 0
  {
    match re
    case Done => i == j <= |T|
    case Dollar => i == j == |T|
    case Then(atom, lo, hi, rest) =>
      exists k: nat, m: nat {:trigger Repeats(P, T, atom, i, m, k)} ::
        lo <= k && (hi < 0 || k <= hi) && Repeats(P, T, atom, i, m, k) && Matches(P, T, rest, m, j)
  }

  // ----- what the engine finds -----

  const MAX_POSITIONS: nat := 512

  /** `come_regex_match_atom_once`: where one match of the atom ends. */
  function Once(P: string, T: string, atom: Atom, i: nat): (r: Option<nat>)
    ensures r.Some? ==> i <= r.value
    decreases atom, 1
  {
    if i >= |T| then None
    else if atom.Group? then First(P, T, atom.body, i)
    else if CharHas(P, atom, T[i]) then Some(i + 1)
    else None
  }

  /** At the end of the text no atom but a `$` is looked at; and a group that does not match once is not skipped, even
      where its quantifier would allow it. */
  predicate Startable(P: string, T: string, atom: Atom, i: nat)
    decreases atom, 2
  {
    if atom.Group? then Once(P, T, atom, i).Some? else !atom.Unclosed? && (i < |T| || atom == Literal('$'))
  }

  /** The greedy repetition: where each of its matches ends, the first entry being where it began. */
  function Run(P: string, T: string, atom: Atom, hi: int, xs: seq<nat>): (r: seq<nat>)
    requires 0 < |xs| <= MAX_POSITIONS
    ensures |xs| <= |r| <= MAX_POSITIONS && r[..|xs|] == xs
    ensures forall x :: x in r ==> x in xs || x >= xs[|xs| - 1]
    decreases atom, 2, MAX_POSITIONS - |xs|
  {
    if (hi < 0 || |xs| <= hi) && |xs| < MAX_POSITIONS then
      var next := Once(P, T, atom, xs[|xs| - 1]);
      if next.None? || next.value == xs[|xs| - 1] then xs else Run(P, T, atom, hi, xs + [next.value])
    else xs
  }

  /** The rest of the pattern from the last position that works, down to the lo-th. */
  function Latest(P: string, T: string, rest: Regex, xs: seq<nat>, n: int, lo: nat): (r: Option<nat>)
    requires n < |xs|
    ensures r.Some? ==> exists x :: x in xs && x <= r.value
    decreases rest, 1, n + 1
  {
    if n < lo then None
    else
      assert xs[n] in xs;
      var r := First(P, T, rest, xs[n]);
      if r.Some? then r else Latest(P, T, rest, xs, n - 1, lo)
  }

  /** `come_regex_match_seq`: where the match it reports ends. */
  function First(P: string, T: string, re: Regex, i: nat): (r: Option<nat>)
    ensures r.Some? ==> i <= r.value
    decreases re, 0
  {
    match re
    case Done => Some(i)
    case Dollar => if i == |T| then Some(i) else None
    case Then(atom, lo, hi, rest) =>
      if !Startable(P, T, atom, i) then None
      else
        var xs := Run(P, T, atom, hi, [i]);
        Latest(P, T, rest, xs, |xs| - 1, lo)
  }

  // ----- what it finds is a match -----

  ghost predicate Chain(P: string, T: string, atom: Atom, i: nat, xs: seq<nat>) {
    |xs| > 0 && forall x: nat {:trigger xs[x]} :: x < |xs| ==> xs[x] <= |T| && Repeats(P, T, atom, i, xs[x], x)
  }

  lemma {:induction false} OnceSound(P: string, T: string, atom: Atom, i: nat)
    requires i <= |T|
    ensures Once(P, T, atom, i).Some? ==> Once(P, T, atom, i).value <= |T| && AtomMatches(P, T, atom, i, Once(P, T, atom, i).value)
    decreases atom, 1
  {
    if i < |T| && atom.Group? { FirstSound(P, T, atom.body, i); }
  }

  lemma {:induction false} RunSound(P: string, T: string, atom: Atom, hi: int, i: nat, xs: seq<nat>)
    requires 0 < |xs| <= MAX_POSITIONS && Chain(P, T, atom, i, xs) && (hi < 0 || |xs| <= hi + 1) && i <= xs[|xs| - 1]
    ensures Chain(P, T, atom, i, Run(P, T, atom, hi, xs)) && (hi < 0 || |Run(P, T, atom, hi, xs)| <= hi + 1)
    decreases atom, 2, MAX_POSITIONS - |xs|
  {
    var n, last := |xs|, xs[|xs| - 1];
    if (hi < 0 || n <= hi) && n < MAX_POSITIONS {
      var next := Once(P, T, atom, last);
      if next.Some? && next.value != last {
        OnceSound(P, T, atom, last);
        var ys := xs + [next.value];
        assert Repeats(P, T, atom, i, last, n - 1) && AtomMatches(P, T, atom, last, next.value);
        assert Repeats(P, T, atom, i, next.value, n);
        RunSound(P, T, atom, hi, i, ys);
      }
    }
  }

  lemma {:induction false} LatestSound(P: string, T: string, atom: Atom, lo: nat, hi: int, rest: Regex, i: nat, xs: seq<nat>, n: int)
    requires Chain(P, T, atom, i, xs) && (hi < 0 || |xs| <= hi + 1) && n < |xs|
    ensures var r := Latest(P, T, rest, xs, n, lo); r.Some? ==> r.value <= |T| && Matches(P, T, Then(atom, lo, hi, rest), i, r.value)
    decreases rest, 1, n + 1
  {
    if n >= lo {
      var r := First(P, T, rest, xs[n]);
      FirstSound(P, T, rest, xs[n]);
      if r.Some? {
        assert Repeats(P, T, atom, i, xs[n], n) && Matches(P, T, rest, xs[n], r.value);
      } else {
        LatestSound(P, T, atom, lo, hi, rest, i, xs, n - 1);
      }
    }
  }

  /** Every match the engine reports is one, for every pattern. */
  lemma {:induction false} FirstSound(P: string, T: string, re: Regex, i: nat)
    requires i <= |T|
    ensures First(P, T, re, i).Some? ==> i <= First(P, T, re, i).value <= |T| && Matches(P, T, re, i, First(P, T, re, i).value)
    decreases re, 0
  {
    if re.Then? && Startable(P, T, re.atom, i) {
      var xs := Run(P, T, re.atom, re.hi, [i]);
      if re.hi == 0 {
        assert xs == [i];
        assert Repeats(P, T, re.atom, i, i, 0);
      } else {
        assert Repeats(P, T, re.atom, i, i, 0);
        RunSound(P, T, re.atom, re.hi, i, [i]);
      }
      LatestSound(P, T, re.atom, re.lo, re.hi, re.rest, i, xs, |xs| - 1);
    }
  }

  /** Where something is not closed nothing is found. */
  lemma {:induction false} HopelessFails(P: string, T: string, re: Regex, i: nat)
    requires Hopeless(re)
    ensures First(P, T, re, i).None?
    decreases re, 0
  {
    if Startable(P, T, re.atom, i) {
      var xs := Run(P, T, re.atom, re.hi, [i]);
      HopelessLatest(P, T, re.rest, xs, |xs| - 1, re.lo);
    }
  }

  lemma {:induction false} HopelessLatest(P: string, T: string, rest: Regex, xs: seq<nat>, n: int, lo: nat)
    requires Hopeless(rest) && n < |xs|
    ensures Latest(P, T, rest, xs, n, lo).None?
    decreases rest, 1, n + 1
  {
    if n >= lo {
      HopelessFails(P, T, rest, xs[n]);
      HopelessLatest(P, T, rest, xs, n - 1, lo);
    }
  }

  // ----- searching -----

  /** `come_regex_find`: the first start that works; an anchored pattern is tried once. */
  function Search(P: string, T: string, re: Regex, anchored: bool, p: nat): (r: Option<(nat, nat)>)
    requires p <= |T|
    decreases |T| - p
  {
    var end := First(P, T, re, p);
    if end.Some? then Some((p, end.value))
    else if anchored || p == |T| then None
    else Search(P, T, re, anchored, p + 1)
  }

  /** The span it reports is a match, and no earlier start has one it could report. */
  lemma {:induction false} SearchLeftmost(P: string, T: string, re: Regex, anchored: bool, p: nat)
    requires p <= |T|
    ensures var r := Search(P, T, re, anchored, p);
            match r
            case Some((s, e)) =>
              && p <= s <= e <= |T| && (anchored ==> s == p) && Matches(P, T, re, s, e)
              && First(P, T, re, s) == Some(e) && forall q :: p <= q < s ==> First(P, T, re, q).None?
            case None => forall q :: p <= q <= (if anchored then p else |T|) ==> First(P, T, re, q).None?
    decreases |T| - p
  {
    FirstSound(P, T, re, p);
    if First(P, T, re, p).None? && !anchored && p < |T| {
      SearchLeftmost(P, T, re, anchored, p + 1);
    }
  }

  /** A pattern in which an escape, class or group is not closed is found nowhere. */
  lemma UnclosedNotFound(P: string, T: string, re: Regex, anchored: bool)
    requires Hopeless(re)
    ensures Search(P, T, re, anchored, 0).None?
  {
    SearchLeftmost(P, T, re, anchored, 0);
    if Search(P, T, re, anchored, 0).Some? { HopelessFails(P, T, re, Search(P, T, re, anchored, 0).value.0); }
  }

  // ----- what is recorded for a group -----

  const COME_REGEX_MAX_GROUPS: nat := 16

  /** The span recorded for a group; -1 stands for NULL. */
  datatype Span = Span(start: int, end: int)

  const UNSET := Span(-1, -1)

  const NO_SPANS: seq<Span> := seq(COME_REGEX_MAX_GROUPS, _ => UNSET)

  ghost predicate GroupAt(P: string, q: nat, g: nat) {
    q < |P| && P[q] == '(' && GroupIndex(P, q) == g && Decode(P, q + 1, ')').Good?
  }

  /** Nothing, or a span of the text that the engine found for the body of group g. */
  ghost predicate Recorded(P: string, T: string, g: nat, s: Span) {
    || s == UNSET
    || (0 <= s.start <= s.end <= |T|
        && exists q: nat {:trigger GroupAt(P, q, g)} :: GroupAt(P, q, g) && First(P, T, Decode(P, q + 1, ')').re, s.start) == Some(s.end))
  }

  /** The records of the groups numbered b and up are in order. */
  ghost predicate CapsOk(P: string, T: string, caps: seq<Span>, b: nat) {
    |caps| == COME_REGEX_MAX_GROUPS && forall g {:trigger caps[g]} :: b <= g < |caps| ==> Recorded(P, T, g, caps[g])
  }

  /** A recorded group span is a match of the group's body. */
  lemma RecordedMatches(P: string, T: string, g: nat, s: Span)
    requires Recorded(P, T, g, s) && s != UNSET
    ensures exists q: nat :: GroupAt(P, q, g) && Matches(P, T, Decode(P, q + 1, ')').re, s.start, s.end)
  {
    var q: nat :| GroupAt(P, q, g) && First(P, T, Decode(P, q + 1, ')').re, s.start) == Some(s.end);
    FirstSound(P, T, Decode(P, q + 1, ')').re, s.start);
  }
}
