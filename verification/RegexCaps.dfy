/** What the engine leaves in the records of the groups, and when a recorded span lies inside the match reported. */
module RegexCaps {
  import opened Basics
  import opened RegexSyntax
  import opened RegexMeaning

  /** The number of the group that opens at `open`. */
  function GroupOf(P: string, open: nat): (g: nat)
    ensures g >= 1
  {
    if open <= |P| then GroupIndex(P, open) else COME_REGEX_MAX_GROUPS
  }

  function Started(caps: seq<Span>, g: nat, at: nat): (r: seq<Span>)
    ensures |r| == |caps|
  {
    if g < |caps| then caps[g := caps[g].(start := at)] else caps
  }

  function Ended(caps: seq<Span>, g: nat, at: nat): (r: seq<Span>)
    ensures |r| == |caps|
  {
    if g < |caps| then caps[g := caps[g].(end := at)] else caps
  }

  /** `come_regex_match_atom_once`: the start of a group is recorded before its body is tried, the end after. */
  function OnceCaps(P: string, T: string, atom: Atom, i: nat, caps: seq<Span>): (r: seq<Span>)
    ensures |r| == |caps|
    decreases atom, 1
  {
    if !atom.Group? || Once(P, T, atom, i).None? then caps
    else
      var g := GroupOf(P, atom.open);
      Ended(FirstCaps(P, T, atom.body, i, Started(caps, g, i)), g, Once(P, T, atom, i).value)
  }

  /** The greedy repetition records over and over. */
  function RunCaps(P: string, T: string, atom: Atom, hi: int, xs: seq<nat>, caps: seq<Span>): (r: seq<Span>)
    requires 0 < |xs| <= MAX_POSITIONS
    ensures |r| == |caps|
    decreases atom, 2, MAX_POSITIONS - |xs|
  {
    if (hi < 0 || |xs| <= hi) && |xs| < MAX_POSITIONS then
      var last := xs[|xs| - 1];
      var next := Once(P, T, atom, last);
      if next.None? || next.value == last then caps
      else RunCaps(P, T, atom, hi, xs + [next.value], OnceCaps(P, T, atom, last, caps))
    else caps
  }

  /** Which position `Latest` takes; -1 if none. */
  function Chosen(P: string, T: string, rest: Regex, xs: seq<nat>, n: int, lo: nat): (k: int)
    requires n < |xs|
    ensures Latest(P, T, rest, xs, n, lo).Some? ==> lo <= k <= n && First(P, T, rest, xs[k]) == Latest(P, T, rest, xs, n, lo)
    ensures Latest(P, T, rest, xs, n, lo).None? ==> k == -1
    decreases n + 1
  {
    if n < lo then -1
    else if First(P, T, rest, xs[n]).Some? then n
    else Chosen(P, T, rest, xs, n - 1, lo)
  }

  /** `come_regex_match_seq`: the repetition keeps what it has recorded even where the rest of the pattern is matched from an
      earlier position; where there is no match the first try of the atom is still recorded. */
  function FirstCaps(P: string, T: string, re: Regex, i: nat, caps: seq<Span>): (r: seq<Span>)
    ensures |r| == |caps|
    decreases re, 0
  {
    if !re.Then? then caps
    else if First(P, T, re, i).None? then OnceCaps(P, T, re.atom, i, caps)
    else
      var xs := Run(P, T, re.atom, re.hi, [i]);
      var kept := RunCaps(P, T, re.atom, re.hi, [i], OnceCaps(P, T, re.atom, i, caps));
      FirstCaps(P, T, re.rest, xs[Chosen(P, T, re.rest, xs, |xs| - 1, re.lo)], kept)
  }

  // ----- the engine's loop, step by step -----

  /** The loop that repeats the atom has come to xs and caps: what is left to do leads where the whole run leads. */
  ghost predicate Running(P: string, T: string, atom: Atom, hi: int, i: nat, caps0: seq<Span>, xs: seq<nat>, caps: seq<Span>) {
    exists ys :: ys == xs && 0 < |ys| <= MAX_POSITIONS
      && Run(P, T, atom, hi, [i]) == Run(P, T, atom, hi, ys) && RunCaps(P, T, atom, hi, [i], caps0) == RunCaps(P, T, atom, hi, ys, caps)
  }

  /** The loop is done: these are the places of the run, and this is what it records. */
  ghost predicate RunDone(P: string, T: string, atom: Atom, hi: int, i: nat, caps0: seq<Span>, xs: seq<nat>, caps: seq<Span>) {
    exists j: nat {:trigger Run(P, T, atom, hi, [j])} :: j == i && xs == Run(P, T, atom, hi, [j]) && caps == RunCaps(P, T, atom, hi, [j], caps0)
  }

  /** One more repetition from cur on, or -1 if there is none that moves on. */
  ghost predicate Repeated(P: string, T: string, atom: Atom, cur: nat, before: seq<Span>, next: int, after: seq<Span>) {
    exists c: nat {:trigger Once(P, T, atom, c)} :: c == cur
      && next == (var r := Once(P, T, atom, c); if r.None? || r.value == c then -1 else r.value)
      && after == if next < 0 then before else OnceCaps(P, T, atom, c, before)
  }

  lemma RunningStarts(P: string, T: string, atom: Atom, hi: int, i: nat, caps: seq<Span>)
    ensures Running(P, T, atom, hi, i, caps, [i], caps)
  {
  }

  lemma RunningOn(P: string, T: string, atom: Atom, hi: int, i: nat, caps0: seq<Span>, xs: seq<nat>, before: seq<Span>, next: nat, after: seq<Span>)
    requires Running(P, T, atom, hi, i, caps0, xs, before) && 0 < |xs| < MAX_POSITIONS && (hi < 0 || |xs| <= hi)
    requires Repeated(P, T, atom, xs[|xs| - 1], before, next, after)
    ensures Running(P, T, atom, hi, i, caps0, xs + [next], after)
  {
    RunGoesOn(P, T, atom, hi, xs, before, next);
  }

  lemma RunGoesOn(P: string, T: string, atom: Atom, hi: int, xs: seq<nat>, caps: seq<Span>, next: nat)
    requires 0 < |xs| < MAX_POSITIONS && (hi < 0 || |xs| <= hi)
    requires Once(P, T, atom, xs[|xs| - 1]) == Some(next) && next != xs[|xs| - 1]
    ensures Run(P, T, atom, hi, xs) == Run(P, T, atom, hi, xs + [next])
    ensures RunCaps(P, T, atom, hi, xs, caps) == RunCaps(P, T, atom, hi, xs + [next], OnceCaps(P, T, atom, xs[|xs| - 1], caps))
  {
  }

  lemma RunningEnds(P: string, T: string, atom: Atom, hi: int, i: nat, caps0: seq<Span>, xs: seq<nat>, caps: seq<Span>, after: seq<Span>)
    requires Running(P, T, atom, hi, i, caps0, xs, caps) && 0 < |xs| <= MAX_POSITIONS
    requires if (hi < 0 || |xs| <= hi) && |xs| < MAX_POSITIONS then Repeated(P, T, atom, xs[|xs| - 1], caps, -1, after) else after == caps
    ensures RunDone(P, T, atom, hi, i, caps0, xs, after)
  {
    RunStops(P, T, atom, hi, xs, caps);
  }

  lemma RunStops(P: string, T: string, atom: Atom, hi: int, xs: seq<nat>, caps: seq<Span>)
    requires 0 < |xs| <= MAX_POSITIONS
    requires (hi < 0 || |xs| <= hi) && |xs| < MAX_POSITIONS ==>
               Once(P, T, atom, xs[|xs| - 1]).None? || Once(P, T, atom, xs[|xs| - 1]).value == xs[|xs| - 1]
    ensures Run(P, T, atom, hi, xs) == xs && RunCaps(P, T, atom, hi, xs, caps) == caps
  {
  }

  /** The first try of the atom, which began at i. (As above, the quantifier keeps proofs from looking inside.) */
  ghost predicate Begun(P: string, T: string, atom: Atom, i: nat, before: seq<Span>, base: seq<Span>) {
    exists j: nat {:trigger Once(P, T, atom, j)} :: j == i && Startable(P, T, atom, j) && base == OnceCaps(P, T, atom, j, before)
  }

  /** The rest of the pattern tried from the last of xs down to the lo-th. */
  ghost predicate RestTried(P: string, T: string, rest: Regex, xs: seq<nat>, lo: nat, before: seq<Span>, ok: bool, out: nat, after: seq<Span>) {
    && |xs| > 0
    && (exists n {:trigger Latest(P, T, rest, xs, n, lo)} ::
      && n == |xs| - 1
      && ok == Latest(P, T, rest, xs, n, lo).Some?
      && (ok ==> out == Latest(P, T, rest, xs, n, lo).value && after == FirstCaps(P, T, rest, xs[Chosen(P, T, rest, xs, n, lo)], before)))
  }

  /** From the positions above the i-th the rest of the pattern is not found. */
  ghost predicate Trying(P: string, T: string, rest: Regex, xs: seq<nat>, lo: nat, i: int) {
    && i < |xs|
    && (exists j {:trigger Latest(P, T, rest, xs, j, lo)} ::
      && j == i
      && Latest(P, T, rest, xs, |xs| - 1, lo) == Latest(P, T, rest, xs, j, lo)
      && Chosen(P, T, rest, xs, |xs| - 1, lo) == Chosen(P, T, rest, xs, j, lo))
  }

  lemma TryingStarts(P: string, T: string, rest: Regex, xs: seq<nat>, lo: nat)
    requires |xs| > 0
    ensures Trying(P, T, rest, xs, lo, |xs| - 1)
  {
    assert Latest(P, T, rest, xs, |xs| - 1, lo) == Latest(P, T, rest, xs, |xs| - 1, lo);
  }

  lemma TryingOn(P: string, T: string, rest: Regex, xs: seq<nat>, lo: nat, i: nat)
    requires Trying(P, T, rest, xs, lo, i) && lo <= i && First(P, T, rest, xs[i]).None?
    ensures Trying(P, T, rest, xs, lo, i - 1)
  {
    assert Latest(P, T, rest, xs, i, lo) == Latest(P, T, rest, xs, i - 1, lo);
  }

  lemma TryingEnds(P: string, T: string, rest: Regex, xs: seq<nat>, lo: nat, i: int, before: seq<Span>, out: nat)
    requires |xs| > 0 && Trying(P, T, rest, xs, lo, i) && i < lo
    ensures RestTried(P, T, rest, xs, lo, before, false, out, before)
  {
  }

  lemma TryingFinds(P: string, T: string, rest: Regex, xs: seq<nat>, lo: nat, i: nat, before: seq<Span>, out: nat)
    requires |xs| > 0 && Trying(P, T, rest, xs, lo, i) && lo <= i && First(P, T, rest, xs[i]) == Some(out)
    ensures RestTried(P, T, rest, xs, lo, before, true, out, FirstCaps(P, T, rest, xs[i], before))
  {
  }

  /** What the engine makes of re from i on. */
  ghost predicate Tried(P: string, T: string, re: Regex, i: nat, before: seq<Span>, ok: bool, out: nat, after: seq<Span>) {
    exists j: nat {:trigger First(P, T, re, j)} :: j == i
      && ok == First(P, T, re, j).Some? && (ok ==> out == First(P, T, re, j).value) && after == FirstCaps(P, T, re, j, before)
  }

  /** An item, once its run is done and a position for the rest of the pattern has been looked for. */
  lemma ItemDone(P: string, T: string, re: Regex, i: nat, before: seq<Span>, base: seq<Span>, xs: seq<nat>, kept: seq<Span>,
                 ok: bool, out: nat, after: seq<Span>)
    requires re.Then? && Begun(P, T, re.atom, i, before, base) && RunDone(P, T, re.atom, re.hi, i, base, xs, kept)
    requires RestTried(P, T, re.rest, xs, re.lo, kept, ok, out, after)
    ensures Tried(P, T, re, i, before, ok, out, if ok then after else base)
  {
    ItemFound(P, T, re, i, before, base, xs, kept);
    if ok { ItemTaken(P, T, re, i, before, base, xs, kept); } else { ItemLeft(P, T, re, i, before, base); }
  }

  lemma ItemFound(P: string, T: string, re: Regex, i: nat, before: seq<Span>, base: seq<Span>, xs: seq<nat>, kept: seq<Span>)
    requires re.Then? && Begun(P, T, re.atom, i, before, base) && RunDone(P, T, re.atom, re.hi, i, base, xs, kept)
    ensures |xs| > 0 && First(P, T, re, i) == Latest(P, T, re.rest, xs, |xs| - 1, re.lo)
  {
  }

  lemma ItemTaken(P: string, T: string, re: Regex, i: nat, before: seq<Span>, base: seq<Span>, xs: seq<nat>, kept: seq<Span>)
    requires re.Then? && Begun(P, T, re.atom, i, before, base) && RunDone(P, T, re.atom, re.hi, i, base, xs, kept)
    requires |xs| > 0 && First(P, T, re, i) == Latest(P, T, re.rest, xs, |xs| - 1, re.lo) && First(P, T, re, i).Some?
    ensures FirstCaps(P, T, re, i, before) == FirstCaps(P, T, re.rest, xs[Chosen(P, T, re.rest, xs, |xs| - 1, re.lo)], kept)
  {
  }

  lemma ItemLeft(P: string, T: string, re: Regex, i: nat, before: seq<Span>, base: seq<Span>)
    requires re.Then? && Begun(P, T, re.atom, i, before, base) && First(P, T, re, i).None?
    ensures FirstCaps(P, T, re, i, before) == base
  {
  }

  /** One with too few repetitions. */
  lemma ItemFails(P: string, T: string, re: Regex, i: nat, before: seq<Span>, base: seq<Span>, xs: seq<nat>, kept: seq<Span>, out: nat)
    requires re.Then? && Begun(P, T, re.atom, i, before, base) && RunDone(P, T, re.atom, re.hi, i, base, xs, kept) && |xs| - 1 < re.lo
    ensures Tried(P, T, re, i, before, false, out, base)
  {
    ItemFound(P, T, re, i, before, base, xs, kept);
    ItemLeft(P, T, re, i, before, base);
  }

  lemma ItemNotBegun(P: string, T: string, re: Regex, i: nat, caps: seq<Span>)
    requires re.Then? && (!Startable(P, T, re.atom, i) || (Once(P, T, re.atom, i).None? && re.lo > 0))
    ensures First(P, T, re, i).None? && FirstCaps(P, T, re, i, caps) == OnceCaps(P, T, re.atom, i, caps)
  {
  }

  // ----- group numbers -----

  /** The number after that of the last group of re, or lo if it has none. */
  function GroupsEnd(P: string, re: Regex, lo: nat): nat {
    if !re.Then? then lo
    else if re.atom.Group? then GroupsEnd(P, re.rest, GroupsEnd(P, re.atom.body, GroupOf(P, re.atom.open) + 1))
    else GroupsEnd(P, re.rest, lo)
  }

  /** The groups of re are numbered from lo on, in the order in which they open. */
  predicate Ordered(P: string, re: Regex, lo: nat) {
    re.Then? ==>
      if re.atom.Group? then
        var g := GroupOf(P, re.atom.open);
        lo <= g && Ordered(P, re.atom.body, g + 1) && Ordered(P, re.rest, GroupsEnd(P, re.atom.body, g + 1))
      else Ordered(P, re.rest, lo)
  }

  function Groups(P: string, re: Regex): set<nat> {
    if !re.Then? then {}
    else (if re.atom.Group? then {GroupOf(P, re.atom.open)} + Groups(P, re.atom.body) else {}) + Groups(P, re.rest)
  }

  function AtomGroups(P: string, atom: Atom): set<nat> {
    if atom.Group? then {GroupOf(P, atom.open)} + Groups(P, atom.body) else {}
  }

  lemma {:induction false} GroupsBetween(P: string, re: Regex, lo: nat)
    requires Ordered(P, re, lo)
    ensures lo <= GroupsEnd(P, re, lo) && forall g :: g in Groups(P, re) ==> lo <= g < GroupsEnd(P, re, lo)
  {
    if re.Then? {
      if re.atom.Group? {
        var g := GroupOf(P, re.atom.open);
        GroupsBetween(P, re.atom.body, g + 1);
        GroupsBetween(P, re.rest, GroupsEnd(P, re.atom.body, g + 1));
      } else {
        GroupsBetween(P, re.rest, lo);
      }
    }
  }

  /** So no group of an atom has the number of one inside it, or behind it. */
  lemma GroupsApart(P: string, re: Regex, lo: nat)
    requires re.Then? && Ordered(P, re, lo)
    ensures AtomGroups(P, re.atom) !! Groups(P, re.rest)
    ensures re.atom.Group? ==> GroupOf(P, re.atom.open) !in Groups(P, re.atom.body)
  {
    if re.atom.Group? {
      var g := GroupOf(P, re.atom.open);
      GroupsBetween(P, re.atom.body, g + 1);
      GroupsBetween(P, re.rest, GroupsEnd(P, re.atom.body, g + 1));
      forall x | x in AtomGroups(P, re.atom) ensures x !in Groups(P, re.rest) {}
    }
  }

  /** A lower bound may be lowered. */
  lemma {:induction false} OrderedFrom(P: string, re: Regex, lo: nat, b: nat)
    requires Ordered(P, re, lo) && b <= lo
    ensures Ordered(P, re, b) && GroupsEnd(P, re, b) <= GroupsEnd(P, re, lo)
  {
    if re.Then? && !re.atom.Group? { OrderedFrom(P, re.rest, lo, b); }
  }

  /** One item, read. */
  lemma DecodedItem(P: string, p: nat, stop: char) returns (next: nat)
    requires p <= |P| && Decode(P, p, stop).Good? && Decode(P, p, stop).re.Then? && !Decode(P, p, stop).re.atom.Unclosed?
    ensures p < |P| && DecodeAtom(P, p).GoodAtom? && p < DecodeAtom(P, p).end <= next <= |P|
    ensures next == ReadQuant(P, DecodeAtom(P, p).end).rest
    ensures var r := Decode(P, p, stop);
      r.re.atom == DecodeAtom(P, p).atom && Decode(P, next, stop) == Good(r.re.rest, r.end)
  {
    next := ReadQuant(P, DecodeAtom(P, p).end).rest;
  }

  lemma DecodedGroup(P: string, p: nat) returns (end: nat)
    requires p < |P| && DecodeAtom(P, p).GoodAtom? && DecodeAtom(P, p).atom.Group?
    ensures P[p] == '(' && p + 1 <= end <= |P|
    ensures DecodeAtom(P, p).atom.open == p && Decode(P, p + 1, ')') == Good(DecodeAtom(P, p).atom.body, end)
  {
    end := Decode(P, p + 1, ')').end;
  }

  /** The groups of re have numbers from lo up to hi. */
  ghost predicate Numbered(P: string, re: Regex, lo: nat, hi: nat) {
    Ordered(P, re, lo) && GroupsEnd(P, re, lo) <= hi
  }

  lemma NumberedGroup(P: string, re: Regex, g: nat, mid: nat, next: nat, hi: nat)
    requires re.Then? && re.atom.Group? && GroupOf(P, re.atom.open) == g && mid <= next
    requires Numbered(P, re.atom.body, g + 1, mid) && Numbered(P, re.rest, next, hi)
    ensures Numbered(P, re, g, hi)
  {
    OrderedFrom(P, re.rest, next, GroupsEnd(P, re.atom.body, g + 1));
  }

  lemma NumberedOther(P: string, re: Regex, lo: nat, next: nat, hi: nat)
    requires re.Then? && !re.atom.Group? && lo <= next && Numbered(P, re.rest, next, hi)
    ensures Numbered(P, re, lo, hi)
  {
    OrderedFrom(P, re.rest, next, lo);
  }

  /** What is read from p on has no groups with smaller numbers. */
  lemma {:induction false} DecodedGroupsFrom(P: string, p: nat, stop: char, re: Regex, end: nat)
    requires p <= |P| && !Escaped(P, p) && Decode(P, p, stop) == Good(re, end)
    ensures forall g :: g in Groups(P, re) ==> GroupIndex(P, p) <= g
    decreases |P| - p
  {
    if re.Then? && !re.atom.Unclosed? {
      var next := DecodedItem(P, p, stop);
      AtomAligned(P, p);
      DecodedGroupsFrom(P, next, stop, re.rest, end);
      ParensGrow(P, p, next);
      if re.atom.Group? {
        var close := DecodedGroup(P, p);
        DecodedGroupsFrom(P, p + 1, ')', re.atom.body, close);
        ParensGrow(P, p, p + 1);
      }
    }
  }

  /** The groups of a pattern that has been read are in order. */
  lemma {:induction false} DecodedNumbered(P: string, p: nat, stop: char, re: Regex, end: nat)
    requires p <= |P| && !Escaped(P, p) && Decode(P, p, stop) == Good(re, end) && Nests(P, p, stop)
    ensures Numbered(P, re, Parens(P, p) + 1, Parens(P, end) + 1)
    decreases |P| - p, 1
  {
    ParensGrow(P, p, end);
    if re.Then? && !re.atom.Unclosed? {
      var next := DecodedItem(P, p, stop);
      AtomAligned(P, p);
      DecodedNumbered(P, next, stop, re.rest, end);
      if re.atom.Group? {
        BodyNumbered(P, p, next, re, Parens(P, end) + 1);
      } else {
        ParensGrow(P, p, next);
        NumberedOther(P, re, Parens(P, p) + 1, Parens(P, next) + 1, Parens(P, end) + 1);
      }
    }
  }

  lemma {:induction false} BodyNumbered(P: string, p: nat, next: nat, re: Regex, hi: nat)
    requires p < |P| && !Escaped(P, p) && DecodeAtom(P, p).GoodAtom? && re.Then? && re.atom == DecodeAtom(P, p).atom && re.atom.Group?
    requires DecodeAtom(P, p).end <= next <= |P| && Numbered(P, re.rest, Parens(P, next) + 1, hi)
    requires Decode(P, p + 1, ')') == Good(re.atom.body, DecodeAtom(P, p).end - 1) && Nests(P, p + 1, ')')
    ensures Numbered(P, re, Parens(P, p) + 1, hi)
    decreases |P| - p, 0
  {
    var close := DecodedGroup(P, p);
    DecodedNumbered(P, p + 1, ')', re.atom.body, close);
    ParensGrow(P, close, next);
    NumberedGroup(P, re, Parens(P, p) + 1, Parens(P, close) + 1, Parens(P, next) + 1, hi);
  }

  // ----- which records change -----

  ghost predicate ChangedIn(before: seq<Span>, after: seq<Span>, gs: set<nat>) {
    |before| == |after| && forall g {:trigger after[g]} :: 0 <= g < |before| && g !in gs ==> after[g] == before[g]
  }

  lemma {:induction false} OnceChanges(P: string, T: string, atom: Atom, i: nat, caps: seq<Span>)
    ensures ChangedIn(caps, OnceCaps(P, T, atom, i, caps), AtomGroups(P, atom))
    decreases atom, 1
  {
    if atom.Group? && Once(P, T, atom, i).Some? { FirstChanges(P, T, atom.body, i, Started(caps, GroupOf(P, atom.open), i)); }
  }

  lemma {:induction false} RunChanges(P: string, T: string, atom: Atom, hi: int, xs: seq<nat>, caps: seq<Span>)
    requires 0 < |xs| <= MAX_POSITIONS
    ensures ChangedIn(caps, RunCaps(P, T, atom, hi, xs, caps), AtomGroups(P, atom))
    decreases atom, 2, MAX_POSITIONS - |xs|
  {
    if (hi < 0 || |xs| <= hi) && |xs| < MAX_POSITIONS {
      var last := xs[|xs| - 1];
      var next := Once(P, T, atom, last);
      if next.Some? && next.value != last {
        OnceChanges(P, T, atom, last, caps);
        RunChanges(P, T, atom, hi, xs + [next.value], OnceCaps(P, T, atom, last, caps));
      }
    }
  }

  lemma {:induction false} FirstChanges(P: string, T: string, re: Regex, i: nat, caps: seq<Span>)
    ensures ChangedIn(caps, FirstCaps(P, T, re, i, caps), Groups(P, re))
    decreases re, 0
  {
    if re.Then? {
      var once := OnceCaps(P, T, re.atom, i, caps);
      OnceChanges(P, T, re.atom, i, caps);
      if First(P, T, re, i).Some? {
        var xs := Run(P, T, re.atom, re.hi, [i]);
        RunChanges(P, T, re.atom, re.hi, [i], once);
        FirstChanges(P, T, re.rest, xs[Chosen(P, T, re.rest, xs, |xs| - 1, re.lo)], RunCaps(P, T, re.atom, re.hi, [i], once));
      }
    }
  }

  // ----- what is recorded is a match -----

  lemma OpenThen(P: string, T: string, re: Regex, i: nat, caps: seq<Span>) returns (xs: seq<nat>, n: nat, kept: seq<Span>)
    requires re.Then? && First(P, T, re, i).Some?
    ensures xs == Run(P, T, re.atom, re.hi, [i]) && n < |xs| && First(P, T, re.rest, xs[n]) == First(P, T, re, i)
    ensures n == Chosen(P, T, re.rest, xs, |xs| - 1, re.lo)
    ensures kept == RunCaps(P, T, re.atom, re.hi, [i], OnceCaps(P, T, re.atom, i, caps)) && |kept| == |caps|
    ensures FirstCaps(P, T, re, i, caps) == FirstCaps(P, T, re.rest, xs[n], kept)
  {
    xs := Run(P, T, re.atom, re.hi, [i]);
    n := Chosen(P, T, re.rest, xs, |xs| - 1, re.lo);
    kept := RunCaps(P, T, re.atom, re.hi, [i], OnceCaps(P, T, re.atom, i, caps));
  }

  /** Records from the b-th on are in order, and the later ones still are after others have been written. */
  lemma CapsOkLater(P: string, T: string, before: seq<Span>, after: seq<Span>, gs: set<nat>, b: nat, c: nat)
    requires CapsOk(P, T, before, b) && CapsOk(P, T, after, c) && ChangedIn(before, after, gs) && forall g :: g in gs ==> c <= g
    ensures CapsOk(P, T, after, b)
  {
    forall g | b <= g < |after| ensures Recorded(P, T, g, after[g]) {
      if g < c { assert after[g] == before[g] && Recorded(P, T, g, before[g]); }
    }
  }

  lemma CapsOkFrom(P: string, T: string, caps: seq<Span>, b: nat, c: nat)
    requires CapsOk(P, T, caps, b) && b <= c
    ensures CapsOk(P, T, caps, c)
  {
  }

  lemma StartRecorded(P: string, T: string, caps: seq<Span>, g: nat, i: nat)
    requires CapsOk(P, T, caps, g)
    ensures CapsOk(P, T, Started(caps, g, i), g + 1)
  {
    var begun := Started(caps, g, i);
    forall x | g + 1 <= x < |begun| ensures Recorded(P, T, x, begun[x]) { assert begun[x] == caps[x]; }
  }

  lemma EndRecorded(P: string, T: string, caps: seq<Span>, g: nat, i: nat, v: nat)
    requires CapsOk(P, T, caps, g + 1) && (g < |caps| ==> caps[g].start == i && Recorded(P, T, g, Span(i, v)))
    ensures CapsOk(P, T, Ended(caps, g, v), g)
  {
    var after := Ended(caps, g, v);
    forall x | g <= x < |after| ensures Recorded(P, T, x, after[x]) {
      assert after[x] == if x == g then Span(i, v) else caps[x];
    }
  }

  /** One repetition of the group that opens at p. */
  lemma {:induction false} GroupRecords(P: string, T: string, p: nat, i: nat, caps: seq<Span>)
    requires p < |P| && !Escaped(P, p) && DecodeAtom(P, p).GoodAtom? && DecodeAtom(P, p).atom.Group? && i <= |T|
    requires CapsOk(P, T, caps, GroupIndex(P, p)) && Once(P, T, DecodeAtom(P, p).atom, i).Some?
    ensures CapsOk(P, T, OnceCaps(P, T, DecodeAtom(P, p).atom, i, caps), GroupIndex(P, p))
    decreases |P| - p, 0
  {
    var close := DecodedGroup(P, p);
    var atom, g := DecodeAtom(P, p).atom, GroupIndex(P, p);
    var begun := Started(caps, g, i);
    var body := FirstCaps(P, T, atom.body, i, begun);
    assert GroupIndex(P, p + 1) == g + 1 && GroupOf(P, p) == g && !Escaped(P, p + 1);
    StartRecorded(P, T, caps, g, i);
    DecodedRecords(P, T, p + 1, ')', atom.body, close, i, begun);
    BodyKeeps(P, T, p, close, atom.body, i, begun);
    GroupRecorded(P, T, p, close, atom.body, i);
    EndRecorded(P, T, body, g, i, Once(P, T, atom, i).value);
  }

  lemma BodyKeeps(P: string, T: string, p: nat, close: nat, body: Regex, i: nat, caps: seq<Span>)
    requires p < |P| && !Escaped(P, p + 1) && Decode(P, p + 1, ')') == Good(body, close) && GroupIndex(P, p + 1) == GroupIndex(P, p) + 1
    ensures GroupIndex(P, p) < |caps| ==> FirstCaps(P, T, body, i, caps)[GroupIndex(P, p)] == caps[GroupIndex(P, p)]
  {
    DecodedGroupsFrom(P, p + 1, ')', body, close);
    FirstChanges(P, T, body, i, caps);
  }

  lemma GroupRecorded(P: string, T: string, p: nat, close: nat, body: Regex, i: nat)
    requires p < |P| && P[p] == '(' && Decode(P, p + 1, ')') == Good(body, close) && i <= |T| && First(P, T, body, i).Some?
    ensures Recorded(P, T, GroupIndex(P, p), Span(i, First(P, T, body, i).value))
  {
    FirstSound(P, T, body, i);
    assert GroupAt(P, p, GroupIndex(P, p));
  }

  lemma {:induction false} OnceRecords(P: string, T: string, p: nat, i: nat, caps: seq<Span>)
    requires p < |P| && !Escaped(P, p) && DecodeAtom(P, p).GoodAtom? && i <= |T| && CapsOk(P, T, caps, GroupIndex(P, p))
    ensures CapsOk(P, T, OnceCaps(P, T, DecodeAtom(P, p).atom, i, caps), GroupIndex(P, p))
    decreases |P| - p, 1
  {
    if DecodeAtom(P, p).atom.Group? && Once(P, T, DecodeAtom(P, p).atom, i).Some? { GroupRecords(P, T, p, i, caps); }
  }

  lemma {:induction false} RunRecords(P: string, T: string, p: nat, atom: Atom, hi: int, xs: seq<nat>, caps: seq<Span>)
    requires p < |P| && !Escaped(P, p) && DecodeAtom(P, p).GoodAtom? && CapsOk(P, T, caps, GroupIndex(P, p))
    requires atom == DecodeAtom(P, p).atom && 0 < |xs| <= MAX_POSITIONS && xs[|xs| - 1] <= |T|
    ensures CapsOk(P, T, RunCaps(P, T, atom, hi, xs, caps), GroupIndex(P, p))
    decreases |P| - p, 2, MAX_POSITIONS - |xs|
  {
    if (hi < 0 || |xs| <= hi) && |xs| < MAX_POSITIONS {
      var last := xs[|xs| - 1];
      var next := Once(P, T, atom, last);
      if next.Some? && next.value != last {
        OnceRecords(P, T, p, last, caps);
        OnceSound(P, T, atom, last);
        RunRecords(P, T, p, atom, hi, xs + [next.value], OnceCaps(P, T, atom, last, caps));
      }
    }
  }

  /** What the engine records for a group, in all its tries, is a match of the group's body. */
  lemma {:induction false} DecodedRecords(P: string, T: string, p: nat, stop: char, re: Regex, end: nat, i: nat, caps: seq<Span>)
    requires p <= |P| && !Escaped(P, p) && Decode(P, p, stop) == Good(re, end) && i <= |T| && CapsOk(P, T, caps, GroupIndex(P, p))
    ensures CapsOk(P, T, FirstCaps(P, T, re, i, caps), GroupIndex(P, p))
    decreases |P| - p, 4
  {
    if re.Then? && !re.atom.Unclosed? {
      var next := DecodedItem(P, p, stop);
      AtomAligned(P, p);
      OnceRecords(P, T, p, i, caps);
      if First(P, T, re, i).Some? {
        var xs, n, kept := OpenThen(P, T, re, i, caps);
        RunRecords(P, T, p, re.atom, re.hi, [i], OnceCaps(P, T, re.atom, i, caps));
        RestRecords(P, T, p, next, stop, re, end, i, xs, n, kept);
      }
    }
  }

  lemma {:induction false} RestRecords(P: string, T: string, p: nat, next: nat, stop: char, re: Regex, end: nat, i: nat, xs: seq<nat>, n: nat, kept: seq<Span>)
    requires p < next <= |P| && !Escaped(P, next) && re.Then? && Decode(P, next, stop) == Good(re.rest, end) && i <= |T|
    requires xs == Run(P, T, re.atom, re.hi, [i]) && n < |xs| && CapsOk(P, T, kept, GroupIndex(P, p))
    ensures CapsOk(P, T, FirstCaps(P, T, re.rest, xs[n], kept), GroupIndex(P, p))
    decreases |P| - p, 3
  {
    ParensGrow(P, p, next);
    RunInText(P, T, re.atom, re.hi, i, n);
    CapsOkFrom(P, T, kept, GroupIndex(P, p), GroupIndex(P, next));
    DecodedRecords(P, T, next, stop, re.rest, end, xs[n], kept);
    DecodedGroupsFrom(P, next, stop, re.rest, end);
    FirstChanges(P, T, re.rest, xs[n], kept);
    CapsOkLater(P, T, kept, FirstCaps(P, T, re.rest, xs[n], kept), Groups(P, re.rest), GroupIndex(P, p), GroupIndex(P, next));
  }

  lemma RunInText(P: string, T: string, atom: Atom, hi: int, i: nat, n: nat)
    requires i <= |T| && n < |Run(P, T, atom, hi, [i])|
    ensures Run(P, T, atom, hi, [i])[n] <= |T|
  {
    assert Chain(P, T, atom, i, [i]) by { assert Repeats(P, T, atom, i, i, 0); }
    RunSound(P, T, atom, hi, i, [i]);
  }

  // ----- the last repetition is what is recorded -----

  /** Where the last repetition of a run begins; a run of none has still been tried once. */
  function LastStart(xs: seq<nat>): nat
    requires |xs| > 0
  {
    if |xs| > 1 then xs[|xs| - 2] else xs[0]
  }

  lemma {:induction false} RunRecordsLast(P: string, T: string, atom: Atom, hi: int, xs: seq<nat>, caps: seq<Span>) returns (before: seq<Span>)
    requires 0 < |xs| <= MAX_POSITIONS
    ensures |before| == |caps|
    ensures var ys := Run(P, T, atom, hi, xs);
      if |ys| == |xs| then RunCaps(P, T, atom, hi, xs, caps) == caps
      else
        && RunCaps(P, T, atom, hi, xs, caps) == OnceCaps(P, T, atom, LastStart(ys), before)
        && Once(P, T, atom, LastStart(ys)) == Some(ys[|ys| - 1])
    decreases MAX_POSITIONS - |xs|
  {
    before := caps;
    if (hi < 0 || |xs| <= hi) && |xs| < MAX_POSITIONS {
      var last := xs[|xs| - 1];
      var next := Once(P, T, atom, last);
      if next.Some? && next.value != last {
        var ys := xs + [next.value];
        var once := OnceCaps(P, T, atom, last, caps);
        var b := RunRecordsLast(P, T, atom, hi, ys, once);
        assert Run(P, T, atom, hi, xs) == Run(P, T, atom, hi, ys);
        if |Run(P, T, atom, hi, ys)| > |ys| { before := b; } else { RunEnds(P, T, atom, hi, ys); }
      }
    }
  }

  lemma RunEnds(P: string, T: string, atom: Atom, hi: int, xs: seq<nat>)
    requires 0 < |xs| <= MAX_POSITIONS && |Run(P, T, atom, hi, xs)| == |xs|
    ensures Run(P, T, atom, hi, xs) == xs
  {
    var r := Run(P, T, atom, hi, xs);
    assert r[..|xs|] == xs && r[..|xs|] == r;
  }

  /** What an item that is a group leaves: the span of its last repetition, as the body recorded it. */
  lemma ItemRecords(P: string, T: string, re: Regex, i: nat, caps: seq<Span>) returns (before: seq<Span>)
    requires re.Then? && re.atom.Group? && First(P, T, re, i).Some?
    ensures |before| == |caps|
    ensures var xs := Run(P, T, re.atom, re.hi, [i]);
      && RunCaps(P, T, re.atom, re.hi, [i], OnceCaps(P, T, re.atom, i, caps)) == OnceCaps(P, T, re.atom, LastStart(xs), before)
      && Once(P, T, re.atom, LastStart(xs)).Some?
  {
    var xs := Run(P, T, re.atom, re.hi, [i]);
    before := RunRecordsLast(P, T, re.atom, re.hi, [i], OnceCaps(P, T, re.atom, i, caps));
    assert xs[..1] == [i];
    if |xs| == 1 {
      assert xs[0] == xs[..1][0];
      before := caps;
    }
  }

  // ----- inside the match or not -----

  /** The records of the groups gs end at e or before. */
  ghost predicate EndBy(caps: seq<Span>, gs: set<nat>, e: nat) {
    forall g {:trigger g in gs} :: g in gs && g < |caps| ==> caps[g].end <= e
  }

  /** The last repetitions of all groups end at e or before: those of the groups tried on the way of the match from i, and
      those within their bodies. Groups with a number too high are not recorded. */
  ghost predicate Contained(P: string, T: string, re: Regex, i: nat, e: nat)
    decreases re, 1
  {
    re.Then? && First(P, T, re, i).Some? ==>
      var xs := Run(P, T, re.atom, re.hi, [i]);
      ContainedFrom(P, T, re, xs, Chosen(P, T, re.rest, xs, |xs| - 1, re.lo), e)
  }

  ghost predicate ContainedFrom(P: string, T: string, re: Regex, xs: seq<nat>, n: nat, e: nat)
    requires re.Then? && n < |xs|
    decreases re, 0
  {
    && (re.atom.Group? ==>
          var b := LastStart(xs);
          Once(P, T, re.atom, b).Some? &&
          (GroupOf(P, re.atom.open) < COME_REGEX_MAX_GROUPS ==> Once(P, T, re.atom, b).value <= e) &&
          Contained(P, T, re.atom.body, b, e))
    && Contained(P, T, re.rest, xs[n], e)
  }

  lemma EndByJoin(caps: seq<Span>, gs: set<nat>, hs: set<nat>, e: nat)
    ensures EndBy(caps, gs + hs, e) <==> EndBy(caps, gs, e) && EndBy(caps, hs, e)
  {
    if EndBy(caps, gs + hs, e) {
      forall g | g in gs && g < |caps| ensures caps[g].end <= e { assert g in gs + hs; }
      forall g | g in hs && g < |caps| ensures caps[g].end <= e { assert g in gs + hs; }
    }
  }

  lemma EndBySame(caps: seq<Span>, caps1: seq<Span>, gs: set<nat>, hs: set<nat>, e: nat)
    requires ChangedIn(caps, caps1, hs) && gs !! hs
    ensures EndBy(caps1, gs, e) <==> EndBy(caps, gs, e)
  {
    forall g | g in gs && g < |caps| ensures caps1[g] == caps[g] {}
  }

  lemma EndByOne(caps: seq<Span>, g: nat, e: nat)
    ensures EndBy(caps, {g}, e) <==> (g < |caps| ==> caps[g].end <= e)
  {
    assert g in {g};
  }

  /** One repetition of a group. */
  lemma {:induction false} OnceEnds(P: string, T: string, atom: Atom, b: nat, caps: seq<Span>, e: nat)
    requires atom.Group? && Once(P, T, atom, b).Some? && |caps| == COME_REGEX_MAX_GROUPS
    requires Ordered(P, atom.body, GroupOf(P, atom.open) + 1)
    ensures EndBy(OnceCaps(P, T, atom, b, caps), AtomGroups(P, atom), e) <==>
      (GroupOf(P, atom.open) < COME_REGEX_MAX_GROUPS ==> Once(P, T, atom, b).value <= e) && Contained(P, T, atom.body, b, e)
    decreases atom, 1
  {
    var g, v := GroupOf(P, atom.open), Once(P, T, atom, b).value;
    var begun := Started(caps, g, b);
    var body := FirstCaps(P, T, atom.body, b, begun);
    var after := Ended(body, g, v);
    GroupsBetween(P, atom.body, g + 1);
    FirstEnds(P, T, atom.body, b, begun, e, g + 1);
    EndBySame(body, after, Groups(P, atom.body), {g}, e);
    EndByOne(after, g, e);
    EndByJoin(after, {g}, Groups(P, atom.body), e);
  }

  lemma ThenGroups(P: string, re: Regex)
    requires re.Then?
    ensures Groups(P, re) == AtomGroups(P, re.atom) + Groups(P, re.rest)
  {
  }

  /** The rest of the pattern leaves alone what the first item has recorded. */
  lemma RestApart(P: string, T: string, re: Regex, m: nat, kept: seq<Span>, e: nat, lo: nat)
    requires re.Then? && Ordered(P, re, lo)
    ensures var after := FirstCaps(P, T, re.rest, m, kept);
      EndBy(after, Groups(P, re), e) <==> EndBy(kept, AtomGroups(P, re.atom), e) && EndBy(after, Groups(P, re.rest), e)
  {
    var after := FirstCaps(P, T, re.rest, m, kept);
    ThenGroups(P, re);
    GroupsApart(P, re, lo);
    FirstChanges(P, T, re.rest, m, kept);
    EndBySame(kept, after, AtomGroups(P, re.atom), Groups(P, re.rest), e);
    EndByJoin(after, AtomGroups(P, re.atom), Groups(P, re.rest), e);
  }

  lemma OpenContained(P: string, T: string, re: Regex, i: nat, e: nat, xs: seq<nat>, n: nat)
    requires re.Then? && First(P, T, re, i).Some? && xs == Run(P, T, re.atom, re.hi, [i])
    requires n < |xs| && n == Chosen(P, T, re.rest, xs, |xs| - 1, re.lo)
    ensures Contained(P, T, re, i, e) <==> ContainedFrom(P, T, re, xs, n, e)
  {
  }

  lemma OpenContainedFrom(P: string, T: string, re: Regex, xs: seq<nat>, n: nat, e: nat)
    requires re.Then? && n < |xs|
    ensures ContainedFrom(P, T, re, xs, n, e) <==>
      && (re.atom.Group? ==>
            var b := LastStart(xs);
            Once(P, T, re.atom, b).Some? &&
            (GroupOf(P, re.atom.open) < COME_REGEX_MAX_GROUPS ==> Once(P, T, re.atom, b).value <= e) &&
            Contained(P, T, re.atom.body, b, e))
      && Contained(P, T, re.rest, xs[n], e)
  {
  }

  ghost function RestFrom(P: string, re: Regex, lo: nat): nat
    requires re.Then?
  {
    if re.atom.Group? then GroupsEnd(P, re.atom.body, GroupOf(P, re.atom.open) + 1) else lo
  }

  lemma OrderedParts(P: string, re: Regex, lo: nat)
    requires re.Then? && Ordered(P, re, lo)
    ensures Ordered(P, re.rest, RestFrom(P, re, lo))
    ensures re.atom.Group? ==> Ordered(P, re.atom.body, GroupOf(P, re.atom.open) + 1)
  {
  }

  /** All records a match leaves end at e or before exactly when the last repetitions of its groups do. */
  lemma {:induction false} FirstEnds(P: string, T: string, re: Regex, i: nat, caps: seq<Span>, e: nat, lo: nat)
    requires Ordered(P, re, lo) && First(P, T, re, i).Some? && |caps| == COME_REGEX_MAX_GROUPS
    ensures EndBy(FirstCaps(P, T, re, i, caps), Groups(P, re), e) <==> Contained(P, T, re, i, e)
    decreases re, 1
  {
    if re.Then? {
      var xs, n, kept := OpenThen(P, T, re, i, caps);
      OrderedParts(P, re, lo);
      RestApart(P, T, re, xs[n], kept, e, lo);
      OpenContained(P, T, re, i, e, xs, n);
      OpenContainedFrom(P, T, re, xs, n, e);
      FirstEnds(P, T, re.rest, xs[n], kept, e, RestFrom(P, re, lo));
      ItemEnds(P, T, re, i, caps, e, lo);
    }
  }

  lemma {:induction false} ItemEnds(P: string, T: string, re: Regex, i: nat, caps: seq<Span>, e: nat, lo: nat)
    requires re.Then? && Ordered(P, re, lo) && First(P, T, re, i).Some? && |caps| == COME_REGEX_MAX_GROUPS
    ensures var xs := Run(P, T, re.atom, re.hi, [i]);
      EndBy(RunCaps(P, T, re.atom, re.hi, [i], OnceCaps(P, T, re.atom, i, caps)), AtomGroups(P, re.atom), e) <==>
        (re.atom.Group? ==>
          var b := LastStart(xs);
          Once(P, T, re.atom, b).Some? &&
          (GroupOf(P, re.atom.open) < COME_REGEX_MAX_GROUPS ==> Once(P, T, re.atom, b).value <= e) &&
          Contained(P, T, re.atom.body, b, e))
    decreases re, 0
  {
    if re.atom.Group? {
      OrderedParts(P, re, lo);
      var before := ItemRecords(P, T, re, i, caps);
      OnceEnds(P, T, re.atom, LastStart(Run(P, T, re.atom, re.hi, [i])), before, e);
    }
  }

  /** The records of the groups gs begin at i or later. */
  ghost predicate BeginFrom(caps: seq<Span>, gs: set<nat>, i: nat) {
    forall g {:trigger g in gs} :: g in gs && g < |caps| ==> i <= caps[g].start <= caps[g].end
  }

  lemma BeginFromSame(caps: seq<Span>, caps1: seq<Span>, gs: set<nat>, hs: set<nat>, i: nat)
    requires ChangedIn(caps, caps1, hs) && gs !! hs && BeginFrom(caps, gs, i)
    ensures BeginFrom(caps1, gs, i)
  {
    forall g | g in gs && g < |caps| ensures caps1[g] == caps[g] {}
  }

  lemma {:induction false} OnceBegins(P: string, T: string, atom: Atom, b: nat, caps: seq<Span>, i: nat)
    requires atom.Group? && Once(P, T, atom, b).Some? && |caps| == COME_REGEX_MAX_GROUPS && i <= b
    requires Ordered(P, atom.body, GroupOf(P, atom.open) + 1)
    ensures BeginFrom(OnceCaps(P, T, atom, b, caps), AtomGroups(P, atom), i)
    decreases atom, 3
  {
    var g, v := GroupOf(P, atom.open), Once(P, T, atom, b).value;
    var begun := Started(caps, g, b);
    var body := FirstCaps(P, T, atom.body, b, begun);
    GroupsBetween(P, atom.body, g + 1);
    FirstBegins(P, T, atom.body, b, begun, i, g + 1);
    FirstChanges(P, T, atom.body, b, begun);
    BeginFromSame(body, Ended(body, g, v), Groups(P, atom.body), {g}, i);
    if g < |caps| { assert body[g] == begun[g]; }
  }

  lemma RunForward(P: string, T: string, atom: Atom, hi: int, i: nat, k: nat)
    requires k < |Run(P, T, atom, hi, [i])|
    ensures i <= Run(P, T, atom, hi, [i])[k] && i <= LastStart(Run(P, T, atom, hi, [i]))
  {
    var xs := Run(P, T, atom, hi, [i]);
    assert xs[k] in xs && xs[0] in xs && (|xs| > 1 ==> xs[|xs| - 2] in xs);
  }

  /** Whatever is recorded is a span, and begins no earlier than the match. */
  lemma {:induction false} FirstBegins(P: string, T: string, re: Regex, b: nat, caps: seq<Span>, i: nat, lo: nat)
    requires Ordered(P, re, lo) && First(P, T, re, b).Some? && |caps| == COME_REGEX_MAX_GROUPS && i <= b
    ensures BeginFrom(FirstCaps(P, T, re, b, caps), Groups(P, re), i)
    decreases re, 1
  {
    if re.Then? {
      var xs, n, kept := OpenThen(P, T, re, b, caps);
      OrderedParts(P, re, lo);
      RunForward(P, T, re.atom, re.hi, b, n);
      FirstBegins(P, T, re.rest, xs[n], kept, i, RestFrom(P, re, lo));
      ItemBegins(P, T, re, b, caps, i, lo);
      RestBegins(P, T, re, xs[n], kept, i, lo);
    }
  }

  lemma {:induction false} ItemBegins(P: string, T: string, re: Regex, b: nat, caps: seq<Span>, i: nat, lo: nat)
    requires re.Then? && Ordered(P, re, lo) && First(P, T, re, b).Some? && |caps| == COME_REGEX_MAX_GROUPS && i <= b
    ensures BeginFrom(RunCaps(P, T, re.atom, re.hi, [b], OnceCaps(P, T, re.atom, b, caps)), AtomGroups(P, re.atom), i)
    decreases re, 0
  {
    if re.atom.Group? {
      OrderedParts(P, re, lo);
      RunForward(P, T, re.atom, re.hi, b, 0);
      var before := ItemRecords(P, T, re, b, caps);
      OnceBegins(P, T, re.atom, LastStart(Run(P, T, re.atom, re.hi, [b])), before, i);
    }
  }

  lemma RestBegins(P: string, T: string, re: Regex, m: nat, kept: seq<Span>, i: nat, lo: nat)
    requires re.Then? && Ordered(P, re, lo) && BeginFrom(kept, AtomGroups(P, re.atom), i)
    requires BeginFrom(FirstCaps(P, T, re.rest, m, kept), Groups(P, re.rest), i)
    ensures BeginFrom(FirstCaps(P, T, re.rest, m, kept), Groups(P, re), i)
  {
    ThenGroups(P, re);
    GroupsApart(P, re, lo);
    FirstChanges(P, T, re.rest, m, kept);
    BeginFromSame(kept, FirstCaps(P, T, re.rest, m, kept), AtomGroups(P, re.atom), Groups(P, re.rest), i);
  }

  /** The span recorded for g lies inside the match. */
  predicate Inside(caps: seq<Span>, g: nat)
    requires g < |caps| && 0 < |caps|
  {
    caps[0].start <= caps[g].start <= caps[g].end <= caps[0].end
  }

  /** What a successful search leaves: nothing for numbers no group has; and all groups of the pattern inside the match
      exactly when their last repetitions end there. */
  lemma RecordsInside(P: string, T: string, p: nat, re: Regex, end: nat, s: nat, e: nat)
    requires p <= |P| && !Escaped(P, p) && Decode(P, p, '\0') == Good(re, end) && Nests(P, p, '\0') && First(P, T, re, s) == Some(e)
    ensures var caps := FirstCaps(P, T, re, s, NO_SPANS)[0 := Span(s, e)];
      && (forall g {:trigger caps[g]} :: 0 < g < COME_REGEX_MAX_GROUPS && g !in Groups(P, re) ==> caps[g] == UNSET)
      && ((forall g: nat {:trigger caps[g]} :: g in Groups(P, re) && g < COME_REGEX_MAX_GROUPS ==> Inside(caps, g)) <==> Contained(P, T, re, s, e))
  {
    var lo := Parens(P, p) + 1;
    DecodedNumbered(P, p, '\0', re, end);
    var left := FirstCaps(P, T, re, s, NO_SPANS);
    var caps := left[0 := Span(s, e)];
    FirstChanges(P, T, re, s, NO_SPANS);
    FirstEnds(P, T, re, s, NO_SPANS, e, lo);
    FirstBegins(P, T, re, s, NO_SPANS, s, lo);
    GroupsBetween(P, re, lo);
    forall g: nat | g in Groups(P, re) && g < |caps| ensures g > 0 && caps[g] == left[g] && s <= left[g].start <= left[g].end {}
    if forall g: nat {:trigger caps[g]} :: g in Groups(P, re) && g < COME_REGEX_MAX_GROUPS ==> Inside(caps, g) {
      forall g | g in Groups(P, re) && g < |left| ensures left[g].end <= e { assert caps[g] == left[g]; }
      assert EndBy(left, Groups(P, re), e);
    }
  }

  /** No match falls back over a group: each is repeated a fixed number of times, or nothing follows it in its sequence but a
      `$`. */
  predicate NoFallBack(re: Regex) {
    re.Then? ==>
      && (re.atom.Group? ==> NoFallBack(re.atom.body) && (Fixed(re) || Final(re)))
      && NoFallBack(re.rest)
  }

  predicate Fixed(re: Regex)
    requires re.Then?
  {
    re.lo == re.hi && re.lo > 0
  }

  predicate Final(re: Regex)
    requires re.Then?
  {
    re.hi != 0 && (re.rest.Done? || re.rest.Dollar?)
  }

  lemma {:induction false} RunBounded(P: string, T: string, atom: Atom, hi: nat, xs: seq<nat>)
    requires 0 < |xs| <= MAX_POSITIONS && |xs| <= hi + 1
    ensures |Run(P, T, atom, hi, xs)| <= hi + 1
    decreases MAX_POSITIONS - |xs|
  {
    if |xs| <= hi && |xs| < MAX_POSITIONS {
      var next := Once(P, T, atom, xs[|xs| - 1]);
      if next.Some? && next.value != xs[|xs| - 1] { RunBounded(P, T, atom, hi, xs + [next.value]); }
    }
  }

  lemma {:induction false} RunNext(P: string, T: string, atom: Atom, hi: int, xs: seq<nat>, k: nat)
    requires 0 < |xs| <= MAX_POSITIONS && |xs| - 1 <= k && k + 1 < |Run(P, T, atom, hi, xs)|
    ensures Once(P, T, atom, Run(P, T, atom, hi, xs)[k]) == Some(Run(P, T, atom, hi, xs)[k + 1])
    decreases MAX_POSITIONS - |xs|
  {
    var next := Once(P, T, atom, xs[|xs| - 1]);
    var ys := xs + [next.value];
    assert Run(P, T, atom, hi, xs) == Run(P, T, atom, hi, ys);
    if |ys| - 1 <= k { RunNext(P, T, atom, hi, ys, k); } else { assert Run(P, T, atom, hi, ys)[..|ys|] == ys; }
  }

  /** With nothing to follow a repetition the last position is taken. */
  lemma FinalTakesAll(P: string, T: string, re: Regex, i: nat, xs: seq<nat>, n: nat)
    requires re.Then? && Final(re) && First(P, T, re, i).Some? && xs == Run(P, T, re.atom, re.hi, [i]) && n < |xs|
    requires First(P, T, re.rest, xs[n]).Some? && n == Chosen(P, T, re.rest, xs, |xs| - 1, re.lo)
    ensures n == |xs| - 1
  {
    if re.rest.Dollar? && n + 1 < |xs| {
      RunNext(P, T, re.atom, re.hi, [i], n);
    }
  }

  /** A group repeated so is recorded up to where the repetition ends. */
  lemma LastEnds(P: string, T: string, re: Regex, i: nat, xs: seq<nat>)
    requires re.Then? && re.hi != 0 && Startable(P, T, re.atom, i) && re.atom.Group? && xs == Run(P, T, re.atom, re.hi, [i])
    ensures Once(P, T, re.atom, LastStart(xs)) == Some(xs[|xs| - 1])
  {
    if |xs| > 1 { RunNext(P, T, re.atom, re.hi, [i], |xs| - 2); }
  }

  lemma FixedTakesAll(P: string, T: string, re: Regex, i: nat, xs: seq<nat>, n: nat)
    requires re.Then? && Fixed(re) && First(P, T, re, i).Some? && xs == Run(P, T, re.atom, re.hi, [i]) && n < |xs|
    requires n == Chosen(P, T, re.rest, xs, |xs| - 1, re.lo)
    ensures n == |xs| - 1
  {
    RunBounded(P, T, re.atom, re.lo, [i]);
  }

  /** In patterns where no match falls back over a group, no record lies outside the match. */
  lemma {:induction false} NoFallBackContained(P: string, T: string, re: Regex, i: nat, e: nat)
    requires NoFallBack(re) && First(P, T, re, i).Some? && First(P, T, re, i).value <= e
    ensures Contained(P, T, re, i, e)
    decreases re
  {
    if re.Then? {
      var xs, n, kept := OpenThen(P, T, re, i, NO_SPANS);
      OpenContained(P, T, re, i, e, xs, n);
      OpenContainedFrom(P, T, re, xs, n, e);
      NoFallBackContained(P, T, re.rest, xs[n], e);
      if re.atom.Group? {
        if Fixed(re) { FixedTakesAll(P, T, re, i, xs, n); } else { FinalTakesAll(P, T, re, i, xs, n); }
        LastEnds(P, T, re, i, xs);
        NoFallBackContained(P, T, re.atom.body, LastStart(xs), e);
      }
    }
  }

  lemma OnceIsSpan(P: string, T: string, atom: Atom, b: nat, caps: seq<Span>)
    requires atom.Group? && Once(P, T, atom, b).Some? && GroupOf(P, atom.open) < |caps| && GroupOf(P, atom.open) !in Groups(P, atom.body)
    ensures OnceCaps(P, T, atom, b, caps)[GroupOf(P, atom.open)] == Span(b, Once(P, T, atom, b).value)
  {
    var g := GroupOf(P, atom.open);
    var begun := Started(caps, g, b);
    FirstChanges(P, T, atom.body, b, begun);
    assert FirstCaps(P, T, atom.body, b, begun)[g] == begun[g];
  }

  lemma RestKeeps(P: string, T: string, rest: Regex, m: nat, kept: seq<Span>, g: nat)
    requires g < |kept| && g !in Groups(P, rest)
    ensures FirstCaps(P, T, rest, m, kept)[g] == kept[g]
  {
    FirstChanges(P, T, rest, m, kept);
  }

  lemma GroupApart(P: string, re: Regex, lo: nat)
    requires re.Then? && re.atom.Group? && Ordered(P, re, lo)
    ensures var g := GroupOf(P, re.atom.open); g !in Groups(P, re.rest) && g !in Groups(P, re.atom.body)
  {
    GroupsApart(P, re, lo);
    assert GroupOf(P, re.atom.open) in AtomGroups(P, re.atom);
  }

  /** The record of a group is its last repetition, whichever the match has used. */
  lemma RecordIsLast(P: string, T: string, re: Regex, i: nat, caps: seq<Span>, lo: nat) returns (b: nat)
    requires re.Then? && re.atom.Group? && Ordered(P, re, lo) && First(P, T, re, i).Some? && GroupOf(P, re.atom.open) < |caps|
    ensures b == LastStart(Run(P, T, re.atom, re.hi, [i])) && Once(P, T, re.atom, b).Some?
    ensures FirstCaps(P, T, re, i, caps)[GroupOf(P, re.atom.open)] == Span(b, Once(P, T, re.atom, b).value)
  {
    var xs, n, kept := OpenThen(P, T, re, i, caps);
    var before := ItemRecords(P, T, re, i, caps);
    b := LastStart(xs);
    GroupApart(P, re, lo);
    OnceIsSpan(P, T, re.atom, b, before);
    RestKeeps(P, T, re.rest, xs[n], kept, GroupOf(P, re.atom.open));
  }

  // ----- a record outside the match -----

  ghost predicate Overrun(P: string, T: string, body: Regex, tail: Regex) {
    && P == "(.)*a" && T == "xab" && body == Then(Any, 1, 1, Done) && tail == Then(Literal('a'), 1, 1, Done)
  }

  lemma OverrunDecoded(P: string, T: string, body: Regex, tail: Regex)
    requires Overrun(P, T, body, tail)
    ensures Decode(P, 0, '\0') == Good(Then(Group(0, body), 0, -1, tail), 5)
  {
    assert FindMatching(P, 0, '(', ')') == Some(2) by {
      assert FindFrom(P, 2, 1, false, '(', ')') == Some(2);
      assert FindFrom(P, 1, 1, false, '(', ')') == Some(2);
    }
    assert Decode(P, 2, ')') == Good(Done, 2);
    assert Decode(P, 1, ')') == Good(body, 2) by { assert DecodeAtom(P, 1) == GoodAtom(Any, 2); }
    assert DecodeAtom(P, 0) == GoodAtom(Group(0, body), 3);
    assert ReadQuant(P, 3) == Quant(0, -1, 4);
    assert Decode(P, 5, '\0') == Good(Done, 5);
    assert Decode(P, 4, '\0') == Good(tail, 5) by { assert DecodeAtom(P, 4) == GoodAtom(Literal('a'), 5); }
  }

  lemma OverrunOnce(P: string, T: string, body: Regex, tail: Regex, i: nat)
    requires Overrun(P, T, body, tail) && i <= 3
    ensures Once(P, T, Group(0, body), i) == if i < 3 then Some(i + 1) else None
  {
    if i < 3 {
      assert Run(P, T, Any, 1, [i, i + 1]) == [i, i + 1];
      assert Run(P, T, Any, 1, [i]) == [i, i + 1];
    }
  }

  lemma {:induction false} OverrunStep(P: string, T: string, body: Regex, tail: Regex, g: Atom, hi: int, xs: seq<nat>)
    requires Overrun(P, T, body, tail) && g == Group(0, body) && hi < 0
    requires 0 < |xs| <= 4 && forall x :: 0 <= x < |xs| ==> xs[x] == x
    ensures |Run(P, T, g, hi, xs)| == 4 && forall x :: 0 <= x < 4 ==> Run(P, T, g, hi, xs)[x] == x
    decreases 4 - |xs|
  {
    OverrunOnce(P, T, body, tail, xs[|xs| - 1]);
    if |xs| < 4 { OverrunStep(P, T, body, tail, g, hi, xs + [|xs|]); }
  }

  lemma OverrunRun(P: string, T: string, body: Regex, tail: Regex)
    requires Overrun(P, T, body, tail)
    ensures Run(P, T, Group(0, body), -1, [0]) == [0, 1, 2, 3]
  {
    OverrunStep(P, T, body, tail, Group(0, body), -1, [0]);
  }

  /** The `a` that follows is found at 1 only. */
  lemma OverrunFirst(P: string, T: string, body: Regex, tail: Regex)
    requires Overrun(P, T, body, tail)
    ensures First(P, T, Then(Group(0, body), 0, -1, tail), 0) == Some(2)
  {
    OverrunRun(P, T, body, tail);
    OverrunOnce(P, T, body, tail, 0);
    var a, xs := Literal('a'), [0, 1, 2, 3];
    assert First(P, T, tail, 3).None?;
    assert Run(P, T, a, 1, [2]) == [2] && First(P, T, tail, 2).None?;
    assert Run(P, T, a, 1, [1, 2]) == [1, 2] && Run(P, T, a, 1, [1]) == [1, 2] && First(P, T, tail, 1) == Some(2);
    assert Latest(P, T, tail, xs, 1, 0) == Some(2) && Latest(P, T, tail, xs, 2, 0) == Some(2) && Latest(P, T, tail, xs, 3, 0) == Some(2);
  }

  lemma OverrunRecord(P: string, T: string, body: Regex, tail: Regex, re: Regex, caps: seq<Span>)
    requires Overrun(P, T, body, tail) && re == Then(Group(0, body), 0, -1, tail) && First(P, T, re, 0).Some? && |caps| == 16
    ensures FirstCaps(P, T, re, 0, caps)[1] == Span(2, 3)
  {
    OverrunRun(P, T, body, tail);
    OverrunOnce(P, T, body, tail, 2);
    assert GroupOf(P, 0) == 1 && Ordered(P, body, 2) && Ordered(P, tail, 2);
    var b := RecordIsLast(P, T, re, 0, caps, 1);
  }

  lemma OverrunNotContained(P: string, T: string, body: Regex, tail: Regex, re: Regex)
    requires Overrun(P, T, body, tail) && re == Then(Group(0, body), 0, -1, tail) && First(P, T, re, 0).Some?
    ensures !Contained(P, T, re, 0, 2)
  {
    OverrunRun(P, T, body, tail);
    OverrunOnce(P, T, body, tail, 2);
    var xs, n, kept := OpenThen(P, T, re, 0, NO_SPANS);
    assert GroupOf(P, 0) == 1;
    OpenContained(P, T, re, 0, 2, xs, n);
    OpenContainedFrom(P, T, re, xs, n, 2);
  }

  /** `(.)*a` is found in `xab` as `xa`, and its group is left recorded as `b`: the repetition that went too far. */
  lemma GroupOutsideMatch()
    ensures var P, T := "(.)*a", "xab";
            var re := Then(Group(0, Then(Any, 1, 1, Done)), 0, -1, Then(Literal('a'), 1, 1, Done));
            && Decode(P, 0, '\0') == Good(re, 5) && Search(P, T, re, false, 0) == Some((0, 2))
            && FirstCaps(P, T, re, 0, NO_SPANS)[1] == Span(2, 3) && !Contained(P, T, re, 0, 2)
  {
    var P, T := "(.)*a", "xab";
    var body, tail := Then(Any, 1, 1, Done), Then(Literal('a'), 1, 1, Done);
    var re := Then(Group(0, body), 0, -1, tail);
    OverrunDecoded(P, T, body, tail);
    OverrunFirst(P, T, body, tail);
    OverrunRecord(P, T, body, tail, re, NO_SPANS);
    OverrunNotContained(P, T, body, tail, re);
  }
}
