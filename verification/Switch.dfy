/** The `switch` of COME, which leaves after every clause that does not end with `fallthrough`, and the C switch that
    src/core/codegen.c emits for it. */
module Switch {

  /** Statements have names; what they do is up to an interpretation. */
  datatype Stmt = Do(name: nat) | Fallthrough

  datatype Clause = Case(value: int, body: seq<Stmt>) | Default(body: seq<Stmt>)

  /** How a statement ends: it completes, it leaves the switch, or it leaves more than that (`return`, `continue`). */
  datatype Way = Normal | Break | Out

  type Step<!S> = (nat, S) -> (S, Way)

  /** `has_fallthrough`. */
  predicate Falls(c: Clause) {
    c.body != [] && c.body[|c.body| - 1] == Fallthrough
  }

  // ----- COME -----

  function RunBody<S>(step: Step<S>, body: seq<Stmt>, s: S): (S, Way) {
    if body == [] then (s, Normal)
    else if body[0] == Fallthrough then RunBody(step, body[1..], s)
    else
      var (t, w) := step(body[0].name, s);
      if w == Normal then RunBody(step, body[1..], t) else (t, w)
  }

  /** Entering the first of these clauses: the next one is entered only through `fallthrough`. */
  function RunClauses<S>(step: Step<S>, cs: seq<Clause>, s: S): (S, Way) {
    if cs == [] then (s, Normal)
    else
      var (t, w) := RunBody(step, cs[0].body, s);
      if w == Out then (t, Out)
      else if w == Normal && Falls(cs[0]) then RunClauses(step, cs[1..], t)
      else (t, Normal)
  }

  /** A clause whose last statement is no `fallthrough` is left when it completes; behind a `fallthrough` the next one is
      entered. */
  lemma ClauseEnds<S>(step: Step<S>, c: Clause, rest: seq<Clause>, s: S)
    ensures var (t, w) := RunBody(step, c.body, s);
      var on := c.body != [] && c.body[|c.body| - 1].Fallthrough?;
      RunClauses(step, [c] + rest, s) == if w == Normal && on then RunClauses(step, rest, t) else (t, if w == Out then Out else Normal)
  {
    assert ([c] + rest)[1..] == rest;
  }

  /** The clauses from the one of a value on; none where no clause has it. */
  function FromCase(cs: seq<Clause>, v: int): seq<Clause> {
    if cs == [] || (cs[0].Case? && cs[0].value == v) then cs else FromCase(cs[1..], v)
  }

  function FromDefault(cs: seq<Clause>): seq<Clause> {
    if cs == [] || cs[0].Default? then cs else FromDefault(cs[1..])
  }

  function ComeSwitch<S>(step: Step<S>, cs: seq<Clause>, v: int, s: S): (S, Way) {
    RunClauses(step, if FromCase(cs, v) != [] then FromCase(cs, v) else FromDefault(cs), s)
  }

  // ----- C -----

  /** What is between the braces of a C switch. */
  datatype Item = CaseLabel(value: int) | DefaultLabel | Exec(name: nat) | BreakStmt

  /** Statements in sequence, over the labels, up to a break (section 6.8.4.2 of C11). */
  function RunItems<S>(step: Step<S>, items: seq<Item>, s: S): (S, Way) {
    if items == [] then (s, Normal)
    else
      match items[0]
      case BreakStmt => (s, Normal)
      case Exec(name) =>
        var (t, w) := step(name, s);
        if w == Normal then RunItems(step, items[1..], t) else (t, if w == Out then Out else Normal)
      case _ => RunItems(step, items[1..], s)
  }

  function FromLabel(items: seq<Item>, mark: Item): seq<Item> {
    if items == [] || items[0] == mark then items else FromLabel(items[1..], mark)
  }

  function CSwitch<S>(step: Step<S>, items: seq<Item>, v: int, s: S): (S, Way) {
    var there := FromLabel(items, CaseLabel(v));
    RunItems(step, if there != [] then there else FromLabel(items, DefaultLabel), s)
  }

  // ----- the translation -----

  /** A `fallthrough` among the statements is emitted as a comment. */
  function Statements(body: seq<Stmt>): seq<Item> {
    if body == [] then []
    else if body[0] == Fallthrough then Statements(body[1..])
    else [Exec(body[0].name)] + Statements(body[1..])
  }

  function Lower(cs: seq<Clause>): seq<Item> {
    if cs == [] then [] else LowerClause(cs[0]) + Lower(cs[1..])
  }

  /** Nothing is put after the statements of `default`. */
  function LowerClause(c: Clause): seq<Item> {
    match c
    case Case(v, body) => [CaseLabel(v)] + Statements(body) + (if Falls(c) then [] else [BreakStmt])
    case Default(body) => [DefaultLabel] + Statements(body)
  }

  /** The AST_SWITCH, AST_CASE and AST_DEFAULT branches of `generate_node`. */
  method GenerateSwitch(cs: seq<Clause>) returns (out: seq<Item>)
    ensures out == Lower(cs)
  {
    out := [];
    for i := 0 to |cs|
      invariant out + Lower(cs[i..]) == Lower(cs)
    {
      assert cs[i..][1..] == cs[i + 1..];
      assert out + Lower(cs[i..]) == out + LowerClause(cs[i]) + Lower(cs[i + 1..]);
      out := GenerateClause(out, cs[i]);
    }
  }

  method GenerateClause(before: seq<Item>, c: Clause) returns (out: seq<Item>)
    ensures out == before + LowerClause(c)
  {
    LastFallsThrough(c.body);
    if c.Case? {
      out := before + [CaseLabel(c.value)];
      var hasFallthrough := |c.body| > 0 && c.body[|c.body| - 1] == Fallthrough;
      var stmtEnd := if hasFallthrough then |c.body| - 1 else |c.body|;
      out := GenerateStatements(out, c.body, stmtEnd);
      Append(before, [CaseLabel(c.value)], Statements(c.body), [BreakStmt]);
      if !hasFallthrough {
        out := out + [BreakStmt];
      }
    } else {
      out := GenerateStatements(before + [DefaultLabel], c.body, |c.body|);
      Append(before, [DefaultLabel], Statements(c.body), []);
    }
  }

  lemma Append(a: seq<Item>, b: seq<Item>, c: seq<Item>, d: seq<Item>)
    ensures a + b + c + d == a + (b + c + d) && a + b + c == a + (b + c + []) == a + (b + c)
  {
  }

  method GenerateStatements(before: seq<Item>, body: seq<Stmt>, end: nat) returns (out: seq<Item>)
    requires end <= |body|
    ensures out == before + Statements(body[..end])
  {
    out := before;
    for i := 0 to end
      invariant out == before + Statements(body[..i])
    {
      StatementsMore(body, i);
      if body[i].Do? {
        out := out + [Exec(body[i].name)];
      }
    }
  }

  lemma {:induction false} StatementsMore(body: seq<Stmt>, i: nat)
    requires i < |body|
    ensures Statements(body[..i + 1]) == Statements(body[..i]) + (if body[i].Do? then [Exec(body[i].name)] else [])
  {
    if i > 0 {
      StatementsMore(body[1..], i - 1);
      assert body[..i + 1][1..] == body[1..][..i] && body[..i][1..] == body[1..][..i - 1];
    } else {
      assert body[..1] == [body[0]];
    }
  }

  lemma LastFallsThrough(body: seq<Stmt>)
    ensures body != [] && body[|body| - 1] == Fallthrough ==> Statements(body[..|body| - 1]) == Statements(body)
    ensures Statements(body[..|body|]) == Statements(body)
  {
    assert body[..|body|] == body;
    if body != [] { StatementsMore(body, |body| - 1); }
  }

  // ----- that it means the same -----

  lemma {:induction false} BodyRuns<S>(step: Step<S>, body: seq<Stmt>, rest: seq<Item>, s: S)
    ensures var (t, w) := RunBody(step, body, s);
      RunItems(step, Statements(body) + rest, s) ==
      if w == Normal then RunItems(step, rest, t) else (t, if w == Out then Out else Normal)
  {
    if body == [] {
      assert Statements(body) + rest == rest;
    } else if body[0] == Fallthrough {
      BodyRuns(step, body[1..], rest, s);
    } else {
      var (t, w) := step(body[0].name, s);
      assert (Statements(body) + rest)[1..] == Statements(body[1..]) + rest;
      BodyRuns(step, body[1..], rest, t);
    }
  }

  lemma {:induction false} BodyHasNoLabel(body: seq<Stmt>, rest: seq<Item>, mark: Item)
    requires mark.CaseLabel? || mark == DefaultLabel
    ensures FromLabel(Statements(body) + rest, mark) == FromLabel(rest, mark)
  {
    if body == [] {
      assert Statements(body) + rest == rest;
    } else {
      BodyHasNoLabel(body[1..], rest, mark);
      if body[0].Do? {
        assert (Statements(body) + rest)[1..] == Statements(body[1..]) + rest;
      }
    }
  }

  /** The label of a clause. */
  function LabelOf(c: Clause): Item {
    if c.Case? then CaseLabel(c.value) else DefaultLabel
  }

  /** What comes after the statements of a clause. */
  function After(c: Clause, rest: seq<Item>): seq<Item> {
    if c.Case? && !Falls(c) then [BreakStmt] + rest else rest
  }

  lemma LowerFirst(cs: seq<Clause>)
    requires cs != []
    ensures Lower(cs) == [LabelOf(cs[0])] + (Statements(cs[0].body) + After(cs[0], Lower(cs[1..])))
  {
    var c, rest := cs[0], Lower(cs[1..]);
    Regroup([LabelOf(c)], Statements(c.body), if c.Case? && !Falls(c) then [BreakStmt] else [], rest);
  }

  lemma Regroup(a: seq<Item>, b: seq<Item>, c: seq<Item>, d: seq<Item>)
    ensures a + b + c + d == a + (b + (c + d))
    ensures c == [] ==> a + b + d == a + (b + d)
  {
  }

  lemma {:induction false} NextClause(cs: seq<Clause>, mark: Item)
    requires cs != [] && LabelOf(cs[0]) != mark && (mark.CaseLabel? || mark == DefaultLabel)
    ensures FromLabel(Lower(cs), mark) == FromLabel(Lower(cs[1..]), mark)
  {
    var c, rest := cs[0], Lower(cs[1..]);
    LowerFirst(cs);
    var tail := Statements(c.body) + After(c, rest);
    assert Lower(cs)[1..] == tail;
    BodyHasNoLabel(c.body, After(c, rest), mark);
    assert After(c, rest) != rest ==> After(c, rest)[1..] == rest;
  }

  /** The jump of the C switch goes to the clause that COME selects. */
  lemma {:induction false} SameCase(cs: seq<Clause>, v: int)
    ensures FromLabel(Lower(cs), CaseLabel(v)) == Lower(FromCase(cs, v))
  {
    if cs != [] {
      LowerFirst(cs);
      if LabelOf(cs[0]) != CaseLabel(v) {
        NextClause(cs, CaseLabel(v));
        SameCase(cs[1..], v);
      }
    }
  }

  lemma {:induction false} SameDefault(cs: seq<Clause>)
    ensures FromLabel(Lower(cs), DefaultLabel) == Lower(FromDefault(cs))
  {
    if cs != [] {
      LowerFirst(cs);
      if LabelOf(cs[0]) != DefaultLabel {
        NextClause(cs, DefaultLabel);
        SameDefault(cs[1..]);
      }
    }
  }

  /** The statements that run from the first clause on where all of them complete. */
  function Chain(cs: seq<Clause>): seq<Item> {
    if cs == [] then [] else Statements(cs[0].body) + if Falls(cs[0]) then Chain(cs[1..]) else []
  }

  /** Wherever `default` stands, running on after it does nothing that COME would not do. */
  predicate Settled(cs: seq<Clause>) {
    cs == [] || (Settled(cs[1..]) && (cs[0].Default? ==> Falls(cs[0]) || Chain(cs[1..]) == []))
  }

  lemma {:induction false} NothingToRun<S>(step: Step<S>, cs: seq<Clause>, s: S)
    requires Chain(cs) == []
    ensures RunClauses(step, cs, s) == (s, Normal)
  {
    if cs != [] {
      BodyRuns(step, cs[0].body, [], s);
      EmptyBody(step, cs[0].body, s);
      if Falls(cs[0]) { NothingToRun(step, cs[1..], s); }
    }
  }

  lemma {:induction false} EmptyBody<S>(step: Step<S>, body: seq<Stmt>, s: S)
    requires Statements(body) == []
    ensures RunBody(step, body, s) == (s, Normal)
  {
    if body != [] { EmptyBody(step, body[1..], s); }
  }

  /** How running on from one clause goes. */
  lemma ClauseRuns<S>(step: Step<S>, cs: seq<Clause>, s: S)
    requires cs != []
    ensures var (t, w) := RunBody(step, cs[0].body, s);
      RunItems(step, Lower(cs), s) ==
      if w != Normal then (t, if w == Out then Out else Normal)
      else if cs[0].Case? && !Falls(cs[0]) then (t, Normal)
      else RunItems(step, Lower(cs[1..]), t)
  {
    var c, rest := cs[0], Lower(cs[1..]);
    LowerFirst(cs);
    assert Lower(cs)[1..] == Statements(c.body) + After(c, rest);
    BodyRuns(step, c.body, After(c, rest), s);
  }

  lemma {:induction false} ClausesRun<S>(step: Step<S>, cs: seq<Clause>, s: S)
    requires Settled(cs)
    ensures RunItems(step, Lower(cs), s) == RunClauses(step, cs, s)
  {
    if cs != [] {
      ClauseRuns(step, cs, s);
      var (t, w) := RunBody(step, cs[0].body, s);
      ClausesRun(step, cs[1..], t);
      if cs[0].Default? && !Falls(cs[0]) {
        NothingToRun(step, cs[1..], t);
      }
    }
  }

  lemma {:induction false} SettledSuffixes(cs: seq<Clause>, v: int)
    requires Settled(cs)
    ensures Settled(FromCase(cs, v)) && Settled(FromDefault(cs))
  {
    if cs != [] { SettledSuffixes(cs[1..], v); }
  }

  lemma {:induction false} NoClauseNoItem(cs: seq<Clause>)
    ensures Lower(cs) == [] <==> cs == []
  {
  }

  /** The emitted switch does what the COME switch does, whatever the statements do. */
  lemma LoweringPreserves<S>(step: Step<S>, cs: seq<Clause>, v: int, s: S)
    requires Settled(cs)
    ensures CSwitch(step, Lower(cs), v, s) == ComeSwitch(step, cs, v, s)
  {
    SameCase(cs, v);
    SameDefault(cs);
    SettledSuffixes(cs, v);
    NoClauseNoItem(FromCase(cs, v));
    ClausesRun(step, FromCase(cs, v), s);
    ClausesRun(step, FromDefault(cs), s);
  }

  predicate DefaultOnlyLast(cs: seq<Clause>) {
    forall i :: 0 <= i < |cs| && cs[i].Default? ==> i == |cs| - 1
  }

  /** The grammar puts `default` last, and then all is well. */
  lemma {:induction false} LastIsSettled(cs: seq<Clause>)
    requires DefaultOnlyLast(cs)
    ensures Settled(cs)
  {
    if cs != [] {
      forall i | 0 <= i < |cs[1..]| && cs[1..][i].Default? ensures i == |cs[1..]| - 1 {
        assert cs[i + 1].Default?;
      }
      LastIsSettled(cs[1..]);
    }
  }

  // ----- and when it does not -----

  /** Every statement writes down its name. */
  function Note(name: nat, s: seq<nat>): (seq<nat>, Way) {
    (s + [name], Normal)
  }

  function Names(items: seq<Item>): seq<nat> {
    if items == [] then []
    else (if items[0].Exec? then [items[0].name] else []) + Names(items[1..])
  }

  lemma {:induction false} NamesJoin(a: seq<Item>, b: seq<Item>)
    ensures Names(a + b) == Names(a) + Names(b)
  {
    if a == [] {
      assert a + b == b;
    } else {
      NamesJoin(a[1..], b);
      assert (a + b)[1..] == a[1..] + b;
    }
  }

  lemma {:induction false} BodyNotes(body: seq<Stmt>, s: seq<nat>)
    ensures RunBody(Note, body, s) == (s + Names(Statements(body)), Normal)
  {
    if body == [] {
      assert s + [] == s;
    } else if body[0].Do? {
      var n := body[0].name;
      BodyNotes(body[1..], s + [n]);
      assert Statements(body)[1..] == Statements(body[1..]);
      assert s + [n] + Names(Statements(body[1..])) == s + Names(Statements(body));
    } else {
      BodyNotes(body[1..], s);
    }
  }

  lemma {:induction false} ChainNotes(cs: seq<Clause>, s: seq<nat>)
    ensures RunClauses(Note, cs, s) == (s + Names(Chain(cs)), Normal)
  {
    if cs == [] {
      assert s + [] == s;
    } else {
      BodyNotes(cs[0].body, s);
      ChainNotes(cs[1..], s + Names(Statements(cs[0].body)));
      var more := if Falls(cs[0]) then Chain(cs[1..]) else [];
      NamesJoin(Statements(cs[0].body), more);
      var t := s + Names(Statements(cs[0].body));
      assert t + Names(more) == s + Names(Chain(cs));
      if !Falls(cs[0]) {
        assert Names(more) == [] && t + [] == t;
      }
    }
  }

  lemma {:induction false} ChainNamed(cs: seq<Clause>)
    ensures Names(Chain(cs)) == [] ==> Chain(cs) == []
  {
    if cs != [] {
      ChainNamed(cs[1..]);
      NamesJoin(Statements(cs[0].body), if Falls(cs[0]) then Chain(cs[1..]) else []);
      StatementsNamed(cs[0].body);
    }
  }

  lemma {:induction false} StatementsNamed(body: seq<Stmt>)
    ensures Names(Statements(body)) == [] ==> Statements(body) == []
  {
    if body != [] { StatementsNamed(body[1..]); }
  }

  predicate NoDefault(cs: seq<Clause>) {
    forall i :: 0 <= i < |cs| ==> cs[i].Case?
  }

  /** C allows one `default` label in a switch (section 6.8.4.2 of C11). */
  predicate OneDefault(cs: seq<Clause>) {
    cs == [] || (OneDefault(cs[1..]) && (cs[0].Default? ==> NoDefault(cs[1..])))
  }

  /** A value that no case has. */
  function Unused(cs: seq<Clause>): int {
    if cs == [] then 0
    else if cs[0].Case? && cs[0].value >= Unused(cs[1..]) then cs[0].value + 1
    else Unused(cs[1..])
  }

  lemma {:induction false} UnusedIsUnused(cs: seq<Clause>, v: int)
    requires v >= Unused(cs)
    ensures FromCase(cs, v) == []
  {
    if cs != [] { UnusedIsUnused(cs[1..], v); }
  }

  lemma {:induction false} NoDefaultSettled(cs: seq<Clause>)
    requires NoDefault(cs)
    ensures Settled(cs)
  {
    if cs != [] { NoDefaultSettled(cs[1..]); }
  }

  lemma {:induction false} UnsettledDefault(cs: seq<Clause>)
    requires OneDefault(cs) && !Settled(cs)
    ensures var d := FromDefault(cs);
      d != [] && d[0].Default? && !Falls(d[0]) && Chain(d[1..]) != [] && Settled(d[1..])
  {
    if cs[0].Default? {
      NoDefaultSettled(cs[1..]);
    } else {
      UnsettledDefault(cs[1..]);
    }
  }

  /** Where `default` is followed by a clause with something to do, and does not say `fallthrough`, the emitted switch runs
      on into it and the COME switch does not. */
  lemma UnsettledDiffers(cs: seq<Clause>)
    requires OneDefault(cs) && !Settled(cs)
    ensures CSwitch(Note, Lower(cs), Unused(cs), []) != ComeSwitch(Note, cs, Unused(cs), [])
  {
    var v := Unused(cs);
    UnusedIsUnused(cs, v);
    SameCase(cs, v);
    SameDefault(cs);
    UnsettledDefault(cs);
    var d := FromDefault(cs);
    BodyNotes(d[0].body, []);
    var t := [] + Names(Statements(d[0].body));
    ClauseRuns(Note, d, []);
    ClausesRun(Note, d[1..], t);
    ChainNotes(d[1..], t);
    ChainNamed(d[1..]);
    assert ComeSwitch(Note, cs, v, []).0 == t;
    assert |CSwitch(Note, Lower(cs), v, []).0| > |t|;
  }

  /** The translation is right for a list of clauses exactly when it is settled. */
  lemma LoweringExact(cs: seq<Clause>)
    requires OneDefault(cs)
    ensures Settled(cs) <==>
      forall v: int, s: seq<nat> :: CSwitch(Note, Lower(cs), v, s) == ComeSwitch(Note, cs, v, s)
  {
    if Settled(cs) {
      forall v: int, s: seq<nat> ensures CSwitch(Note, Lower(cs), v, s) == ComeSwitch(Note, cs, v, s) {
        LoweringPreserves(Note, cs, v, s);
      }
    } else {
      UnsettledDiffers(cs);
    }
  }
}
