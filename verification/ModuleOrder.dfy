/** In which order modules are initialised and exited: the first visits, and the last ones backwards, of one walk over the
    import graph. When the one order is the reverse of the other. */
module ModuleOrder {
  import opened ModuleGraph
  import opened ModuleInit
  import opened ModuleExit
  import opened ModuleRun

  // ----- sequences with repetitions -----

  /** `seen`, and after it what `walk` comes to for the first time. */
  function Gather(seen: seq<Name>, walk: seq<Name>): seq<Name>
    decreases |walk|
  {
    if walk == [] then seen
    else Gather(if walk[0] in seen then seen else seen + [walk[0]], walk[1..])
  }

  lemma {:induction false} GatherMembers(seen: seq<Name>, walk: seq<Name>)
    ensures seen <= Gather(seen, walk) && (Distinct(seen) ==> Distinct(Gather(seen, walk)))
    ensures forall x :: x in Gather(seen, walk) <==> x in seen || x in walk
    decreases |walk|
  {
    if walk != [] {
      assert walk == [walk[0]] + walk[1..];
      GatherMembers(if walk[0] in seen then seen else seen + [walk[0]], walk[1..]);
    }
  }

  lemma {:induction false} GatherJoin(seen: seq<Name>, u: seq<Name>, v: seq<Name>)
    ensures Gather(seen, u + v) == Gather(Gather(seen, u), v)
    decreases |u|
  {
    if u == [] {
      assert u + v == v;
    } else {
      assert (u + v)[1..] == u[1..] + v;
      GatherJoin(if u[0] in seen then seen else seen + [u[0]], u[1..], v);
    }
  }

  lemma GatherOne(seen: seq<Name>, m: Name)
    ensures Gather(seen, [m]) == if m in seen then seen else seen + [m]
  {
    assert [m][1..] == [];
  }

  lemma {:induction false} GatherKnown(seen: seq<Name>, walk: seq<Name>)
    requires forall x :: x in walk ==> x in seen
    ensures Gather(seen, walk) == seen
  {
    if walk != [] { GatherKnown(seen, walk[1..]); }
  }

  function Reversed(s: seq<Name>): seq<Name> {
    if s == [] then [] else Reversed(s[1..]) + [s[0]]
  }

  lemma {:induction false} ReversedJoin(a: seq<Name>, b: seq<Name>)
    ensures Reversed(a + b) == Reversed(b) + Reversed(a)
  {
    if a == [] {
      assert a + b == b;
    } else {
      assert (a + b)[1..] == a[1..] + b;
      ReversedJoin(a[1..], b);
    }
  }

  lemma {:induction false} ReversedAt(s: seq<Name>)
    ensures |Reversed(s)| == |s| && forall k :: 0 <= k < |s| ==> Reversed(s)[k] == s[|s| - 1 - k]
    ensures forall x :: x in Reversed(s) <==> x in s
  {
    if s != [] {
      ReversedAt(s[1..]);
      assert s == [s[0]] + s[1..];
    }
  }

  lemma ReversedBefore(s: seq<Name>, a: Name, b: Name)
    requires Before(s, a, b)
    ensures Before(Reversed(s), b, a)
  {
    ReversedAt(s);
    var i, j :| 0 <= i < j < |s| && s[i] == a && s[j] == b;
    assert Reversed(s)[|s| - 1 - j] == b && Reversed(s)[|s| - 1 - i] == a;
  }

  lemma ReversedDistinct(s: seq<Name>)
    requires Distinct(s)
    ensures Distinct(Reversed(s))
  {
    ReversedAt(s);
  }

  /** a stands somewhere before every b, of which there is one. */
  ghost predicate Leads(s: seq<Name>, a: Name, b: Name) {
    b in s && exists i :: 0 <= i < |s| && s[i] == a && NotUpto(s, b, i)
  }

  ghost predicate NotUpto(s: seq<Name>, b: Name, i: int) {
    forall k :: 0 <= k <= i && k < |s| ==> s[k] != b
  }

  lemma LeaderFirst(s: seq<Name>, a: Name, b: Name)
    requires Leads(s, a, b)
    ensures Before(Gather([], s), a, b)
  {
    var i :| 0 <= i < |s| && s[i] == a && NotUpto(s, b, i);
    var u, v := s[..i + 1], s[i + 1..];
    assert s == u + v && u[i] == a;
    GatherJoin([], u, v);
    GatherMembers([], u);
    GatherMembers([], s);
    GatherMembers(Gather([], u), v);
    BeforePrefix(Gather([], u), Gather([], s), a, b);
  }

  /** The two directions of `first visit`. */
  lemma {:induction false} SomeoneLeads(s: seq<Name>, a: Name, b: Name)
    requires a in s && b in s && a != b
    ensures Leads(s, a, b) || Leads(s, b, a)
  {
    var t := s[1..];
    assert s == [s[0]] + t;
    if s[0] == a {
      assert NotUpto(s, b, 0);
    } else if s[0] == b {
      assert NotUpto(s, a, 0);
    } else {
      SomeoneLeads(t, a, b);
      if Leads(t, a, b) { LeadsLater(s, a, b); } else { LeadsLater(s, b, a); }
    }
  }

  lemma LeadsLater(s: seq<Name>, a: Name, b: Name)
    requires s != [] && Leads(s[1..], a, b) && s[0] != b
    ensures Leads(s, a, b)
  {
    var t := s[1..];
    var i :| 0 <= i < |t| && t[i] == a && NotUpto(t, b, i);
    forall k | 0 <= k <= i + 1 ensures s[k] != b { assert k > 0 ==> s[k] == t[k - 1]; }
    assert s[i + 1] == a && NotUpto(s, b, i + 1);
    assert s == [s[0]] + t;
  }

  lemma NothingBeforeFirst(t: seq<Name>, a: Name)
    requires Distinct(t) && t != []
    ensures !Before(t, a, t[0])
  {
  }

  lemma SomeMember(t: seq<Name>)
    requires t != []
    ensures exists x :: x in t
  {
    assert t[0] in t;
  }

  /** An order is determined by what stands before what. */
  lemma {:induction false} SameOrder(s: seq<Name>, t: seq<Name>)
    requires Distinct(s) && Distinct(t) && (forall x :: x in s <==> x in t)
    requires forall a, b :: Before(s, a, b) ==> Before(t, a, b)
    ensures s == t
  {
    if s != [] {
      assert s[0] in t;
      var first, head := t[0], s[0];
      assert first in s;
      var j :| 0 <= j < |s| && s[j] == first;
      NothingBeforeFirst(t, head);
      assert j == 0 || Before(s, head, first);
      assert s == [first] + s[1..] && t == [first] + t[1..];
      TailOrder(s, t);
      SameOrder(s[1..], t[1..]);
    } else if t != [] {
      SomeMember(t);
    }
  }

  lemma TailOrder(s: seq<Name>, t: seq<Name>)
    requires Distinct(s) && Distinct(t) && (forall x :: x in s <==> x in t) && s != [] && t != [] && s[0] == t[0]
    requires forall a, b :: Before(s, a, b) ==> Before(t, a, b)
    ensures forall x :: x in s[1..] <==> x in t[1..]
    ensures forall a, b :: Before(s[1..], a, b) ==> Before(t[1..], a, b)
  {
    assert s == [s[0]] + s[1..] && t == [t[0]] + t[1..];
    forall x ensures x in s[1..] <==> x in t[1..] {
      assert x in s <==> x in t;
    }
    forall a, b | Before(s[1..], a, b) ensures Before(t[1..], a, b) {
      var i, j :| 0 <= i < j < |s| - 1 && s[1..][i] == a && s[1..][j] == b;
      assert s[i + 1] == a && s[j + 1] == b;
      assert Before(s, a, b);
      var k, l :| 0 <= k < l < |t| && t[k] == a && t[l] == b;
      assert t[1..][k - 1] == a && t[1..][l - 1] == b;
    }
  }

  /** All visits to b lie between two visits to a. */
  ghost predicate Nested(walk: seq<Name>, a: Name, b: Name) {
    b in walk && exists i, l :: 0 <= i < l < |walk| && walk[i] == a && walk[l] == a && Within(walk, b, i, l)
  }

  ghost predicate Within(walk: seq<Name>, b: Name, i: int, l: int) {
    forall k :: 0 <= k < |walk| && walk[k] == b ==> i < k < l
  }

  lemma NestedLeads(walk: seq<Name>, a: Name, b: Name)
    requires Nested(walk, a, b)
    ensures Leads(walk, a, b) && Leads(Reversed(walk), a, b)
  {
    var i, l :| 0 <= i < l < |walk| && walk[i] == a && walk[l] == a && Within(walk, b, i, l);
    assert NotUpto(walk, b, i);
    ReversedAt(walk);
    BackUpto(walk, b, l);
    assert Reversed(walk)[|walk| - 1 - l] == a;
  }

  /** What is not met from the l-th place on is, backwards, not met up to there. */
  lemma BackUpto(walk: seq<Name>, b: Name, l: nat)
    requires l < |walk|
    ensures NotUpto(Reversed(walk), b, |walk| - 1 - l) <==> forall k :: l <= k < |walk| ==> walk[k] != b
  {
    var back, n := Reversed(walk), |walk| - 1 - l;
    ReversedAt(walk);
    if NotUpto(back, b, n) {
      forall k | l <= k < |walk| ensures walk[k] != b { assert back[|walk| - 1 - k] == walk[k]; }
    }
    if forall k :: l <= k < |walk| ==> walk[k] != b {
      forall k | 0 <= k <= n ensures back[k] != b { assert back[k] == walk[|walk| - 1 - k]; }
    }
  }

  lemma LeadsNested(walk: seq<Name>, a: Name, b: Name)
    requires Leads(walk, a, b) && Leads(Reversed(walk), a, b)
    ensures Nested(walk, a, b)
  {
    ReversedAt(walk);
    var back := Reversed(walk);
    var i :| 0 <= i < |walk| && walk[i] == a && NotUpto(walk, b, i);
    var n :| 0 <= n < |back| && back[n] == a && NotUpto(back, b, n);
    var l := |walk| - 1 - n;
    BackUpto(walk, b, l);
    assert walk[l] == a;
    var k :| 0 <= k < |walk| && walk[k] == b;
    assert i < k < l;
    assert Within(walk, b, i, l);
  }

  /** The first visits of a walk read backwards are the first visits of the walk backwards, exactly if no two of its places
      are nested. */
  lemma GatherReverses(walk: seq<Name>)
    ensures Gather([], Reversed(walk)) == Reversed(Gather([], walk)) <==> forall a, b :: !Nested(walk, a, b)
  {
    var there, back := Gather([], walk), Gather([], Reversed(walk));
    GatherMembers([], walk);
    GatherMembers([], Reversed(walk));
    ReversedAt(walk);
    forall a, b | Nested(walk, a, b) ensures back != Reversed(there) {
      NestedLeads(walk, a, b);
      LeaderFirst(walk, a, b);
      LeaderFirst(Reversed(walk), a, b);
      ReversedBefore(there, a, b);
      BeforeOneWay(back, a, b);
    }
    if forall a, b :: !Nested(walk, a, b) {
      ReversedAt(there);
      ReversedDistinct(there);
      forall a, b | Before(back, a, b) ensures Before(Reversed(there), a, b) { BackwardsBefore(walk, a, b); }
      SameOrder(back, Reversed(there));
    }
  }

  lemma BackwardsBefore(walk: seq<Name>, a: Name, b: Name)
    requires !Nested(walk, a, b) && Before(Gather([], Reversed(walk)), a, b)
    ensures Before(Reversed(Gather([], walk)), a, b)
  {
    var back := Reversed(walk);
    GatherMembers([], back);
    ReversedAt(walk);
    assert a in Gather([], back) && b in Gather([], back) && a != b;
    SomeoneLeads(back, a, b);
    SomeoneLeads(walk, a, b);
    if Leads(back, b, a) {
      LeaderFirst(back, b, a);
      BeforeOneWay(Gather([], back), a, b);
    } else if Leads(walk, a, b) {
      LeadsNested(walk, a, b);
    } else {
      LeaderFirst(walk, b, a);
      ReversedBefore(Gather([], walk), b, a);
    }
  }

  // ----- the walk over the imports -----

  /** The visits of m: to all it imports, import by import, and then to m itself; to what is shared, again and again. */
  function Visits(g: Graph, m: Name): seq<Name>
    requires Acyclic(g) && m in g.imports
    decreases Rank(g, m), 1, 0
  {
    VisitsFrom(g, m, 0) + [m]
  }

  function VisitsFrom(g: Graph, m: Name, k: nat): seq<Name>
    requires Acyclic(g) && m in g.imports && k <= Imports(g, m)
    decreases Rank(g, m), 0, Imports(g, m) - k
  {
    if k == Imports(g, m) then [] else Visits(g, Import(g, m, k)) + VisitsFrom(g, m, k + 1)
  }

  /** The visits to the first k imports. */
  function VisitsUpto(g: Graph, m: Name, k: nat): seq<Name>
    requires Acyclic(g) && m in g.imports && k <= Imports(g, m)
  {
    if k == 0 then [] else VisitsUpto(g, m, k - 1) + Visits(g, Import(g, m, k - 1))
  }

  lemma {:induction false} VisitsSplit(g: Graph, m: Name, k: nat)
    requires Acyclic(g) && m in g.imports && k <= Imports(g, m)
    ensures VisitsFrom(g, m, 0) == VisitsUpto(g, m, k) + VisitsFrom(g, m, k)
  {
    if k > 0 {
      VisitsSplit(g, m, k - 1);
      assert VisitsFrom(g, m, k - 1) == Visits(g, Import(g, m, k - 1)) + VisitsFrom(g, m, k);
    }
  }

  lemma {:induction false} VisitsReach(g: Graph, m: Name)
    requires Acyclic(g) && m in g.imports
    ensures forall x :: x in Visits(g, m) <==> Reach(g, m, x)
    decreases Rank(g, m), 1, 0
  {
    VisitsReachFrom(g, m, 0);
    forall x ensures Through(g, m, 0, Imports(g, m), x) <==> Reach(g, m, x) && x != m { ThroughAll(g, m, x); }
    assert Reach(g, m, m);
  }

  lemma {:induction false} VisitsReachFrom(g: Graph, m: Name, k: nat)
    requires Acyclic(g) && m in g.imports && k <= Imports(g, m)
    ensures forall x :: x in VisitsFrom(g, m, k) <==> Through(g, m, k, Imports(g, m), x)
    decreases Rank(g, m), 0, Imports(g, m) - k
  {
    if k < Imports(g, m) {
      VisitsReach(g, Import(g, m, k));
      VisitsReachFrom(g, m, k + 1);
      forall x ensures Through(g, m, k, Imports(g, m), x) <==> Through(g, m, k + 1, Imports(g, m), x) || Reach(g, Import(g, m, k), x) {
        ThroughMore(g, m, k, k, Imports(g, m), x);
      }
    }
  }

  // ----- inits are first visits -----

  /** Init makes ready what it visits, in the order of first visits. */
  lemma {:induction false} InitVisits(g: Graph, s: State, m: Name)
    requires Acyclic(g) && m in g.imports && Tidy(g, s) && Finished(g, s, m)
    ensures RunInit(g, s, m).ready == Gather(s.ready, Visits(g, m))
    decreases Rank(g, m), 1, 0
  {
    VisitsReach(g, m);
    if m in s.started {
      assert Reach(g, m, m);
      GatherKnown(s.ready, Visits(g, m));
    } else {
      MarkedFinished(g, s, m);
      var s1 := s.(started := s.started + {m});
      ImportsVisit(g, s1, m, 0);
      var walk := VisitsFrom(g, m, 0);
      GatherJoin(s.ready, walk, [m]);
      GatherOne(Gather(s.ready, walk), m);
      GatherMembers(s.ready, walk);
      VisitsReachFrom(g, m, 0);
      ThroughAll(g, m, m);
    }
  }

  lemma {:induction false} ImportsVisit(g: Graph, s: State, m: Name, k: nat)
    requires Acyclic(g) && m in g.imports && k <= Imports(g, m) && Tidy(g, s) && FinishedFrom(g, s, m, k)
    ensures RunImports(g, s, m, k).ready == Gather(s.ready, VisitsFrom(g, m, k))
    decreases Rank(g, m), 0, Imports(g, m) - k
  {
    if k < Imports(g, m) {
      var i, s1 := Import(g, m, k), Opened(g, s, m, k);
      ImportOpened(g, s, m, k);
      InitVisits(g, s1, i);
      InitInOrder(g, s1, i);
      FinishedNext(g, s1, RunInit(g, s1, i), m, k);
      ImportsVisit(g, RunInit(g, s1, i), m, k + 1);
      GatherJoin(s.ready, Visits(g, i), VisitsFrom(g, m, k + 1));
    }
  }

  // ----- exits are first visits of the walk backwards -----

  lemma {:induction false} ExitVisits(g: Graph, s: State, m: Name)
    requires Acyclic(g) && m in g.imports && Gone(g, s, m)
    ensures RunExit(g, s, m).exited == Gather(s.exited, Reversed(Visits(g, m)))
    decreases Rank(g, m), 1, 0
  {
    var walk := VisitsUpto(g, m, Imports(g, m));
    VisitsSplit(g, m, Imports(g, m));
    assert Visits(g, m) == walk + [m];
    ReversedJoin(walk, [m]);
    assert [m][1..] == [] && Reversed([m]) == [m];
    if m in s.exited {
      VisitsReach(g, m);
      ReversedAt(Visits(g, m));
      assert Reach(g, m, m);
      GatherKnown(s.exited, Reversed(Visits(g, m)));
    } else {
      MarkedGone(g, s, m);
      var s1 := s.(exited := s.exited + [m]);
      ExitsVisit(g, s1, m, Imports(g, m));
      GatherJoin(s.exited, [m], Reversed(walk));
      GatherOne(s.exited, m);
    }
  }

  lemma {:induction false} ExitsVisit(g: Graph, s: State, m: Name, k: nat)
    requires Acyclic(g) && m in g.imports && k <= Imports(g, m) && GoneBelow(g, s, m, k)
    ensures RunExits(g, s, m, k).exited == Gather(s.exited, Reversed(VisitsUpto(g, m, k)))
    decreases Rank(g, m), 0, k
  {
    if k > 0 {
      var i := Import(g, m, k - 1);
      GoneImport(g, s, m, k);
      ExitVisits(g, s, i);
      ExitReaches(g, s, i);
      var u := Close(g, RunExit(g, s, i), i);
      ImportClosed(g, s, m, k);
      ExitsVisit(g, u, m, k - 1);
      ReversedJoin(VisitsUpto(g, m, k - 1), Visits(g, i));
      GatherJoin(s.exited, Reversed(Visits(g, i)), Reversed(VisitsUpto(g, m, k - 1)));
    }
  }

  lemma ImportClosed(g: Graph, s: State, m: Name, k: nat)
    requires Acyclic(g) && m in g.imports && 0 < k <= Imports(g, m) && GoneBelow(g, s, m, k)
    requires ExitGains(g, s, RunExit(g, s, Import(g, m, k - 1)), Import(g, m, k - 1))
    ensures var i := Import(g, m, k - 1);
      var t := RunExit(g, s, i);
      Close(g, t, i).exited == t.exited && GoneBelow(g, Close(g, t, i), m, k - 1)
  {
    var i := Import(g, m, k - 1);
    var t := RunExit(g, s, i);
    CloseFacts(g, t, i);
    GoneNext(g, s, t, m, k);
    assert GoneBelow(g, Close(g, t, i), m, k - 1);
  }

  /** A whole run initialises modules in the order of the first visits of the walk, and exits them in the order of the last,
      backwards. */
  lemma RunVisits(g: Graph, main: Name)
    requires Acyclic(g) && main in g.imports
    ensures RunMain(g, main).ready == Gather([], Visits(g, main))
    ensures RunMain(g, main).exited == Gather([], Reversed(Visits(g, main)))
  {
    var s := RunInit(g, Begin(main), main);
    AfterInit(g, main);
    InitVisits(g, Begin(main), main);
    ExitVisits(g, s, main);
    ExitKeepsReady(g, s, main);
  }

  /** Modules exit in exactly the reverse order of their inits if and only if no module has all its visits between two
      visits to another. */
  lemma ReversesExactly(g: Graph, main: Name)
    requires Acyclic(g) && main in g.imports
    ensures RunMain(g, main).exited == Reversed(RunMain(g, main).ready) <==> forall a, b :: !Nested(Visits(g, main), a, b)
  {
    RunVisits(g, main);
    GatherReverses(Visits(g, main));
  }

  // ----- when nothing is shared -----

  /** No module is reached through two imports of a module that root reaches. */
  ghost predicate Unshared(g: Graph, root: Name)
    requires Acyclic(g) && root in g.imports
  {
    forall m, j: nat, k: nat, x :: m in g.imports && Reach(g, root, m) && j < k < Imports(g, m) && Reach(g, Import(g, m, j), x)
      ==> !Reach(g, Import(g, m, k), x)
  }

  lemma UnsharedBelow(g: Graph, root: Name, m: Name)
    requires Acyclic(g) && root in g.imports && m in g.imports && Unshared(g, root) && Reach(g, root, m)
    ensures Unshared(g, m)
  {
    forall c, j: nat, k: nat, x | c in g.imports && Reach(g, m, c) && j < k < Imports(g, c) && Reach(g, Import(g, c, j), x)
      ensures !Reach(g, Import(g, c, k), x)
    {
      ReachTrans(g, root, m, c);
    }
  }

  lemma DistinctJoin(a: seq<Name>, b: seq<Name>)
    requires Distinct(a) && Distinct(b) && forall x :: x in a ==> x !in b
    ensures Distinct(a + b)
  {
    forall i, j | 0 <= i < j < |a + b| ensures (a + b)[i] != (a + b)[j] {
      if i < |a| <= j { assert a[i] in a && b[j - |a|] in b; }
    }
  }

  lemma {:induction false} VisitedOnce(g: Graph, m: Name)
    requires Acyclic(g) && m in g.imports && Unshared(g, m)
    ensures Distinct(Visits(g, m))
    decreases Rank(g, m), 1, 0
  {
    VisitedOnceFrom(g, m, 0);
    VisitsReachFrom(g, m, 0);
    ThroughAll(g, m, m);
  }

  lemma {:induction false} VisitedOnceFrom(g: Graph, m: Name, k: nat)
    requires Acyclic(g) && m in g.imports && k <= Imports(g, m) && Unshared(g, m)
    ensures Distinct(VisitsFrom(g, m, k))
    decreases Rank(g, m), 0, Imports(g, m) - k
  {
    if k < Imports(g, m) {
      var i := Import(g, m, k);
      assert Reach(g, i, i) && Reach(g, m, m);
      ReachImport(g, m, k, i);
      UnsharedBelow(g, m, i);
      VisitedOnce(g, i);
      VisitedOnceFrom(g, m, k + 1);
      VisitsReach(g, i);
      VisitsReachFrom(g, m, k + 1);
      forall x | x in Visits(g, i) ensures x !in VisitsFrom(g, m, k + 1) {
        assert !Through(g, m, k + 1, Imports(g, m), x);
      }
      DistinctJoin(Visits(g, i), VisitsFrom(g, m, k + 1));
    }
  }

  /** When no module is shared by two importers, none is visited twice, and the orders are each other's reverse. */
  lemma UnsharedReverses(g: Graph, main: Name)
    requires Acyclic(g) && main in g.imports && Unshared(g, main)
    ensures RunMain(g, main).exited == Reversed(RunMain(g, main).ready)
  {
    VisitedOnce(g, main);
    ReversesExactly(g, main);
  }

  // ----- when something is -----

  /** main imports x, y and z, and z imports x once more. */
  ghost predicate Revisit(g: Graph, main: Name, x: Name, y: Name, z: Name) {
    && main in g.imports && x in g.imports && y in g.imports && z in g.imports && x != y
    && g.imports[main] == [x, y, z] && g.imports[x] == [] && g.imports[y] == [] && g.imports[z] == [x]
  }

  lemma LeafVisits(g: Graph, m: Name)
    requires Acyclic(g) && m in g.imports && g.imports[m] == []
    ensures Visits(g, m) == [m]
  {
  }

  /** y is visited between the two visits to x: x is initialised before y, and exits before it. */
  lemma RevisitNotReversed(g: Graph, main: Name, x: Name, y: Name, z: Name)
    requires Acyclic(g) && Revisit(g, main, x, y, z)
    ensures RunMain(g, main).exited != Reversed(RunMain(g, main).ready)
    ensures Before(RunMain(g, main).ready, x, y) && Before(RunMain(g, main).exited, x, y)
  {
    var walk := Visits(g, main);
    RevisitWalk(g, main, x, y, z);
    assert walk[0] == x && walk[1] == y && walk[2] == x && main != y && z != y;
    assert Within(walk, y, 0, 2);
    assert Nested(walk, x, y);
    ReversesExactly(g, main);
    RunVisits(g, main);
    NestedLeads(walk, x, y);
    LeaderFirst(walk, x, y);
    LeaderFirst(Reversed(walk), x, y);
  }

  lemma RevisitWalk(g: Graph, main: Name, x: Name, y: Name, z: Name)
    requires Acyclic(g) && Revisit(g, main, x, y, z)
    ensures Visits(g, main) == [x, y, x, z, main] && main != y && z != y
  {
    assert Import(g, main, 0) == x && Import(g, main, 1) == y && Import(g, main, 2) == z && Import(g, z, 0) == x;
    LeafVisits(g, x);
    LeafVisits(g, y);
    assert VisitsFrom(g, z, 1) == [];
    assert Visits(g, z) == [x, z];
    assert VisitsFrom(g, main, 3) == [];
    assert VisitsFrom(g, main, 2) == [x, z];
    assert VisitsFrom(g, main, 1) == [y, x, z];
    assert VisitsFrom(g, main, 0) == [x, y, x, z];
  }

  lemma RevisitExists()
    ensures exists g, main, x, y, z :: Acyclic(g) && Revisit(g, main, x, y, z)
  {
    var main, x, y, z := Name("main"), Name("x"), Name("y"), Name("z");
    var g := Graph(map[main := [x, y, z], x := [], y := [], z := [x]], {}, {}, {}, map[main := 2, x := 0, y := 0, z := 1]);
    forall m, k | m in g.imports ensures ImportOk(g, m, k) {}
    assert Revisit(g, main, x, y, z);
  }

  /** Sharing alone does no harm: main imports a and b, and b imports a. */
  lemma SharedYetReversed(g: Graph, main: Name, a: Name, b: Name)
    requires Acyclic(g) && main in g.imports && a in g.imports && b in g.imports
    requires g.imports[main] == [a, b] && g.imports[a] == [] && g.imports[b] == [a]
    ensures !Unshared(g, main) && RunMain(g, main).exited == Reversed(RunMain(g, main).ready)
  {
    var walk := Visits(g, main);
    SharedWalk(g, main, a, b);
    assert Import(g, main, 0) == a && Import(g, main, 1) == b && Import(g, b, 0) == a;
    assert Reach(g, a, a) && Reach(g, b, a) && Reach(g, main, main);
    forall x, y ensures !Nested(walk, x, y) {
      assert a != b && a != main && b != main;
    }
    ReversesExactly(g, main);
  }

  lemma SharedWalk(g: Graph, main: Name, a: Name, b: Name)
    requires Acyclic(g) && main in g.imports && a in g.imports && b in g.imports
    requires g.imports[main] == [a, b] && g.imports[a] == [] && g.imports[b] == [a]
    ensures Visits(g, main) == [a, a, b, main]
  {
    assert Import(g, main, 0) == a && Import(g, main, 1) == b && Import(g, b, 0) == a;
    LeafVisits(g, a);
    assert VisitsFrom(g, b, 1) == [];
    assert Visits(g, b) == [a, b];
    assert VisitsFrom(g, main, 2) == [];
    assert VisitsFrom(g, main, 1) == [a, b];
    assert VisitsFrom(g, main, 0) == [a, a, b];
  }
}
