/** A whole run of a generated program: `main` of src/core/codegen.c makes the main module's context, runs its init, the
    user's main, its exit, and frees the context. */
module ModuleRun {
  import opened ModuleGraph
  import opened ModuleInit
  import opened ModuleExit

  // ----- contexts are freed once, and empty -----

  ghost predicate FreedName(s: State, y: Name) {
    exists i :: 0 <= i < |s.freed| && s.freed[i].of == y
  }

  /** No context has been freed twice, or while another was recorded below it; a freed one is forgotten. */
  ghost predicate FreedOk(s: State) {
    && (forall i, j :: 0 <= i < j < |s.freed| ==> s.freed[i].of != s.freed[j].of)
    && (forall i :: 0 <= i < |s.freed| ==> s.freed[i].orphans == {} && Ctx(s, s.freed[i].of) == 0)
  }

  ghost predicate NoOrphans(s: State, id: nat) {
    forall a :: a in s.live ==> s.live[a] != id
  }

  /** m's context has nothing below it once its imports have none. */
  lemma ImportsClosed(g: Graph, s: State, m: Name)
    requires Acyclic(g) && m in g.imports && Contexts(g, s) && Ctx(s, m) != 0
    requires forall k: nat :: k < Imports(g, m) && Import(g, m, k) !in g.system ==> Ctx(s, Import(g, m, k)) == 0
    ensures NoOrphans(s, Ctx(s, m))
  {
    var id := Ctx(s, m);
    forall k: nat | k < Imports(g, m) ensures g.imports[m][k] in g.system || Ctx(s, g.imports[m][k]) == 0 {
      assert Import(g, m, k) == g.imports[m][k];
    }
    forall a | a in s.live ensures s.live[a] != id {
      assert Owned(s, a);
      var x :| x in s.ctx && s.ctx[x] == a;
      assert Ctx(s, x) == a && ParentOk(g, s, x);
      if s.live[a] != 0 {
        assert x !in g.imports[m];
        var p :| p in g.imports && x in g.imports[p] && Ctx(s, p) == s.live[a];
      }
    }
  }

  lemma {:induction false} UnderOnly(live: map<nat, nat>, a: nat, id: nat)
    requires forall b :: b in live ==> live[b] != id
    ensures Under(live, a, id) <==> a == id
  {
    if a != id && a in live && live[a] < a { UnderOnly(live, live[a], id); }
  }

  lemma ReleaseAlone(s: State, m: Name)
    requires NoOrphans(s, Ctx(s, m))
    ensures Release(s, m).live == s.live - {Ctx(s, m)} && Release(s, m).freed == s.freed + [Free(m, {})]
  {
    forall a ensures Under(s.live, a, Ctx(s, m)) <==> a == Ctx(s, m) { UnderOnly(s.live, a, Ctx(s, m)); }
    var orphans := Release(s, m).freed[|s.freed|].orphans;
    assert forall a :: a !in orphans;
    assert orphans == {};
  }

  lemma ClosedContexts(g: Graph, s: State, m: Name)
    requires Acyclic(g) && m in g.imports && Contexts(g, s) && Ctx(s, m) != 0 && NoOrphans(s, Ctx(s, m)) && m !in g.system
    ensures Contexts(g, Close(g, s, m))
    ensures forall y {:trigger Ctx(Close(g, s, m), y)} :: Ctx(Close(g, s, m), y) == if y == m then 0 else Ctx(s, y)
  {
    ReleaseAlone(s, m);
    var t, id := Close(g, s, m), Ctx(s, m);
    assert forall y :: Ctx(t, y) == if y == m then 0 else Ctx(s, y);
    forall x | Ctx(t, x) != 0 ensures ParentOk(g, t, x) {
      assert ParentOk(g, s, x) && Ctx(t, x) == Ctx(s, x) != id;
      if s.live[Ctx(s, x)] != 0 {
        var p :| p in g.imports && x in g.imports[p] && Ctx(s, p) == s.live[Ctx(s, x)];
        assert Ctx(t, p) == Ctx(s, p);
      }
    }
    forall a | a in t.live ensures Owned(t, a) {
      assert Owned(s, a);
      var x :| x in s.ctx && s.ctx[x] == a;
      assert t.ctx[x] == a;
    }
    forall x, y | x != y && Ctx(t, x) != 0 ensures Ctx(t, x) != Ctx(t, y) {
      assert Ctx(s, x) != Ctx(s, y) && Ctx(t, y) == if y == m then 0 else Ctx(s, y);
    }
  }

  lemma ClosedFreed(g: Graph, s: State, m: Name)
    requires Acyclic(g) && m in g.imports && FreedOk(s) && Ctx(s, m) != 0 && NoOrphans(s, Ctx(s, m)) && m !in g.system
    ensures FreedOk(Close(g, s, m))
    ensures forall y {:trigger FreedName(Close(g, s, m), y)} :: FreedName(Close(g, s, m), y) <==> FreedName(s, y) || y == m
  {
    ReleaseAlone(s, m);
    var t := Close(g, s, m);
    assert forall y :: Ctx(t, y) == if y == m then 0 else Ctx(s, y);
    assert t.freed[|s.freed|].of == m;
    forall y ensures FreedName(t, y) <==> FreedName(s, y) || y == m {
      if FreedName(s, y) {
        var i :| 0 <= i < |s.freed| && s.freed[i].of == y;
        assert t.freed[i].of == y;
      }
    }
  }

  /** What m reaches and has exited has closed the contexts of all below it. */
  ghost predicate Emptied(g: Graph, s: State, m: Name)
    requires Acyclic(g) && m in g.imports
  {
    forall x, y :: x in s.exited && x in g.imports && Reach(g, m, x) && Reach(g, x, y) && y != x && y !in g.system ==> Ctx(s, y) == 0
  }

  ghost predicate EmptiedBelow(g: Graph, s: State, m: Name, k: nat)
    requires Acyclic(g) && m in g.imports && k <= Imports(g, m)
  {
    forall x, y :: x in s.exited && x in g.imports && Through(g, m, 0, k, x) && Reach(g, x, y) && y != x && y !in g.system ==> Ctx(s, y) == 0
  }

  ghost predicate ExitLoses(g: Graph, s: State, t: State, m: Name)
    requires Acyclic(g) && m in g.imports
  {
    && Contexts(g, t) && FreedOk(t)
    && (forall y {:trigger Ctx(t, y)} :: Ctx(t, y) == if Reach(g, m, y) && y != m && y !in g.system then 0 else Ctx(s, y))
    && (forall y {:trigger FreedName(t, y)} ::
          FreedName(t, y) <==> FreedName(s, y) || (Reach(g, m, y) && y != m && y !in g.system && Ctx(s, y) != 0))
  }

  ghost predicate ExitsLose(g: Graph, s: State, t: State, m: Name, k: nat)
    requires Acyclic(g) && m in g.imports && k <= Imports(g, m)
  {
    && Contexts(g, t) && FreedOk(t)
    && (forall y {:trigger Ctx(t, y)} :: Ctx(t, y) == if Through(g, m, 0, k, y) && y !in g.system then 0 else Ctx(s, y))
    && (forall y {:trigger FreedName(t, y)} ::
          FreedName(t, y) <==> FreedName(s, y) || (Through(g, m, 0, k, y) && y !in g.system && Ctx(s, y) != 0))
  }

  lemma EmptiedNext(g: Graph, s: State, t: State, m: Name, k: nat)
    requires Acyclic(g) && m in g.imports && 0 < k <= Imports(g, m) && EmptiedBelow(g, s, m, k)
    requires ExitGains(g, s, t, Import(g, m, k - 1))
    requires forall y {:trigger Ctx(t, y)} ::
               Ctx(t, y) == if Reach(g, Import(g, m, k - 1), y) && y !in g.system then 0 else Ctx(s, y)
    ensures EmptiedBelow(g, t, m, k - 1)
  {
    var i := Import(g, m, k - 1);
    forall x, y | x in t.exited && x in g.imports && Through(g, m, 0, k - 1, x) && Reach(g, x, y) && y != x && y !in g.system
      ensures Ctx(t, y) == 0
    {
      ThroughMore(g, m, 0, k - 1, k, x);
      if x !in s.exited { ReachTrans(g, i, x, y); }
    }
  }

  lemma EmptiedImport(g: Graph, s: State, m: Name, k: nat)
    requires Acyclic(g) && m in g.imports && 0 < k <= Imports(g, m) && EmptiedBelow(g, s, m, k)
    ensures Emptied(g, s, Import(g, m, k - 1))
  {
    var i := Import(g, m, k - 1);
    forall x, y | x in s.exited && x in g.imports && Reach(g, i, x) && Reach(g, x, y) && y != x && y !in g.system ensures Ctx(s, y) == 0 {
      assert Through(g, m, 0, k, x);
    }
  }

  /** The exit of an import, and then the free of its context. */
  lemma CloseImport(g: Graph, s: State, t: State, i: Name)
    requires Acyclic(g) && i in g.imports && ExitLoses(g, s, t, i)
    ensures var u := Close(g, t, i);
            && Contexts(g, u) && FreedOk(u)
            && (forall y {:trigger Ctx(u, y)} :: Ctx(u, y) == if Reach(g, i, y) && y !in g.system then 0 else Ctx(s, y))
            && (forall y {:trigger FreedName(u, y)} ::
                  FreedName(u, y) <==> FreedName(s, y) || (Reach(g, i, y) && y !in g.system && Ctx(s, y) != 0))
  {
    var u := Close(g, t, i);
    assert Reach(g, i, i) && Ctx(t, i) == Ctx(s, i);
    if i !in g.system && Ctx(t, i) != 0 {
      forall k: nat | k < Imports(g, i) && Import(g, i, k) !in g.system ensures Ctx(t, Import(g, i, k)) == 0 {
        assert Reach(g, Import(g, i, k), Import(g, i, k));
      }
      ImportsClosed(g, t, i);
      ClosedContexts(g, t, i);
      ClosedFreed(g, t, i);
    }
    forall y ensures Ctx(u, y) == if Reach(g, i, y) && y !in g.system then 0 else Ctx(s, y) {
      var c := Ctx(t, y);
    }
    forall y ensures FreedName(u, y) <==> FreedName(s, y) || (Reach(g, i, y) && y !in g.system && Ctx(s, y) != 0) {
      var f := FreedName(t, y);
    }
  }

  lemma {:induction false} ExitsClose(g: Graph, s: State, m: Name, k: nat)
    requires Acyclic(g) && m in g.imports && k <= Imports(g, m) && GoneBelow(g, s, m, k)
    requires Contexts(g, s) && FreedOk(s) && EmptiedBelow(g, s, m, k)
    ensures ExitsLose(g, s, RunExits(g, s, m, k), m, k)
    decreases Rank(g, m), 0, k
  {
    if k > 0 {
      var i := Import(g, m, k - 1);
      GoneImport(g, s, m, k);
      EmptiedImport(g, s, m, k);
      ExitCloses(g, s, i);
      ExitReaches(g, s, i);
      var t := RunExit(g, s, i);
      CloseImport(g, s, t, i);
      GoneNext(g, s, t, m, k);
      var u := Close(g, t, i);
      assert GoneBelow(g, u, m, k - 1) && ExitGains(g, s, u, i);
      EmptiedNext(g, s, u, m, k);
      ExitsClose(g, u, m, k - 1);
      LosesJoin(g, s, u, RunExits(g, u, m, k - 1), m, k);
    }
  }

  lemma LosesJoin(g: Graph, s: State, u: State, v: State, m: Name, k: nat)
    requires Acyclic(g) && m in g.imports && 0 < k <= Imports(g, m) && ExitsLose(g, u, v, m, k - 1)
    requires forall y {:trigger Ctx(u, y)} :: Ctx(u, y) == if Reach(g, Import(g, m, k - 1), y) && y !in g.system then 0 else Ctx(s, y)
    requires forall y {:trigger FreedName(u, y)} ::
               FreedName(u, y) <==> FreedName(s, y) || (Reach(g, Import(g, m, k - 1), y) && y !in g.system && Ctx(s, y) != 0)
    ensures ExitsLose(g, s, v, m, k)
  {
    forall y ensures Ctx(v, y) == if Through(g, m, 0, k, y) && y !in g.system then 0 else Ctx(s, y) {
      ThroughMore(g, m, 0, k - 1, k, y);
      var c := Ctx(u, y);
    }
    forall y ensures FreedName(v, y) <==> FreedName(s, y) || (Through(g, m, 0, k, y) && y !in g.system && Ctx(s, y) != 0) {
      ThroughMore(g, m, 0, k - 1, k, y);
      var c, f := Ctx(u, y), FreedName(u, y);
    }
  }

  /** Exit frees the context of every non-system module below m that has one: once, and when nothing is below it. */
  lemma {:induction false} ExitCloses(g: Graph, s: State, m: Name)
    requires Acyclic(g) && m in g.imports && Gone(g, s, m) && Contexts(g, s) && FreedOk(s) && Emptied(g, s, m)
    ensures ExitLoses(g, s, RunExit(g, s, m), m)
    decreases Rank(g, m), 1, 0
  {
    if m in s.exited {
      assert Reach(g, m, m);
    } else {
      var s1 := s.(exited := s.exited + [m]);
      MarkedGone(g, s, m);
      SameContexts(g, s, s1);
      assert forall y :: Ctx(s1, y) == Ctx(s, y);
      forall x, y | x in s1.exited && x in g.imports && Through(g, m, 0, Imports(g, m), x) && Reach(g, x, y) && y != x && y !in g.system
        ensures Ctx(s1, y) == 0
      {
        ThroughAll(g, m, x);
        assert x in s.exited && Ctx(s, y) == 0;
      }
      ExitsClose(g, s1, m, Imports(g, m));
      var t := RunExit(g, s, m);
      forall y ensures Ctx(t, y) == if Reach(g, m, y) && y != m && y !in g.system then 0 else Ctx(s, y) {
        ThroughAll(g, m, y);
        var c := Ctx(s1, y);
      }
      forall y ensures FreedName(t, y) <==> FreedName(s, y) || (Reach(g, m, y) && y != m && y !in g.system && Ctx(s, y) != 0) {
        ThroughAll(g, m, y);
        var c, f := Ctx(s1, y), FreedName(s1, y);
      }
    }
  }

  // ----- the whole run -----

  /** After `COME_CTX = mem_talloc_new_ctx(NULL)`. */
  function Begin(main: Name): State {
    NewCtx(State({}, [], [], map[], map[], 1, []), main, 0)
  }

  function RunMain(g: Graph, main: Name): State
    requires Acyclic(g) && main in g.imports
  {
    Release(RunExit(g, RunInit(g, Begin(main), main), main), main)
  }

  /** `init_local` is called for the modules of `ready` that define it, `exit_local` for those of `exited`. */
  function Calls(order: seq<Name>, defined: set<Name>): seq<Name> {
    if order == [] then [] else (if order[0] in defined then [order[0]] else []) + Calls(order[1..], defined)
  }

  lemma {:induction false} CallsOnce(order: seq<Name>, defined: set<Name>)
    requires Distinct(order)
    ensures Distinct(Calls(order, defined))
    ensures forall x :: x in Calls(order, defined) <==> x in order && x in defined
  {
    if order != [] {
      CallsOnce(order[1..], defined);
      assert order == [order[0]] + order[1..];
    }
  }

  lemma {:induction false} CallsBefore(order: seq<Name>, defined: set<Name>, a: Name, b: Name)
    requires Before(order, a, b) && a in defined && b in defined && Distinct(order)
    ensures Before(Calls(order, defined), a, b)
  {
    var i, j :| 0 <= i < j < |order| && order[i] == a && order[j] == b;
    var tail := order[1..];
    CallsOnce(tail, defined);
    assert tail[j - 1] == b;
    var front := if order[0] in defined then [order[0]] else [];
    assert Calls(order, defined) == front + Calls(tail, defined);
    if i == 0 {
      HeadBefore(a, Calls(tail, defined), b);
    } else {
      assert tail[i - 1] == a;
      CallsBefore(tail, defined, a, b);
      BeforeBehind(front, Calls(tail, defined), a, b);
    }
  }

  lemma HeadBefore(a: Name, rest: seq<Name>, b: Name)
    requires b in rest
    ensures Before([a] + rest, a, b)
  {
    var k :| 0 <= k < |rest| && rest[k] == b;
    assert ([a] + rest)[0] == a && ([a] + rest)[k + 1] == b;
  }

  lemma BeforeBehind(front: seq<Name>, rest: seq<Name>, a: Name, b: Name)
    requires Before(rest, a, b)
    ensures Before(front + rest, a, b)
  {
    var k, l :| 0 <= k < l < |rest| && rest[k] == a && rest[l] == b;
    assert (front + rest)[|front| + k] == a && (front + rest)[|front| + l] == b;
  }

  lemma AfterInit(g: Graph, main: Name)
    requires Acyclic(g) && main in g.imports
    ensures var s := RunInit(g, Begin(main), main);
            && Tidy(g, s) && InitGains(g, Begin(main), s, main) && Contexts(g, s) && FreedOk(s) && s.exited == [] && s.freed == []
            && Ctx(s, main) != 0 && InitGain(g, Begin(main), s, main)
  {
    var b := Begin(main);
    assert Ctx(b, main) == 1 && b.ctx[main] == 1;
    assert forall x :: x != main ==> Ctx(b, x) == 0;
    assert Contexts(g, b) by {
      forall id | id in b.live ensures Owned(b, id) { assert id == 1; }
      forall x | Ctx(b, x) != 0 ensures ParentOk(g, b, x) {}
    }
    InitInOrder(g, b, main);
    InitGivesContexts(g, b, main);
    var c := Ctx(RunInit(g, b, main), main);
  }

  /** Every module that main reaches is initialised once, after its imports, and exited once; its context is made once
      and freed once, with nothing below it; in the end no context is left. */
  lemma WholeRun(g: Graph, main: Name)
    requires Acyclic(g) && main in g.imports
    ensures var t := RunMain(g, main);
            && Distinct(t.ready) && Distinct(t.exited) && DepsFirst(g, t.ready) && FreedOk(t.(ctx := map[]))
            && (forall x :: (x in t.ready <==> Reach(g, main, x)) && (x in t.exited <==> Reach(g, main, x)))
            && (forall y :: FreedName(t, y) <==> y == main || (Reach(g, main, y) && y !in g.system))
            && t.live == map[]
  {
    var b := Begin(main);
    var s := RunInit(g, b, main);
    AfterInit(g, main);
    ExitReaches(g, s, main);
    ExitCloses(g, s, main);
    var e := RunExit(g, s, main);
    ExitKeepsReady(g, s, main);
    assert Ctx(e, main) == Ctx(s, main);
    forall k: nat | k < Imports(g, main) && Import(g, main, k) !in g.system ensures Ctx(e, Import(g, main, k)) == 0 {
      assert Reach(g, Import(g, main, k), Import(g, main, k));
    }
    ImportsClosed(g, e, main);
    ReleaseAlone(e, main);
    MainFreed(g, main, s, e);
    forall id | id in e.live ensures id == Ctx(e, main) {
      assert Owned(e, id);
      var x :| x in e.ctx && e.ctx[x] == id;
      OnlyMainLeft(g, main, s, e, x);
    }
  }

  lemma OnlyMainLeft(g: Graph, main: Name, s: State, e: State, x: Name)
    requires Acyclic(g) && main in g.imports && InitGain(g, Begin(main), s, main) && ExitLoses(g, s, e, main) && Ctx(e, x) != 0
    ensures x == main
  {
    assert Ctx(e, x) == if Reach(g, main, x) && x != main && x !in g.system then 0 else Ctx(s, x);
    assert Ctx(s, x) != 0;
    assert x != main ==> Ctx(Begin(main), x) == 0;
  }

  lemma MainFreed(g: Graph, main: Name, s: State, e: State)
    requires Acyclic(g) && main in g.imports && InitGain(g, Begin(main), s, main) && ExitLoses(g, s, e, main)
    requires s.freed == [] && Ctx(e, main) != 0 && Release(e, main).freed == e.freed + [Free(main, {})]
    ensures FreedOk(Release(e, main).(ctx := map[]))
    ensures forall y :: FreedName(Release(e, main), y) <==> y == main || (Reach(g, main, y) && y !in g.system)
  {
    var t := Release(e, main);
    assert t.freed[|e.freed|].of == main;
    forall y ensures FreedName(t, y) <==> FreedName(e, y) || y == main {
      if FreedName(e, y) {
        var i :| 0 <= i < |e.freed| && e.freed[i].of == y;
        assert t.freed[i].of == y;
      }
    }
    forall y | y != main ensures FreedName(e, y) <==> Reach(g, main, y) && y !in g.system {
      var c := Ctx(s, y);
      assert Ctx(Begin(main), y) == 0;
    }
  }

  lemma {:induction false} ExitKeepsReady(g: Graph, s: State, m: Name)
    requires Acyclic(g) && m in g.imports
    ensures RunExit(g, s, m).ready == s.ready
    decreases Rank(g, m), 1, 0
  {
    if m !in s.exited { ExitsKeepReady(g, s.(exited := s.exited + [m]), m, Imports(g, m)); }
  }

  lemma {:induction false} ExitsKeepReady(g: Graph, s: State, m: Name, k: nat)
    requires Acyclic(g) && m in g.imports && k <= Imports(g, m)
    ensures RunExits(g, s, m, k).ready == s.ready
    decreases Rank(g, m), 0, k
  {
    if k > 0 {
      var i := Import(g, m, k - 1);
      ExitKeepsReady(g, s, i);
      ExitsKeepReady(g, Close(g, RunExit(g, s, i), i), m, k - 1);
    }
  }

  /** `init_local` and `exit_local` are called once for each reachable module that defines them, inits after those of
      imports. */
  lemma LocalCalls(g: Graph, main: Name)
    requires Acyclic(g) && main in g.imports
    ensures var t := RunMain(g, main);
            var inits, exits := Calls(t.ready, g.inits), Calls(t.exited, g.exits);
            && Distinct(inits) && Distinct(exits)
            && (forall x :: x in inits <==> Reach(g, main, x) && x in g.inits)
            && (forall x :: x in exits <==> Reach(g, main, x) && x in g.exits)
            && forall m: Name, k: nat :: m in inits && m in g.imports && k < Imports(g, m) && Import(g, m, k) in g.inits
                                         ==> Before(inits, Import(g, m, k), m)
  {
    WholeRun(g, main);
    var t := RunMain(g, main);
    CallsOnce(t.ready, g.inits);
    CallsOnce(t.exited, g.exits);
    var inits := Calls(t.ready, g.inits);
    forall m: Name, k: nat | m in inits && m in g.imports && k < Imports(g, m) && Import(g, m, k) in g.inits
      ensures Before(inits, Import(g, m, k), m)
    {
      var p: nat :| p < |t.ready| && t.ready[p] == m;
      var q :| 0 <= q < p && t.ready[q] == Import(g, m, k);
      CallsBefore(t.ready, g.inits, Import(g, m, k), m);
    }
  }

  // ----- when a module is shared -----

  /** main imports a and b, and a imports b. */
  ghost predicate Triangle(g: Graph, main: Name, a: Name, b: Name) {
    && main in g.imports && a in g.imports && b in g.imports
    && g.imports[main] == [a, b] && g.imports[a] == [b] && g.imports[b] == []
  }

  lemma TriangleExists()
    ensures exists g, main, a, b :: Acyclic(g) && Triangle(g, main, a, b)
  {
    var main, a, b := Name("main"), Name("a"), Name("b");
    var g := Graph(map[main := [a, b], a := [b], b := []], {}, {}, {}, map[main := 2, a := 1, b := 0]);
    forall m, k | m in g.imports ensures ImportOk(g, m, k) {}
    assert Triangle(g, main, a, b);
  }

  /** Then b exits before a, which may still need it. */
  lemma SharedImportExitsEarly(g: Graph, main: Name, a: Name, b: Name)
    requires Acyclic(g) && Triangle(g, main, a, b)
    ensures !BeforeImports(g, RunMain(g, main).exited)
  {
    assert Import(g, main, 0) == a && Import(g, main, 1) == b && Import(g, a, 0) == b;
    assert Reach(g, main, main) && Reach(g, a, a) && Reach(g, b, b);
    ReachRank(g, a, b) by { assert Reach(g, a, Import(g, a, 0)); }
    assert !Reach(g, b, a);
    assert Through(g, main, 1, 2, b);
    assert Crossing(g, main, 0, a, 0);
    RunOrderExact(g, main);
  }

  /** In a whole run every module exits before its imports exactly when the import graph has no crossing. */
  lemma RunOrderExact(g: Graph, main: Name)
    requires Acyclic(g) && main in g.imports
    ensures BeforeImports(g, RunMain(g, main).exited) <==> Uncrossed(g, main)
  {
    AfterInit(g, main);
    ExitOrderExact(g, RunInit(g, Begin(main), main), main);
  }

  lemma {:induction false} CallsAppend(order: seq<Name>, m: Name, defined: set<Name>)
    ensures Calls(order + [m], defined) == Calls(order, defined) + if m in defined then [m] else []
  {
    if order != [] {
      assert (order + [m])[1..] == order[1..] + [m];
      CallsAppend(order[1..], m, defined);
    } else {
      assert order + [m] == [m] && [m][1..] == [];
    }
  }
}
