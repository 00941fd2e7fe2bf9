/** What the generated `exit` functions do (src/core/codegen.c): in which order modules exit, and how their contexts are
    freed. */
module ModuleExit {
  import opened ModuleGraph
  import opened ModuleInit

  /** Context a lies below context id, or is it. */
  predicate Under(live: map<nat, nat>, a: nat, id: nat) {
    a == id || (a in live && live[a] < a && Under(live, live[a], id))
  }

  /** `mem_talloc_free(come_m__ctx)`, which frees what is below as well. */
  function Release(s: State, m: Name): State {
    var id := Ctx(s, m);
    s.(live := map a | a in s.live && !Under(s.live, a, id) :: s.live[a],
       freed := s.freed + [Free(m, set a | a in s.live && s.live[a] == id)])
  }

  /** `if (come_m__ctx) { mem_talloc_free(come_m__ctx); come_m__ctx = NULL; }` */
  function Close(g: Graph, s: State, m: Name): State {
    if m !in g.system && Ctx(s, m) != 0 then Release(s, m).(ctx := s.ctx[m := 0]) else s
  }

  /** The generated `exit` of module m. */
  function RunExit(g: Graph, s: State, m: Name): State
    requires Acyclic(g) && m in g.imports
    decreases Rank(g, m), 1, 0
  {
    if m in s.exited then s else RunExits(g, s.(exited := s.exited + [m]), m, Imports(g, m))
  }

  /** Its lines for the first k imports, the last of them first. */
  function RunExits(g: Graph, s: State, m: Name, k: nat): State
    requires Acyclic(g) && m in g.imports && k <= Imports(g, m)
    decreases Rank(g, m), 0, k
  {
    if k == 0 then s
    else
      var i := Import(g, m, k - 1);
      RunExits(g, Close(g, RunExit(g, s, i), i), m, k - 1)
  }

  // ----- which modules exit -----

  /** What m reaches and has exited, has exited with all it reaches. */
  ghost predicate Gone(g: Graph, s: State, m: Name)
    requires Acyclic(g) && m in g.imports
  {
    forall x, y :: x in s.exited && x in g.imports && Reach(g, m, x) && Reach(g, x, y) ==> y in s.exited
  }

  ghost predicate GoneBelow(g: Graph, s: State, m: Name, k: nat)
    requires Acyclic(g) && m in g.imports && k <= Imports(g, m)
  {
    forall x, y :: x in s.exited && x in g.imports && Through(g, m, 0, k, x) && Reach(g, x, y) ==> y in s.exited
  }

  ghost predicate ExitGains(g: Graph, s: State, t: State, m: Name)
    requires Acyclic(g) && m in g.imports
  {
    && s.exited <= t.exited && (Distinct(s.exited) ==> Distinct(t.exited))
    && forall x :: x in t.exited <==> x in s.exited || Reach(g, m, x)
  }

  ghost predicate ExitsGain(g: Graph, s: State, t: State, m: Name, k: nat)
    requires Acyclic(g) && m in g.imports && k <= Imports(g, m)
  {
    && s.exited <= t.exited && (Distinct(s.exited) ==> Distinct(t.exited))
    && forall x :: x in t.exited <==> x in s.exited || Through(g, m, 0, k, x)
  }

  lemma CloseFacts(g: Graph, s: State, m: Name)
    ensures Close(g, s, m).exited == s.exited
  {
  }

  lemma GoneImport(g: Graph, s: State, m: Name, k: nat)
    requires Acyclic(g) && m in g.imports && 0 < k <= Imports(g, m) && GoneBelow(g, s, m, k)
    ensures Gone(g, s, Import(g, m, k - 1))
  {
    var i := Import(g, m, k - 1);
    forall x, y | x in s.exited && x in g.imports && Reach(g, i, x) && Reach(g, x, y) ensures y in s.exited {
      assert Through(g, m, 0, k, x);
    }
  }

  lemma GoneNext(g: Graph, s: State, t: State, m: Name, k: nat)
    requires Acyclic(g) && m in g.imports && 0 < k <= Imports(g, m) && GoneBelow(g, s, m, k) && ExitGains(g, s, t, Import(g, m, k - 1))
    ensures GoneBelow(g, t, m, k - 1)
  {
    var i := Import(g, m, k - 1);
    forall x, y | x in t.exited && x in g.imports && Through(g, m, 0, k - 1, x) && Reach(g, x, y) ensures y in t.exited {
      ThroughMore(g, m, 0, k - 1, k, x);
      if x !in s.exited { ReachTrans(g, i, x, y); }
    }
  }

  lemma {:induction false} ExitsReach(g: Graph, s: State, m: Name, k: nat)
    requires Acyclic(g) && m in g.imports && k <= Imports(g, m) && GoneBelow(g, s, m, k)
    ensures ExitsGain(g, s, RunExits(g, s, m, k), m, k)
    decreases Rank(g, m), 0, k
  {
    if k > 0 {
      var i := Import(g, m, k - 1);
      GoneImport(g, s, m, k);
      ExitReaches(g, s, i);
      var u := Close(g, RunExit(g, s, i), i);
      CloseFacts(g, RunExit(g, s, i), i);
      GoneNext(g, s, u, m, k);
      ExitsReach(g, u, m, k - 1);
      ExitsGainMore(g, s, u, RunExits(g, u, m, k - 1), m, k);
    }
  }

  lemma ExitsGainMore(g: Graph, s: State, u: State, v: State, m: Name, k: nat)
    requires Acyclic(g) && m in g.imports && 0 < k <= Imports(g, m)
    requires ExitGains(g, s, u, Import(g, m, k - 1)) && ExitsGain(g, u, v, m, k - 1)
    ensures ExitsGain(g, s, v, m, k)
  {
    forall x ensures x in v.exited <==> x in s.exited || Through(g, m, 0, k, x) {
      ThroughMore(g, m, 0, k - 1, k, x);
    }
  }

  lemma MarkedGone(g: Graph, s: State, m: Name)
    requires Acyclic(g) && m in g.imports && Gone(g, s, m)
    ensures GoneBelow(g, s.(exited := s.exited + [m]), m, Imports(g, m))
  {
    var t := s.(exited := s.exited + [m]);
    forall x, y | x in t.exited && x in g.imports && Through(g, m, 0, Imports(g, m), x) && Reach(g, x, y) ensures y in t.exited {
      ThroughAll(g, m, x);
      assert y in s.exited;
    }
  }

  /** Exit marks exactly what m reaches, each module once. */
  lemma {:induction false} ExitReaches(g: Graph, s: State, m: Name)
    requires Acyclic(g) && m in g.imports && Gone(g, s, m)
    ensures ExitGains(g, s, RunExit(g, s, m), m)
    decreases Rank(g, m), 1, 0
  {
    if m in s.exited {
      assert Reach(g, m, m);
    } else {
      MarkedGone(g, s, m);
      ExitsReach(g, s.(exited := s.exited + [m]), m, Imports(g, m));
      forall x ensures Through(g, m, 0, Imports(g, m), x) <==> Reach(g, m, x) && x != m { ThroughAll(g, m, x); }
    }
  }

  // ----- before its imports: exactly when -----

  /** m's exit comes before those of its imports, for every module of `order`. */
  ghost predicate BeforeImports(g: Graph, order: seq<Name>)
    requires Acyclic(g)
  {
    forall p: Name, k: nat :: p in order && p in g.imports && k < Imports(g, p) ==> Before(order, p, Import(g, p, k))
  }

  /** Among what the k-th import of m reaches, p is reached by no later import, but its j-th import is. */
  ghost predicate Crossing(g: Graph, m: Name, k: nat, p: Name, j: nat)
    requires Acyclic(g) && m in g.imports && k < Imports(g, m) && p in g.imports && j < Imports(g, p)
  {
    && Reach(g, Import(g, m, k), p)
    && !Through(g, m, k + 1, Imports(g, m), p)
    && Through(g, m, k + 1, Imports(g, m), Import(g, p, j))
  }

  ghost predicate Uncrossed(g: Graph, root: Name)
    requires Acyclic(g) && root in g.imports
  {
    forall m, k: nat, p, j: nat ::
      m in g.imports && Reach(g, root, m) && k < Imports(g, m) && p in g.imports && j < Imports(g, p) ==> !Crossing(g, m, k, p, j)
  }

  /** No module that m reaches and that has not exited imports one that has. */
  ghost predicate Untouched(g: Graph, exited: seq<Name>, m: Name)
    requires Acyclic(g) && m in g.imports
  {
    forall p: Name, j: nat :: p in g.imports && Reach(g, m, p) && p !in exited && j < Imports(g, p) ==> Import(g, p, j) !in exited
  }

  /** Modules new in `after` stand before their imports. (The quantifier keeps proofs from looking into it.) */
  ghost predicate NewBefore(g: Graph, before: seq<Name>, after: seq<Name>)
    requires Acyclic(g)
  {
    exists new' :: new' == after && AllBefore(g, before, new')
  }

  ghost predicate AllBefore(g: Graph, before: seq<Name>, after: seq<Name>)
    requires Acyclic(g)
  {
    forall p: Name, j: nat :: p in after && p !in before && p in g.imports && j < Imports(g, p) ==> Before(after, p, Import(g, p, j))
  }

  /** What has exited when the loop over m's imports comes to the k-th: what there was, m, and the later imports. */
  ghost predicate LoopAt(g: Graph, s0: seq<Name>, s: State, m: Name, k: nat)
    requires Acyclic(g) && m in g.imports && k <= Imports(g, m)
  {
    && Untouched(g, s0, m) && m !in s0
    && forall x :: x in s.exited <==> x in s0 || x == m || Through(g, m, k, Imports(g, m), x)
  }

  lemma LoopUntouchedAt(g: Graph, root: Name, s0: seq<Name>, s: State, m: Name, k: nat, p: Name, j: nat)
    requires Acyclic(g) && root in g.imports && Uncrossed(g, root) && m in g.imports && Reach(g, root, m)
    requires 0 < k <= Imports(g, m) && LoopAt(g, s0, s, m, k)
    requires p in g.imports && Reach(g, Import(g, m, k - 1), p) && p !in s.exited && j < Imports(g, p)
    ensures Import(g, p, j) !in s.exited
  {
    var x := Import(g, p, j);
    ReachImport(g, m, k - 1, p);
    assert x !in s0;
    assert Reach(g, x, x) && Reach(g, p, x);
    if x == m { ReachRank(g, m, p); }
    assert !Crossing(g, m, k - 1, p, j);
  }

  lemma LoopUntouched(g: Graph, root: Name, s0: seq<Name>, s: State, m: Name, k: nat)
    requires Acyclic(g) && root in g.imports && Uncrossed(g, root) && m in g.imports && Reach(g, root, m)
    requires 0 < k <= Imports(g, m) && LoopAt(g, s0, s, m, k)
    ensures Untouched(g, s.exited, Import(g, m, k - 1))
  {
    var i := Import(g, m, k - 1);
    forall p: Name, j: nat | p in g.imports && Reach(g, i, p) && p !in s.exited && j < Imports(g, p)
      ensures Import(g, p, j) !in s.exited
    {
      LoopUntouchedAt(g, root, s0, s, m, k, p, j);
    }
  }

  lemma LoopNext(g: Graph, s0: seq<Name>, s: State, t: State, m: Name, k: nat)
    requires Acyclic(g) && m in g.imports && 0 < k <= Imports(g, m) && LoopAt(g, s0, s, m, k)
    requires ExitGains(g, s, t, Import(g, m, k - 1))
    ensures LoopAt(g, s0, t, m, k - 1)
  {
    forall x ensures Through(g, m, k - 1, Imports(g, m), x) <==> Through(g, m, k, Imports(g, m), x) || Reach(g, Import(g, m, k - 1), x) {
      ThroughMore(g, m, 0, k - 1, Imports(g, m), x);
    }
  }

  lemma NewBeforeJoin(g: Graph, a: seq<Name>, b: seq<Name>, c: seq<Name>)
    requires Acyclic(g) && NewBefore(g, a, b) && NewBefore(g, b, c) && b <= c
    ensures NewBefore(g, a, c)
  {
    forall p: Name, j: nat | p in c && p !in a && p in g.imports && j < Imports(g, p) ensures Before(c, p, Import(g, p, j)) {
      BeforePrefix(b, c, p, Import(g, p, j));
    }
    assert AllBefore(g, a, c);
  }

  /** What the loop over m's imports below the k-th may start from, and what a call of m's exit may. */
  ghost predicate LoopReady(g: Graph, root: Name, s0: seq<Name>, s: State, m: Name, k: nat)
    requires Acyclic(g) && root in g.imports && m in g.imports && k <= Imports(g, m)
  {
    exists t :: t == s && Uncrossed(g, root) && Reach(g, root, m) && GoneBelow(g, t, m, k) && LoopAt(g, s0, t, m, k)
  }

  ghost predicate CallReady(g: Graph, root: Name, s: State, m: Name)
    requires Acyclic(g) && root in g.imports && m in g.imports
  {
    exists t :: t == s && Uncrossed(g, root) && Reach(g, root, m) && Gone(g, t, m) && Untouched(g, t.exited, m)
  }

  lemma {:induction false} ExitsBefore(g: Graph, root: Name, s0: seq<Name>, s: State, m: Name, k: nat) returns (e: seq<Name>)
    requires Acyclic(g) && root in g.imports && m in g.imports && k <= Imports(g, m) && LoopReady(g, root, s0, s, m, k)
    ensures e == RunExits(g, s, m, k).exited && s.exited <= e && NewBefore(g, s.exited, e)
    decreases Rank(g, m), 0, k
  {
    if k == 0 {
      e := s.exited;
      assert AllBefore(g, e, e);
    } else {
      var i := Import(g, m, k - 1);
      BeforeExit(g, root, s0, s, m, k);
      ExitBefore(g, root, s, i);
      var u := AfterExit(g, root, s0, s, m, k);
      e := ExitsBefore(g, root, s0, u, m, k - 1);
      NewBeforeJoin(g, s.exited, u.exited, e);
    }
  }

  /** One round of the loop over the imports: the k-th has not exited in part. */
  lemma BeforeExit(g: Graph, root: Name, s0: seq<Name>, s: State, m: Name, k: nat)
    requires Acyclic(g) && root in g.imports && m in g.imports && 0 < k <= Imports(g, m) && LoopReady(g, root, s0, s, m, k)
    ensures CallReady(g, root, s, Import(g, m, k - 1))
  {
    var i := Import(g, m, k - 1);
    GoneImport(g, s, m, k);
    LoopUntouched(g, root, s0, s, m, k);
    assert Reach(g, i, i);
    ReachImport(g, m, k - 1, i);
    ReachTrans(g, root, m, i);
  }

  lemma AfterExit(g: Graph, root: Name, s0: seq<Name>, s: State, m: Name, k: nat) returns (u: State)
    requires Acyclic(g) && root in g.imports && m in g.imports && 0 < k <= Imports(g, m) && LoopReady(g, root, s0, s, m, k)
    ensures u == Close(g, RunExit(g, s, Import(g, m, k - 1)), Import(g, m, k - 1))
    ensures LoopReady(g, root, s0, u, m, k - 1) && s.exited <= u.exited && u.exited == RunExit(g, s, Import(g, m, k - 1)).exited
  {
    var i := Import(g, m, k - 1);
    GoneImport(g, s, m, k);
    ExitReaches(g, s, i);
    u := Close(g, RunExit(g, s, i), i);
    CloseFacts(g, RunExit(g, s, i), i);
    GoneNext(g, s, u, m, k);
    LoopNext(g, s0, s, u, m, k);
  }

  lemma {:induction false} ExitBefore(g: Graph, root: Name, s: State, m: Name)
    requires Acyclic(g) && root in g.imports && m in g.imports && CallReady(g, root, s, m)
    ensures NewBefore(g, s.exited, RunExit(g, s, m).exited)
    decreases Rank(g, m), 1, 0
  {
    if m in s.exited {
      assert AllBefore(g, s.exited, s.exited);
    } else {
      var s1 := s.(exited := s.exited + [m]);
      MarkedReady(g, root, s, m);
      var e := ExitsBefore(g, root, s.exited, s1, m, Imports(g, m));
      ExitsReach(g, s1, m, Imports(g, m));
      FirstBefore(g, s, m, e);
    }
  }

  lemma MarkedReady(g: Graph, root: Name, s: State, m: Name)
    requires Acyclic(g) && root in g.imports && m in g.imports && CallReady(g, root, s, m) && m !in s.exited
    ensures var s1 := s.(exited := s.exited + [m]);
      LoopReady(g, root, s.exited, s1, m, Imports(g, m)) && GoneBelow(g, s1, m, Imports(g, m))
    ensures Untouched(g, s.exited, m)
  {
    var s1 := s.(exited := s.exited + [m]);
    MarkedGone(g, s, m);
    assert LoopAt(g, s.exited, s1, m, Imports(g, m));
  }

  lemma FirstBefore(g: Graph, s: State, m: Name, e: seq<Name>)
    requires Acyclic(g) && m in g.imports && m !in s.exited && Untouched(g, s.exited, m)
    requires s.exited + [m] <= e && NewBefore(g, s.exited + [m], e)
    requires forall x :: x in e <==> x in s.exited + [m] || Through(g, m, 0, Imports(g, m), x)
    ensures NewBefore(g, s.exited, e)
  {
    var before := s.exited + [m];
    forall p: Name, j: nat | p in e && p !in s.exited && p in g.imports && j < Imports(g, p)
      ensures Before(e, p, Import(g, p, j))
    {
      if p == m {
        var x := Import(g, m, j);
        assert Reach(g, m, m) && Reach(g, x, x) && Through(g, m, 0, Imports(g, m), x);
        assert x in e && x !in before;
        BeforePrefix(before, e, m, x);
      }
    }
    assert AllBefore(g, s.exited, e);
  }

  // ----- a crossing shows -----

  /** The exit of m, which puts X before P when it finds a crossing in m. */
  lemma CrossingShows(g: Graph, s: State, m: Name, k: nat, p: Name, j: nat)
    requires Acyclic(g) && m in g.imports && m !in s.exited && Gone(g, s, m)
    requires k < Imports(g, m) && p in g.imports && j < Imports(g, p) && Crossing(g, m, k, p, j)
    requires p !in s.exited
    ensures Before(RunExit(g, s, m).exited, Import(g, p, j), p)
  {
    var x := Import(g, p, j);
    var s1 := s.(exited := s.exited + [m]);
    MarkedGone(g, s, m);
    ReachImport(g, m, k, p);
    CrossingLoop(g, s1, m, Imports(g, m), k, p, x);
  }

  lemma CrossingDone(g: Graph, s: State, m: Name, n: nat, k: nat, p: Name, x: Name)
    requires Acyclic(g) && m in g.imports && k < n <= Imports(g, m) && GoneBelow(g, s, m, n)
    requires p !in s.exited && Reach(g, Import(g, m, k), p) && x in s.exited
    ensures Before(RunExits(g, s, m, n).exited, x, p)
  {
    ExitsReach(g, s, m, n);
    assert Through(g, m, 0, n, p);
    BeforePrefix(s.exited, RunExits(g, s, m, n).exited, x, p);
  }

  /** The loop from the k-th import on, while the later ones have not all been done. */
  lemma {:induction false} CrossingLoop(g: Graph, s: State, m: Name, n: nat, k: nat, p: Name, x: Name)
    requires Acyclic(g) && m in g.imports && k < n <= Imports(g, m) && GoneBelow(g, s, m, n)
    requires p !in s.exited && Reach(g, Import(g, m, k), p) && !Through(g, m, k + 1, Imports(g, m), p)
    requires x in s.exited || Through(g, m, k + 1, n, x)
    ensures Before(RunExits(g, s, m, n).exited, x, p)
    decreases n
  {
    if x in s.exited {
      CrossingDone(g, s, m, n, k, p, x);
    } else {
      var u := CrossingRound(g, s, m, n, k, p, x);
      CrossingLoop(g, u, m, n - 1, k, p, x);
    }
  }

  lemma CrossingRound(g: Graph, s: State, m: Name, n: nat, k: nat, p: Name, x: Name) returns (v: State)
    requires Acyclic(g) && m in g.imports && k < n <= Imports(g, m) && GoneBelow(g, s, m, n)
    requires p !in s.exited && Reach(g, Import(g, m, k), p) && !Through(g, m, k + 1, Imports(g, m), p)
    requires x !in s.exited && Through(g, m, k + 1, n, x)
    ensures v == Close(g, RunExit(g, s, Import(g, m, n - 1)), Import(g, m, n - 1))
    ensures k < n - 1 && GoneBelow(g, v, m, n - 1) && p !in v.exited && (x in v.exited || Through(g, m, k + 1, n - 1, x))
  {
    var i := Import(g, m, n - 1);
    var j: nat :| k + 1 <= j < n && Reach(g, Import(g, m, j), x);
    assert !Reach(g, i, p) && k < n - 1;
    GoneImport(g, s, m, n);
    ExitReaches(g, s, i);
    v := Close(g, RunExit(g, s, i), i);
    GoneNext(g, s, v, m, n);
    ThroughMore(g, m, k + 1, n - 1, n, x);
  }

  /** If a module with a crossing exits in the course of m's exit, with all it reaches still behind it, the crossing
      shows. */
  lemma {:induction false} CrossingFound(g: Graph, s: State, m: Name, c: Name, k: nat, p: Name, j: nat)
    requires Acyclic(g) && m in g.imports && Gone(g, s, m) && c in g.imports && Reach(g, m, c) && c !in s.exited
    requires k < Imports(g, c) && p in g.imports && j < Imports(g, p) && Crossing(g, c, k, p, j)
    ensures Before(RunExit(g, s, m).exited, p, c) || Before(RunExit(g, s, m).exited, Import(g, p, j), p)
    decreases Rank(g, m), 1, 0
  {
    if m == c {
      if p in s.exited {
        ExitReaches(g, s, m);
        assert Reach(g, m, m);
        BeforePrefix(s.exited, RunExit(g, s, m).exited, p, c);
      } else {
        CrossingShows(g, s, m, k, p, j);
      }
    } else if m !in s.exited {
      MarkedGone(g, s, m);
      ThroughAll(g, m, c);
      CrossingFoundBelow(g, s.(exited := s.exited + [m]), m, Imports(g, m), c, k, p, j);
    } else {
      assert Reach(g, m, m);
    }
  }

  lemma {:induction false} CrossingFoundBelow(g: Graph, s: State, m: Name, n: nat, c: Name, k: nat, p: Name, j: nat)
    requires Acyclic(g) && m in g.imports && n <= Imports(g, m) && GoneBelow(g, s, m, n) && c in g.imports && Through(g, m, 0, n, c)
    requires c !in s.exited && k < Imports(g, c) && p in g.imports && j < Imports(g, p) && Crossing(g, c, k, p, j)
    ensures Before(RunExits(g, s, m, n).exited, p, c) || Before(RunExits(g, s, m, n).exited, Import(g, p, j), p)
    decreases Rank(g, m), 0, n
  {
    var i := Import(g, m, n - 1);
    GoneImport(g, s, m, n);
    ExitReaches(g, s, i);
    var t := RunExit(g, s, i);
    GoneNext(g, s, t, m, n);
    var u := Close(g, t, i);
    assert GoneBelow(g, u, m, n - 1);
    ThroughMore(g, m, 0, n - 1, n, c);
    ExitsReach(g, u, m, n - 1);
    if Reach(g, i, c) {
      CrossingFound(g, s, i, c, k, p, j);
      BeforePrefix(u.exited, RunExits(g, u, m, n - 1).exited, p, c);
      BeforePrefix(u.exited, RunExits(g, u, m, n - 1).exited, Import(g, p, j), p);
    } else {
      CrossingFoundBelow(g, u, m, n - 1, c, k, p, j);
    }
  }

  /** Every module exits before its imports, exactly when the import graph has no crossing. */
  lemma ExitOrderExact(g: Graph, s: State, root: Name)
    requires Acyclic(g) && root in g.imports && s.exited == []
    ensures BeforeImports(g, RunExit(g, s, root).exited) <==> Uncrossed(g, root)
  {
    var order := RunExit(g, s, root).exited;
    ExitReaches(g, s, root);
    assert Reach(g, root, root);
    if Uncrossed(g, root) {
      ExitBefore(g, root, s, root);
    }
    forall m, k: nat, p, j: nat
      | m in g.imports && Reach(g, root, m) && k < Imports(g, m) && p in g.imports && j < Imports(g, p) && Crossing(g, m, k, p, j)
      ensures !BeforeImports(g, order)
    {
      CrossingFound(g, s, root, m, k, p, j);
      if BeforeImports(g, order) {
        ReachImport(g, m, k, p);
        ReachTrans(g, root, m, p);
        BeforeReached(g, order, m, p);
        assert Before(order, p, Import(g, p, j));
        BeforeOneWay(order, p, Import(g, p, j));
        BeforeOneWay(order, m, p);
      }
    }
  }

  /** If every module stands before its imports, it stands before all it reaches. */
  lemma {:induction false} BeforeReached(g: Graph, order: seq<Name>, m: Name, x: Name)
    requires Acyclic(g) && BeforeImports(g, order) && Distinct(order) && m in order && m in g.imports && Reach(g, m, x) && x != m
    ensures Before(order, m, x)
    decreases Rank(g, m)
  {
    var k: nat :| k < Imports(g, m) && Reach(g, Import(g, m, k), x);
    var i := Import(g, m, k);
    assert Before(order, m, i);
    if i != x {
      BeforeReached(g, order, i, x);
      var a, b :| 0 <= a < b < |order| && order[a] == m && order[b] == i;
      var c, d :| 0 <= c < d < |order| && order[c] == i && order[d] == x;
      assert b == c;
    }
  }
}
