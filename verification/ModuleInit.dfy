/** What the generated `init` functions do (src/core/codegen.c), as a function of the state of the whole program. */
module ModuleInit {
  import opened ModuleGraph

  /** A call of `mem_talloc_free` on a module's context; `orphans` are the contexts below it at that moment. */
  datatype Free = Free(of: Name, orphans: set<nat>)

  /** `started` are the modules whose `initialized` flag is set; `ready` those whose init has run to its end, and
      `exited` those whose exit has begun, in that order. `ctx` holds the context globals (0 is NULL), `live` the parent
      of every context, `next` the next address `mem_talloc_new_ctx` gives out. */
  datatype State = State(started: set<Name>, ready: seq<Name>, exited: seq<Name>, ctx: map<Name, nat>,
                         live: map<nat, nat>, next: nat, freed: seq<Free>)

  function Ctx(s: State, m: Name): nat {
    if m in s.ctx then s.ctx[m] else 0
  }

  /** `come_m__ctx = mem_talloc_new_ctx(parent)`. */
  function NewCtx(s: State, m: Name, parent: nat): State {
    s.(ctx := s.ctx[m := s.next], live := s.live[s.next := parent], next := s.next + 1)
  }

  /** The state in which the init of the k-th import is called. */
  function Opened(g: Graph, s: State, m: Name, k: nat): State
    requires Acyclic(g) && m in g.imports && k < Imports(g, m)
  {
    var i := Import(g, m, k);
    if i !in g.system && Ctx(s, i) == 0 then NewCtx(s, i, Ctx(s, m)) else s
  }

  /** The generated `init` of module m. */
  function RunInit(g: Graph, s: State, m: Name): State
    requires Acyclic(g) && m in g.imports
    decreases Rank(g, m), 1, 0
  {
    if m in s.started then s
    else
      var t := RunImports(g, s.(started := s.started + {m}), m, 0);
      t.(ready := t.ready + [m])
  }

  /** Its lines for the imports from the k-th on. */
  function RunImports(g: Graph, s: State, m: Name, k: nat): State
    requires Acyclic(g) && m in g.imports && k <= Imports(g, m)
    decreases Rank(g, m), 0, Imports(g, m) - k
  {
    if k == Imports(g, m) then s
    else
      RunImports(g, RunInit(g, Opened(g, s, m, k), Import(g, m, k)), m, k + 1)
  }

  // ----- every module once, and after its imports -----

  /** Imports come first. */
  ghost predicate DepsFirst(g: Graph, order: seq<Name>)
    requires Acyclic(g)
  {
    forall p: nat, k: nat :: p < |order| && order[p] in g.imports && k < Imports(g, order[p]) ==> Import(g, order[p], k) in order[..p]
  }

  /** What m's init may find started is finished, with all it reaches. */
  ghost predicate Finished(g: Graph, s: State, m: Name)
    requires Acyclic(g) && m in g.imports
  {
    forall x, y :: x in s.started && x in g.imports && Reach(g, m, x) && Reach(g, x, y) ==> y in s.ready
  }

  ghost predicate Tidy(g: Graph, s: State)
    requires Acyclic(g)
  {
    Distinct(s.ready) && DepsFirst(g, s.ready) && forall x :: x in s.ready ==> x in s.started
  }

  ghost predicate InitGains(g: Graph, s: State, t: State, m: Name)
    requires Acyclic(g) && m in g.imports
  {
    && s.ready <= t.ready
    && (forall x :: x in t.started <==> x in s.started || Reach(g, m, x))
    && (forall x :: x in t.ready <==> x in s.ready || Reach(g, m, x))
  }

  ghost predicate ImportsGain(g: Graph, s: State, t: State, m: Name, lo: nat)
    requires Acyclic(g) && m in g.imports && lo <= Imports(g, m)
  {
    && s.ready <= t.ready
    && (forall x :: x in t.started <==> x in s.started || Through(g, m, lo, Imports(g, m), x))
    && (forall x :: x in t.ready <==> x in s.ready || Through(g, m, lo, Imports(g, m), x))
  }

  /** Between two imports of m: what the imports still to come reach and is started, is finished. */
  ghost predicate FinishedFrom(g: Graph, s: State, m: Name, lo: nat)
    requires Acyclic(g) && m in g.imports && lo <= Imports(g, m)
  {
    forall x, y :: x in s.started && x in g.imports && Through(g, m, lo, Imports(g, m), x) && Reach(g, x, y) ==> y in s.ready
  }

  lemma FinishedImport(g: Graph, s: State, m: Name, k: nat)
    requires Acyclic(g) && m in g.imports && k < Imports(g, m) && FinishedFrom(g, s, m, k)
    ensures Finished(g, s, Import(g, m, k))
  {
    var i := Import(g, m, k);
    forall x, y | x in s.started && x in g.imports && Reach(g, i, x) && Reach(g, x, y) ensures y in s.ready {
      assert Through(g, m, k, Imports(g, m), x);
    }
  }

  lemma FinishedNext(g: Graph, s: State, t: State, m: Name, k: nat)
    requires Acyclic(g) && m in g.imports && k < Imports(g, m) && FinishedFrom(g, s, m, k) && InitGains(g, s, t, Import(g, m, k))
    ensures FinishedFrom(g, t, m, k + 1)
  {
    var i := Import(g, m, k);
    forall x, y | x in t.started && x in g.imports && Through(g, m, k + 1, Imports(g, m), x) && Reach(g, x, y) ensures y in t.ready {
      ThroughMore(g, m, k, k, Imports(g, m), x);
      if x !in s.started { ReachTrans(g, i, x, y); }
    }
  }

  lemma ImportOpened(g: Graph, s: State, m: Name, k: nat)
    requires Acyclic(g) && m in g.imports && k < Imports(g, m) && Tidy(g, s) && FinishedFrom(g, s, m, k)
    ensures var t, i := Opened(g, s, m, k), Import(g, m, k);
      t.ready == s.ready && t.started == s.started && Tidy(g, t) && FinishedFrom(g, t, m, k) && Finished(g, t, i)
  {
    var t := Opened(g, s, m, k);
    assert Tidy(g, t) && FinishedFrom(g, t, m, k);
    FinishedImport(g, t, m, k);
  }

  lemma GainJoin(g: Graph, s: State, u: State, t: State, m: Name, k: nat)
    requires Acyclic(g) && m in g.imports && k < Imports(g, m) && InitGains(g, s, u, Import(g, m, k)) && ImportsGain(g, u, t, m, k + 1)
    ensures ImportsGain(g, s, t, m, k)
  {
    forall x ensures Through(g, m, k, Imports(g, m), x) <==> Through(g, m, k + 1, Imports(g, m), x) || Reach(g, Import(g, m, k), x) {
      ThroughMore(g, m, k, k, Imports(g, m), x);
    }
  }

  lemma {:induction false} ImportsInOrder(g: Graph, s: State, m: Name, k: nat)
    requires Acyclic(g) && m in g.imports && k <= Imports(g, m) && Tidy(g, s) && FinishedFrom(g, s, m, k)
    ensures var t := RunImports(g, s, m, k); Tidy(g, t) && ImportsGain(g, s, t, m, k)
    decreases Rank(g, m), 0, Imports(g, m) - k
  {
    if k < Imports(g, m) {
      var i := Import(g, m, k);
      var s1 := Opened(g, s, m, k);
      ImportOpened(g, s, m, k);
      InitInOrder(g, s1, i);
      var s2 := RunInit(g, s1, i);
      FinishedNext(g, s1, s2, m, k);
      ImportsInOrder(g, s2, m, k + 1);
      GainJoin(g, s1, s2, RunImports(g, s2, m, k + 1), m, k);
    }
  }

  /** Init marks exactly what m reaches, each module once and after its imports. */
  lemma {:induction false} InitInOrder(g: Graph, s: State, m: Name)
    requires Acyclic(g) && m in g.imports && Tidy(g, s) && Finished(g, s, m)
    ensures var t := RunInit(g, s, m); Tidy(g, t) && InitGains(g, s, t, m)
    decreases Rank(g, m), 1, 0
  {
    if m in s.started {
      forall x | Reach(g, m, x) ensures x in s.ready { assert Reach(g, m, m); }
    } else {
      var s1 := s.(started := s.started + {m});
      MarkedFinished(g, s, m);
      ImportsInOrder(g, s1, m, 0);
      var t := RunImports(g, s1, m, 0);
      forall x ensures Through(g, m, 0, Imports(g, m), x) <==> Reach(g, m, x) && x != m { ThroughAll(g, m, x); }
      assert m !in t.ready by { assert m !in s.ready; }
      ReadyAppended(g, t, m);
    }
  }

  lemma MarkedFinished(g: Graph, s: State, m: Name)
    requires Acyclic(g) && m in g.imports && Finished(g, s, m)
    ensures FinishedFrom(g, s.(started := s.started + {m}), m, 0)
  {
    forall x, y | x in s.started + {m} && x in g.imports && Through(g, m, 0, Imports(g, m), x) && Reach(g, x, y) ensures y in s.ready {
      ThroughAll(g, m, x);
    }
  }

  lemma ReadyAppended(g: Graph, t: State, m: Name)
    requires Acyclic(g) && m in g.imports && m !in t.ready && Tidy(g, t) && m in t.started
    requires forall x :: Through(g, m, 0, Imports(g, m), x) ==> x in t.ready
    ensures Tidy(g, t.(ready := t.ready + [m]))
  {
    var order := t.ready + [m];
    forall p: nat, k: nat | p < |order| && order[p] in g.imports && k < Imports(g, order[p]) ensures Import(g, order[p], k) in order[..p] {
      if p < |t.ready| {
        assert order[..p] == t.ready[..p];
      } else {
        assert order[..p] == t.ready;
        var i := Import(g, m, k);
        assert Reach(g, i, i) && Through(g, m, 0, Imports(g, m), i);
      }
    }
  }

  // ----- a context for every module -----

  /** The parent of x's context is that of a module that imports x, or there is none. */
  ghost predicate ParentOk(g: Graph, s: State, x: Name) {
    && Ctx(s, x) in s.live
    && (s.live[Ctx(s, x)] == 0
        || (x !in g.system && exists p :: p in g.imports && x in g.imports[p] && Ctx(s, p) == s.live[Ctx(s, x)]))
  }

  ghost predicate Owned(s: State, id: nat) {
    exists x :: x in s.ctx && s.ctx[x] == id
  }

  /** Every context that is live belongs to one module, and no module points at one that is not. */
  ghost predicate Contexts(g: Graph, s: State) {
    && s.next > 0
    && (forall id :: id in s.live ==> 0 < id < s.next && s.live[id] < id && Owned(s, id))
    && (forall x {:trigger ParentOk(g, s, x)} :: Ctx(s, x) != 0 ==> ParentOk(g, s, x))
    && (forall x, y :: x != y && Ctx(s, x) != 0 ==> Ctx(s, x) != Ctx(s, y))
  }

  lemma NewContext(g: Graph, s: State, m: Name, k: nat)
    requires Acyclic(g) && m in g.imports && k < Imports(g, m) && Contexts(g, s)
    requires Import(g, m, k) !in g.system && Ctx(s, Import(g, m, k)) == 0
    ensures Contexts(g, NewCtx(s, Import(g, m, k), Ctx(s, m)))
  {
    var i := Import(g, m, k);
    var t := NewCtx(s, i, Ctx(s, m));
    if Ctx(s, m) != 0 { assert ParentOk(g, s, m); }
    assert Ctx(t, m) == Ctx(s, m);
    forall x | Ctx(t, x) != 0 ensures ParentOk(g, t, x) {
      if x != i {
        assert ParentOk(g, s, x);
        if s.live[Ctx(s, x)] != 0 {
          var p :| p in g.imports && x in g.imports[p] && Ctx(s, p) == s.live[Ctx(s, x)];
          assert Ctx(t, p) == Ctx(s, p);
        }
      }
    }
    forall id | id in t.live ensures Owned(t, id) {
      if id == s.next {
        assert t.ctx[i] == id;
      } else {
        assert Owned(s, id);
        var x :| x in s.ctx && s.ctx[x] == id;
        assert t.ctx[x] == id;
      }
    }
    forall x | Ctx(s, x) != 0 ensures Ctx(s, x) < s.next { assert ParentOk(g, s, x); }
    forall x, y | x != y && Ctx(t, x) != 0 ensures Ctx(t, x) != Ctx(t, y) {
      assert Ctx(t, x) == (if x == i then s.next else Ctx(s, x)) && Ctx(t, y) == (if y == i then s.next else Ctx(s, y));
    }
  }

  /** What m's init may find started has given contexts to all it imports. */
  ghost predicate Served(g: Graph, s: State, m: Name)
    requires Acyclic(g) && m in g.imports
  {
    forall x, y :: x in s.started && x in g.imports && Reach(g, m, x) && Reach(g, x, y) && y != x && y !in g.system ==> Ctx(s, y) != 0
  }

  ghost predicate ServedFrom(g: Graph, s: State, m: Name, lo: nat)
    requires Acyclic(g) && m in g.imports && lo <= Imports(g, m)
  {
    forall x, y :: x in s.started && x in g.imports && Through(g, m, lo, Imports(g, m), x) && Reach(g, x, y) && y != x && y !in g.system
              ==> Ctx(s, y) != 0
  }

  // Contexts stay as they are, and are added where they are missing.

  ghost predicate OpenedGain(g: Graph, s: State, t: State, i: Name) {
    forall x {:trigger Ctx(t, x)} :: (Ctx(s, x) != 0 ==> Ctx(t, x) == Ctx(s, x)) && (Ctx(t, x) != 0 <==> Ctx(s, x) != 0 || (x == i && x !in g.system))
  }

  ghost predicate InitGain(g: Graph, s: State, t: State, m: Name)
    requires Acyclic(g) && m in g.imports
  {
    forall x {:trigger Ctx(t, x)} :: (Ctx(s, x) != 0 ==> Ctx(t, x) == Ctx(s, x)) && (Ctx(t, x) != 0 <==> Ctx(s, x) != 0 || (Reach(g, m, x) && x != m && x !in g.system))
  }

  ghost predicate ImportsGainContexts(g: Graph, s: State, t: State, m: Name, k: nat)
    requires Acyclic(g) && m in g.imports && k <= Imports(g, m)
  {
    forall x {:trigger Ctx(t, x)} :: (Ctx(s, x) != 0 ==> Ctx(t, x) == Ctx(s, x)) && (Ctx(t, x) != 0 <==> Ctx(s, x) != 0 || (Through(g, m, k, Imports(g, m), x) && x !in g.system))
  }

  ghost predicate Quiet(s: State, t: State) {
    t.exited == s.exited && t.freed == s.freed
  }

  lemma ServedNext(g: Graph, s: State, t: State, m: Name, k: nat)
    requires Acyclic(g) && m in g.imports && k < Imports(g, m) && ServedFrom(g, s, m, k) && InitGains(g, s, t, Import(g, m, k))
    requires InitGain(g, s, t, Import(g, m, k))
    ensures ServedFrom(g, t, m, k + 1)
  {
    var i := Import(g, m, k);
    forall x, y | x in t.started && x in g.imports && Through(g, m, k + 1, Imports(g, m), x) && Reach(g, x, y) && y != x && y !in g.system
      ensures Ctx(t, y) != 0
    {
      ThroughMore(g, m, k, k, Imports(g, m), x);
      var had, has := Ctx(s, y), Ctx(t, y);
      if x !in s.started {
        ReachTrans(g, i, x, y);
        ReachRank(g, x, y);
        if x != i { ReachRank(g, i, x); }
      }
    }
  }

  // The same for a call and for the rest of a loop, each as one notion.

  ghost predicate Ready(g: Graph, s: State, m: Name)
    requires Acyclic(g) && m in g.imports
  {
    exists t :: t == s && Tidy(g, t) && Finished(g, t, m) && Contexts(g, t) && Served(g, t, m)
  }

  ghost predicate ReadyFrom(g: Graph, s: State, m: Name, k: nat)
    requires Acyclic(g) && m in g.imports && k <= Imports(g, m)
  {
    exists t :: t == s && Tidy(g, t) && FinishedFrom(g, t, m, k) && Contexts(g, t) && ServedFrom(g, t, m, k)
  }

  ghost predicate Provided(g: Graph, s: State, t: State, m: Name)
    requires Acyclic(g) && m in g.imports
  {
    exists u :: u == t && Contexts(g, u) && Quiet(s, u) && InitGain(g, s, u, m)
  }

  ghost predicate ProvidedFrom(g: Graph, s: State, t: State, m: Name, k: nat)
    requires Acyclic(g) && m in g.imports && k <= Imports(g, m)
  {
    exists u :: u == t && Contexts(g, u) && Quiet(s, u) && ImportsGainContexts(g, s, u, m, k)
  }

  ghost predicate OpenedWell(g: Graph, s: State, t: State, i: Name) {
    exists u :: u == t && Quiet(s, u) && OpenedGain(g, s, u, i)
  }

  lemma {:induction false} ImportsGetContexts(g: Graph, s: State, m: Name, k: nat)
    requires Acyclic(g) && m in g.imports && k <= Imports(g, m) && ReadyFrom(g, s, m, k)
    ensures ProvidedFrom(g, s, RunImports(g, s, m, k), m, k)
    decreases Rank(g, m), 0, Imports(g, m) - k
  {
    if k < Imports(g, m) {
      var i := Import(g, m, k);
      var s1 := Opened(g, s, m, k);
      OpenedReady(g, s, m, k);
      InitProvides(g, s1, i);
      var s2 := RunInit(g, s1, i);
      NextReady(g, s1, m, k);
      ImportsGetContexts(g, s2, m, k + 1);
      ContextsJoin(g, s, s1, s2, RunImports(g, s2, m, k + 1), m, k);
    } else {
      NothingProvided(g, s, m, k);
    }
  }

  lemma NothingProvided(g: Graph, s: State, m: Name, k: nat)
    requires Acyclic(g) && m in g.imports && k == Imports(g, m) && ReadyFrom(g, s, m, k)
    ensures ProvidedFrom(g, s, s, m, k)
  {
    assert ImportsGainContexts(g, s, s, m, k);
  }

  lemma OpenedReady(g: Graph, s: State, m: Name, k: nat)
    requires Acyclic(g) && m in g.imports && k < Imports(g, m) && ReadyFrom(g, s, m, k)
    ensures var t, i := Opened(g, s, m, k), Import(g, m, k);
            ReadyFrom(g, t, m, k) && Ready(g, t, i) && OpenedWell(g, s, t, i)
  {
    OpenedFacts(g, s, m, k);
  }

  lemma NextReady(g: Graph, s: State, m: Name, k: nat)
    requires Acyclic(g) && m in g.imports && k < Imports(g, m) && ReadyFrom(g, s, m, k)
    requires Ready(g, s, Import(g, m, k)) && Provided(g, s, RunInit(g, s, Import(g, m, k)), Import(g, m, k))
    ensures ReadyFrom(g, RunInit(g, s, Import(g, m, k)), m, k + 1)
  {
    var i := Import(g, m, k);
    var t := RunInit(g, s, i);
    InitInOrder(g, s, i);
    FinishedNext(g, s, t, m, k);
    ServedNext(g, s, t, m, k);
  }

  lemma ContextsJoin(g: Graph, s: State, s1: State, s2: State, t: State, m: Name, k: nat)
    requires Acyclic(g) && m in g.imports && k < Imports(g, m) && OpenedWell(g, s, s1, Import(g, m, k))
    requires Provided(g, s1, s2, Import(g, m, k)) && ProvidedFrom(g, s2, t, m, k + 1)
    ensures ProvidedFrom(g, s, t, m, k)
  {
    GainsJoin(g, s, s1, s2, t, m, k);
  }

  lemma GainsJoin(g: Graph, s: State, s1: State, s2: State, t: State, m: Name, k: nat)
    requires Acyclic(g) && m in g.imports && k < Imports(g, m) && OpenedGain(g, s, s1, Import(g, m, k))
    requires InitGain(g, s1, s2, Import(g, m, k)) && ImportsGainContexts(g, s2, t, m, k + 1)
    ensures ImportsGainContexts(g, s, t, m, k)
  {
    var i := Import(g, m, k);
    forall x ensures (Ctx(s, x) != 0 ==> Ctx(t, x) == Ctx(s, x)) && (Ctx(t, x) != 0 <==> Ctx(s, x) != 0 || (Through(g, m, k, Imports(g, m), x) && x !in g.system)) {
      ThroughMore(g, m, k, k, Imports(g, m), x);
      assert Reach(g, i, i);
      var c1, c2, c3 := Ctx(s1, x), Ctx(s2, x), Ctx(t, x);
    }
  }

  lemma OpenedFacts(g: Graph, s: State, m: Name, k: nat)
    requires Acyclic(g) && m in g.imports && k < Imports(g, m) && Tidy(g, s) && FinishedFrom(g, s, m, k)
    requires Contexts(g, s) && ServedFrom(g, s, m, k)
    ensures var t, i := Opened(g, s, m, k), Import(g, m, k);
            && Tidy(g, t) && FinishedFrom(g, t, m, k) && ServedFrom(g, t, m, k) && Contexts(g, t) && Quiet(s, t)
            && Finished(g, t, i) && Served(g, t, i)
            && OpenedGain(g, s, t, i)
  {
    var t, i := Opened(g, s, m, k), Import(g, m, k);
    if i !in g.system && Ctx(s, i) == 0 { NewContext(g, s, m, k); }
    assert OpenedGain(g, s, t, i);
    assert FinishedFrom(g, t, m, k);
    assert forall x :: Ctx(s, x) != 0 ==> Ctx(t, x) != 0;
    assert ServedFrom(g, t, m, k);
    FinishedImport(g, t, m, k);
    forall x, y | x in t.started && x in g.imports && Reach(g, i, x) && Reach(g, x, y) && y != x && y !in g.system
      ensures Ctx(t, y) != 0
    {
      assert Through(g, m, k, Imports(g, m), x);
    }
  }

  /** Init gives a context to every non-system module below m, once, under the context of a module that imports it. */
  lemma InitGivesContexts(g: Graph, s: State, m: Name)
    requires Acyclic(g) && m in g.imports && Tidy(g, s) && Finished(g, s, m) && Contexts(g, s) && Served(g, s, m)
    ensures var t := RunInit(g, s, m);
            Contexts(g, t) && Quiet(s, t) && InitGain(g, s, t, m)
  {
    InitProvides(g, s, m);
  }

  lemma {:induction false} InitProvides(g: Graph, s: State, m: Name)
    requires Acyclic(g) && m in g.imports && Ready(g, s, m)
    ensures Provided(g, s, RunInit(g, s, m), m)
    decreases Rank(g, m), 1, 0
  {
    if m in s.started {
      AlreadyProvided(g, s, m);
    } else {
      var s1 := s.(started := s.started + {m});
      MarkedReady(g, s, m);
      ImportsGetContexts(g, s1, m, 0);
      InitDone(g, s, RunImports(g, s1, m, 0), m);
    }
  }

  lemma AlreadyProvided(g: Graph, s: State, m: Name)
    requires Acyclic(g) && m in g.imports && Ready(g, s, m) && m in s.started
    ensures Provided(g, s, s, m)
  {
    assert Reach(g, m, m);
    assert InitGain(g, s, s, m);
  }

  lemma MarkedReady(g: Graph, s: State, m: Name)
    requires Acyclic(g) && m in g.imports && Ready(g, s, m) && m !in s.started
    ensures ReadyFrom(g, s.(started := s.started + {m}), m, 0)
  {
    var s1 := s.(started := s.started + {m});
    MarkedFinished(g, s, m);
    SameContexts(g, s, s1);
    MarkedServed(g, s, m);
  }

  lemma InitDone(g: Graph, s: State, u: State, m: Name)
    requires Acyclic(g) && m in g.imports && ProvidedFrom(g, s.(started := s.started + {m}), u, m, 0)
    ensures Provided(g, s, u.(ready := u.ready + [m]), m)
  {
    var s1, t := s.(started := s.started + {m}), u.(ready := u.ready + [m]);
    SameContexts(g, u, t);
    forall x ensures (Ctx(s, x) != 0 ==> Ctx(t, x) == Ctx(s, x)) && (Ctx(t, x) != 0 <==> Ctx(s, x) != 0 || (Reach(g, m, x) && x != m && x !in g.system)) {
      ThroughAll(g, m, x);
      var had, has := Ctx(s1, x), Ctx(u, x);
    }
    assert InitGain(g, s, t, m);
  }

  lemma SameContexts(g: Graph, s: State, t: State)
    requires Contexts(g, s) && t.ctx == s.ctx && t.live == s.live && t.next == s.next
    ensures Contexts(g, t)
  {
    forall x | Ctx(t, x) != 0 ensures ParentOk(g, t, x) {
      assert ParentOk(g, s, x);
      if s.live[Ctx(s, x)] != 0 {
        var p :| p in g.imports && x in g.imports[p] && Ctx(s, p) == s.live[Ctx(s, x)];
        assert Ctx(t, p) == Ctx(s, p);
      }
    }
    forall id | id in t.live ensures Owned(t, id) { assert Owned(s, id); }
    forall x, y | x != y && Ctx(t, x) != 0 ensures Ctx(t, x) != Ctx(t, y) {
      assert Ctx(t, x) == Ctx(s, x) && Ctx(t, y) == Ctx(s, y);
    }
  }

  lemma MarkedServed(g: Graph, s: State, m: Name)
    requires Acyclic(g) && m in g.imports && Served(g, s, m)
    ensures ServedFrom(g, s.(started := s.started + {m}), m, 0)
  {
    var t := s.(started := s.started + {m});
    forall x, y | x in t.started && x in g.imports && Through(g, m, 0, Imports(g, m), x) && Reach(g, x, y) && y != x && y !in g.system
      ensures Ctx(t, y) != 0
    {
      ThroughAll(g, m, x);
      assert Ctx(s, y) != 0;
    }
  }
}
