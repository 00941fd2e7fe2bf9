/** Under which context each module's context hangs after the init of a whole program. */
module ModuleContexts {
  import opened ModuleGraph
  import opened ModuleInit
  import opened ModuleRun

  /** Module `of` is imported by `importer`. */
  datatype Opening = Opening(of: Name, importer: Name)

  /** The imports met on the walk from m, each before what it leads to; shared ones again and again. */
  function Openings(g: Graph, m: Name): seq<Opening>
    requires Acyclic(g) && m in g.imports
    decreases Rank(g, m), 1, 0
  {
    OpeningsFrom(g, m, 0)
  }

  function OpeningsFrom(g: Graph, m: Name, k: nat): seq<Opening>
    requires Acyclic(g) && m in g.imports && k <= Imports(g, m)
    decreases Rank(g, m), 0, Imports(g, m) - k
  {
    if k == Imports(g, m) then []
    else [Opening(Import(g, m, k), m)] + Openings(g, Import(g, m, k)) + OpeningsFrom(g, m, k + 1)
  }

  predicate Listed(walk: seq<Opening>, x: Name) {
    exists i :: 0 <= i < |walk| && walk[i].of == x
  }

  /** The module from which the walk first comes to x. */
  function FirstBy(walk: seq<Opening>, x: Name): Name
    requires Listed(walk, x)
  {
    if walk[0].of == x then walk[0].importer
    else
      assert exists i :: 0 <= i < |walk[1..]| && walk[1..][i].of == x by {
        var i :| 0 <= i < |walk| && walk[i].of == x;
        assert walk[1..][i - 1].of == x;
      }
      FirstBy(walk[1..], x)
  }

  lemma {:induction false} FirstJoin(u: seq<Opening>, v: seq<Opening>, x: Name)
    ensures Listed(u + v, x) <==> Listed(u, x) || Listed(v, x)
    ensures Listed(u, x) ==> FirstBy(u + v, x) == FirstBy(u, x)
    ensures Listed(v, x) && !Listed(u, x) ==> FirstBy(u + v, x) == FirstBy(v, x)
    decreases |u|
  {
    ListedJoin(u, v, x);
    if u == [] {
      assert u + v == v;
    } else {
      assert (u + v)[1..] == u[1..] + v && (u + v)[0] == u[0];
      FirstJoin(u[1..], v, x);
      ListedRest(u, x);
    }
  }

  lemma ListedJoin(u: seq<Opening>, v: seq<Opening>, x: Name)
    ensures Listed(u + v, x) <==> Listed(u, x) || Listed(v, x)
  {
    if Listed(u, x) {
      var i :| 0 <= i < |u| && u[i].of == x;
      assert (u + v)[i].of == x;
    }
    if Listed(v, x) {
      var i :| 0 <= i < |v| && v[i].of == x;
      assert (u + v)[|u| + i].of == x;
    }
  }

  lemma ListedRest(u: seq<Opening>, x: Name)
    requires u != []
    ensures Listed(u, x) <==> u[0].of == x || Listed(u[1..], x)
  {
    assert u == [u[0]] + u[1..];
    ListedJoin([u[0]], u[1..], x);
    assert Listed([u[0]], x) <==> [u[0]][0].of == x;
  }

  lemma {:induction false} FirstByMember(walk: seq<Opening>, x: Name)
    requires Listed(walk, x)
    ensures exists i :: 0 <= i < |walk| && walk[i] == Opening(x, FirstBy(walk, x))
    decreases |walk|
  {
    ListedRest(walk, x);
    if walk[0].of == x {
      assert walk[0] == Opening(x, FirstBy(walk, x));
    } else {
      FirstByMember(walk[1..], x);
      var i :| 0 <= i < |walk[1..]| && walk[1..][i] == Opening(x, FirstBy(walk[1..], x));
      assert walk[i + 1] == Opening(x, FirstBy(walk, x));
    }
  }

  // ----- what is met lies below -----

  ghost predicate MetBelow(g: Graph, m: Name, e: Opening)
    requires Acyclic(g) && m in g.imports
  {
    Reach(g, m, e.importer) && Reach(g, m, e.of) && e.of != m && e.importer in g.imports
  }

  lemma MetThrough(g: Graph, m: Name, k: nat, e: Opening)
    requires Acyclic(g) && m in g.imports && k < Imports(g, m) && MetBelow(g, Import(g, m, k), e)
    ensures MetBelow(g, m, e)
  {
    ReachImport(g, m, k, e.importer);
    ReachImport(g, m, k, e.of);
  }

  lemma {:induction false} OpeningsBelow(g: Graph, m: Name)
    requires Acyclic(g) && m in g.imports
    ensures forall i :: 0 <= i < |Openings(g, m)| ==> MetBelow(g, m, Openings(g, m)[i])
    decreases Rank(g, m), 1, 0
  {
    OpeningsFromBelow(g, m, 0);
  }

  lemma {:induction false} OpeningsFromBelow(g: Graph, m: Name, k: nat)
    requires Acyclic(g) && m in g.imports && k <= Imports(g, m)
    ensures forall i :: 0 <= i < |OpeningsFrom(g, m, k)| ==> MetBelow(g, m, OpeningsFrom(g, m, k)[i])
    decreases Rank(g, m), 0, Imports(g, m) - k
  {
    if k < Imports(g, m) {
      var c := Import(g, m, k);
      OpeningsBelow(g, c);
      OpeningsFromBelow(g, m, k + 1);
      assert Reach(g, c, c) && Reach(g, m, m);
      ReachImport(g, m, k, c);
      forall i | 0 <= i < |Openings(g, c)| ensures MetBelow(g, m, Openings(g, c)[i]) { MetThrough(g, m, k, Openings(g, c)[i]); }
    }
  }

  // ----- what init keeps -----

  /** x has no context yet, or hangs where the walk first came from. */
  ghost predicate PlacedAt(s: State, main: Name, walk: seq<Opening>, x: Name) {
    Ctx(s, x) != 0 && x != main ==> Listed(walk, x) && Ctx(s, x) in s.live && s.live[Ctx(s, x)] == Ctx(s, FirstBy(walk, x))
  }

  ghost predicate OpenedAt(g: Graph, s: State, walk: seq<Opening>, x: Name) {
    Listed(walk, x) && x !in g.system ==> Ctx(s, x) != 0
  }

  ghost predicate Placed(g: Graph, s: State, main: Name, walk: seq<Opening>) {
    && (forall x {:trigger PlacedAt(s, main, walk, x)} :: PlacedAt(s, main, walk, x))
    && (forall x {:trigger OpenedAt(g, s, walk, x)} :: OpenedAt(g, s, walk, x))
    && (forall x :: x in s.started && x != main ==> Listed(walk, x))
    && (forall i :: 0 <= i < |walk| ==> walk[i].importer in s.started)
    && Ctx(s, main) in s.live && s.live[Ctx(s, main)] == 0 && Ctx(s, main) != 0
  }

  /** Meeting again what is known changes nothing. */
  lemma PlacedKnown(g: Graph, s: State, main: Name, walk: seq<Opening>, more: seq<Opening>)
    requires Placed(g, s, main, walk) && forall i :: 0 <= i < |more| ==> more[i].importer in s.started && Listed(walk, more[i].of)
    ensures Placed(g, s, main, walk + more)
  {
    var all := walk + more;
    forall x ensures PlacedAt(s, main, all, x) && OpenedAt(g, s, all, x) && (Listed(all, x) <==> Listed(walk, x)) {
      FirstJoin(walk, more, x);
      if Listed(more, x) {
        var i :| 0 <= i < |more| && more[i].of == x;
      }
      assert PlacedAt(s, main, walk, x) && OpenedAt(g, s, walk, x);
    }
  }

  /** One import: its context is made under the importer's, if there is none yet. */
  lemma PlacedOpened(g: Graph, s: State, main: Name, walk: seq<Opening>, m: Name, k: nat)
    requires Acyclic(g) && m in g.imports && k < Imports(g, m) && Placed(g, s, main, walk) && Contexts(g, s)
    requires m in s.started && Import(g, m, k) != main && Import(g, m, k) != m
    ensures Placed(g, Opened(g, s, m, k), main, walk + [Opening(Import(g, m, k), m)])
  {
    var i, t := Import(g, m, k), Opened(g, s, m, k);
    var all := walk + [Opening(i, m)];
    if i !in g.system && Ctx(s, i) == 0 {
      NotYetListed(g, s, main, walk, i);
      forall x ensures PlacedAt(t, main, all, x) && OpenedAt(g, t, all, x) { PlacedNew(g, s, main, walk, m, i, x); }
      assert t.live == s.live[s.next := Ctx(s, m)];
      assert Ctx(s, main) != s.next;
    } else {
      forall x ensures PlacedAt(t, main, all, x) && OpenedAt(g, t, all, x) { PlacedOld(g, s, main, walk, m, i, x); }
    }
    forall x | x in t.started && x != main ensures Listed(all, x) { FirstJoin(walk, [Opening(i, m)], x); }
  }

  lemma NotYetListed(g: Graph, s: State, main: Name, walk: seq<Opening>, i: Name)
    requires Placed(g, s, main, walk) && i !in g.system && Ctx(s, i) == 0 && i != main
    ensures !Listed(walk, i) && i !in s.started
  {
    assert OpenedAt(g, s, walk, i);
  }

  lemma PlacedNew(g: Graph, s: State, main: Name, walk: seq<Opening>, m: Name, i: Name, x: Name)
    requires Placed(g, s, main, walk) && Contexts(g, s) && i !in g.system && Ctx(s, i) == 0 && i != main && i != m
    requires !Listed(walk, i) && i !in s.started
    ensures var t, all := NewCtx(s, i, Ctx(s, m)), walk + [Opening(i, m)]; PlacedAt(t, main, all, x) && OpenedAt(g, t, all, x)
  {
    var e := [Opening(i, m)];
    FirstJoin(walk, e, x);
    assert Listed(e, x) <==> e[0].of == x;
    assert PlacedAt(s, main, walk, x) && OpenedAt(g, s, walk, x);
    if Ctx(s, x) != 0 && x != main && x != i {
      FirstByMember(walk, x);
      assert Ctx(s, x) in s.live;
    }
  }

  lemma PlacedOld(g: Graph, s: State, main: Name, walk: seq<Opening>, m: Name, i: Name, x: Name)
    requires Placed(g, s, main, walk) && (i in g.system || Ctx(s, i) != 0) && i != main
    ensures var all := walk + [Opening(i, m)]; PlacedAt(s, main, all, x) && OpenedAt(g, s, all, x)
  {
    var e := [Opening(i, m)];
    FirstJoin(walk, e, x);
    assert Listed(e, x) <==> e[0].of == x;
    assert PlacedAt(s, main, walk, x) && OpenedAt(g, s, walk, x);
  }

  lemma {:induction false} InitPlaces(g: Graph, s: State, main: Name, m: Name, walk: seq<Opening>)
    requires Acyclic(g) && main in g.imports && m in g.imports && Rank(g, m) <= Rank(g, main) && Ready(g, s, m)
    requires Placed(g, s, main, walk) && (m == main || Listed(walk, m))
    ensures Placed(g, RunInit(g, s, m), main, walk + Openings(g, m))
    decreases Rank(g, m), 1, 0
  {
    if m in s.started {
      RevisitPlaces(g, s, main, m, walk);
    } else {
      var s1 := s.(started := s.started + {m});
      MarkedReady(g, s, m);
      PlacedSame(g, s, s1, main, walk);
      ImportsPlace(g, s1, main, m, 0, walk);
      PlacedSame(g, RunImports(g, s1, m, 0), RunInit(g, s, m), main, walk + Openings(g, m));
    }
  }

  lemma PlacedSame(g: Graph, s: State, t: State, main: Name, walk: seq<Opening>)
    requires Placed(g, s, main, walk) && t.ctx == s.ctx && t.live == s.live && s.started <= t.started
    requires forall x :: x in t.started && x !in s.started && x != main ==> Listed(walk, x)
    ensures Placed(g, t, main, walk)
  {
    forall x ensures PlacedAt(t, main, walk, x) && OpenedAt(g, t, walk, x) {
      assert PlacedAt(s, main, walk, x) && OpenedAt(g, s, walk, x);
    }
  }

  lemma RevisitPlaces(g: Graph, s: State, main: Name, m: Name, walk: seq<Opening>)
    requires Acyclic(g) && main in g.imports && m in g.imports && Rank(g, m) <= Rank(g, main) && Ready(g, s, m) && m in s.started
    requires Placed(g, s, main, walk)
    ensures Placed(g, s, main, walk + Openings(g, m))
  {
    OpeningsBelow(g, m);
    var more := Openings(g, m);
    forall i | 0 <= i < |more| ensures more[i].importer in s.started && Listed(walk, more[i].of) {
      assert MetBelow(g, m, more[i]);
      RevisitKnown(g, s, main, m, more[i]);
    }
    PlacedKnown(g, s, main, walk, more);
  }

  lemma RevisitKnown(g: Graph, s: State, main: Name, m: Name, e: Opening)
    requires Acyclic(g) && main in g.imports && m in g.imports && Rank(g, m) <= Rank(g, main) && Ready(g, s, m) && m in s.started
    requires MetBelow(g, m, e)
    ensures e.importer in s.started && e.of in s.started && e.of != main
  {
    assert Reach(g, m, m);
    assert Finished(g, s, m) && Tidy(g, s);
    ReachRank(g, m, e.of);
  }

  lemma {:induction false} ImportsPlace(g: Graph, s: State, main: Name, m: Name, k: nat, walk: seq<Opening>)
    requires Acyclic(g) && main in g.imports && m in g.imports && Rank(g, m) <= Rank(g, main) && k <= Imports(g, m) && ReadyFrom(g, s, m, k)
    requires Placed(g, s, main, walk) && m in s.started
    ensures Placed(g, RunImports(g, s, m, k), main, walk + OpeningsFrom(g, m, k))
    decreases Rank(g, m), 0, Imports(g, m) - k
  {
    if k == Imports(g, m) {
      assert walk + [] == walk;
    } else {
      var i, s1 := Import(g, m, k), Opened(g, s, m, k);
      var w1 := walk + [Opening(i, m)];
      BeforeImport(g, s, main, m, k, walk);
      InitPlaces(g, s1, main, i, w1);
      AfterImport(g, s1, m, k);
      ImportsPlace(g, RunInit(g, s1, i), main, m, k + 1, w1 + Openings(g, i));
      WalkJoin(walk, [Opening(i, m)], Openings(g, i), OpeningsFrom(g, m, k + 1));
    }
  }

  lemma WalkJoin(a: seq<Opening>, b: seq<Opening>, c: seq<Opening>, d: seq<Opening>)
    ensures a + (b + c + d) == a + b + c + d
  {
  }

  lemma BeforeImport(g: Graph, s: State, main: Name, m: Name, k: nat, walk: seq<Opening>)
    requires Acyclic(g) && main in g.imports && m in g.imports && Rank(g, m) <= Rank(g, main) && k < Imports(g, m) && ReadyFrom(g, s, m, k)
    requires Placed(g, s, main, walk) && m in s.started
    ensures var i, s1 := Import(g, m, k), Opened(g, s, m, k);
      && i in g.imports && Rank(g, i) < Rank(g, m) && ReadyFrom(g, s1, m, k) && Ready(g, s1, i) && m in s1.started
      && Placed(g, s1, main, walk + [Opening(i, m)]) && Listed(walk + [Opening(i, m)], i)
  {
    ImportBelow(g, m, k);
    OpenedReady(g, s, m, k);
    PlacedOpened(g, s, main, walk, m, k);
    LastListed(walk, Opening(Import(g, m, k), m));
  }

  lemma AfterImport(g: Graph, s: State, m: Name, k: nat)
    requires Acyclic(g) && m in g.imports && k < Imports(g, m) && ReadyFrom(g, s, m, k) && Ready(g, s, Import(g, m, k)) && m in s.started
    ensures var t := RunInit(g, s, Import(g, m, k)); ReadyFrom(g, t, m, k + 1) && m in t.started
  {
    InitProvides(g, s, Import(g, m, k));
    NextReady(g, s, m, k);
    InitKeepsStarted(g, s, Import(g, m, k), m);
  }

  lemma ImportBelow(g: Graph, m: Name, k: nat)
    requires Acyclic(g) && m in g.imports && k < Imports(g, m)
    ensures Import(g, m, k) in g.imports && Rank(g, Import(g, m, k)) < Rank(g, m)
  {
    assert ImportOk(g, m, k);
  }

  lemma LastListed(walk: seq<Opening>, e: Opening)
    ensures Listed(walk + [e], e.of)
  {
    assert (walk + [e])[|walk|] == e;
  }

  lemma InitKeepsStarted(g: Graph, s: State, i: Name, m: Name)
    requires Acyclic(g) && i in g.imports && Ready(g, s, i) && m in s.started
    ensures m in RunInit(g, s, i).started
  {
    InitInOrder(g, s, i);
  }

  // ----- after init -----

  /** Every context given hangs under the context of the module from which the walk first comes to its module; main's
      under none. */
  lemma InitParents(g: Graph, main: Name)
    requires Acyclic(g) && main in g.imports
    ensures var t := RunInit(g, Begin(main), main);
      && Ctx(t, main) in t.live && t.live[Ctx(t, main)] == 0
      && forall x :: Ctx(t, x) != 0 && x != main ==>
           Listed(Openings(g, main), x) && Ctx(t, x) in t.live && t.live[Ctx(t, x)] == Ctx(t, FirstBy(Openings(g, main), x))
  {
    var b := Begin(main);
    BeginReady(g, main);
    forall x ensures PlacedAt(b, main, [], x) && OpenedAt(g, b, [], x) {}
    InitPlaces(g, b, main, main, []);
    var t, walk := RunInit(g, b, main), Openings(g, main);
    assert [] + walk == walk;
    forall x | Ctx(t, x) != 0 && x != main
      ensures Listed(walk, x) && Ctx(t, x) in t.live && t.live[Ctx(t, x)] == Ctx(t, FirstBy(walk, x))
    {
      assert PlacedAt(t, main, walk, x);
    }
  }

  lemma BeginReady(g: Graph, main: Name)
    requires Acyclic(g) && main in g.imports
    ensures Ready(g, Begin(main), main)
  {
    var b := Begin(main);
    assert Ctx(b, main) == 1 && b.ctx[main] == 1;
    forall x | x != main ensures Ctx(b, x) == 0 {}
    forall id | id in b.live ensures Owned(b, id) { assert id == 1; }
    forall x | Ctx(b, x) != 0 ensures ParentOk(g, b, x) {}
    assert Contexts(g, b);
    assert Tidy(g, b) && Finished(g, b, main) && Served(g, b, main);
  }

  /** Exactly the contexts of modules first met in a system module hang under none. */
  lemma NoParentExactly(g: Graph, main: Name, x: Name)
    requires Acyclic(g) && main in g.imports && Ctx(RunInit(g, Begin(main), main), x) != 0 && x != main && main !in g.system
    ensures var t := RunInit(g, Begin(main), main);
      Listed(Openings(g, main), x) && Ctx(t, x) in t.live
      && (t.live[Ctx(t, x)] == 0 <==> FirstBy(Openings(g, main), x) in g.system)
  {
    InitParents(g, main);
    AfterInit(g, main);
    var walk := Openings(g, main);
    FirstByMember(walk, x);
    OpeningsBelow(g, main);
    var i :| 0 <= i < |walk| && walk[i] == Opening(x, FirstBy(walk, x));
    assert MetBelow(g, main, walk[i]);
    var p, b, t := FirstBy(walk, x), Begin(main), RunInit(g, Begin(main), main);
    assert Ctx(b, p) != 0 <==> p == main;
    var c := Ctx(t, p);
  }

  /** The context at the top of the chain over id. */
  ghost function Top(live: map<nat, nat>, id: nat): nat
    requires forall i :: i in live ==> live[i] < i
  {
    if id in live && live[id] != 0 then Top(live, live[id]) else id
  }

  /** If no system module imports others, every chain of contexts ends at main's. */
  lemma {:induction false} ChainsEndAtMain(g: Graph, main: Name, x: Name)
    requires Acyclic(g) && main in g.imports && Ctx(RunInit(g, Begin(main), main), x) != 0 && main !in g.system
    requires forall m :: m in g.imports && m in g.system ==> g.imports[m] == []
    ensures var t := RunInit(g, Begin(main), main);
      (forall i :: i in t.live ==> t.live[i] < i) && Top(t.live, Ctx(t, x)) == Ctx(t, main)
    decreases Ctx(RunInit(g, Begin(main), main), x)
  {
    var t := RunInit(g, Begin(main), main);
    AfterInit(g, main);
    InitParents(g, main);
    if x != main {
      NoParentExactly(g, main, x);
      FirstImports(g, main, x);
      ChainsEndAtMain(g, main, FirstBy(Openings(g, main), x));
    }
  }

  /** The module from which x is met imports it. */
  lemma FirstImports(g: Graph, main: Name, x: Name)
    requires Acyclic(g) && main in g.imports && Listed(Openings(g, main), x)
    ensures var p := FirstBy(Openings(g, main), x); p in g.imports && x in g.imports[p]
  {
    FirstByMember(Openings(g, main), x);
    OpeningsImport(g, main);
  }

  ghost predicate Imported(g: Graph, e: Opening) {
    e.importer in g.imports && e.of in g.imports[e.importer]
  }

  lemma {:induction false} OpeningsImport(g: Graph, m: Name)
    requires Acyclic(g) && m in g.imports
    ensures forall i :: 0 <= i < |Openings(g, m)| ==> Imported(g, Openings(g, m)[i])
    decreases Rank(g, m), 1, 0
  {
    OpeningsFromImport(g, m, 0);
  }

  lemma {:induction false} OpeningsFromImport(g: Graph, m: Name, k: nat)
    requires Acyclic(g) && m in g.imports && k <= Imports(g, m)
    ensures forall i :: 0 <= i < |OpeningsFrom(g, m, k)| ==> Imported(g, OpeningsFrom(g, m, k)[i])
    decreases Rank(g, m), 0, Imports(g, m) - k
  {
    if k < Imports(g, m) {
      ImportBelow(g, m, k);
      OpeningsImport(g, Import(g, m, k));
      OpeningsFromImport(g, m, k + 1);
      assert Imported(g, Opening(Import(g, m, k), m));
    }
  }
}
