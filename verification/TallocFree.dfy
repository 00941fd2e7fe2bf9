/** Freeing as a change of the hierarchy: what the recursion of `_tc_free_internal` and
    `_tc_free_children_internal` keeps, and how its steps add up to `Effect`. */
module TallocFree {
  import opened Basics
  import opened TallocForest
  import opened TallocLinks
  import opened TallocRetry
  import opened TallocRings

  ghost function Live(f: Forest): set<Addr> {
    set a | a in f && !f[a].loose
  }

  // ----- what every free keeps, whatever the references -----

  ghost predicate ShrunkAt(f0: Forest, f: Forest, a: Addr) {
    && a in f0 && a in f
    && f[a].loose == f0[a].loose && f[a].target == f0[a].target
    && (f0[a].refs == [] ==> f[a].refs == [])
    && (f0[a].loose ==> f[a].par == f0[a].par)
  }

  /** Chunks only go away, and none that is already being freed. */
  ghost predicate Shrunk(f0: Forest, f: Forest) {
    && (forall a {:trigger ShrunkAt(f0, f, a)} :: a in f ==> ShrunkAt(f0, f, a))
    && (forall a :: a in f0 && f0[a].loose ==> a in f)
  }

  lemma ShrunkJoin(f0: Forest, f: Forest, f1: Forest)
    requires Shrunk(f0, f) && Shrunk(f, f1)
    ensures Shrunk(f0, f1) && Live(f1) <= Live(f) <= Live(f0)
  {
    forall a | a in f1 ensures ShrunkAt(f0, f1, a) {
      assert ShrunkAt(f, f1, a) && ShrunkAt(f0, f, a);
    }
    forall a | a in f0 && f0[a].loose ensures a in f1 {
      assert ShrunkAt(f0, f, a);
    }
    ShrunkLive(f0, f);
    ShrunkLive(f, f1);
  }

  lemma ShrunkLive(f0: Forest, f: Forest)
    requires Shrunk(f0, f)
    ensures Live(f) <= Live(f0) && f.Keys <= f0.Keys
  {
    forall a | a in f ensures ShrunkAt(f0, f, a) {}
  }

  /** A refused free has dropped references only. */
  ghost predicate Refused(f0: Forest, f: Forest, c: Addr) {
    && c in f0 && f0[c].refs != [] && c in f
    && (forall a :: a in f0 && f0[a].target == 0 ==> a in f)
    && (forall a :: a in f ==> a in f0 && f[a].par == f0[a].par)
  }

  // ----- parents that outlive the free -----

  ghost predicate Anchored(f: Forest, keep: set<Addr>, a: Addr) {
    a in f && (f[a].par == 0 || f[a].par in keep || (f[a].par in f && f[f[a].par].loose))
  }

  ghost predicate KeptAt(f: Forest, keep: set<Addr>, a: Addr) {
    && a in f
    && (a in keep ==> !f[a].loose && f[a].target == 0 && (f[a].par == 0 || f[a].par in keep))
    && (f[a].loose ==> f[a].target == 0 && Anchored(f, keep, a))
  }

  /** The parent of a chunk in `keep` is in `keep`, and the stale parent of a chunk being freed is in `keep` or being
      freed itself: no free below touches it. */
  ghost predicate Kept(f: Forest, keep: set<Addr>) {
    keep <= f.Keys && forall a {:trigger KeptAt(f, keep, a)} :: a in f ==> KeptAt(f, keep, a)
  }

  ghost predicate SamePars(f0: Forest, f: Forest, keep: set<Addr>) {
    forall a :: a in keep ==> a in f0 && a in f && f[a].par == f0[a].par
  }

  /** c ready for its children to be freed: its reference dropped if it is a handle, unlinked and flagged. */
  ghost function Prepared(f: Forest, c: Addr): Forest
    requires c in f && (f[c].target != 0 ==> f[c].target in f)
  {
    Detached(if f[c].target != 0 then Untargeted(f, c) else f, c)
  }

  lemma DetachedShape(f: Forest, c: Addr)
    requires c in f && f[c].par != c
    ensures var g := Detached(f, c);
            && g.Keys == f.Keys && g[c] == f[c].(par := g[c].par, loose := true)
            && (g[c].par == f[c].par || g[c].par == 0)
            && (forall a :: a in f && a != c ==> g[a] == f[a].(kids := g[a].kids))
  {
  }

  lemma DetachedFacts(f: Forest, c: Addr)
    requires Wf(f) && c in f
    ensures var g := Detached(f, c); g.Keys == f.Keys && g[c].loose && forall a :: a in f ==> g[a].target == f[a].target
  {
    assert NodeOk(f, c);
    DetachedShape(f, c);
  }

  lemma UntargetedFacts(f: Forest, c: Addr)
    requires c in f && f[c].target in f && f[c].target != c
    ensures var g := Untargeted(f, c);
            && g[c] == f[c].(target := 0)
            && g[f[c].target] == f[f[c].target].(refs := Without(f[f[c].target].refs, c))
            && (forall a :: a in f && a != c && a != f[c].target ==> g[a] == f[a])
  {
  }

  lemma PreparedIs(f: Forest, c: Addr)
    requires Wf(f) && c in f && !f[c].loose
    ensures f[c].target != 0 ==> f[c].target in f && f[c].target != c
    ensures var g := Prepared(f, c);
            && g.Keys == f.Keys && g[c].loose && g[c].kids == f[c].kids && g[c].refs == f[c].refs && g[c].target == 0
            && (g[c].par == f[c].par || g[c].par == 0)
            && (forall a :: a in f && a != c ==> g[a].par == f[a].par && g[a].loose == f[a].loose && g[a].target == f[a].target)
            && (forall a :: a in f && a != f[c].target ==> g[a].refs == f[a].refs)
            && (f[c].target != 0 ==> g[f[c].target].refs == Without(f[f[c].target].refs, c))
  {
    assert NodeOk(f, c);
    if f[c].target != 0 {
      UntargetedWf(f, c);
      UntargetedFacts(f, c);
      DetachedShape(Untargeted(f, c), c);
    } else {
      DetachedShape(f, c);
    }
  }

  lemma PreparedWf(f: Forest, c: Addr)
    requires Wf(f) && c in f && !f[c].loose
    ensures f[c].target != 0 ==> f[c].target in f && f[c].target != c
    ensures Wf(Prepared(f, c))
  {
    PreparedIs(f, c);
    if f[c].target != 0 { UntargetedWf(f, c); DetachedWf(Untargeted(f, c), c); } else { DetachedWf(f, c); }
  }

  lemma PreparedKept(f: Forest, c: Addr, keep: set<Addr>)
    requires Wf(f) && c in f && !f[c].loose && Kept(f, keep) && c !in keep && Anchored(f, keep, c)
    requires f[c].target == 0
    ensures Kept(Prepared(f, c), keep)
  {
    PreparedIs(f, c);
    var g := Prepared(f, c);
    forall a | a in g ensures KeptAt(g, keep, a) {
      assert KeptAt(f, keep, a);
    }
  }

  lemma WithoutEmpty(s: seq<Addr>, x: Addr)
    requires s == []
    ensures Without(s, x) == []
  {
  }

  /** From the moment c is prepared to the moment it is gone nothing else is lost. */
  lemma PreparedShrunk(f: Forest, c: Addr)
    requires Wf(f) && c in f && !f[c].loose
    ensures f[c].target != 0 ==> f[c].target in f
    ensures Live(Prepared(f, c)) == Live(f) - {c}
    ensures forall a :: a in f && a != c ==> ShrunkAt(f, Prepared(f, c), a)
  {
    PreparedIs(f, c);
    var g := Prepared(f, c);
    forall a | a in f && a != c ensures ShrunkAt(f, g, a) {
      if a == f[c].target && f[a].refs == [] { WithoutEmpty(f[a].refs, c); }
    }
  }

  lemma FreedShrunk(f: Forest, g: Forest, c: Addr)
    requires Wf(f) && c in f && !f[c].loose && (f[c].target != 0 ==> f[c].target in f)
    requires Shrunk(Prepared(f, c), g) && c in g
    ensures Shrunk(f, g - {c}) && Live(g - {c}) < Live(f)
  {
    PreparedIs(f, c);
    PreparedShrunk(f, c);
    ShrunkLive(Prepared(f, c), g);
    assert Live(g - {c}) <= Live(g) && c in Live(f);
    forall a | a in g - {c} ensures ShrunkAt(f, g - {c}, a) {
      assert ShrunkAt(Prepared(f, c), g, a) && ShrunkAt(f, Prepared(f, c), a);
    }
  }

  lemma FreedKept(f: Forest, g: Forest, c: Addr, keep: set<Addr>)
    requires Wf(f) && c in f && !f[c].loose && (f[c].target != 0 ==> f[c].target in f)
    requires Kept(f, keep) && c !in keep && c in g
    requires Shrunk(Prepared(f, c), g) && SamePars(Prepared(f, c), g, keep)
    ensures Kept(g - {c}, keep) && SamePars(f, g - {c}, keep)
  {
    PreparedIs(f, c);
    PreparedShrunk(f, c);
    var p := Prepared(f, c);
    forall a | a in keep ensures a in g - {c} && g[a].par == f[a].par {}
    forall a | a in g - {c} ensures KeptAt(g - {c}, keep, a) {
      assert ShrunkAt(p, g, a) && ShrunkAt(f, p, a) && KeptAt(f, keep, a);
      if a in keep || f[a].loose {
        assert f[a].par != c;
        if f[a].par in f && f[f[a].par].loose { assert ShrunkAt(p, g, f[a].par); }
      }
    }
  }

  // ----- exactly which chunks go -----

  /** f and g agree on every way up to c. */
  ghost predicate SameWays(f: Forest, g: Forest, c: Addr) {
    && g.Keys == f.Keys
    && forall b :: b in f && b != c ==>
         g[b].par == f[b].par && g[b].loose == f[b].loose && (Below(f, b, c) ==> (Weak(g, b, c) <==> Weak(f, b, c)))
  }

  lemma {:induction false} PathPrepared(f: Forest, g: Forest, c: Addr, a: Addr, n: nat)
    requires SameWays(f, g, c)
    ensures Path(f, a, c, n) == Path(g, a, c, n)
    ensures GonePath(f, a, c, n) == GonePath(g, a, c, n)
    decreases n
  {
    if a != c && n > 0 && a in f && !f[a].loose && f[a].par != 0 {
      PathPrepared(f, g, c, f[a].par, n - 1);
      if GonePath(f, f[a].par, c, n - 1) {
        GonePathIsPath(f, f[a].par, c, n - 1);
        assert Path(f, a, c, n);
        assert Below(f, a, c);
      }
    }
  }

  lemma SetsPrepared(f: Forest, g: Forest, c: Addr)
    requires SameWays(f, g, c)
    ensures forall a :: (Below(f, a, c) <==> Below(g, a, c)) && (Gone(f, a, c) <==> Gone(g, a, c)) && (Reached(f, a, c) <==> Reached(g, a, c))
    ensures TopSet(f, c) == TopSet(g, c)
  {
    forall a ensures (Below(f, a, c) <==> Below(g, a, c)) && (Gone(f, a, c) <==> Gone(g, a, c)) {
      forall n: nat ensures Path(f, a, c, n) == Path(g, a, c, n) && GonePath(f, a, c, n) == GonePath(g, a, c, n) {
        PathPrepared(f, g, c, a, n);
      }
    }
    forall a ensures Reached(f, a, c) <==> Reached(g, a, c) {
      if a != c && a in f { assert g[a].par == f[a].par; }
    }
    forall a | a in f ensures Topmost(f, a, c) <==> Topmost(g, a, c) {
      if Reached(f, a, c) {
        GoneIsBelow(f, f[a].par, c);
        BelowStep(f, a, c);
      }
    }
  }

  /** c, unreferenced, about to be freed. */
  ghost predicate Ready(f: Forest, c: Addr) {
    Wf(f) && c in f && !f[c].loose && f[c].target == 0 && f[c].refs == [] && Upright(f, c)
  }

  /** The way up to a chunk below c does not lead through c. */
  lemma {:induction false} WayPrepared(f: Forest, c: Addr, h: Addr, a: Addr, n: nat)
    requires Ready(f, c) && Below(f, a, c) && a != c
    ensures Path(f, h, a, n) <==> Path(Prepared(f, c), h, a, n)
    decreases n
  {
    PreparedIs(f, c);
    if h == c {
      assert Path(f, c, a, n) ==> Path(f, f[c].par, a, n - 1);
      if Path(f, c, a, n) { BelowJoin(f, f[c].par, a, c); }
    } else if h != a && n > 0 && h in f && !f[h].loose && f[h].par != 0 {
      WayPrepared(f, c, f[h].par, a, n - 1);
    }
  }

  lemma OwnPrepared(f: Forest, c: Addr, h: Addr, a: Addr)
    requires Ready(f, c) && Below(f, a, c) && a != c
    ensures Own(f, h, a) <==> Own(Prepared(f, c), h, a)
  {
    forall n: nat ensures Path(f, h, a, n) <==> Path(Prepared(f, c), h, a, n) { WayPrepared(f, c, h, a, n); }
  }

  /** Preparing c changes no reference list, and no handle's parent. */
  lemma RefsPrepared(f: Forest, c: Addr)
    requires Ready(f, c)
    ensures forall a, h :: a in f && h in f[a].refs ==> h in f && h != c && Prepared(f, c)[h].par == f[h].par
    ensures forall a :: a in f ==> Prepared(f, c)[a].refs == f[a].refs
    ensures Prepared(f, c)[c].par == ParentField(f, c)
  {
    PreparedIs(f, c);
    var g := Prepared(f, c);
    assert 0 !in f;
    forall a, h | a in f && h in f[a].refs ensures h in f && h != c && g[h].par == f[h].par {
      assert NodeOk(f, a);
    }
  }

  lemma WeakPrepared(f: Forest, c: Addr, a: Addr)
    requires Ready(f, c) && a in f && Below(f, a, c) && a != c
    ensures var g := Prepared(f, c); (Weak(f, a, c) <==> Weak(g, a, c)) && (Troubled(f, a) <==> Troubled(g, a))
    ensures OwnOnly(f, a) <==> OwnOnly(Prepared(f, c), a)
  {
    var g := Prepared(f, c);
    PreparedIs(f, c);
    RefsPrepared(f, c);
    forall h | h in f[a].refs ensures Own(f, h, a) <==> Own(g, h, a) { OwnPrepared(f, c, h, a); }
    assert AllOwn(f, f[a].refs, a) <==> AllOwn(g, f[a].refs, a);
    if f[a].refs != [] { assert f[a].refs[0] in f[a].refs; }
  }

  lemma PreparedWays(f: Forest, c: Addr)
    requires Ready(f, c)
    ensures SameWays(f, Prepared(f, c), c)
  {
    PreparedIs(f, c);
    var g := Prepared(f, c);
    forall b | b in f && b != c && Below(f, b, c) ensures Weak(g, b, c) <==> Weak(f, b, c) {
      WeakPrepared(f, c, b);
    }
  }

  lemma OwnHandlePrepared(f: Forest, c: Addr, a: Addr)
    requires Ready(f, c)
    ensures OwnHandle(f, a, c) <==> OwnHandle(Prepared(f, c), a, c)
  {
    var g := Prepared(f, c);
    PreparedIs(f, c);
    PreparedWays(f, c);
    RefsPrepared(f, c);
    SetsPrepared(f, g, c);
    if a in f && f[a].target in f && f[a].target != c && Gone(f, f[a].target, c) {
      GoneIsBelow(f, f[a].target, c);
      OwnPrepared(f, c, a, f[a].target);
    }
  }

  lemma DoomedPrepared(f: Forest, c: Addr)
    requires Ready(f, c)
    ensures DoomedSet(f, c) == DoomedSet(Prepared(f, c), c) && c in DoomedSet(f, c)
  {
    PreparedIs(f, c);
    PreparedWays(f, c);
    SetsPrepared(f, Prepared(f, c), c);
    GoneSelf(f, c);
    forall a | a in f ensures Doomed(f, a, c) <==> Doomed(Prepared(f, c), a, c) { OwnHandlePrepared(f, c, a); }
  }

  /** The way up from outside c's subtree, before and after unlinking c. */
  lemma {:induction false} ChainPrepared(f: Forest, g: Forest, c: Addr, h: Addr, b: Addr, n: nat)
    requires g.Keys == f.Keys && !Below(f, h, c) && Path(g, h, b, n)
    requires forall b :: b in f && b != c ==> g[b].par == f[b].par && g[b].loose == f[b].loose
    ensures Path(f, h, b, n)
    decreases n
  {
    if h != b {
      if h == c { assert Path(f, c, c, 0); }
      assert h in g && f.Keys == g.Keys;
      if Below(f, f[h].par, c) { BelowStep(f, h, c); }
      ChainPrepared(f, g, c, f[h].par, b, n - 1);
    }
  }

  lemma OuterHandlePrepared(f: Forest, c: Addr, h: Addr)
    requires Ready(f, c) && OuterHandle(f, h, c)
    ensures OuterHandle(Prepared(f, c), h, c)
  {
    PreparedIs(f, c);
    PreparedWays(f, c);
    var g := Prepared(f, c);
    SetsPrepared(f, g, c);
    assert h != c by { assert Path(f, c, c, 0); }
    forall b | b in g && g[b].loose ensures !Below(g, h, b) {
      if Below(g, h, b) {
        var n: nat :| Path(g, h, b, n);
        ChainPrepared(f, g, c, h, b, n);
      }
    }
  }

  lemma RefOkPrepared(f: Forest, c: Addr, a: Addr, h: Addr)
    requires Ready(f, c) && OuterOrOwn(f, c)
    requires a in f && h in Prepared(f, c)[a].refs && Below(Prepared(f, c), a, c)
    ensures RefOk(Prepared(f, c), c, a, h)
  {
    RefsPrepared(f, c);
    PreparedIs(f, c);
    PreparedWays(f, c);
    SetsPrepared(f, Prepared(f, c), c);
    assert RefOk(f, c, a, h);
    if OuterHandle(f, h, c) { OuterHandlePrepared(f, c, h); }
    OwnPrepared(f, c, h, a);
  }

  lemma UprightPrepared(f: Forest, c: Addr)
    requires Ready(f, c)
    ensures Upright(Prepared(f, c), c)
  {
    PreparedIs(f, c);
    PreparedWays(f, c);
    SetsPrepared(f, Prepared(f, c), c);
  }

  lemma TroublePrepared(f: Forest, c: Addr, a: Addr)
    requires Ready(f, c)
    ensures var g := Prepared(f, c); Reached(f, a, c) && Troubled(f, a) <==> Reached(g, a, c) && Troubled(g, a)
  {
    PreparedIs(f, c);
    PreparedWays(f, c);
    SetsPrepared(f, Prepared(f, c), c);
    if Reached(f, a, c) {
      GoneIsBelow(f, f[a].par, c);
      BelowStep(f, a, c);
      WeakPrepared(f, c, a);
    }
  }

  lemma TamePrepared(f: Forest, c: Addr)
    requires Ready(f, c) && Tame(f, c)
    ensures Tame(Prepared(f, c), c) && (Trouble(f, c) <==> Trouble(Prepared(f, c), c))
  {
    var g := Prepared(f, c);
    PreparedIs(f, c);
    RefsPrepared(f, c);
    forall a, h | a in g && h in g[a].refs && Below(g, a, c) ensures RefOk(g, c, a, h) {
      RefOkPrepared(f, c, a, h);
    }
    UprightPrepared(f, c);
    forall a ensures Reached(f, a, c) && Troubled(f, a) <==> Reached(g, a, c) && Troubled(g, a) { TroublePrepared(f, c, a); }
    forall a | Reached(g, a, c) && Troubled(g, a) ensures g[g[a].refs[0]].par != a {
      assert f[a].refs[0] in f[a].refs;
    }
  }

  /** What holds of c's subtree holds of its children's. */
  lemma OuterOrOwnKid(f: Forest, c: Addr, x: Addr)
    requires Wf(f) && OuterOrOwn(f, c) && c in f && x in f[c].kids && f[c].loose
    ensures OuterOrOwn(f, x) && x in f
  {
    ChildReached(f, c, x);
    assert NodeOk(f, c);
    forall a, h | a in f && h in f[a].refs && Below(f, a, x) ensures RefOk(f, x, a, h) {
      BelowJoin(f, a, x, c);
      assert RefOk(f, c, a, h);
      if Below(f, h, x) { BelowJoin(f, h, x, c); }
    }
  }

  lemma TameKid(f: Forest, c: Addr, x: Addr)
    requires Wf(f) && Tame(f, c) && c in f && x in f[c].kids && f[c].loose && x in f && OwnOnly(f, x)
    ensures Tame(f, x) && (Trouble(f, x) ==> Trouble(f, c))
  {
    OuterOrOwnKid(f, c, x);
    forall a | Reached(f, a, x) ensures Reached(f, a, c) { ReachedLift(f, a, c, x); }
  }

  /** Only c itself is below a chunk without children. */
  lemma LeafSets(f: Forest, c: Addr)
    requires Wf(f) && c in f && f[c].kids == [] && f[c].refs == []
    ensures DoomedSet(f, c) == {c} && TopSet(f, c) == {} && Tame(f, c) && !Trouble(f, c) && OwnOnly(f, c)
  {
    GoneSelf(f, c);
    assert NodeOk(f, c);
    assert AllOwn(f, f[c].refs, c);
    forall a | Below(f, a, c) ensures a == c { NothingBelow(f, a, c); }
    forall a | a in f && Doomed(f, a, c) ensures a == c { DoomedIsBelow(f, a, c); }
    forall a ensures !Reached(f, a, c) { NothingReached(f, a, c); }
  }

  lemma {:induction false} KeepWithout(s: seq<Addr>, x: Addr, k: set<Addr>)
    requires Distinct(s) && (forall y :: y in s && y != x ==> y in k) && x !in k
    ensures Keep(s, k) == Without(s, x)
  {
    if s != [] {
      var t := s[1..];
      assert forall y :: y in t ==> y in s;
      if s[0] == x {
        assert x !in t;
        KeepAll(t, k);
      } else {
        KeepWithout(t, x, k);
      }
    }
  }

  ghost predicate Completing(f: Forest, g: Forest, c: Addr, rel: set<Addr>, dest: Moves) {
    && Ready(f, c)
    && Wf(g) && Progress(Prepared(f, c), g, c, rel, dest) && g[c].kids == []
  }

  lemma HeadPrepared(f: Forest, c: Addr, a: Addr, stale: Addr)
    requires Ready(f, c) && a in f
    ensures HasHead(f, a) <==> HasHead(Prepared(f, c), a)
    ensures HasHead(f, a) ==> Prepared(f, c)[a].refs[0] == f[a].refs[0]
    ensures Adopter(f, a, stale) == Adopter(Prepared(f, c), a, stale)
  {
    RefsPrepared(f, c);
    PreparedIs(f, c);
    if f[a].refs != [] { assert f[a].refs[0] in f[a].refs; }
  }

  lemma DestinationsPrepared(f: Forest, c: Addr)
    requires Ready(f, c)
    ensures Destinations(f, c, ParentField(f, c)) == Destinations(Prepared(f, c), c, Prepared(f, c)[c].par)
  {
    PreparedWays(f, c);
    RefsPrepared(f, c);
    SetsPrepared(f, Prepared(f, c), c);
    forall a | a in TopSet(f, c) ensures Adopter(f, a, ParentField(f, c)) == Adopter(Prepared(f, c), a, ParentField(f, c)) {
      HeadPrepared(f, c, a, ParentField(f, c));
    }
  }

  lemma CompletingSets(f: Forest, g: Forest, c: Addr, rel: set<Addr>, dest: Moves)
    requires Completing(f, g, c, rel, dest)
    ensures rel + {c} == DoomedSet(f, c) && dest == Destinations(f, c, ParentField(f, c)) && c !in dest
  {
    ProgressEnd(Prepared(f, c), g, c, rel, dest);
    DestinationsPrepared(f, c);
    DoomedPrepared(f, c);
  }

  lemma CompletingNode(f: Forest, g: Forest, c: Addr, rel: set<Addr>, dest: Moves, a: Addr)
    requires Completing(f, g, c, rel, dest) && a in g && a != c && a in f
    ensures NodeEffect(f, g - {c}, dest, a)
  {
    PreparedIs(f, c);
    RefsPrepared(f, c);
    assert NodeEffect(Prepared(f, c), g, dest, a) && NodeOk(f, a);
    KeepDrop(f[a].refs, g.Keys, c);
  }

  /** When the children are gone, releasing c completes the effect. */
  lemma FreeCompletes(f: Forest, g: Forest, c: Addr, rel: set<Addr>, dest: Moves)
    requires Completing(f, g, c, rel, dest)
    ensures Effect(f, g - {c}, DoomedSet(f, c), Destinations(f, c, ParentField(f, c)))
  {
    CompletingSets(f, g, c, rel, dest);
    CompletingKeys(f, g, c, rel, dest);
    forall a | a in g - {c} ensures NodeEffect(f, g - {c}, dest, a) {
      CompletingNode(f, g, c, rel, dest, a);
    }
  }

  lemma HeadsPrepared(f: Forest, c: Addr, s: set<Addr>)
    requires Ready(f, c)
    ensures Heads(f, s + {c}) == Heads(Prepared(f, c), s)
  {
    var p := Prepared(f, c);
    PreparedIs(f, c);
    forall h | h in Heads(f, s + {c}) ensures h in Heads(p, s) {
      var a :| a in s + {c} && HasHead(f, a) && f[a].refs[0] == h;
      HeadPrepared(f, c, a, 0);
    }
    forall h | h in Heads(p, s) ensures h in Heads(f, s + {c}) {
      var a :| a in s && HasHead(p, a) && p[a].refs[0] == h;
      HeadPrepared(f, c, a, 0);
    }
  }

  lemma CompletingKeys(f: Forest, g: Forest, c: Addr, rel: set<Addr>, dest: Moves)
    requires Completing(f, g, c, rel, dest) && c !in dest
    ensures forall a :: a in dest ==> HasHead(f, a)
    ensures (g - {c}).Keys == f.Keys - (rel + {c}) - Heads(f, rel + {c} + dest.Keys) && dest.Keys <= (g - {c}).Keys
  {
    PreparedIs(f, c);
    forall a | a in dest ensures HasHead(f, a) {
      HeadPrepared(f, c, a, 0);
    }
    HeadsPrepared(f, c, rel + dest.Keys);
    assert rel + dest.Keys + {c} == rel + {c} + dest.Keys;
  }

  /** An address that occurs nowhere in s may leave k. */
  lemma {:induction false} KeepDrop(s: seq<Addr>, k: set<Addr>, c: Addr)
    requires c !in s
    ensures Keep(s, k) == Keep(s, k - {c})
  {
    if s != [] { KeepDrop(s[1..], k, c); }
  }

  /** The same for a reference handle, which has no children and leaves the list of its target. */
  lemma HandleFreed(f: Forest, c: Addr)
    requires Wf(f) && c in f && !f[c].loose && f[c].target != 0
    ensures f[c].target in f
    ensures Effect(f, Prepared(f, c) - {c}, {c}, map[])
    ensures DoomedSet(f, c) == {c} && TopSet(f, c) == {}
  {
    assert NodeOk(f, c);
    LeafSets(f, c);
    PreparedIs(f, c);
    var g := Prepared(f, c) - {c};
    forall a | a in g ensures NodeEffect(f, g, map[], a) {
      assert NodeOk(f, a);
      if a == f[c].target {
        KeepWithout(f[a].refs, c, g.Keys);
      } else {
        KeepAll(f[a].refs, g.Keys);
      }
    }
  }

  lemma AdoptionShape(f: Forest, fm: Forest, x: Addr, np: Addr)
    requires Wf(f) && Wf(fm) && x in f && f[x].refs != [] && f[x].refs[0] in f && f[x].target == 0
    requires fm.Keys == f.Keys - {f[x].refs[0]} && (np != 0 ==> np in fm) && np != x && !f[x].loose
    ensures x in fm && fm[x].par != x
    ensures var g := Attached(Detached(fm, x), x, np);
            && g.Keys == fm.Keys && g[x] == fm[x].(par := np, loose := false)
            && (forall a :: a in fm && a != x ==> g[a] == fm[a].(kids := g[a].kids))
  {
    var h := f[x].refs[0];
    assert NodeOk(f, x) && NodeOk(f, h) && NodeOk(fm, x);
    DetachedShape(fm, x);
    AttachedShape(Detached(fm, x), x, np);
  }

  /** A referenced child: its newest handle is freed, and it moves. */
  lemma AdoptionEffect(f: Forest, fm: Forest, x: Addr, np: Addr)
    requires Wf(f) && Wf(fm) && x in f && !f[x].loose && f[x].refs != [] && f[x].refs[0] in f && f[x].target == 0
    requires Effect(f, fm, {f[x].refs[0]}, map[]) && fm.Keys == f.Keys - {f[x].refs[0]}
    requires (np != 0 ==> np in fm) && np != x
    ensures x in fm && fm[x].par != x
    ensures Effect(f, Attached(Detached(fm, x), x, np), {}, map[x := np])
  {
    var h, dest := f[x].refs[0], map[x := np];
    AdoptionShape(f, fm, x, np);
    var g := Attached(Detached(fm, x), x, np);
    assert HasHead(f, x) && {} + dest.Keys == {x} && Heads(f, {x}) == {h};
    forall a | a in g ensures NodeEffect(f, g, dest, a) {
      assert NodeEffect(f, fm, map[], a);
    }
  }

  lemma AttachedShape(f: Forest, c: Addr, p: Addr)
    requires c in f && c != p && (p != 0 ==> p in f)
    ensures var g := Attached(f, c, p);
            && g.Keys == f.Keys && g[c] == f[c].(par := p, loose := false)
            && (forall a :: a in f && a != c ==> g[a] == f[a].(kids := g[a].kids))
  {
  }

  lemma FlagLooping(m: Mem, f: Forest, c: Addr)
    requires Linked(m, f) && c in f && f[c].loose
    ensures Linked(m.(looping := m.looping + {c}), f)
  {
  }

  lemma DestructorIs(m: Mem, f: Forest, c: Addr)
    requires Linked(m, f) && c in f
    ensures c in m.destructor <==> f[c].target != 0
  {
  }

  // ----- contracts of the two mutually recursive frees -----

  /** Where h's way up meets a chunk that is being freed. */
  ghost predicate HitsLoose(f: Forest, h: Addr) {
    exists b :: b in f && f[b].loose && Below(f, h, b)
  }

  /** What the loop over the children of c may rely on. */
  ghost predicate Rooted(f: Forest, c: Addr, keep: set<Addr>) {
    Kept(f, keep) && c !in keep && Anchored(f, keep, c)
  }

  /** What freeing c guarantees in every case: r is the result. */
  ghost predicate FreeOutcome(f0: Forest, f: Forest, c: Addr, r: int) {
    && Shrunk(f0, f) && Live(f) < Live(f0)
    && (r == 0 ==> c !in f)
    && (r != 0 ==> r == -1 && Refused(f0, f, c))
    && (c in f0 && f0[c].refs == [] ==> r == 0)
    && RingsStay(f0, f, c)
  }

  /** Exactly what it does to a chunk that no reference keeps, when every reference into c's subtree comes from outside or
      from below its target: unless it comes to a troubled chunk, and then the parents run in a circle afterwards. */
  ghost predicate FreeExact(f0: Forest, f: Forest, c: Addr) {
    c in f0 && OwnOnly(f0, c) && Tame(f0, c) ==>
      if Trouble(f0, c) then Broken(f) else Effect(f0, f, DoomedSet(f0, c), Destinations(f0, c, ParentField(f0, c)))
  }

  /** A chunk is refused exactly when a reference keeps it that is not its own; the newest reference is consumed. */
  ghost predicate RefusalExact(f0: Forest, f: Forest, c: Addr, r: int) {
    c in f0 && OuterOrOwn(f0, c) ==>
      && (r == 0 <==> OwnOnly(f0, c))
      && (!OwnOnly(f0, c) && !Troubled(f0, c) ==> f0[c].refs != [] && Effect(f0, f, {f0[c].refs[0]}, map[]))
  }

  /** A chunk with neither children nor references goes alone. */
  ghost predicate LeafExact(f0: Forest, f: Forest, c: Addr) {
    c in f0 && f0[c].kids == [] && f0[c].refs == [] && (f0[c].target != 0 ==> f0[c].target in f0) ==> f == Prepared(f0, c) - {c}
  }

  ghost predicate StaysKept(f0: Forest, f: Forest, c: Addr, keep: set<Addr>) {
    Kept(f0, keep) && c !in keep ==> Kept(f, keep) && SamePars(f0, f, keep)
  }

  ghost predicate Progressed(f0: Forest, f: Forest, c: Addr) {
    exists rel, dest :: Progress(f0, f, c, rel, dest)
  }

  ghost predicate Rounded(f0: Forest, f: Forest, c: Addr) {
    exists x, rel, dest :: Round(f0, f, c, x, rel, dest)
  }

  /** What the loop over the children of c guarantees. */
  ghost predicate ChildrenOutcome(f0: Forest, f: Forest, c: Addr, keep: set<Addr>) {
    && Shrunk(f0, f) && c in f && f[c].kids == []
    && (c in f0 && f0[c].kids == [] ==> f == f0)
    && (Kept(f0, keep) && c !in keep ==> Kept(f, keep) && SamePars(f0, f, keep))
    && RingsStay(f0, f, c)
    && (Tame(f0, c) ==> if Trouble(f0, c) then Broken(f) else Progressed(f0, f, c))
  }

  /** What one round of that loop guarantees. */
  ghost predicate RoundOutcome(f0: Forest, f: Forest, c: Addr, keep: set<Addr>) {
    && c in f && Shrunk(f0, f) && Live(f) < Live(f0) && Kept(f, keep) && SamePars(f0, f, keep)
    && RingsStay(f0, f, c)
    && (Tame(f0, c) ==> (Broken(f) && Trouble(f0, c)) || Rounded(f0, f, c))
  }

  // ----- a referenced chunk -----

  lemma HandleKeys(f0: Forest, f: Forest, h: Addr)
    requires Effect(f0, f, {h}, map[]) && h in f0 && f0[h].refs == []
    ensures f.Keys == f0.Keys - {h}
    ensures forall a :: a in f ==> f[a].par == f0[a].par && f[a].target == f0[a].target && f[a].loose == f0[a].loose
  {
    var dest: Moves := map[];
    assert Heads(f0, {h} + dest.Keys) == {};
    forall a | a in f ensures f[a].par == f0[a].par && f[a].target == f0[a].target && f[a].loose == f0[a].loose {
      assert NodeEffect(f0, f, dest, a);
    }
  }

  /** Freeing a handle of c takes the handle and nothing else. */
  lemma HandleGone(f0: Forest, f: Forest, c: Addr)
    requires Wf(f0) && c in f0 && f0[c].refs != [] && f0[c].refs[0] in f0
    requires FreeExact(f0, f, f0[c].refs[0])
    ensures Effect(f0, f, {f0[c].refs[0]}, map[])
  {
    assert NodeOk(f0, c) && NodeOk(f0, f0[c].refs[0]);
    LeafSets(f0, f0[c].refs[0]);
    assert Destinations(f0, f0[c].refs[0], ParentField(f0, f0[c].refs[0])) == map[];
  }

  lemma HandleOf(f: Forest, c: Addr, keep: set<Addr>)
    requires Wf(f) && c in f && f[c].refs != [] && Kept(f, keep)
    ensures var h := f[c].refs[0]; h in f && h != 0 && h != c && f[h].target == c && f[h].kids == [] && f[h].refs == []
    ensures !f[f[c].refs[0]].loose && f[c].refs[0] !in keep && f[c].target == 0
  {
    var h := f[c].refs[0];
    assert NodeOk(f, c) && NodeOk(f, h) && KeptAt(f, keep, h) && h in f[c].refs;
  }

  lemma HandleGoneFacts(f0: Forest, f: Forest, c: Addr, h: Addr, keep: set<Addr>)
    requires Effect(f0, f, {h}, map[]) && c in f0 && c != h && h in f0 && !f0[h].loose && f0[h].refs == []
    requires Rooted(f0, c, keep) && Kept(f, keep)
    ensures c in f && f[c].par == f0[c].par && f[c].loose == f0[c].loose && Rooted(f, c, keep)
    ensures forall a :: a in f0 && a != h ==> a in f && f[a].par == f0[a].par && f[a].target == f0[a].target
  {
    HandleKeys(f0, f, h);
    assert KeptAt(f, keep, c);
    if f0[c].par in f0 && f0[f0[c].par].loose {
      assert KeptAt(f0, keep, f0[c].par);
    }
  }

  /** Is the newest reference to c its own? What `talloc_is_parent` answers when all references are in order. */
  lemma OwnIsChild(f: Forest, c: Addr, h: Addr, isChild: bool)
    requires Wf(f) && c in f && h in f[c].refs && h in f && c != 0
    requires isChild == Sees(f, h, c)
    requires isChild ==> Below(f, h, c) || HitsLoose(f, h)
    ensures Own(f, h, c) ==> isChild
    ensures OuterOrOwn(f, c) ==> if isChild then Own(f, h, c) else OuterHandle(f, h, c)
  {
    if Own(f, h, c) {
      var n: nat :| n < TALLOC_MAX_DEPTH && h != c && Path(f, h, c, n);
      PathAncestor(f, h, c, n);
    }
    GoneSelf(f, c);
    assert OuterOrOwn(f, c) ==> RefOk(f, c, c, h);
  }

  lemma NotKeptByNothing(f: Forest, c: Addr, h: Addr)
    requires c in f && h in f[c].refs && !Own(f, h, c)
    ensures !OwnOnly(f, c)
  {
    assert AllOwn(f, f[c].refs, c) ==> Own(f, h, c);
  }

  /** After the handle is gone c is refused: nothing but the handle went. */
  lemma RefusedOutcome(f0: Forest, f: Forest, c: Addr, h: Addr)
    requires Wf(f0) && c in f0 && f0[c].refs != [] && h == f0[c].refs[0] && h in f0 && f0[h].target != 0 && c != h
    requires f0[h].refs == [] && Effect(f0, f, {h}, map[]) && Shrunk(f0, f) && Live(f) < Live(f0) && !Own(f0, h, c)
    ensures FreeOutcome(f0, f, c, -1) && RefusalExact(f0, f, c, -1) && FreeExact(f0, f, c)
  {
    HandleKeys(f0, f, h);
    assert h in f0[c].refs;
    NotKeptByNothing(f0, c, h);
    SparedRings(f0, f, c);
  }

  /** Dropping h leaves c first of its siblings, or not, as it was: h is no sibling. */
  lemma PoppedParentField(f0: Forest, f1: Forest, c: Addr, h: Addr)
    requires Popped(f0, f1, c, h) && Own(f0, h, c) && Upright(f0, c) && !f0[h].loose && LeafExact(f0, f1, h)
    ensures c in f1 && ParentField(f1, c) == ParentField(f0, c)
  {
    PoppedNodes(f0, f1, c, h);
    assert NodeOk(f0, h) && NodeOk(f0, c);
    SiblingNotOwn(f0, c, h);
  }

  lemma SiblingNotOwn(f: Forest, c: Addr, h: Addr)
    requires c in f && Upright(f, c) && Own(f, h, c)
    ensures f[h].par != f[c].par
  {
    var n: nat :| n < TALLOC_MAX_DEPTH && h != c && Path(f, h, c, n);
    assert Path(f, f[h].par, c, n - 1);
  }

  /** The reference came from below c and c is freed again: the outcome is that of the first attempt. */
  lemma RetriedOutcome(f0: Forest, f1: Forest, f: Forest, c: Addr, h: Addr, r: int)
    requires Popped(f0, f1, c, h) && Shrunk(f0, f1) && Live(f1) < Live(f0) && FreeOutcome(f1, f, c, r)
    ensures FreeOutcome(f0, f, c, r)
  {
    ShrunkJoin(f0, f1, f);
    PoppedNodes(f0, f1, c, h);
    SparedRings(f0, f1, c);
    RingsJoin(f0, f1, f, c);
  }

  /** And if every reference was in order the retry frees c exactly when its references all come from below it, with the
      whole effect of that. */
  lemma RetriedExactly(f0: Forest, f1: Forest, f: Forest, c: Addr, h: Addr, r: int)
    requires Popped(f0, f1, c, h) && !f0[h].loose && LeafExact(f0, f1, h) && FreeExact(f1, f, c) && RefusalExact(f1, f, c, r)
    requires OuterOrOwn(f0, c) ==> Own(f0, h, c)
    ensures FreeExact(f0, f, c) && RefusalExact(f0, f, c, r)
  {
    if OuterOrOwn(f0, c) {
      PoppedNodes(f0, f1, c, h);
      PoppedOuterOrOwn(f0, f1, c, h);
      PoppedOwnOnly(f0, f1, c, h, c);
      if OwnOnly(f0, c) && Tame(f0, c) {
        PoppedTame(f0, f1, c, h);
        PoppedTrouble(f0, f1, c, h);
        PoppedParentField(f0, f1, c, h);
        if !Trouble(f0, c) { PoppedEffect(f0, f1, f, c, h, ParentField(f0, c)); }
      }
    }
  }

  // ----- one child -----

  /** The new parent of a refused child is a live chunk that is not a handle. */
  lemma NewParentLives(f0: Forest, f: Forest, c: Addr, x: Addr, keep: set<Addr>)
    requires Wf(f0) && Kept(f0, keep) && x in f0 && f0[x].refs != [] && f0[x].refs[0] in f0 && Refused(f0, f, x)
    requires Shrunk(f0, f) && Kept(f, keep) && c in f && f[c].loose && !f0[f0[x].refs[0]].loose
    ensures var np := f0[f0[x].refs[0]].par; np != 0 ==> np in f && f[np].target == 0
    ensures f[c].par != 0 ==> f[c].par in f && f[f[c].par].target == 0
  {
    var h := f0[x].refs[0];
    var np := f0[h].par;
    assert NodeOk(f0, h);
    if np != 0 {
      assert NodeOk(f0, np);
      assert ShrunkAt(f0, f, np);
    }
    assert KeptAt(f, keep, c);
    if f[c].par in f { assert KeptAt(f, keep, f[c].par); }
  }

  /** Moving x changes the place of x only. */
  lemma StolenFacts(f: Forest, np: Addr, x: Addr, keep: set<Addr>)
    requires Wf(f) && x in f && !f[x].loose && (np != 0 ==> np in f) && Kept(f, keep) && x !in keep
    ensures var g := Stolen(f, np, x);
            && g.Keys == f.Keys && Live(g) == Live(f) && Kept(g, keep) && SamePars(f, g, keep)
            && (forall a :: a in f ==> g[a].loose == f[a].loose && g[a].target == f[a].target && g[a].refs == f[a].refs)
            && (forall a :: a in f && a != x ==> g[a].par == f[a].par)
  {
    var g := Stolen(f, np, x);
    assert NodeOk(f, x);
    DetachedShape(f, x);
    if g != f { AttachedShape(Detached(f, x), x, np); }
    forall a | a in f
      ensures g[a].loose == f[a].loose && g[a].target == f[a].target && g[a].refs == f[a].refs && (a != x ==> g[a].par == f[a].par)
    {
    }
    forall a | a in g ensures KeptAt(g, keep, a) {
      assert KeptAt(f, keep, a);
    }
  }

  lemma StolenShrunk(f0: Forest, f: Forest, g: Forest, x: Addr)
    requires Shrunk(f0, f) && x in f && !f[x].loose && g.Keys == f.Keys
    requires forall a :: a in f ==> g[a].loose == f[a].loose && g[a].target == f[a].target && g[a].refs == f[a].refs
    requires forall a :: a in f && a != x ==> g[a].par == f[a].par
    ensures Shrunk(f0, g)
  {
    forall a | a in g ensures ShrunkAt(f0, g, a) {
      assert ShrunkAt(f0, f, a);
    }
  }

  /** A chunk that already is newCtx's first child, or newCtx itself, does not move. */
  ghost function Stolen(f: Forest, newCtx: Addr, c: Addr): Forest
    requires c in f && (newCtx != 0 ==> newCtx in f)
  {
    if newCtx != 0 && (c == newCtx || ParentField(f, c) == newCtx) then f
    else Attached(Detached(f, c), c, newCtx)
  }

  lemma AdoptedRound(f0: Forest, fm: Forest, c: Addr, x: Addr)
    requires Wf(f0) && Wf(fm) && c in f0 && f0[c].loose && x in f0[c].kids && x in f0 && !f0[x].loose && f0[x].target == 0
    requires Tame(f0, c) && !OwnOnly(f0, x) && !Troubled(f0, x)
    requires f0[x].refs != [] && Effect(f0, fm, {f0[x].refs[0]}, map[])
    ensures x in fm
    ensures var np := Adopter(f0, x, f0[c].par);
            (np != 0 ==> np in fm) && Wf(Stolen(fm, np, x)) ==> Round(f0, Stolen(fm, np, x), c, x, {}, map[x := np])
  {
    var h := f0[x].refs[0];
    var np := Adopter(f0, x, f0[c].par);
    ChildReached(f0, c, x);
    HeadOuter(f0, c, x);
    assert NodeOk(f0, x) && NodeOk(f0, c) && NodeOk(f0, h) && 0 !in f0;
    AdopterElsewhere(f0, x, c);
    HandleKeys(f0, fm, h);
    assert np != x;
    if np != 0 ==> np in fm { AdoptionEffect(f0, fm, x, np); }
  }

  // ----- c itself -----

  lemma PreparedRooted(f: Forest, c: Addr, keep: set<Addr>)
    requires Wf(f) && c in f && !f[c].loose && f[c].kids != [] && Rooted(f, c, keep)
    ensures f[c].target == 0 && Kept(Prepared(f, c), keep) && c !in keep
  {
    assert NodeOk(f, c);
    PreparedKept(f, c, keep);
  }

  lemma FreedRings(f0: Forest, g: Forest, c: Addr)
    requires Wf(f0) && c in f0 && !f0[c].loose && (f0[c].target != 0 ==> f0[c].target in f0)
    requires RingsStay(Prepared(f0, c), g, c) && c in g
    ensures RingsStay(f0, g - {c}, c)
  {
    PreparedIs(f0, c);
    SparedRings(f0, Prepared(f0, c), c);
    SparedRings(g, g - {c}, c);
    RingsJoin(f0, Prepared(f0, c), g, c);
    RingsJoin(f0, g, g - {c}, c);
  }

  /** After the children of c are gone, dropping c gives everything freeing c promises. */
  lemma FreeFinishes(f0: Forest, g: Forest, c: Addr, keep: set<Addr>)
    requires Wf(f0) && c in f0 && !f0[c].loose && f0[c].refs == []
    requires f0[c].target != 0 ==> f0[c].target in f0
    requires Wf(g) && ChildrenOutcome(Prepared(f0, c), g, c, keep)
    requires f0[c].kids != [] ==> Rooted(f0, c, keep)
    ensures g[c].loose && g[c].refs == [] && g[c].target == 0
    ensures FreeOutcome(f0, g - {c}, c, 0) && StaysKept(f0, g - {c}, c, keep)
  {
    PreparedIs(f0, c);
    assert ShrunkAt(Prepared(f0, c), g, c);
    FreedShrunk(f0, g, c);
    FreedRings(f0, g, c);
    if Kept(f0, keep) && c !in keep {
      if f0[c].kids != [] { PreparedRooted(f0, c, keep); }
      assert SamePars(Prepared(f0, c), g, keep);
      FreedKept(f0, g, c, keep);
    }
  }

  lemma FreeFinishesExactly(f0: Forest, g: Forest, c: Addr, keep: set<Addr>)
    requires Wf(f0) && c in f0 && !f0[c].loose && f0[c].refs == []
    requires f0[c].target != 0 ==> f0[c].target in f0
    requires Wf(g) && ChildrenOutcome(Prepared(f0, c), g, c, keep)
    ensures FreeExact(f0, g - {c}, c) && LeafExact(f0, g - {c}, c) && RefusalExact(f0, g - {c}, c, 0)
  {
    PreparedIs(f0, c);
    assert AllOwn(f0, f0[c].refs, c);
    assert NodeOk(f0, c);
    if f0[c].target != 0 {
      HandleFinishes(f0, c);
    } else if Tame(f0, c) {
      TreeFinishes(f0, g, c, keep);
    }
  }

  lemma HandleFinishes(f0: Forest, c: Addr)
    requires Wf(f0) && c in f0 && !f0[c].loose && f0[c].target != 0 && f0[c].target in f0
    ensures FreeExact(f0, Prepared(f0, c) - {c}, c)
  {
    HandleFreed(f0, c);
    assert NodeOk(f0, c);
    LeafSets(f0, c);
    assert Destinations(f0, c, ParentField(f0, c)) == map[];
  }

  lemma TreeFinishes(f0: Forest, g: Forest, c: Addr, keep: set<Addr>)
    requires Ready(f0, c) && Wf(g) && ChildrenOutcome(Prepared(f0, c), g, c, keep) && Tame(f0, c)
    ensures FreeExact(f0, g - {c}, c)
  {
    PreparedIs(f0, c);
    TamePrepared(f0, c);
    if Trouble(f0, c) {
      SparedRings(g, g - {c}, c);
      assert ShrunkAt(Prepared(f0, c), g, c);
      StaysBroken(g, g - {c}, c);
    } else {
      var rel, dest :| Progress(Prepared(f0, c), g, c, rel, dest);
      FreeCompletes(f0, g, c, rel, dest);
    }
  }

  lemma ShrunkSelf(f: Forest)
    ensures Shrunk(f, f)
  {
    forall a | a in f ensures ShrunkAt(f, f, a) {}
  }

  lemma HeadNotNull(f: Forest, c: Addr)
    requires Wf(f) && c in f && Head(f[c].kids) == 0
    ensures f[c].kids == []
  {
    assert NodeOk(f, c);
  }

  lemma RefsNotNull(f: Forest, c: Addr)
    requires Wf(f) && c in f
    ensures Head(f[c].refs) == 0 ==> f[c].refs == []
  {
    assert NodeOk(f, c);
    if f[c].refs != [] { assert f[c].refs[0] in f[c].refs; }
  }

  lemma FirstChild(f: Forest, c: Addr, keep: set<Addr>)
    requires Wf(f) && c in f && f[c].loose && f[c].kids != [] && Kept(f, keep) && c !in keep
    ensures var x := f[c].kids[0];
            x in f && x != 0 && x != c && f[x].par == c && !f[x].loose && c != 0 && Rooted(f, x, keep) && f[c].target == 0
  {
    var x := f[c].kids[0];
    assert NodeOk(f, c) && x in f[c].kids;
    assert NodeOk(f, x) && KeptAt(f, keep, x) && KeptAt(f, keep, c);
  }

  ghost predicate RoundExact(f0: Forest, f: Forest, c: Addr) {
    Tame(f0, c) ==> (Broken(f) && Trouble(f0, c)) || Rounded(f0, f, c)
  }

  /** The round for a child that no reference keeps: it is freed. */
  lemma ReleasedChild(f0: Forest, f: Forest, c: Addr, x: Addr)
    requires Wf(f0) && Wf(f) && c in f0 && f0[c].loose && f0[c].kids != [] && x == f0[c].kids[0] && x in f0
    requires FreeExact(f0, f, x) && RefusalExact(f0, f, x, 0)
    ensures RoundExact(f0, f, c)
  {
    if Tame(f0, c) {
      OuterOrOwnKid(f0, c, x);
      TameKid(f0, c, x);
      assert NodeOk(f0, c);
      if !Trouble(f0, x) {
        assert ParentField(f0, x) == c;
        assert Round(f0, f, c, x, DoomedSet(f0, x), Destinations(f0, x, c));
      }
    }
  }

  lemma ReleasedRings(f0: Forest, f: Forest, c: Addr, x: Addr)
    requires Wf(f0) && c in f0 && f0[c].loose && x in f0 && f0[x].par == c && RingsStay(f0, f, x)
    ensures RingsStay(f0, f, c)
  {
    forall ring | Ring(f0, ring) ensures x !in ring { ChildOffRings(f0, ring, c, x); }
  }

  /** A child with an own newest reference and an older one from elsewhere is given to its own descendant. */
  lemma TroubledChild(f0: Forest, fm: Forest, c: Addr, x: Addr, np: Addr)
    requires Wf(f0) && Wf(fm) && c in f0 && f0[c].loose && x in f0[c].kids && x in f0 && f0[x].target == 0 && !f0[x].loose
    requires Tame(f0, c) && Troubled(f0, x) && Refused(f0, fm, x) && Shrunk(f0, fm)
    requires np == f0[f0[x].refs[0]].par && np in fm
    ensures x in fm && Broken(Stolen(fm, np, x)) && Trouble(f0, c)
  {
    ChildReached(f0, c, x);
    var h := f0[x].refs[0];
    OwnIsBelow(f0, h, x);
    var n: nat :| n < TALLOC_MAX_DEPTH && h != x && Path(f0, h, x, n);
    assert Path(f0, np, x, n - 1);
    assert NodeOk(f0, h) && NodeOk(f0, np) && NodeOk(fm, x);
    assert np != x && np != c;
    var g := Stolen(fm, np, x);
    DetachedShape(fm, x);
    AttachedShape(Detached(fm, x), x, np);
    forall a | a in f0 && f0[a].target == 0
      ensures a in g && (a != x ==> g[a].par == f0[a].par && g[a].loose == f0[a].loose) && g[a].target == f0[a].target
    {
      assert ShrunkAt(f0, fm, a);
    }
    StolenRing(f0, g, x, np);
  }

  /** The whole round for a refused child: its new parent takes it. */
  lemma RefusedChild(f0: Forest, fm: Forest, f: Forest, c: Addr, x: Addr, np: Addr, keep: set<Addr>)
    requires Wf(f0) && Wf(fm) && Wf(f) && c in f0 && f0[c].loose && x in f0[c].kids && x in f0 && c != 0 && x != c
    requires Kept(f0, keep) && f0[x].refs != [] && f0[x].refs[0] in f0 && f0[x].target == 0 && !f0[x].loose && x !in keep
    requires FreeOutcome(f0, fm, x, -1) && RefusalExact(f0, fm, x, -1) && Kept(fm, keep) && SamePars(f0, fm, keep)
    requires x in fm && !fm[x].loose && c in fm && (np != 0 ==> np in fm) && f == Stolen(fm, np, x)
    requires np == Adopter(f0, x, f0[c].par)
    ensures RoundOutcome(f0, f, c, keep)
  {
    StolenFacts(fm, np, x, keep);
    StolenShrunk(f0, fm, f, x);
    SparedRings(fm, f, x);
    RingsJoin(f0, fm, f, x);
    assert NodeOk(f0, c);
    ReleasedRings(f0, f, c, x);
    RefusedRound(f0, fm, f, c, x, np);
  }

  lemma RefusedRound(f0: Forest, fm: Forest, f: Forest, c: Addr, x: Addr, np: Addr)
    requires Wf(f0) && Wf(fm) && Wf(f) && c in f0 && f0[c].loose && x in f0[c].kids && x in f0 && c != 0 && x != c
    requires f0[x].refs != [] && f0[x].refs[0] in f0 && f0[x].target == 0 && !f0[x].loose
    requires FreeOutcome(f0, fm, x, -1) && RefusalExact(f0, fm, x, -1)
    requires x in fm && (np != 0 ==> np in fm) && f == Stolen(fm, np, x) && np == Adopter(f0, x, f0[c].par)
    ensures RoundExact(f0, f, c)
  {
    if Tame(f0, c) {
      OuterOrOwnKid(f0, c, x);
      if Troubled(f0, x) {
        OwnParent(f0, f0[x].refs[0], x);
        TroubledChild(f0, fm, c, x, np);
      } else {
        AdoptedRound(f0, fm, c, x);
        assert Round(f0, f, c, x, {}, map[x := np]);
      }
    }
  }

  lemma OwnParent(f: Forest, h: Addr, a: Addr)
    requires Wf(f) && Own(f, h, a)
    ensures h in f && f[h].par != 0
  {
    OwnIsBelow(f, h, a);
  }

  /** How far the loop has come when the references are in order: it has closed a circle, or it is on its way. */
  ghost predicate LoopExact(f0: Forest, f: Forest, c: Addr) {
    Tame(f0, c) ==>
      || (Broken(f) && Trouble(f0, c))
      || (Tame(f, c) && (Trouble(f0, c) <==> Trouble(f, c)) && Progressed(f0, f, c))
  }

  /** What the loop over the children of c keeps: f0 is where it began. */
  ghost predicate Looping(f0: Forest, f: Forest, c: Addr, keep: set<Addr>) {
    && Wf(f) && c in f && f[c].loose && Shrunk(f0, f)
    && (c in f0 && f0[c].kids == [] ==> f == f0)
    && (Kept(f0, keep) && c !in keep ==> Kept(f, keep) && SamePars(f0, f, keep))
    && RingsStay(f0, f, c)
    && LoopExact(f0, f, c)
  }

  lemma LoopBegins(f: Forest, c: Addr, keep: set<Addr>)
    requires Wf(f) && c in f && f[c].loose
    ensures Looping(f, f, c, keep)
  {
    ProgressStart(f, c);
    ShrunkSelf(f);
  }

  lemma LoopGoesOn(f0: Forest, f: Forest, f1: Forest, c: Addr, keep: set<Addr>)
    requires Wf(f0) && Looping(f0, f, c, keep) && RoundOutcome(f, f1, c, keep) && Wf(f1)
    requires c in f0 && f0[c].kids != []
    ensures Looping(f0, f1, c, keep) && Live(f1) < Live(f)
  {
    ShrunkJoin(f0, f, f1);
    assert ShrunkAt(f, f1, c);
    RingsJoin(f0, f, f1, c);
    LoopGoesOnExactly(f0, f, f1, c);
  }

  lemma LoopGoesOnExactly(f0: Forest, f: Forest, f1: Forest, c: Addr)
    requires Wf(f0) && c in f && f[c].loose && RingsStay(f, f1, c) && LoopExact(f0, f, c) && RoundExact(f, f1, c)
    ensures LoopExact(f0, f1, c)
  {
    if Tame(f0, c) {
      if Broken(f) && Trouble(f0, c) {
        StaysBroken(f, f1, c);
      } else if Rounded(f, f1, c) {
        var rel, dest :| Progress(f0, f, c, rel, dest);
        var x, rel1, dest1 :| Round(f, f1, c, x, rel1, dest1);
        RoundTame(f, f1, c, x, rel1, dest1);
        RoundTrouble(f, f1, c, x, rel1, dest1);
        ProgressStep(f0, f, f1, c, x, rel, dest, rel1, dest1);
      }
    }
  }

  /** With no children left the loop has met every troubled chunk in its reach. */
  lemma LoopEnds(f0: Forest, f: Forest, c: Addr, keep: set<Addr>)
    requires Looping(f0, f, c, keep) && f[c].kids == []
    ensures ChildrenOutcome(f0, f, c, keep)
  {
    forall a ensures !Reached(f, a, c) { NothingReached(f, a, c); }
  }

  lemma BeforeChildren(f: Forest, c: Addr, keep: set<Addr>)
    requires Wf(f) && c in f && !f[c].loose && (f[c].kids != [] ==> Rooted(f, c, keep))
    ensures f[c].target != 0 ==> f[c].target in f
    ensures var g := Prepared(f, c);
            c in g && g[c].loose && (g[c].kids != [] ==> Kept(g, keep) && c !in keep) && Live(g) < Live(f)
  {
    PreparedIs(f, c);
    PreparedShrunk(f, c);
    if f[c].kids != [] { PreparedRooted(f, c, keep); }
    assert c in Live(f);
  }

  lemma AfterChildren(m: Mem, f0: Forest, g: Forest, c: Addr, keep: set<Addr>)
    requires Wf(f0) && c in f0 && !f0[c].loose && f0[c].refs == []
    requires f0[c].target != 0 ==> f0[c].target in f0
    requires Linked(m, g) && ChildrenOutcome(Prepared(f0, c), g, c, keep)
    requires f0[c].kids != [] ==> Rooted(f0, c, keep)
    ensures Linked(Dropped(m, c), g - {c}) && c in g && g[c].loose && g[c].target == 0
    ensures FreeOutcome(f0, g - {c}, c, 0) && StaysKept(f0, g - {c}, c, keep)
    ensures FreeExact(f0, g - {c}, c) && LeafExact(f0, g - {c}, c) && RefusalExact(f0, g - {c}, c, 0)
  {
    FreeFinishes(f0, g, c, keep);
    FreeFinishesExactly(f0, g, c, keep);
    RemovedLinked(m, g, c);
  }
}
