/** Acyclicity of the hierarchy, and what the public operations do to its shape. */
module TallocShape {
  import opened Basics
  import opened TallocForest
  import opened TallocLinks
  import opened TallocRings
  import opened TallocFree

  /** Between calls no chunk is being freed or moved. */
  ghost predicate Idle(f: Forest) {
    forall a :: a in f ==> !f[a].loose
  }

  ghost predicate RankedAt(f: Forest, rank: map<Addr, nat>, a: Addr) {
    a in f && a in rank && (f[a].par in f ==> f[a].par in rank && rank[a] < rank[f[a].par])
  }

  /** Parents rank higher than their children. */
  ghost predicate Ranked(f: Forest, rank: map<Addr, nat>) {
    forall a {:trigger RankedAt(f, rank, a)} :: a in f ==> RankedAt(f, rank, a)
  }

  ghost predicate Acyclic(f: Forest) {
    exists rank :: Ranked(f, rank)
  }

  lemma {:induction false} PathRank(f: Forest, rank: map<Addr, nat>, a: Addr, c: Addr, n: nat)
    requires Ranked(f, rank) && Path(f, a, c, n) && a in f && c in f
    ensures a != c ==> a in rank && c in rank && rank[a] < rank[c]
    decreases n
  {
    if a != c {
      assert RankedAt(f, rank, a);
      if f[a].par in f {
        PathRank(f, rank, f[a].par, c, n - 1);
        assert RankedAt(f, rank, f[a].par);
      }
    }
  }

  lemma BelowAntisymmetric(f: Forest, a: Addr, c: Addr)
    requires Acyclic(f) && Below(f, a, c) && Below(f, c, a) && a in f && c in f
    ensures a == c
  {
    var rank :| Ranked(f, rank);
    var n: nat :| Path(f, a, c, n);
    var k: nat :| Path(f, c, a, k);
    PathRank(f, rank, a, c, n);
    PathRank(f, rank, c, a, k);
  }

  // ----- what a free may rely on -----

  /** The chunks above c. */
  ghost function Above(f: Forest, c: Addr): set<Addr> {
    set a | a in f && a != c && Below(f, c, a)
  }

  /** At the moment of a call the chunks above c are safe from the free. */
  lemma AboveIsKept(f: Forest, c: Addr)
    requires Wf(f) && Idle(f) && Acyclic(f) && c in f
    ensures Rooted(f, c, Above(f, c))
  {
    var keep := Above(f, c);
    assert Path(f, c, c, 0);
    forall a | a in f ensures KeptAt(f, keep, a) {
      if a in keep {
        var n: nat :| Path(f, c, a, n);
        ParentsHaveKids(f, c, a, n);
        if f[a].par != 0 { ParentAbove(f, c, a); }
      }
    }
    if f[c].par != 0 { ParentAbove(f, c, c); }
  }

  lemma ParentAbove(f: Forest, c: Addr, a: Addr)
    requires Wf(f) && Idle(f) && Acyclic(f) && c in f && a in f && Below(f, c, a) && f[a].par != 0
    ensures f[a].par in Above(f, c)
  {
    assert NodeOk(f, a);
    var p := f[a].par;
    assert Path(f, p, p, 0);
    BelowStep(f, a, p);
    BelowJoin(f, c, a, p);
    if p == c {
      BelowAntisymmetric(f, a, c);
    }
  }

  // ----- acyclicity is kept -----

  lemma {:induction false} Bounded(rank: map<Addr, nat>, s: set<Addr>) returns (b: nat)
    requires s <= rank.Keys
    ensures forall a :: a in s ==> rank[a] < b
  {
    if s == {} {
      b := 0;
    } else {
      var x :| x in s;
      b := Bounded(rank, s - {x});
      b := if rank[x] < b then b else rank[x] + 1;
    }
  }

  /** Ranks for moving what lies below c under something that does not: lift everything else above it. */
  ghost function Lifted(f: Forest, c: Addr, rank: map<Addr, nat>, b: nat): map<Addr, nat> {
    map a | a in rank :: if Below(f, a, c) then rank[a] else rank[a] + b
  }

  /** A new forest whose parents are those of f, except that some chunks below c moved under chunks not below c. */
  lemma MovedOut(f: Forest, g: Forest, c: Addr)
    requires Acyclic(f) && g.Keys <= f.Keys && Idle(f)
    requires forall a :: a in g && g[a].par in g && g[a].par != f[a].par ==> Below(f, a, c) && !Below(f, g[a].par, c)
    requires forall a :: a in f && f[a].par in f ==> f[a].par != 0
    ensures Acyclic(g)
  {
    var rank :| Ranked(f, rank);
    forall a | a in f ensures a in rank { assert RankedAt(f, rank, a); }
    var b := Bounded(rank, rank.Keys);
    var lifted := Lifted(f, c, rank, b);
    forall a | a in g ensures RankedAt(g, lifted, a) {
      assert RankedAt(f, rank, a);
      var p := g[a].par;
      if p in g {
        assert RankedAt(f, rank, p);
        if p == f[a].par && Below(f, p, c) { BelowStep(f, a, c); }
      }
    }
    assert Ranked(g, lifted);
  }

  /** Freeing keeps the hierarchy a forest when it meets no troubled chunk. */
  lemma EffectAcyclic(f: Forest, g: Forest, c: Addr)
    requires Wf(f) && Idle(f) && Acyclic(f) && c in f && Tame(f, c) && !Trouble(f, c)
    requires Effect(f, g, DoomedSet(f, c), Destinations(f, c, ParentField(f, c)))
    ensures Acyclic(g)
  {
    assert NodeOk(f, c);
    forall a | a in g && g[a].par in g && g[a].par != f[a].par ensures Below(f, a, c) && !Below(f, g[a].par, c) {
      var dest := Destinations(f, c, ParentField(f, c));
      assert NodeEffect(f, g, dest, a) && a in dest && 0 !in f;
      GoneIsBelow(f, f[a].par, c);
      BelowStep(f, a, c);
      HeadOuter(f, c, a);
      AdopterElsewhere(f, a, c);
    }
    MovedOut(f, g, c);
  }

  lemma {:induction false} RingClimbs(f: Forest, rank: map<Addr, nat>, ring: set<Addr>, a: Addr, n: nat) returns (b: Addr)
    requires Ranked(f, rank) && Ring(f, ring) && a in ring
    ensures b in ring && b in rank && rank[b] >= n
    decreases n
  {
    assert RingAt(f, ring, a) && RankedAt(f, rank, a);
    b := a;
    if n > 0 {
      b := RingClimbs(f, rank, ring, a, n - 1);
      assert RingAt(f, ring, b) && RankedAt(f, rank, b);
      b := f[b].par;
      assert RingAt(f, ring, b);
    }
  }

  /** A ring is no part of a forest. */
  lemma BrokenNotAcyclic(f: Forest)
    requires Broken(f)
    ensures !Acyclic(f)
  {
    if Acyclic(f) {
      var rank :| Ranked(f, rank);
      var ring :| Ring(f, ring);
      var a :| a in ring;
      var top := Bounded(rank, rank.Keys);
      var b := RingClimbs(f, rank, ring, a, top);
    }
  }

  /** Stealing c keeps the hierarchy a forest exactly when the new parent is not c's own descendant. */
  lemma StolenAcyclic(f: Forest, np: Addr, c: Addr)
    requires Wf(f) && Idle(f) && Acyclic(f) && c in f && np in f && np != c && ParentField(f, c) != np
    ensures Acyclic(Stolen(f, np, c)) <==> !Below(f, np, c)
  {
    var g := Stolen(f, np, c);
    assert NodeOk(f, c);
    DetachedShape(f, c);
    AttachedShape(Detached(f, c), c, np);
    assert forall a :: a in f && a != c ==> g[a].par == f[a].par && g[a].loose == f[a].loose;
    assert Path(f, c, c, 0);
    if !Below(f, np, c) {
      MovedOut(f, g, c);
    } else {
      var n: nat :| Path(f, np, c, n);
      StolenCycle(f, g, c, np, n);
      if Acyclic(g) {
        assert Path(g, np, np, 0);
        BelowStep(g, c, np);
        BelowAntisymmetric(g, np, c);
      }
    }
  }

  lemma {:induction false} StolenCycle(f: Forest, g: Forest, c: Addr, a: Addr, n: nat)
    requires g.Keys == f.Keys && Path(f, a, c, n)
    requires forall b :: b in f && b != c ==> g[b].par == f[b].par && g[b].loose == f[b].loose
    ensures Path(g, a, c, n)
    decreases n
  {
    if a != c { StolenCycle(f, g, c, f[a].par, n - 1); }
  }

  // ----- new chunks -----

  /** A new chunk in front of ctx's children, or a new root. */
  ghost function Born(f: Forest, b: Addr, ctx: Addr): Forest
    requires ctx != 0 ==> ctx in f
  {
    Attached(f[b := Node(0, [], [], true, 0)], b, ctx)
  }

  lemma LooseWf(f: Forest, b: Addr)
    requires Wf(f) && b !in f && b != 0
    ensures Wf(f[b := Node(0, [], [], true, 0)])
  {
    var g := f[b := Node(0, [], [], true, 0)];
    forall a | a in g ensures NodeOk(g, a) {
      if a != b { assert NodeOk(f, a); }
    }
  }

  function Added(m: Mem, b: Addr): Mem {
    Mem(m.next[b := 0], m.prev[b := 0], m.parent[b := 0], m.child[b := 0], m.refs[b := 0],
        m.hnext[b := 0], m.hprev[b := 0], m.hptr[b := 0], m.destructor - {b}, m.looping - {b})
  }

  lemma DListAdd(next: Field, prev: Field, s: seq<Addr>, b: Addr)
    requires DList(next, prev, s) && b !in next
    ensures DList(next[b := 0], prev[b := 0], s)
  {
    var next', prev' := next[b := 0], prev[b := 0];
    forall i | 0 <= i < |s| ensures LinkAt(next', prev', s, i) {
      assert LinkAt(next, prev, s, i);
    }
  }

  lemma LooseAt(m: Mem, f: Forest, b: Addr, a: Addr)
    requires Linked(m, f) && b !in f && a in f
    ensures var g, m' := f[b := Node(0, [], [], true, 0)], Added(m, b);
            && DList(m'.next, m'.prev, g[a].kids) && DList(m'.hnext, m'.hprev, g[a].refs)
            && m'.parent[a] == ParentField(g, a) && EndAt(m'.next, m'.prev, g, a) && HeadAt(m'.child, m'.refs, m'.hptr, g, a)
  {
    assert DList(m.next, m.prev, f[a].kids) && DList(m.hnext, m.hprev, f[a].refs);
    DListAdd(m.next, m.prev, f[a].kids, b);
    DListAdd(m.hnext, m.hprev, f[a].refs, b);
    assert ParentField(f, a) == m.parent[a] && EndAt(m.next, m.prev, f, a) && HeadAt(m.child, m.refs, m.hptr, f, a) && NodeOk(f, a);
  }

  lemma LooseLists(m: Mem, f: Forest, b: Addr)
    requires Linked(m, f) && b !in f
    ensures var g, m' := f[b := Node(0, [], [], true, 0)], Added(m, b);
            KidLists(m'.next, m'.prev, g) && RefLists(m'.hnext, m'.hprev, g)
  {
    var g, m' := f[b := Node(0, [], [], true, 0)], Added(m, b);
    forall a | a in g ensures DList(m'.next, m'.prev, g[a].kids) && DList(m'.hnext, m'.hprev, g[a].refs) {
      if a != b { LooseAt(m, f, b, a); }
    }
  }

  lemma LooseFields(m: Mem, f: Forest, b: Addr)
    requires Linked(m, f) && b !in f
    ensures var g, m' := f[b := Node(0, [], [], true, 0)], Added(m, b);
            ParentFields(m'.parent, g) && Ends(m'.next, m'.prev, g) && HeadFields(m'.child, m'.refs, m'.hptr, g)
            && Flags(m'.destructor, m'.looping, g)
  {
    var g, m' := f[b := Node(0, [], [], true, 0)], Added(m, b);
    forall a | a in g
      ensures m'.parent[a] == ParentField(g, a) && EndAt(m'.next, m'.prev, g, a) && HeadAt(m'.child, m'.refs, m'.hptr, g, a)
    {
      if a != b { LooseAt(m, f, b, a); }
    }
  }

  lemma LooseLinked(m: Mem, f: Forest, b: Addr)
    requires Linked(m, f) && b !in f && b != 0
    ensures Linked(Added(m, b), f[b := Node(0, [], [], true, 0)])
  {
    LooseWf(f, b);
    LooseLists(m, f, b);
    LooseFields(m, f, b);
  }

  lemma BornFacts(f: Forest, b: Addr, ctx: Addr)
    requires Wf(f) && b !in f && b != 0 && (ctx != 0 ==> ctx in f)
    ensures var g := Born(f, b, ctx);
            && g.Keys == f.Keys + {b} && g[b] == Node(ctx, [], [], false, 0)
            && (forall a :: a in f ==> g[a] == f[a].(kids := g[a].kids))
            && (forall a :: a in f && a != ctx ==> g[a].kids == f[a].kids)
            && (ctx != 0 ==> g[ctx].kids == [b] + f[ctx].kids)
  {
  }

  lemma BornAcyclic(f: Forest, g: Forest, b: Addr, ctx: Addr)
    requires Wf(f) && Idle(f) && Acyclic(f) && b !in f && b != ctx && b != 0
    requires g.Keys == f.Keys + {b} && g[b].par == ctx && forall a :: a in f ==> g[a].par == f[a].par
    ensures Acyclic(g)
  {
    var rank :| Ranked(f, rank);
    forall a | a in f ensures a in rank { assert RankedAt(f, rank, a); }
    var up: map<Addr, nat> := map a | a in g :: if a == b then 0 else rank[a] + 1;
    forall a | a in g ensures RankedAt(g, up, a) {
      if a != b {
        assert RankedAt(f, rank, a) && NodeOk(f, a);
      }
    }
    assert Ranked(g, up);
  }

  // ----- what freeing c means, chunk by chunk -----

  /** g is what freeing c makes of f. */
  ghost predicate FreedFrom(f: Forest, g: Forest, c: Addr) {
    && Wf(f) && Idle(f) && c in f && OwnOnly(f, c) && Tame(f, c) && !Trouble(f, c)
    && Effect(f, g, DoomedSet(f, c), Destinations(f, c, ParentField(f, c)))
  }

  lemma ReachedIsBelow(f: Forest, a: Addr, c: Addr)
    requires Reached(f, a, c)
    ensures Below(f, a, c)
  {
    GoneIsBelow(f, f[a].par, c);
    BelowStep(f, a, c);
  }

  /** A survivor is no handle, and its newest reference is from outside. */
  lemma SurvivorKept(f: Forest, g: Forest, c: Addr, a: Addr)
    requires FreedFrom(f, g, c) && a in f && Topmost(f, a, c)
    ensures !Doomed(f, a, c) && HasHead(f, a) && OuterHandle(f, f[a].refs[0], c) && Below(f, a, c)
  {
    ReachedIsBelow(f, a, c);
    HeadOuter(f, c, a);
    assert NodeOk(f, a);
    if Gone(f, a, c) { GoneBack(f, a, c); }
  }

  /** The handles consumed hang outside c's subtree, or go with it. */
  lemma ConsumedHandles(f: Forest, g: Forest, c: Addr, h: Addr)
    requires FreedFrom(f, g, c) && h in Heads(f, DoomedSet(f, c) + TopSet(f, c))
    ensures !Below(f, h, c) || Doomed(f, h, c)
  {
    var a :| a in DoomedSet(f, c) + TopSet(f, c) && HasHead(f, a) && f[a].refs[0] == h;
    if a in TopSet(f, c) {
      SurvivorKept(f, g, c, a);
    } else {
      assert NodeOk(f, a) && h in f[a].refs;
      DoomedIsBelow(f, a, c);
      assert RefOk(f, c, a, h);
      if Own(f, h, a) { assert OwnHandle(f, h, c) by { assert NodeOk(f, h); } }
    }
  }

  /** Every chunk below c is released, or adopted, or stays where it hangs; of the chunks outside only handles that
      referred to a chunk of the first two kinds go, and no other changes its parent. */
  lemma FreeVerdict(f: Forest, g: Forest, c: Addr, a: Addr)
    requires FreedFrom(f, g, c) && a in f
    ensures Doomed(f, a, c) ==> a !in g
    ensures Topmost(f, a, c) ==> a in g && g[a].par == Adopter(f, a, ParentField(f, c)) && HasHead(f, a) && f[a].refs[0] !in g
    ensures !Doomed(f, a, c) && !Topmost(f, a, c) && Below(f, a, c) ==> a in g && g[a].par == f[a].par && g[a].refs == f[a].refs
    ensures !Below(f, a, c) && a !in Heads(f, DoomedSet(f, c) + TopSet(f, c)) ==> a in g && g[a].par == f[a].par
  {
    var dest := Destinations(f, c, ParentField(f, c));
    assert DoomedSet(f, c) + dest.Keys == DoomedSet(f, c) + TopSet(f, c);
    if Topmost(f, a, c) {
      SurvivorKept(f, g, c, a);
      assert a in dest && NodeEffect(f, g, dest, a);
      assert f[a].refs[0] in Heads(f, DoomedSet(f, c) + dest.Keys);
    } else if Doomed(f, a, c) {
      DoomedIsBelow(f, a, c);
    } else if Below(f, a, c) {
      if a in Heads(f, DoomedSet(f, c) + dest.Keys) { ConsumedHandles(f, g, c, a); }
      assert NodeEffect(f, g, dest, a);
      UntouchedRefs(f, g, c, a);
    } else if a !in Heads(f, DoomedSet(f, c) + TopSet(f, c)) {
      assert NodeEffect(f, g, dest, a);
    }
  }

  /** A chunk above one that goes with c goes too. */
  lemma GoneAbove(f: Forest, a: Addr, b: Addr, c: Addr)
    requires c in f && Upright(f, c) && Gone(f, a, c) && Below(f, a, b) && Below(f, b, c) && b != c
    ensures Gone(f, b, c)
  {
    var n: nat :| Path(f, a, b, n);
    var m: nat :| GonePath(f, a, c, m);
    Comparable(f, a, b, c, n, m);
    if Path(f, c, b, n) {
      assert Path(f, f[c].par, b, n - 1);
      BelowJoin(f, f[c].par, b, c);
    }
  }

  lemma UntouchedHandle(f: Forest, g: Forest, c: Addr, a: Addr, h: Addr)
    requires FreedFrom(f, g, c) && a in f && Below(f, a, c) && !Doomed(f, a, c) && !Topmost(f, a, c) && h in f[a].refs
    ensures h in g
  {
    HeadsElsewhere(f, DoomedSet(f, c) + TopSet(f, c), a, h);
    assert DoomedSet(f, c) + Destinations(f, c, ParentField(f, c)).Keys == DoomedSet(f, c) + TopSet(f, c);
    assert RefOk(f, c, a, h) && NodeOk(f, a);
    if Doomed(f, h, c) {
      DoomedIsBelow(f, h, c);
      OwnIsBelow(f, h, a);
      GoneSelf(f, c);
      if Gone(f, h, c) { GoneAbove(f, h, a, c); }
    }
  }

  lemma UntouchedRefs(f: Forest, g: Forest, c: Addr, a: Addr)
    requires FreedFrom(f, g, c) && a in g && a in f && Below(f, a, c) && !Doomed(f, a, c) && !Topmost(f, a, c)
    requires g[a].refs == Keep(f[a].refs, g.Keys)
    ensures g[a].refs == f[a].refs
  {
    forall h | h in f[a].refs ensures h in g { UntouchedHandle(f, g, c, a, h); }
    KeepAll(f[a].refs, g.Keys);
  }

  /** An adopted chunk keeps its whole subtree, but for the handles that keep nothing now that their target is gone. */
  lemma {:induction false} AdoptedSubtree(f: Forest, g: Forest, c: Addr, t: Addr, a: Addr, n: nat)
    requires FreedFrom(f, g, c) && Acyclic(f) && Topmost(f, t, c) && t in f && Path(f, a, t, n) && a != t && a in f
    ensures !Gone(f, a, c) && !Topmost(f, a, c) && Below(f, a, c)
    ensures if OwnHandle(f, a, c) then a !in g else a in g && g[a].par == f[a].par
    decreases n
  {
    var p := f[a].par;
    ReachedIsBelow(f, t, c);
    assert Below(f, a, t) && a != c by {
      if a == c { BelowAntisymmetric(f, c, t); }
    }
    BelowJoin(f, a, t, c);
    assert NodeOk(f, a);
    if p == t {
      if Gone(f, t, c) { GoneBack(f, t, c); }
    } else {
      AdoptedSubtree(f, g, c, t, p, n - 1);
    }
    if Gone(f, a, c) { GoneBack(f, a, c); }
    FreeVerdict(f, g, c, a);
  }

  /** A single reference from the NULL context protects a chunk exactly when the chunk is a child of what is freed:
      further down it is handed to its grandparent, and goes with that. */
  lemma NullReferenceProtects(f: Forest, g: Forest, c: Addr, a: Addr)
    requires FreedFrom(f, g, c) && a in f && a != c && f[a].par != 0 && NullRef(f, a) && Gone(f, f[a].par, c)
    ensures a in g <==> f[a].par == c
  {
    var h := f[a].refs[0];
    assert h in f[a].refs && !Own(f, h, a);
    NotKeptByNothing(f, a, h);
    if f[a].par != c { GoneStep(f, a, c); } else { assert Topmost(f, a, c); }
    FreeVerdict(f, g, c, a);
  }

  /** A newest reference from another context protects at any depth, exactly if that context is no descendant of the chunk
      itself. */
  lemma ContextReferenceProtects(f: Forest, g: Forest, c: Addr, a: Addr)
    requires FreedFrom(f, g, c) && a in f && a != c && f[a].par != 0 && Gone(f, f[a].par, c)
    requires f[a].refs != [] && f[a].refs[0] in f && f[f[a].refs[0]].par != 0
    ensures a in g <==> !Below(f, f[a].refs[0], a)
    ensures a in g ==> g[a].par == f[f[a].refs[0]].par && f[a].refs[0] !in g
  {
    var h := f[a].refs[0];
    assert NodeOk(f, a) && NodeOk(f, h) && h in f[a].refs;
    assert Reached(f, a, c) && !Troubled(f, a);
    ReachedIsBelow(f, a, c);
    assert RefOk(f, c, a, h);
    if Below(f, h, a) {
      BelowJoin(f, h, a, c);
      GoneStep(f, a, c);
    } else {
      if Own(f, h, a) { OwnIsBelow(f, h, a); }
      NotKeptByNothing(f, a, h);
      assert Topmost(f, a, c);
    }
    FreeVerdict(f, g, c, a);
  }
}
