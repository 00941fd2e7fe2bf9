/** What the public calls of talloc.c do to the hierarchy, in terms of the internal steps they are made of. */
module TallocCalls {
  import opened Basics
  import opened TallocForest
  import opened TallocLinks
  import opened TallocRings
  import opened TallocRetry
  import opened TallocFree
  import opened TallocShape
  import opened TallocTrace
  import opened TallocClean
  import opened TallocMove

  /** Nothing is being freed and no chunk is its own ancestor: what holds between calls. */
  ghost predicate Sound(f: Forest) {
    Wf(f) && Idle(f) && Acyclic(f)
  }

  /** An address a caller may hold: a live chunk that is not a reference handle. */
  ghost predicate Plain(f: Forest, c: Addr) {
    c in f && f[c].target == 0
  }

  lemma NothingSound()
    ensures Sound(map[])
  {
    var rank: map<Addr, nat> := map[];
    assert Ranked(map[], rank);
  }

  lemma BornSound(f: Forest, b: Addr, ctx: Addr)
    requires Sound(f) && b !in f && b != 0 && (ctx != 0 ==> Plain(f, ctx))
    ensures Wf(Born(f, b, ctx)) && Sound(Born(f, b, ctx))
  {
    LooseWf(f, b);
    BornFacts(f, b, ctx);
    AttachedWf(f[b := Node(0, [], [], true, 0)], b, ctx);
    BornAcyclic(f, Born(f, b, ctx), b, ctx);
  }

  lemma TargetedSound(f: Forest, h: Addr, t: Addr)
    requires Sound(f) && Targetable(f, h, t)
    ensures Sound(Targeted(f, h, t))
  {
    TargetedWf(f, h, t);
    TargetedShape(f, h, t);
    SameParents(f, Targeted(f, h, t));
  }

  /** Losing chunks, or changing anything but parents, makes no cycle. */
  lemma SameParents(f: Forest, g: Forest)
    requires Acyclic(f) && g.Keys <= f.Keys && forall a :: a in g ==> g[a].par == f[a].par
    ensures Acyclic(g)
  {
    var rank :| Ranked(f, rank);
    forall a | a in g ensures RankedAt(g, rank, a) {
      assert RankedAt(f, rank, a);
      if g[a].par in g { assert RankedAt(f, rank, g[a].par); }
    }
    assert Ranked(g, rank);
  }

  lemma StolenIdle(f: Forest, np: Addr, c: Addr)
    requires Sound(f) && c in f && (np != 0 ==> Plain(f, np))
    ensures Idle(Stolen(f, np, c)) && Stolen(f, np, c).Keys == f.Keys
    ensures forall a :: a in f && a != c ==> Stolen(f, np, c)[a] == f[a].(kids := Stolen(f, np, c)[a].kids)
    ensures Stolen(f, np, c)[c] == f[c].(par := if c == np then f[c].par else np)
  {
    assert NodeOk(f, c);
    DetachedShape(f, c);
    if c != np { AttachedShape(Detached(f, c), c, np); }
  }

  lemma ParentNotBelow(f: Forest, c: Addr)
    requires Sound(f) && c in f && f[c].par in f
    ensures !Below(f, f[c].par, c)
  {
    var p := f[c].par;
    assert NodeOk(f, c) && 0 !in f;
    assert Path(f, p, p, 0);
    BelowStep(f, c, p);
    assert Below(f, p, c) ==> p == c by {
      if Below(f, p, c) { BelowAntisymmetric(f, p, c); }
    }
  }

  /** A steal leaves a forest exactly when c is not stolen by one of its descendants. Stealing c by itself does
      nothing. */
  lemma StolenSound(f: Forest, np: Addr, c: Addr)
    requires Sound(f) && c in f && (np != 0 ==> Plain(f, np)) && Wf(Stolen(f, np, c))
    ensures Sound(Stolen(f, np, c)) <==> np == 0 || np == c || !Below(f, np, c)
  {
    StolenIdle(f, np, c);
    assert NodeOk(f, c) && 0 !in f;
    var g := Stolen(f, np, c);
    if np == 0 {
      MovedOut(f, g, c);
    } else if ParentField(f, c) == np {
      assert g == f;
      ParentNotBelow(f, c);
    } else if np != c {
      StolenAcyclic(f, np, c);
    }
  }

  /** What a steal does to every chunk: c gets the new parent and leads its children; among the old parent's the others keep
      their order; nothing else changes. */
  lemma StolenNode(f: Forest, np: Addr, c: Addr, a: Addr)
    requires Sound(f) && c in f && (np != 0 ==> Plain(f, np)) && a in f && np != c && (np == 0 || ParentField(f, c) != np)
    ensures a in Stolen(f, np, c)
    ensures var left := if a == f[c].par then Without(f[a].kids, c) else f[a].kids;
      Stolen(f, np, c)[a] == f[a].(par := if a == c then np else f[a].par, kids := if a == np then [c] + left else left)
  {
    assert NodeOk(f, c) && NodeOk(f, a) && 0 !in f;
  }

  /** What a reference does to every chunk: a new handle leads the children of the context and the references of c, and
      nothing else changes. */
  lemma ReferenceNode(f: Forest, b: Addr, ctx: Addr, c: Addr, a: Addr)
    requires Sound(f) && b !in f && b != 0 && (ctx != 0 ==> Plain(f, ctx)) && Plain(f, c) && a in f
    ensures var g := Targeted(Born(f, b, ctx), b, c);
      && g.Keys == f.Keys + {b} && g[b] == Node(ctx, [], [], false, c)
      && g[a] == f[a].(kids := if a == ctx then [b] + f[a].kids else f[a].kids, refs := if a == c then [b] + f[a].refs else f[a].refs)
  {
    BornFacts(f, b, ctx);
  }

  // ----- dropping a reference -----

  /** Freeing a handle takes it out of its target's list and does nothing else. */
  lemma HandleDrops(f0: Forest, f: Forest, h: Addr)
    requires Sound(f0) && h in f0 && f0[h].target != 0 && Wf(f) && Shrunk(f0, f) && FreeExact(f0, f, h)
    ensures f0[h].refs == [] && f0[h].kids == []
    ensures Effect(f0, f, {h}, map[]) && f.Keys == f0.Keys - {h} && Sound(f)
  {
    assert NodeOk(f0, h);
    LeafSets(f0, h);
    var dest := Destinations(f0, h, ParentField(f0, h));
    assert dest == map[];
    HandleKeys(f0, f, h);
    ShrunkIdle(f0, f);
    SameParents(f0, f);
  }

  lemma ShrunkIdle(f0: Forest, f: Forest)
    requires Idle(f0) && Shrunk(f0, f)
    ensures Idle(f)
  {
    forall a | a in f ensures !f[a].loose { assert ShrunkAt(f0, f, a); }
  }

  /** The newest reference to c that hangs off context, or 0. */
  ghost function ReferenceFrom(f: Forest, s: seq<Addr>, context: Addr): (h: Addr)
    ensures h != 0 ==> h in s && h in f && f[h].par == context
    ensures h == 0 ==> forall x :: x in s && x in f && x != 0 ==> f[x].par != context
  {
    if s == [] then 0
    else if s[0] != 0 && s[0] in f && f[s[0]].par == context then s[0]
    else ReferenceFrom(f, s[1..], context)
  }

  /** The list is searched from its front, where the newest references are: none from context stands before the one found. */
  lemma {:induction false} ReferenceFromNewest(f: Forest, s: seq<Addr>, context: Addr, k: nat)
    requires k < |s| && s[k] != 0 && s[k] in f && f[s[k]].par == context
    ensures exists j: nat :: j <= k && s[j] == ReferenceFrom(f, s, context) != 0
  {
    if s[0] != 0 && s[0] in f && f[s[0]].par == context {
      assert s[0] == ReferenceFrom(f, s, context);
    } else {
      ReferenceFromNewest(f, s[1..], context, k - 1);
      var j: nat :| j <= k - 1 && s[1..][j] == ReferenceFrom(f, s[1..], context) != 0;
      assert s[j + 1] == ReferenceFrom(f, s, context);
    }
  }

  /** What dropping the newest reference from context does. */
  ghost predicate Unreferenced(f0: Forest, f: Forest, context: Addr, c: Addr, r: int) {
    && c in f0
    && var h := ReferenceFrom(f0, f0[c].refs, context);
       if h == 0 then r == -1 && f == f0 else r == 0 && Effect(f0, f, {h}, map[])
  }

  lemma ReferenceLeaf(f: Forest, c: Addr, h: Addr)
    requires Wf(f) && c in f && h in f[c].refs
    ensures h in f && f[h].target == c && f[h].kids == [] && f[h].refs == []
  {
    assert NodeOk(f, c) && NodeOk(f, h);
  }

  lemma ReferenceDropped(f0: Forest, f: Forest, context: Addr, c: Addr, h: Addr, r: int)
    requires Sound(f0) && Plain(f0, c) && h == ReferenceFrom(f0, f0[c].refs, context) && h != 0 && Wf(f)
    requires FreeOutcome(f0, f, h, r) && FreeExact(f0, f, h)
    ensures Sound(f) && f.Keys <= f0.Keys && r == 0 && Unreferenced(f0, f, context, c, r)
  {
    ReferenceLeaf(f0, c, h);
    assert 0 !in f0;
    HandleDrops(f0, f, h);
  }

  /** No chunk is stolen for one of its own descendants on the way. */
  ghost predicate Clean(f: Forest, c: Addr) {
    exists d {:trigger Frees(f, c, d)} :: Frees(f, c, d) && d.clean
  }

  ghost predicate FreesTo(f: Forest, g: Forest, c: Addr) {
    exists d {:trigger Frees(f, c, d)} :: Frees(f, c, d) && d.f == g && d.r == 0
  }

  ghost function Family(f: Forest, c: Addr): set<Addr> {
    set a | a in f && Below(f, a, c)
  }

  /** What a caller can look at before a free: no more chunks than `talloc_is_parent` takes steps, and below c each chunk
      has one reference at most, from wherever it is, or none from elsewhere within c's subtree and its own are the
      oldest. */
  ghost predicate Prudent(f: Forest, c: Addr) {
    |f| <= TALLOC_MAX_DEPTH && forall a :: a in f && Below(f, a, c) ==> RefsSafe(f, Family(f, c), a)
  }

  lemma PrudentIsCareful(f: Forest, c: Addr)
    requires Sound(f) && c in f && Prudent(f, c)
    ensures Careful(f, Family(f, c)) && TopOf(f, Family(f, c), c)
  {
    var s := Family(f, c);
    assert 0 !in f && NodeOk(f, c);
    GoneSelf(f, c);
    forall k | k in f && !f[k].loose && f[k].par in s ensures k in s {
      BelowStep(f, k, c);
    }
    if f[c].par in s { ParentNotBelow(f, c); }
  }

  /** What freeing an unreferenced c does: exactly what the recursion says, and the hierarchy is sound afterwards exactly if
      no chunk was stolen for a descendant of its own. None is if c is prudent. Where every reference into c's subtree comes
      from outside or from below its own target, none is exactly if the free comes to no troubled chunk, and then it does
      what `FreedFrom` says. */
  ghost predicate FreedByCall(f0: Forest, f: Forest, c: Addr) {
    && Shrunk(f0, f) && c !in f && FreesTo(f0, f, c)
    && (Sound(f) <==> Clean(f0, c))
    && (Prudent(f0, c) ==> Clean(f0, c))
    && (Tame(f0, c) ==> (Clean(f0, c) <==> !Trouble(f0, c)) && (!Trouble(f0, c) ==> FreedFrom(f0, f, c)))
  }

  lemma FreedIs(f0: Forest, f: Forest, c: Addr, r: int)
    requires Sound(f0) && c in f0 && f0[c].refs == [] && Wf(f) && FreeOutcome(f0, f, c, r) && FreeExact(f0, f, c)
    requires Traced(f0, f, c, r)
    ensures r == 0 && FreedByCall(f0, f, c) && Idle(f) && f.Keys <= f0.Keys
  {
    ShrunkIdle(f0, f);
    ShrunkLive(f0, f);
    assert AllOwn(f0, f0[c].refs, c);
    CleanExactly(f0, f, c, r);
    if Tame(f0, c) {
      if Trouble(f0, c) { BrokenNotAcyclic(f); } else { EffectAcyclic(f0, f, c); }
    }
  }

  lemma CleanExactly(f0: Forest, f: Forest, c: Addr, r: int)
    requires Sound(f0) && c in f0 && Traced(f0, f, c, r)
    ensures Acyclic(f) <==> Clean(f0, c)
    ensures Prudent(f0, c) ==> Clean(f0, c)
  {
    var d :| Frees(f0, c, d) && d.f == f && d.r == r && Judged(f0, d) && Cared(f0, c, d);
    forall e | Frees(f0, c, e) ensures e == d { FreesOneWay(f0, c, d, e); }
    if !d.clean { BrokenNotAcyclic(f); }
    if Prudent(f0, c) { PrudentIsCareful(f0, c); }
  }

  /** c, whose parent lets it go, is handed to the context of its newest reference, which is consumed. */
  ghost predicate HandedOver(f0: Forest, f: Forest, c: Addr) {
    && c in f0 && f0[c].refs != [] && f0[c].refs[0] in f0
    && var np := f0[f0[c].refs[0]].par;
       && (exists f1 :: Effect(f0, f1, {f0[c].refs[0]}, map[]) && c in f1 && (np != 0 ==> np in f1) && f == Stolen(f1, np, c))
       && (np != c && (np == 0 || !Below(f0, np, c)) ==> Effect(f0, f, {}, map[c := np]))
       && (Sound(f) <==> np == 0 || np == c || !Below(f0, np, c))
  }

  lemma HandOver(f0: Forest, f1: Forest, c: Addr, h: Addr, np: Addr)
    requires Sound(f0) && Plain(f0, c) && f0[c].refs != [] && h == f0[c].refs[0] && h in f0 && np == f0[h].par && f0[h].kids == []
    requires Effect(f0, f1, {h}, map[]) && f1.Keys == f0.Keys - {h} && Sound(f1) && f0[c].par != np
    requires (np != 0 ==> Plain(f1, np)) && c in f1 && Wf(Stolen(f1, np, c))
    ensures HandedOver(f0, Stolen(f1, np, c), c)
  {
    StolenSound(f1, np, c);
    assert NodeEffect(f0, f1, map[], c);
    forall a | a in f1 ensures f1[a].par == f0[a].par && f1[a].loose == f0[a].loose { assert NodeEffect(f0, f1, map[], a); }
    if np != 0 { BelowWithout(f0, f1, h, np, c); }
    if np != c {
      AdoptionEffect(f0, f1, c, np);
      NotHead(f1, c, np);
    }
  }

  lemma NotHead(f: Forest, c: Addr, np: Addr)
    requires c in f && f[c].par != np && !f[c].loose
    ensures np != 0 ==> ParentField(f, c) != np
  {
  }

  /** What `talloc_unlink` does. */
  ghost predicate Unlinked(f0: Forest, f: Forest, context: Addr, c: Addr, r: int) {
    && c in f0
    && if ReferenceFrom(f0, f0[c].refs, context) != 0 then Unreferenced(f0, f, context, c, r)
       else if f0[c].par != context then r == -1 && f == f0
       else r == 0 && GivenUp(f0, f, c)
  }

  ghost predicate GivenUp(f0: Forest, f: Forest, c: Addr) {
    c in f0 && if f0[c].refs == [] then FreedByCall(f0, f, c) else HandedOver(f0, f, c)
  }

  /** What `talloc_free` does: a referenced chunk is left alone, unless it is a root with a single reference. */
  ghost predicate FreeCalled(f0: Forest, f: Forest, c: Addr, r: int) {
    && c in f0
    && if f0[c].refs == [] then r == 0 && FreedByCall(f0, f, c)
       else if |f0[c].refs| > 1 || f0[c].par != 0 then r == -1 && f == f0
       else r == 0 && if NullRef(f0, c) then Effect(f0, f, {f0[c].refs[0]}, map[]) else HandedOver(f0, f, c)
  }

  // ----- realloc -----

  ghost predicate ToldAlready(m: Mem, a: Addr)
    requires Present(m, a)
  {
    && (m.prev[a] != 0 ==> m.next[m.prev[a] := a] == m.next)
    && (m.next[a] != 0 ==> m.prev[m.next[a] := a] == m.prev)
    && (m.child[a] != 0 ==> m.parent[m.child[a] := a] == m.parent)
    && (m.parent[a] != 0 ==> m.child[m.parent[a] := a] == m.child)
  }

  /** A chunk of `held` bytes keeps its block when it is to have fewer with less than 1024 to gain, or as many as before. */
  predicate KeepsBlock(held: nat, bytes: nat) {
    held - 1024 < bytes <= held
  }

  /** The hierarchy after a realloc: the same up to the chunk's address. */
  ghost predicate Reallocated(f0: Forest, f: Forest, c: Addr, b: Addr, r: Addr) {
    c in f0 && if r == c then f == f0 else r == b && r !in f0 && f == Renamed(f0, c, r)
  }

  ghost predicate Resized(size0: map<Addr, nat>, size: map<Addr, nat>, c: Addr, r: Addr, bytes: nat) {
    && r in size && size[r] == bytes
    && forall a :: a in size0 && a != c && a != r ==> a in size && size[a] == size0[a]
  }

  /** Telling the neighbours of a chunk that has not moved changes nothing. */
  lemma InPlace(m: Mem, f: Forest, a: Addr)
    requires Linked(m, f) && a in f && !f[a].loose
    ensures Present(m, a)
    ensures ToldAlready(m, a)
  {
    assert EndAt(m.next, m.prev, f, a) && HeadAt(m.child, m.refs, m.hptr, f, a) && ParentField(f, a) == m.parent[a] && NodeOk(f, a);
    if f[a].kids != [] {
      var x := f[a].kids[0];
      assert x in f[a].kids && ParentField(f, x) == m.parent[x];
    }
    if f[a].par != 0 {
      IsChild(f, a);
      var p := f[a].par;
      var s := f[p].kids;
      assert DList(m.next, m.prev, s) && HeadAt(m.child, m.refs, m.hptr, f, p);
      var i: nat :| i < |s| && s[i] == a;
      assert LinkAt(m.next, m.prev, s, i);
      if i > 0 { assert LinkAt(m.next, m.prev, s, i - 1); }
      if i + 1 < |s| { assert LinkAt(m.next, m.prev, s, i + 1); }
    }
  }

  lemma RenamedSound(f: Forest, a: Addr, b: Addr)
    requires Sound(f) && Movable(f, a, b)
    ensures Sound(Renamed(f, a, b))
  {
    RenamedWf(f, a, b);
    RenamedAcyclic(f, a, b);
  }

  lemma RenamedKeys(f: Forest, a: Addr, b: Addr)
    requires a in f && b !in f
    ensures Renamed(f, a, b).Keys == f.Keys - {a} + {b}
  {
  }

  /** The newest reference is the one found when searching for its own context. */
  lemma HandleDropped(f0: Forest, f: Forest, c: Addr, h: Addr, context: Addr, r: int)
    requires Sound(f0) && Plain(f0, c) && f0[c].refs != [] && h == f0[c].refs[0] && h in f0 && context == f0[h].par
    requires Unreferenced(f0, f, context, c, r)
    ensures r == 0 && Effect(f0, f, {h}, map[]) && f0[h].kids == [] && f0[h].refs == []
    ensures f.Keys == f0.Keys - {h} && c in f && (context != 0 ==> Plain(f, context))
  {
    assert NodeOk(f0, c) && h in f0[c].refs && NodeOk(f0, h) && 0 !in f0;
    HandleKeys(f0, f, h);
    if context != 0 { assert NodeOk(f0, context); }
  }

  lemma SecondNotNull(f: Forest, c: Addr)
    requires Wf(f) && c in f
    ensures |f[c].refs| > 1 ==> f[c].refs[1] != 0
  {
    assert NodeOk(f, c);
    if |f[c].refs| > 1 { assert f[c].refs[1] in f[c].refs; }
  }

  lemma OnlyReference(f: Forest, c: Addr)
    requires Wf(f) && c in f && |f[c].refs| == 1
    ensures f[c].refs[0] in f && f[c].refs[0] != 0
    ensures ReferenceFrom(f, f[c].refs, 0) == if NullRef(f, c) then f[c].refs[0] else 0
  {
    assert NodeOk(f, c) && f[c].refs[0] in f[c].refs;
    assert f[c].refs == [f[c].refs[0]];
  }

  lemma NewestReference(f: Forest, c: Addr)
    requires Sound(f) && Plain(f, c) && f[c].refs != []
    ensures f[c].refs[0] in f && f[f[c].refs[0]].target == c
    ensures f[f[c].refs[0]].par != 0 ==> Plain(f, f[f[c].refs[0]].par)
    ensures ReferenceFrom(f, f[c].refs, f[c].par) == 0 ==> f[f[c].refs[0]].par != f[c].par
  {
    var h := f[c].refs[0];
    assert NodeOk(f, c) && h in f[c].refs && NodeOk(f, h);
    if f[h].par != 0 { assert NodeOk(f, f[h].par); }
  }

  lemma BornTarget(f: Forest, b: Addr, ctx: Addr, t: Addr)
    requires Sound(f) && b !in f && b != 0 && (ctx != 0 ==> Plain(f, ctx)) && Plain(f, t)
    ensures Targetable(Born(f, b, ctx), b, t)
  {
    BornFacts(f, b, ctx);
  }

  lemma PointSound(f: Forest, h: Addr, c: Addr)
    requires Sound(f) && Targetable(f, h, c)
    ensures Sound(Targeted(f, h, c)) && Targeted(f, h, c).Keys == f.Keys
  {
    TargetedSound(f, h, c);
    TargetedShape(f, h, c);
  }

  ghost predicate Passes(f: Forest, c: Addr) {
    c != 0 ==> Plain(f, c)
  }

  lemma StealResult(f: Forest, np: Addr, c: Addr)
    requires Sound(f) && Plain(f, c) && Passes(f, np) && Wf(Stolen(f, np, c))
    ensures Idle(Stolen(f, np, c)) && Stolen(f, np, c).Keys == f.Keys
    ensures Sound(Stolen(f, np, c)) <==> np == 0 || np == c || !Below(f, np, c)
  {
    StolenIdle(f, np, c);
    StolenSound(f, np, c);
  }

  /** Everything a move to a new address needs and keeps. */
  lemma MoveResult(m: Mem, f: Forest, c: Addr, b: Addr)
    requires Linked(m, f) && Sound(f) && Plain(f, c) && f[c].refs == [] && b !in f && b != 0
    ensures Present(m, c) && Linked(Moved(m, c, b), Renamed(f, c, b)) && Sound(Renamed(f, c, b))
    ensures Renamed(f, c, b).Keys == f.Keys - {c} + {b}
  {
    Neighbours(m, f, c);
    MovedLinked(m, f, c, b);
    RenamedSound(f, c, b);
    RenamedKeys(f, c, b);
  }

  lemma RefsAddable(m: Mem, f: Forest, h: Addr, t: Addr)
    requires Linked(m, f) && Targetable(f, h, t)
    ensures t in m.refs && DList(m.hnext, m.hprev, f[t].refs) && m.refs[t] == Head(f[t].refs)
    ensures h !in f[t].refs && h in m.hnext && h in m.hprev && h != 0
  {
    assert NodeOk(f, t) && HeadAt(m.child, m.refs, m.hptr, f, t) && 0 !in f;
  }
}
