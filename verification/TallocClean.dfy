/** What a run of the recursion does to the shape of the hierarchy: it stays acyclic exactly if no chunk is stolen for one
    of its own descendants; and what a caller can look at to know that none is. */
module TallocClean {
  import opened Basics
  import opened TallocForest
  import opened TallocLinks
  import opened TallocRings
  import opened TallocRetry
  import opened TallocFree
  import opened TallocShape
  import opened TallocTrace

  // ----- references a caller may leave behind -----

  /** From the newest on: references from outside s, and then such as hang below a. */
  ghost predicate OwnLast(f: Forest, s: set<Addr>, a: Addr, refs: seq<Addr>)
    decreases |refs|
  {
    || refs == []
    || (refs[0] !in s && OwnLast(f, s, a, refs[1..]))
    || AllBelow(f, refs, a)
  }

  ghost predicate AllBelow(f: Forest, refs: seq<Addr>, a: Addr) {
    forall h :: h in refs ==> Below(f, h, a)
  }

  ghost predicate RefsSafe(f: Forest, s: set<Addr>, a: Addr) {
    a in f && (|f[a].refs| <= 1 || OwnLast(f, s, a, f[a].refs))
  }

  ghost predicate Closed(f: Forest, s: set<Addr>) {
    forall k :: k in f && !f[k].loose && f[k].par in s ==> k in s
  }

  ghost predicate LooseIn(f: Forest, s: set<Addr>) {
    forall a :: a in f && f[a].loose ==> a in s
  }

  ghost predicate AllSafe(f: Forest, s: set<Addr>) {
    forall a {:trigger RefsSafe(f, s, a)} :: a in f && a in s && !f[a].loose ==> RefsSafe(f, s, a)
  }

  /** s is a family of chunks that all frees going on stay within. Each has one reference at most, or none of its references
      comes from elsewhere in the family and its own are the oldest. */
  ghost predicate Careful(f: Forest, s: set<Addr>) {
    Wf(f) && |f| <= TALLOC_MAX_DEPTH && Acyclic(f) && 0 !in s && Closed(f, s) && LooseIn(f, s) && AllSafe(f, s)
  }

  /** c is the family's topmost chunk, or a child of one that is being freed. */
  ghost predicate TopOf(f: Forest, s: set<Addr>, c: Addr) {
    c in s && c in f && (f[c].par in f && f[c].par in s ==> f[f[c].par].loose)
  }

  /** The newest reference to c does not hang below c. */
  ghost predicate KeptOut(f: Forest, c: Addr) {
    HasHead(f, c) && !Below(f, f[c].refs[0], c)
  }

  // ----- ways up -----

  lemma {:induction false} OutStaysOut(f: Forest, s: set<Addr>, b: Addr, a: Addr, n: nat)
    requires Closed(f, s) && b !in s && Path(f, b, a, n)
    ensures a !in s
    decreases n
  {
    if b != a { OutStaysOut(f, s, f[b].par, a, n - 1); }
  }

  lemma BelowIsIn(f: Forest, s: set<Addr>, h: Addr, a: Addr)
    requires Closed(f, s) && a in s && Below(f, h, a)
    ensures h in s
  {
    var n: nat :| Path(f, h, a, n);
    if h !in s { OutStaysOut(f, s, h, a, n); }
  }

  lemma TopNotBelow(f: Forest, s: set<Addr>, c: Addr, a: Addr)
    requires Wf(f) && Closed(f, s) && TopOf(f, s, c) && a in s && a in f && !f[a].loose && a != c
    ensures !Below(f, c, a)
  {
    forall n: nat ensures !Path(f, c, a, n) { TopNoPath(f, s, c, a, n); }
  }

  lemma TopNoPath(f: Forest, s: set<Addr>, c: Addr, a: Addr, n: nat)
    requires Wf(f) && Closed(f, s) && TopOf(f, s, c) && a in s && a in f && !f[a].loose && a != c
    ensures !Path(f, c, a, n)
  {
    if n > 0 && !f[c].loose && f[c].par != 0 && Path(f, f[c].par, a, n - 1) {
      assert NodeOk(f, c);
      if f[c].par !in s { OutStaysOut(f, s, f[c].par, a, n - 1); }
    }
  }

  lemma {:induction false} KeptPath(f: Forest, keep: set<Addr>, a: Addr, x: Addr, n: nat)
    requires Kept(f, keep) && a in keep && Path(f, a, x, n)
    ensures x in keep
    decreases n
  {
    assert KeptAt(f, keep, a);
    if a != x { KeptPath(f, keep, f[a].par, x, n - 1); }
  }

  /** The stale parent of a chunk being freed does not hang below a chunk that is not kept. */
  lemma StaleNotBelow(f: Forest, keep: set<Addr>, c: Addr, x: Addr)
    requires Wf(f) && Kept(f, keep) && c in f && f[c].loose && x in f && !f[x].loose && x !in keep && f[c].par != 0
    ensures !Below(f, f[c].par, x)
  {
    var p := f[c].par;
    assert KeptAt(f, keep, c);
    forall n: nat ensures !Path(f, p, x, n) {
      if p in keep && Path(f, p, x, n) { KeptPath(f, keep, p, x, n); }
    }
  }

  lemma {:induction false} SeenIsBelow(f: Forest, keep: set<Addr>, h: Addr, x: Addr, n: nat)
    requires Wf(f) && Kept(f, keep) && x in f && !f[x].loose && x !in keep && Ancestor(f, h, n) == x
    ensures Below(f, h, x) && h !in keep && (h in f ==> !f[h].loose)
    decreases n
  {
    if n == 0 {
      assert Path(f, h, x, 0);
    } else {
      SeenIsBelow(f, keep, f[h].par, x, n - 1);
      assert KeptAt(f, keep, h);
      BelowStep(f, h, x);
    }
  }

  /** Everything above a, a included. */
  ghost function UpFrom(f: Forest, a: Addr): set<Addr> {
    set b | b in f && Below(f, a, b)
  }

  lemma UpLess(f: Forest, a: Addr)
    requires Wf(f) && Acyclic(f) && a in f && !f[a].loose && f[a].par != 0
    ensures f[a].par in f && UpFrom(f, f[a].par) < UpFrom(f, a)
  {
    assert NodeOk(f, a);
    var p := f[a].par;
    forall b | b in UpFrom(f, p) ensures b in UpFrom(f, a) { BelowStep(f, a, b); }
    GoneSelf(f, a);
    GoneSelf(f, p);
    BelowStep(f, a, p);
    if Below(f, p, a) { BelowAntisymmetric(f, p, a); }
    assert a in UpFrom(f, a) && a !in UpFrom(f, p);
  }

  lemma SubsetLess(s: set<Addr>, t: set<Addr>)
    requires s < t
    ensures |s| < |t|
  {
    var x :| x in t && x !in s;
    assert s <= t - {x};
    SubsetNotMore(s, t - {x});
  }

  lemma {:induction false} SubsetNotMore(s: set<Addr>, t: set<Addr>)
    requires s <= t
    ensures |s| <= |t|
  {
    if s != {} {
      var x :| x in s;
      SubsetNotMore(s - {x}, t - {x});
    }
  }

  /** No way up is longer than there are chunks. */
  lemma {:induction false} ShortWay(f: Forest, a: Addr, x: Addr, n: nat)
    requires Wf(f) && Acyclic(f) && Path(f, a, x, n) && a in f
    ensures exists k: nat :: k < |UpFrom(f, a)| && Ancestor(f, a, k) == x
    decreases n
  {
    if a == x {
      GoneSelf(f, a);
      assert a in UpFrom(f, a);
      assert Ancestor(f, a, 0) == x;
    } else {
      UpLess(f, a);
      SubsetLess(UpFrom(f, f[a].par), UpFrom(f, a));
      ShortWay(f, f[a].par, x, n - 1);
      var k: nat :| k < |UpFrom(f, f[a].par)| && Ancestor(f, f[a].par, k) == x;
      assert Ancestor(f, a, k + 1) == x;
    }
  }

  /** With no more chunks than `talloc_is_parent` takes steps it sees what hangs below x, and nothing else. */
  lemma SeesWhatIsBelow(f: Forest, keep: set<Addr>, h: Addr, x: Addr)
    requires Wf(f) && |f| <= TALLOC_MAX_DEPTH && Acyclic(f) && Kept(f, keep) && x in f && !f[x].loose && x !in keep && h in f
    ensures Sees(f, h, x) <==> Below(f, h, x)
  {
    if Sees(f, h, x) {
      var n: nat :| n < TALLOC_MAX_DEPTH && Ancestor(f, h, n) == x;
      SeenIsBelow(f, keep, h, x, n);
    }
    if Below(f, h, x) {
      var n: nat :| Path(f, h, x, n);
      ShortWay(f, h, x, n);
      SubsetNotMore(UpFrom(f, h), f.Keys);
      KeysCounted(f);
      assert 0 !in f;
    }
  }

  lemma KeysCounted(f: Forest)
    ensures |f.Keys| == |f|
  {
  }

  // ----- the family after a step -----

  lemma {:induction false} OwnLastKept(f: Forest, g: Forest, s: set<Addr>, a: Addr, refs: seq<Addr>, k: set<Addr>)
    requires OwnLast(f, s, a, refs) && forall h :: h in k && Below(f, h, a) ==> Below(g, h, a)
    ensures OwnLast(g, s, a, Keep(refs, k))
    decreases |refs|
  {
    if AllBelow(f, refs, a) {
      assert AllBelow(g, Keep(refs, k), a);
    } else {
      OwnLastKept(f, g, s, a, refs[1..], k);
      var rest := Keep(refs[1..], k);
      assert Keep(refs, k) == if refs[0] in k then [refs[0]] + rest else rest;
      assert ([refs[0]] + rest)[1..] == rest;
    }
  }

  lemma {:induction false} KeepNotMore(refs: seq<Addr>, k: set<Addr>)
    ensures |Keep(refs, k)| <= |refs|
  {
    if refs != [] { KeepNotMore(refs[1..], k); }
  }

  /** What a step must leave of a chunk a of the family; k are the handles it leaves in lists. */
  ghost predicate Spared(f: Forest, g: Forest, k: set<Addr>, a: Addr) {
    && a in f && a in g && !f[a].loose && g[a].refs == Keep(f[a].refs, k)
    && forall h :: h in k && Below(f, h, a) ==> Below(g, h, a)
  }

  lemma SparedSafe(f: Forest, g: Forest, s: set<Addr>, k: set<Addr>, a: Addr)
    requires AllSafe(f, s) && Spared(f, g, k, a) && a in s
    ensures RefsSafe(g, s, a)
  {
    assert RefsSafe(f, s, a);
    KeepNotMore(f[a].refs, k);
    if |f[a].refs| > 1 { OwnLastKept(f, g, s, a, f[a].refs, k); }
  }

  lemma CarefulStep(f: Forest, g: Forest, s: set<Addr>, k: set<Addr>)
    requires Careful(f, s) && Wf(g) && Acyclic(g) && g.Keys <= f.Keys && Closed(g, s) && LooseIn(g, s)
    requires forall a {:trigger Spared(f, g, k, a)} :: a in g && a in s && !g[a].loose ==> Spared(f, g, k, a)
    ensures Careful(g, s)
  {
    forall a | a in g && a in s && !g[a].loose ensures RefsSafe(g, s, a) { SparedSafe(f, g, s, k, a); }
    SubsetNotMore(g.Keys, f.Keys);
    KeysCounted(f);
    KeysCounted(g);
  }

  /** Losing chunks, or parents, makes no cycle. */
  lemma FewerParents(f: Forest, g: Forest)
    requires Acyclic(f) && g.Keys <= f.Keys && forall a :: a in g && g[a].par in g ==> g[a].par == f[a].par
    ensures Acyclic(g)
  {
    var rank :| Ranked(f, rank);
    forall a | a in g ensures RankedAt(g, rank, a) {
      assert RankedAt(f, rank, a);
      if g[a].par in g { assert RankedAt(f, rank, g[a].par); }
    }
    assert Ranked(g, rank);
  }

  lemma {:induction false} PathSame(f: Forest, g: Forest, h: Addr, a: Addr, n: nat, off: Addr)
    requires Path(f, h, a, n) && !Below(f, off, a) && Wf(f)
    requires forall b :: b in f && b != off ==> b in g && g[b].par == f[b].par && g[b].loose == f[b].loose
    ensures Path(g, h, a, n)
    decreases n
  {
    if h != a {
      if h == off { assert Below(f, off, a); }
      PathSame(f, g, f[h].par, a, n - 1, off);
    }
  }

  /** Changing or removing a chunk that does not hang below a leaves what does. */
  lemma BelowSame(f: Forest, g: Forest, h: Addr, a: Addr, off: Addr)
    requires Below(f, h, a) && !Below(f, off, a) && Wf(f)
    requires forall b :: b in f && b != off ==> b in g && g[b].par == f[b].par && g[b].loose == f[b].loose
    ensures Below(g, h, a)
  {
    var n: nat :| Path(f, h, a, n);
    PathSame(f, g, h, a, n, off);
  }

  /** A handle, having no children, is on nobody else's way up. */
  lemma BelowWithout(f: Forest, g: Forest, h: Addr, a: Addr, c: Addr)
    requires Wf(f) && h in f && f[h].kids == [] && g.Keys == f.Keys - {h} && a != h && c != h
    requires forall x :: x in g ==> g[x].par == f[x].par && g[x].loose == f[x].loose
    ensures Below(f, a, c) <==> Below(g, a, c)
  {
    forall n: nat ensures Path(f, a, c, n) <==> Path(g, a, c, n) {
      PathWithout(f, g, h, a, c, n);
    }
  }

  lemma {:induction false} PathWithout(f: Forest, g: Forest, h: Addr, a: Addr, c: Addr, n: nat)
    requires Wf(f) && h in f && f[h].kids == [] && g.Keys == f.Keys - {h} && a != h && c != h
    requires forall x :: x in g ==> g[x].par == f[x].par && g[x].loose == f[x].loose
    ensures Path(f, a, c, n) <==> Path(g, a, c, n)
    decreases n
  {
    if a != c && n > 0 && a in f && !f[a].loose && f[a].par != 0 {
      assert NodeOk(f, a) && NodeOk(f, h);
      PathWithout(f, g, h, f[a].par, c, n - 1);
    }
  }

  // ----- the steps of a free -----

  lemma HandleCareful(f: Forest, s: set<Addr>, h: Addr)
    requires Careful(f, s) && h in f && !f[h].loose && f[h].target != 0 && f[h].target in f && Wf(Prepared(f, h) - {h})
    ensures Careful(Prepared(f, h) - {h}, s)
  {
    var g := Prepared(f, h) - {h};
    PreparedIs(f, h);
    assert NodeOk(f, h);
    FewerParents(f, g);
    forall a | a in g && a in s && !g[a].loose ensures Spared(f, g, g.Keys, a) {
      assert NodeOk(f, a);
      if a == f[h].target { KeepWithout(f[a].refs, h, g.Keys); } else { KeepAll(f[a].refs, g.Keys); }
      forall k | k in g.Keys && Below(f, k, a) ensures Below(g, k, a) { BelowWithout(f, g, h, k, a); }
    }
    CarefulStep(f, g, s, g.Keys);
  }

  lemma PreparedRefs(f: Forest, c: Addr, a: Addr)
    requires Wf(f) && c in f && !f[c].loose && (f[c].target != 0 ==> f[c].target in f) && a in f && a != c
    ensures Prepared(f, c)[a].refs == Keep(f[a].refs, if f[c].target != 0 then f.Keys - {c} else f.Keys)
  {
    PreparedIs(f, c);
    assert NodeOk(f, a);
    if f[c].target != 0 {
      if a == f[c].target { KeepWithout(f[a].refs, c, f.Keys - {c}); } else { KeepAll(f[a].refs, f.Keys - {c}); }
    } else {
      KeepAll(f[a].refs, f.Keys);
    }
  }

  lemma PreparedAcyclic(f: Forest, c: Addr)
    requires Wf(f) && c in f && !f[c].loose && (f[c].target != 0 ==> f[c].target in f) && Acyclic(f)
    ensures Acyclic(Prepared(f, c))
  {
    PreparedIs(f, c);
    assert 0 !in f;
    FewerParents(f, Prepared(f, c));
  }

  lemma PreparedSpared(f: Forest, s: set<Addr>, c: Addr, a: Addr)
    requires Wf(f) && Closed(f, s) && TopOf(f, s, c) && !f[c].loose && (f[c].target != 0 ==> f[c].target in f)
    requires a in f && a in s && !f[a].loose && a != c
    ensures Spared(f, Prepared(f, c), if f[c].target != 0 then f.Keys - {c} else f.Keys, a)
  {
    PreparedIs(f, c);
    PreparedRefs(f, c, a);
    TopNotBelow(f, s, c, a);
    forall h | Below(f, h, a) ensures Below(Prepared(f, c), h, a) { BelowSame(f, Prepared(f, c), h, a, c); }
  }

  lemma PreparedCareful(f: Forest, s: set<Addr>, c: Addr)
    requires Careful(f, s) && TopOf(f, s, c) && !f[c].loose && (f[c].target != 0 ==> f[c].target in f)
    ensures Careful(Prepared(f, c), s)
  {
    var g, k := Prepared(f, c), if f[c].target != 0 then f.Keys - {c} else f.Keys;
    PreparedIs(f, c);
    PreparedWf(f, c);
    PreparedAcyclic(f, c);
    forall a | a in g && a in s && !g[a].loose ensures Spared(f, g, k, a) { PreparedSpared(f, s, c, a); }
    CarefulStep(f, g, s, k);
  }

  lemma LooseNotBelow(f: Forest, c: Addr, a: Addr)
    requires c in f && f[c].loose && a != c
    ensures !Below(f, c, a)
  {
    forall n: nat ensures !Path(f, c, a, n) {}
  }

  lemma RemovedAcyclic(f: Forest, c: Addr)
    requires Acyclic(f)
    ensures Acyclic(f - {c})
  {
    FewerParents(f, f - {c});
  }

  lemma RemovedCareful(f: Forest, s: set<Addr>, c: Addr)
    requires Careful(f, s) && c in f && f[c].loose && f[c].target == 0 && Wf(f - {c})
    ensures Careful(f - {c}, s)
  {
    var g := f - {c};
    RemovedAcyclic(f, c);
    forall a | a in g && a in s && !g[a].loose ensures Spared(f, g, g.Keys, a) {
      assert NodeOk(f, a);
      KeepAll(f[a].refs, g.Keys);
      LooseNotBelow(f, c, a);
      forall h | h in g.Keys && Below(f, h, a) ensures Below(g, h, a) { BelowSame(f, g, h, a, c); }
    }
    CarefulStep(f, g, s, g.Keys);
  }

  lemma StolenIs(f: Forest, np: Addr, x: Addr)
    requires Wf(f) && x in f && !f[x].loose && (np != 0 ==> np in f)
    ensures var g := Stolen(f, np, x);
            && g.Keys == f.Keys && (forall a :: a in f ==> g[a].loose == f[a].loose && g[a].refs == f[a].refs && g[a].target == f[a].target)
            && (forall a :: a in f && a != x ==> g[a].par == f[a].par)
            && (g == f || g[x].par == np)
  {
    assert NodeOk(f, x);
    DetachedShape(f, x);
    if Stolen(f, np, x) != f { AttachedShape(Detached(f, x), x, np); }
  }

  /** A child of a chunk being freed hangs below nothing else. */
  lemma KidNotBelow(f: Forest, x: Addr, a: Addr)
    requires x in f && f[x].par in f && f[f[x].par].loose && a in f && !f[a].loose && a != x
    ensures !Below(f, x, a)
  {
    var c := f[x].par;
    forall n: nat ensures !Path(f, x, a, n) {
      assert n > 0 ==> !Path(f, c, a, n - 1);
    }
  }

  lemma StolenCareful(f: Forest, s: set<Addr>, np: Addr, x: Addr)
    requires Careful(f, s) && x in f && x in s && !f[x].loose && f[x].par in f && f[f[x].par].loose && (np != 0 ==> np in f)
    requires Wf(Stolen(f, np, x)) && Acyclic(Stolen(f, np, x))
    ensures Careful(Stolen(f, np, x), s)
  {
    var g := Stolen(f, np, x);
    StolenIs(f, np, x);
    forall a | a in g && a in s && !g[a].loose ensures Spared(f, g, f.Keys, a) {
      assert NodeOk(f, a);
      KeepAll(f[a].refs, f.Keys);
      forall h | h in f.Keys && Below(f, h, a) ensures Below(g, h, a) {
        if a == x {
          var n: nat :| Path(f, h, x, n);
          StolenCycle(f, g, x, h, n);
        } else {
          KidNotBelow(f, x, a);
          BelowSame(f, g, h, a, x);
        }
      }
    }
    CarefulStep(f, g, s, f.Keys);
  }

  lemma StolenKeeps(f: Forest, keep: set<Addr>, np: Addr, x: Addr)
    requires Wf(f) && Kept(f, keep) && Acyclic(f) && x in f && !f[x].loose && x !in keep && (np != 0 ==> np in f) && MayJoin(f, x, np)
    ensures Acyclic(Stolen(f, np, x))
  {
    var g := Stolen(f, np, x);
    StolenIs(f, np, x);
    if g != f {
      assert 0 !in f;
      if np == 0 { FewerParents(f, g); } else { MovedAway(f, g, keep, x); }
    }
  }

  /** Everything but what lies below x is ranked above it. */
  lemma MovedAway(f: Forest, g: Forest, keep: set<Addr>, x: Addr)
    requires Wf(f) && Kept(f, keep) && Acyclic(f) && x in f && !f[x].loose && x !in keep && g.Keys == f.Keys
    requires g[x].par in f && !Below(f, g[x].par, x) && forall a :: a in f && a != x ==> g[a].par == f[a].par
    ensures Acyclic(g)
  {
    var rank :| Ranked(f, rank);
    forall a | a in f ensures a in rank { assert RankedAt(f, rank, a); }
    var b := Bounded(rank, rank.Keys);
    var lifted := Lifted(f, x, rank, b);
    GoneSelf(f, x);
    forall a | a in g ensures RankedAt(g, lifted, a) {
      assert RankedAt(f, rank, a);
      var p := g[a].par;
      if p in g {
        assert RankedAt(f, rank, p) && 0 !in f;
        if a != x { RankedWithParent(f, keep, x, a); }
      }
    }
    assert Ranked(g, lifted);
  }

  lemma RankedWithParent(f: Forest, keep: set<Addr>, x: Addr, a: Addr)
    requires Wf(f) && Kept(f, keep) && x in f && !f[x].loose && x !in keep && a in f && f[a].par in f
    ensures Below(f, f[a].par, x) ==> Below(f, a, x)
  {
    assert 0 !in f;
    if f[a].loose { StaleNotBelow(f, keep, a, x); } else if Below(f, f[a].par, x) { BelowStep(f, a, x); }
  }

  lemma StolenBreaks(f: Forest, np: Addr, x: Addr)
    requires Wf(f) && x in f && !f[x].loose && f[x].target == 0 && np in f && f[np].target == 0 && !MayJoin(f, x, np)
    requires f[x].par in f && f[f[x].par].loose
    ensures Broken(Stolen(f, np, x))
  {
    StolenIs(f, np, x);
    var c := f[x].par;
    if np == c { LooseNotBelow(f, c, x); }
    StolenRing(f, Stolen(f, np, x), x, np);
  }

  // ----- what a run of the recursion leads to -----

  /** Acyclic if every steal was clean; with a ring of parents if one was not. */
  ghost predicate Judged(f: Forest, d: Freed) {
    if d.clean then Acyclic(f) ==> Acyclic(d.f) else Broken(d.f)
  }

  ghost predicate Cared(f: Forest, c: Addr, d: Freed) {
    forall s {:trigger Careful(f, s)} :: Careful(f, s) && TopOf(f, s, c) ==> d.clean && Careful(d.f, s) && (d.r != 0 ==> KeptOut(f, c))
  }

  ghost predicate CaredLoop(f: Forest, c: Addr, d: Freed) {
    forall s {:trigger Careful(f, s)} :: Careful(f, s) && c in s ==> d.clean && Careful(d.f, s)
  }

  /** Freeing c leads from f to g with result r, by the recursion, and with what follows from it. */
  ghost predicate Traced(f: Forest, g: Forest, c: Addr, r: int) {
    exists d {:trigger Frees(f, c, d)} :: Frees(f, c, d) && d.f == g && d.r == r && Judged(f, d) && Cared(f, c, d)
  }

  ghost predicate TracedLoop(f: Forest, g: Forest, c: Addr) {
    exists d {:trigger FreesKids(f, c, d)} :: FreesKids(f, c, d) && d.f == g && d.r == 0 && Judged(f, d) && CaredLoop(f, c, d)
  }

  ghost predicate TracedRound(f: Forest, g: Forest, c: Addr) {
    exists d {:trigger FreesKid(f, c, d)} :: FreesKid(f, c, d) && d.f == g && Judged(f, d) && CaredLoop(f, c, d)
  }

  /** The loop has come from f0 to e.f: what the rest of it does is what all of it does. */
  ghost predicate Leads(f0: Forest, c: Addr, e: Freed) {
    forall d {:trigger FreesKids(e.f, c, d)} :: FreesKids(e.f, c, d) ==> FreesKids(f0, c, d.(clean := e.clean && d.clean))
  }

  ghost predicate Led(f0: Forest, f: Forest, c: Addr) {
    exists e {:trigger Leads(f0, c, e)} :: Leads(f0, c, e) && e.f == f && e.r == 0 && Judged(f0, e) && CaredLoop(f0, c, e)
  }

  /** Where every ring stays, judgements add up. */
  lemma JudgedJoin(f0: Forest, d: Freed, e: Freed, c: Addr)
    requires Judged(f0, d) && Judged(d.f, e) && RingsStay(d.f, e.f, c) && c in d.f && d.f[c].loose
    ensures Judged(f0, e.(clean := d.clean && e.clean))
  {
    if !d.clean { StaysBroken(d.f, e.f, c); }
  }

  lemma LedBegins(f: Forest, c: Addr)
    ensures Led(f, f, c)
  {
    var e := Freed(f, 0, true);
    forall d: Freed ensures d.(clean := e.clean && d.clean) == d {}
    assert Leads(f, c, e);
  }

  lemma LedOn(f0: Forest, f: Forest, f1: Forest, c: Addr)
    requires Led(f0, f, c) && TracedRound(f, f1, c) && RingsStay(f, f1, c) && c in f && f[c].loose && f[c].kids != []
    ensures Led(f0, f1, c)
  {
    var e :| Leads(f0, c, e) && e.f == f && e.r == 0 && Judged(f0, e) && CaredLoop(f0, c, e);
    var d :| FreesKid(f, c, d) && d.f == f1 && Judged(f, d) && CaredLoop(f, c, d);
    var e1 := Freed(f1, 0, e.clean && d.clean);
    forall x | FreesKids(f1, c, x) ensures FreesKids(f0, c, x.(clean := e1.clean && x.clean)) {
      FreesNextKid(f, c, d, x);
      var y := x.(clean := d.clean && x.clean);
      assert y.(clean := e.clean && y.clean) == x.(clean := e1.clean && x.clean);
    }
    JudgedJoin(f0, e, d, c);
    assert Leads(f0, c, e1);
  }

  lemma LedEnds(f0: Forest, f: Forest, c: Addr)
    requires Led(f0, f, c) && c in f && f[c].kids == []
    ensures TracedLoop(f0, f, c)
  {
    var e :| Leads(f0, c, e) && e.f == f && e.r == 0 && Judged(f0, e) && CaredLoop(f0, c, e);
    FreesNoKids(f, c);
    var d := Freed(f, 0, true);
    assert d.(clean := e.clean && d.clean) == e;
  }

  // ----- c itself -----

  lemma TracedTree(f0: Forest, g: Forest, c: Addr)
    requires Wf(f0) && c in f0 && !f0[c].loose && f0[c].refs == [] && (f0[c].target != 0 ==> f0[c].target in f0)
    requires TracedLoop(Prepared(f0, c), g, c) && c in g && g[c].loose && g[c].target == 0 && Wf(g - {c})
    ensures Traced(f0, g - {c}, c, 0)
  {
    var d :| FreesKids(Prepared(f0, c), c, d) && d.f == g && d.r == 0 && Judged(Prepared(f0, c), d) && CaredLoop(Prepared(f0, c), c, d);
    var e := Freed(g - {c}, 0, d.clean);
    FreesTree(f0, c, d);
    TreeJudged(f0, c, d);
    TreeCared(f0, c, d);
    assert Frees(f0, c, e);
  }

  lemma TreeJudged(f0: Forest, c: Addr, d: Freed)
    requires Wf(f0) && c in f0 && !f0[c].loose && (f0[c].target != 0 ==> f0[c].target in f0)
    requires Judged(Prepared(f0, c), d) && c in d.f && d.f[c].loose
    ensures Judged(f0, Freed(d.f - {c}, 0, d.clean))
  {
    if d.clean {
      if Acyclic(f0) {
        PreparedAcyclic(f0, c);
        RemovedAcyclic(d.f, c);
      }
    } else {
      SparedRings(d.f, d.f - {c}, c);
      StaysBroken(d.f, d.f - {c}, c);
    }
  }

  lemma TreeCared(f0: Forest, c: Addr, d: Freed)
    requires Wf(f0) && c in f0 && !f0[c].loose && (f0[c].target != 0 ==> f0[c].target in f0)
    requires CaredLoop(Prepared(f0, c), c, d) && c in d.f && d.f[c].loose && d.f[c].target == 0 && Wf(d.f - {c})
    ensures Cared(f0, c, Freed(d.f - {c}, 0, d.clean))
  {
    forall s | Careful(f0, s) && TopOf(f0, s, c) ensures d.clean && Careful(d.f - {c}, s) {
      PreparedCareful(f0, s, c);
      RemovedCareful(d.f, s, c);
    }
  }

  // ----- its references -----

  lemma HandleTraced(f0: Forest, f1: Forest, c: Addr, h: Addr)
    requires Wf(f0) && c in f0 && f0[c].refs != [] && h == f0[c].refs[0] && h in f0 && !f0[h].loose && f0[h].target != 0
    requires f0[h].target in f0 && f1 == Prepared(f0, h) - {h} && Wf(f1)
    ensures Frees(f0, h, Freed(f1, 0, true)) && (Acyclic(f0) ==> Acyclic(f1))
    ensures forall s {:trigger Careful(f0, s)} :: Careful(f0, s) ==> Careful(f1, s)
  {
    assert NodeOk(f0, h);
    FreesHandle(f0, h);
    if Acyclic(f0) {
      PreparedAcyclic(f0, h);
      RemovedAcyclic(Prepared(f0, h), h);
    }
    forall s | Careful(f0, s) ensures Careful(f1, s) { HandleCareful(f0, s, h); }
  }

  lemma TracedRefused(f0: Forest, f1: Forest, c: Addr, h: Addr, keep: set<Addr>)
    requires Wf(f0) && Kept(f0, keep) && c in f0 && !f0[c].loose && c !in keep && !Sees(f0, h, c)
    requires f0[c].refs != [] && h == f0[c].refs[0] && h in f0 && !f0[h].loose && f0[h].target != 0
    requires f0[h].target in f0 && f1 == Prepared(f0, h) - {h} && Wf(f1)
    ensures Traced(f0, f1, c, -1)
  {
    HandleTraced(f0, f1, c, h);
    FreesRefused(f0, c, Freed(f1, 0, true));
    var d := Freed(f1, -1, true);
    forall s | Careful(f0, s) && TopOf(f0, s, c) ensures KeptOut(f0, c) { SeesWhatIsBelow(f0, keep, h, c); }
    assert Cared(f0, c, d) && Frees(f0, c, d);
  }

  /** With its newest reference below it a chunk of the family is freed for good. */
  lemma OwnAreAll(f0: Forest, s: set<Addr>, c: Addr, h: Addr)
    requires Careful(f0, s) && c in s && c in f0 && !f0[c].loose && f0[c].refs != [] && h == f0[c].refs[0] && Below(f0, h, c)
    ensures AllBelow(f0, f0[c].refs, c)
  {
    assert RefsSafe(f0, s, c);
    BelowIsIn(f0, s, h, c);
    if |f0[c].refs| == 1 { assert f0[c].refs == [h]; }
  }

  lemma RetriedCared(f0: Forest, f1: Forest, c: Addr, h: Addr, d: Freed, keep: set<Addr>)
    requires Wf(f0) && Kept(f0, keep) && c in f0 && !f0[c].loose && c !in keep && Sees(f0, h, c)
    requires f0[c].refs != [] && h == f0[c].refs[0] && h in f0 && f0[h].kids == [] && h != c
    requires f1.Keys == f0.Keys - {h} && c in f1 && f1[c].refs == f0[c].refs[1..]
    requires forall a :: a in f1 ==> f1[a].par == f0[a].par && f1[a].loose == f0[a].loose
    requires forall s {:trigger Careful(f0, s)} :: Careful(f0, s) ==> Careful(f1, s)
    requires Cared(f1, c, d) && (f1[c].refs == [] ==> d.r == 0)
    ensures Cared(f0, c, d)
  {
    forall s | Careful(f0, s) && TopOf(f0, s, c) ensures d.clean && Careful(d.f, s) && (d.r != 0 ==> KeptOut(f0, c)) {
      assert Careful(f1, s) && TopOf(f1, s, c);
      SeesWhatIsBelow(f0, keep, h, c);
      OwnAreAll(f0, s, c, h);
      NotKeptOut(f0, f1, c, h);
    }
  }

  lemma NotKeptOut(f0: Forest, f1: Forest, c: Addr, h: Addr)
    requires Wf(f0) && c in f0 && f0[c].refs != [] && h == f0[c].refs[0] && h in f0 && f0[h].kids == [] && h != c
    requires f1.Keys == f0.Keys - {h} && c in f1 && f1[c].refs == f0[c].refs[1..]
    requires forall a :: a in f1 ==> f1[a].par == f0[a].par && f1[a].loose == f0[a].loose
    requires AllBelow(f0, f0[c].refs, c)
    ensures !KeptOut(f1, c)
  {
    if HasHead(f1, c) {
      var k := f1[c].refs[0];
      assert k == f0[c].refs[1] && k in f0[c].refs && NodeOk(f0, c);
      BelowWithout(f0, f1, h, k, c);
    }
  }

  lemma TracedRetried(f0: Forest, f1: Forest, f: Forest, c: Addr, h: Addr, r: int, keep: set<Addr>)
    requires Wf(f0) && Kept(f0, keep) && c in f0 && !f0[c].loose && c !in keep && Sees(f0, h, c)
    requires f0[c].refs != [] && h == f0[c].refs[0] && h in f0 && !f0[h].loose && f0[h].target != 0 && h != c && f0[h].kids == []
    requires f0[h].target in f0 && f1 == Prepared(f0, h) - {h} && Wf(f1)
    requires f1.Keys == f0.Keys - {h} && c in f1 && f1[c].refs == f0[c].refs[1..]
    requires forall a :: a in f1 ==> f1[a].par == f0[a].par && f1[a].loose == f0[a].loose
    requires Traced(f1, f, c, r) && (f1[c].refs == [] ==> r == 0)
    ensures Traced(f0, f, c, r)
  {
    HandleTraced(f0, f1, c, h);
    var d :| Frees(f1, c, d) && d.f == f && d.r == r && Judged(f1, d) && Cared(f1, c, d);
    FreesRetried(f0, c, Freed(f1, 0, true), d);
    RetriedCared(f0, f1, c, h, d, keep);
    assert d.(clean := true && d.clean) == d;
    assert Frees(f0, c, d);
  }

  /** A referenced chunk: refused without its newest handle h, or tried again. */
  lemma TracedReference(f0: Forest, f1: Forest, f: Forest, c: Addr, h: Addr, r: int, keep: set<Addr>)
    requires Popped(f0, f1, c, h) && LeafExact(f0, f1, h) && Rooted(f0, c, keep) && !f0[c].loose && !f0[h].loose
    requires if Sees(f0, h, c) then c in f1 && Traced(f1, f, c, r) && (f1[c].refs == [] ==> r == 0) else f == f1 && r == -1
    ensures Traced(f0, f, c, r)
  {
    PoppedNodes(f0, f1, c, h);
    assert NodeOk(f0, h);
    if Sees(f0, h, c) {
      TracedRetried(f0, f1, f, c, h, r, keep);
    } else {
      TracedRefused(f0, f1, c, h, keep);
    }
  }

  /** What dropping the newest reference h to c does. */
  ghost predicate Dropping(f0: Forest, f: Forest, c: Addr, h: Addr, isChild: bool, keep: set<Addr>) {
    && Popped(f0, f, c, h) && LeafExact(f0, f, h) && !f0[h].loose && isChild == Sees(f0, h, c)
    && Shrunk(f0, f) && Live(f) < Live(f0) && Rooted(f, c, keep) && !f[c].loose && SamePars(f0, f, keep)
    && (if isChild then OuterOrOwn(f0, c) ==> Own(f0, h, c) else !Own(f0, h, c))
  }

  lemma NewestDropped(f0: Forest, f: Forest, c: Addr, h: Addr, isChild: bool, keep: set<Addr>)
    requires Wf(f0) && Wf(f) && c in f0 && !f0[c].loose && f0[c].refs != [] && h == f0[c].refs[0] && h in f0 && !f0[h].loose && c != 0
    requires Rooted(f0, c, keep) && Effect(f0, f, {h}, map[]) && LeafExact(f0, f, h) && Shrunk(f0, f) && Live(f) < Live(f0)
    requires isChild == Sees(f0, h, c)
    requires isChild ==> Below(f0, h, c) || HitsLoose(f0, h)
    requires Kept(f, keep) && SamePars(f0, f, keep)
    ensures Dropping(f0, f, c, h, isChild, keep)
  {
    OwnIsChild(f0, c, h, isChild);
    PoppedNodes(f0, f, c, h);
    HandleGoneFacts(f0, f, c, h, keep);
  }

  lemma Retried(f0: Forest, f1: Forest, f: Forest, c: Addr, h: Addr, r: int, keep: set<Addr>)
    requires Dropping(f0, f1, c, h, true, keep) && Rooted(f0, c, keep) && !f0[c].loose
    requires FreeOutcome(f1, f, c, r) && FreeExact(f1, f, c) && RefusalExact(f1, f, c, r) && StaysKept(f1, f, c, keep) && Traced(f1, f, c, r)
    ensures FreeOutcome(f0, f, c, r) && FreeExact(f0, f, c) && RefusalExact(f0, f, c, r) && StaysKept(f0, f, c, keep) && Traced(f0, f, c, r)
  {
    RetriedOutcome(f0, f1, f, c, h, r);
    RetriedExactly(f0, f1, f, c, h, r);
    TracedReference(f0, f1, f, c, h, r, keep);
  }

  lemma NotRetried(f0: Forest, f: Forest, c: Addr, h: Addr, keep: set<Addr>)
    requires Dropping(f0, f, c, h, false, keep) && Rooted(f0, c, keep) && !f0[c].loose
    ensures FreeOutcome(f0, f, c, -1) && FreeExact(f0, f, c) && RefusalExact(f0, f, c, -1) && StaysKept(f0, f, c, keep) && Traced(f0, f, c, -1)
  {
    PoppedNodes(f0, f, c, h);
    assert NodeOk(f0, h);
    RefusedOutcome(f0, f, c, h);
    TracedReference(f0, f, f, c, h, -1, keep);
  }

  // ----- one child -----

  lemma TracedAway(f0: Forest, f: Forest, c: Addr, x: Addr)
    requires Wf(f0) && c in f0 && f0[c].loose && f0[c].kids != [] && x == f0[c].kids[0] && Traced(f0, f, x, 0)
    ensures TracedRound(f0, f, c)
  {
    var d :| Frees(f0, x, d) && d.f == f && d.r == 0 && Judged(f0, d) && Cared(f0, x, d);
    FreesKidAway(f0, c, d);
    forall s | Careful(f0, s) && c in s ensures d.clean && Careful(d.f, s) { KidIsTop(f0, s, c, x); }
  }

  lemma KidIsTop(f: Forest, s: set<Addr>, c: Addr, x: Addr)
    requires Careful(f, s) && c in s && c in f && f[c].loose && x in f[c].kids
    ensures TopOf(f, s, x)
  {
    assert NodeOk(f, c);
  }

  lemma {:induction false} RefusedPath(f0: Forest, fm: Forest, a: Addr, x: Addr, n: nat)
    requires fm.Keys <= f0.Keys && forall b :: b in fm ==> fm[b].par == f0[b].par && fm[b].loose == f0[b].loose
    requires Path(fm, a, x, n)
    ensures Path(f0, a, x, n)
    decreases n
  {
    if a != x { RefusedPath(f0, fm, fm[a].par, x, n - 1); }
  }

  /** The context of a reference kept out of x does not hang below x. */
  lemma KeptOutMayJoin(f0: Forest, fm: Forest, x: Addr, np: Addr)
    requires Wf(f0) && KeptOut(f0, x) && np == f0[f0[x].refs[0]].par && np != 0 && !f0[f0[x].refs[0]].loose
    requires fm.Keys <= f0.Keys && forall b :: b in fm ==> fm[b].par == f0[b].par && fm[b].loose == f0[b].loose
    ensures MayJoin(fm, x, np)
  {
    var h := f0[x].refs[0];
    if Below(fm, np, x) {
      var n: nat :| Path(fm, np, x, n);
      RefusedPath(f0, fm, np, x, n);
      BelowStep(f0, h, x);
    }
  }

  lemma MovedJoins(f0: Forest, fm: Forest, c: Addr, x: Addr, np: Addr, keep: set<Addr>)
    requires Wf(f0) && Wf(fm) && KeptOut(f0, x) && !f0[f0[x].refs[0]].loose
    requires fm.Keys <= f0.Keys && forall b :: b in fm ==> fm[b].par == f0[b].par && fm[b].loose == f0[b].loose
    requires c in fm && fm[c].loose && x in fm && !fm[x].loose && Kept(fm, keep) && x !in keep
    requires np == if NewestContext(f0, x) == 0 then fm[c].par else NewestContext(f0, x)
    ensures MayJoin(fm, x, np)
  {
    if NewestContext(f0, x) != 0 {
      KeptOutMayJoin(f0, fm, x, np);
    } else if np != 0 {
      StaleNotBelow(fm, keep, c, x);
    }
  }

  lemma MovedJudged(f0: Forest, d: Freed, c: Addr, x: Addr, np: Addr, keep: set<Addr>)
    requires Wf(d.f) && Judged(f0, d) && c in d.f && d.f[c].loose && x in d.f && !d.f[x].loose && d.f[x].target == 0 && d.f[x].par == c
    requires Kept(d.f, keep) && x !in keep && (np != 0 ==> np in d.f && d.f[np].target == 0)
    ensures Judged(f0, Freed(Stolen(d.f, np, x), 0, d.clean && MayJoin(d.f, x, np)))
  {
    var g := Stolen(d.f, np, x);
    if !MayJoin(d.f, x, np) {
      StolenBreaks(d.f, np, x);
    } else if d.clean {
      if Acyclic(d.f) { StolenKeeps(d.f, keep, np, x); }
    } else {
      StolenIs(d.f, np, x);
      SparedRings(d.f, g, x);
      var ring :| Ring(d.f, ring);
      ChildOffRings(d.f, ring, c, x);
    }
  }

  lemma TracedMoved(f0: Forest, fm: Forest, c: Addr, x: Addr, np: Addr, keep: set<Addr>)
    requires Wf(f0) && Wf(fm) && c in f0 && f0[c].loose && f0[c].kids != [] && x == f0[c].kids[0] && x in f0 && HasHead(f0, x)
    requires Traced(f0, fm, x, -1) && !f0[f0[x].refs[0]].loose
    requires fm.Keys <= f0.Keys && forall b :: b in fm ==> fm[b].par == f0[b].par && fm[b].loose == f0[b].loose
    requires c in fm && fm[c].loose && x in fm && !fm[x].loose && fm[x].target == 0 && fm[x].par == c && Kept(fm, keep) && x !in keep
    requires (np != 0 ==> np in fm && fm[np].target == 0) && Wf(Stolen(fm, np, x))
    requires np == if NewestContext(f0, x) == 0 then fm[c].par else NewestContext(f0, x)
    ensures TracedRound(f0, Stolen(fm, np, x), c)
  {
    var d :| Frees(f0, x, d) && d.f == fm && d.r == -1 && Judged(f0, d) && Cared(f0, x, d);
    FreesKidMoved(f0, c, d, np);
    MovedJudged(f0, d, c, x, np, keep);
    var e := Freed(Stolen(fm, np, x), 0, d.clean && MayJoin(fm, x, np));
    forall s | Careful(f0, s) && c in s ensures e.clean && Careful(e.f, s) {
      KidIsTop(f0, s, c, x);
      MovedJoins(f0, fm, c, x, np, keep);
      StolenKeeps(fm, keep, np, x);
      StolenCareful(fm, s, np, x);
    }
  }

  lemma MovedTraced(f0: Forest, fm: Forest, f: Forest, c: Addr, x: Addr, np: Addr, keep: set<Addr>)
    requires Wf(f0) && Wf(fm) && Wf(f) && c in f0 && f0[c].loose && f0[c].kids != [] && x == f0[c].kids[0] && x in f0
    requires f0[x].refs != [] && f0[x].refs[0] in f0 && f0[x].target == 0 && !f0[x].loose && x !in keep && !f0[f0[x].refs[0]].loose
    requires Traced(f0, fm, x, -1) && FreeOutcome(f0, fm, x, -1) && Kept(fm, keep)
    requires c in fm && fm[c].loose && x in fm && fm[x].par == c && (np != 0 ==> np in fm && fm[np].target == 0) && f == Stolen(fm, np, x)
    requires np == Adopter(f0, x, fm[c].par)
    ensures TracedRound(f0, f, c)
  {
    forall b | b in fm ensures b in f0 && fm[b].par == f0[b].par && fm[b].loose == f0[b].loose && fm[b].target == f0[b].target {
      assert ShrunkAt(f0, fm, b);
    }
    TracedMoved(f0, fm, c, x, np, keep);
  }
}
