/** Cycles of the parent relation, which no tree has: how a free that goes wrong shows. */
module TallocRings {
  import opened Basics
  import opened TallocForest

  ghost predicate RingAt(f: Forest, ring: set<Addr>, a: Addr) {
    a in f && !f[a].loose && f[a].target == 0 && f[a].par in ring
  }

  /** Chunks whose parents are among them. Nothing that hangs below one of them hangs off a root. */
  ghost predicate Ring(f: Forest, ring: set<Addr>) {
    ring != {} && forall a {:trigger RingAt(f, ring, a)} :: a in ring ==> RingAt(f, ring, a)
  }

  ghost predicate Broken(f: Forest) {
    exists ring :: Ring(f, ring)
  }

  /** A free of c leaves every ring that c is not on. */
  ghost predicate RingsStay(f0: Forest, f: Forest, c: Addr) {
    forall ring {:trigger Ring(f0, ring)} :: Ring(f0, ring) && c !in ring ==> Ring(f, ring)
  }

  lemma RingSame(f0: Forest, f: Forest, ring: set<Addr>)
    requires Ring(f0, ring)
    requires forall a :: a in ring ==> a in f0 && a in f && f[a].par == f0[a].par && f[a].loose == f0[a].loose && f[a].target == f0[a].target
    ensures Ring(f, ring)
  {
    forall a | a in ring ensures RingAt(f, ring, a) { assert RingAt(f0, ring, a); }
  }

  /** What changes neither parents nor anything but handles, loose chunks and c. */
  ghost predicate Spares(f0: Forest, f: Forest, c: Addr) {
    forall a :: a in f0 && a != c && !f0[a].loose && f0[a].target == 0 ==>
      a in f && f[a].par == f0[a].par && f[a].loose == f0[a].loose && f[a].target == f0[a].target
  }

  lemma SparedRings(f0: Forest, f: Forest, c: Addr)
    requires Spares(f0, f, c)
    ensures RingsStay(f0, f, c)
  {
    forall ring | Ring(f0, ring) && c !in ring ensures Ring(f, ring) {
      forall a | a in ring ensures a in f0 && a in f && f[a].par == f0[a].par && f[a].loose == f0[a].loose && f[a].target == f0[a].target {
        assert RingAt(f0, ring, a);
      }
      RingSame(f0, f, ring);
    }
  }

  lemma LooseOffRings(f: Forest, ring: set<Addr>, c: Addr)
    requires Ring(f, ring) && c in f && (f[c].loose || f[c].target != 0)
    ensures c !in ring
  {
    assert c in ring ==> RingAt(f, ring, c);
  }

  /** A child of a loose chunk is on no ring. */
  lemma ChildOffRings(f: Forest, ring: set<Addr>, c: Addr, x: Addr)
    requires Ring(f, ring) && c in f && f[c].loose && x in f && f[x].par == c
    ensures x !in ring
  {
    LooseOffRings(f, ring, c);
    assert x in ring ==> RingAt(f, ring, x);
  }

  lemma RingsJoin(f0: Forest, f: Forest, f1: Forest, c: Addr)
    requires RingsStay(f0, f, c) && RingsStay(f, f1, c)
    ensures RingsStay(f0, f1, c)
  {
  }

  /** Where every ring stays, a broken hierarchy stays broken. */
  lemma StaysBroken(f: Forest, f1: Forest, c: Addr)
    requires RingsStay(f, f1, c) && Broken(f) && c in f && f[c].loose
    ensures Broken(f1)
  {
    var ring :| Ring(f, ring);
    LooseOffRings(f, ring, c);
  }

  /** A chunk put under its own descendant y closes a ring. f is the hierarchy before, g after. */
  lemma StolenRing(f: Forest, g: Forest, x: Addr, y: Addr)
    requires Wf(f) && x in f && y in f && !f[x].loose && f[x].target == 0 && f[y].target == 0 && Below(f, y, x)
    requires x in g && g[x].par == y && !g[x].loose && g[x].target == 0
    requires forall a :: a in f && a != x && f[a].target == 0 ==>
               a in g && g[a].par == f[a].par && g[a].loose == f[a].loose && g[a].target == f[a].target
    ensures Broken(g)
  {
    var ring := set a | a in f && Below(f, y, a) && Below(f, a, x);
    BelowSelf(f, y);
    BelowSelf(f, x);
    assert y in ring && x in ring;
    forall a | a in ring ensures RingAt(g, ring, a) {
      if a != x { BetweenStays(f, x, y, a); }
    }
    assert Ring(g, ring);
  }

  lemma BelowSelf(f: Forest, a: Addr)
    ensures Below(f, a, a)
  {
    assert Path(f, a, a, 0);
  }

  /** A chunk between y and x, its parent too. */
  lemma BetweenStays(f: Forest, x: Addr, y: Addr, a: Addr)
    requires Wf(f) && a in f && a != x && y in f && f[y].target == 0 && Below(f, y, a) && Below(f, a, x)
    ensures !f[a].loose && f[a].target == 0 && f[a].par in f && Below(f, y, f[a].par) && Below(f, f[a].par, x)
  {
    var n: nat :| Path(f, a, x, n);
    var p := f[a].par;
    assert Path(f, p, x, n - 1);
    assert NodeOk(f, a);
    BelowSelf(f, p);
    BelowStep(f, a, p);
    BelowJoin(f, y, a, p);
    if a != y {
      var m: nat :| Path(f, y, a, m);
      ParentsHaveKids(f, y, a, m);
    }
  }

  lemma {:induction false} ParentsHaveKids(f: Forest, a: Addr, c: Addr, n: nat)
    requires Wf(f) && Path(f, a, c, n) && a != c && a in f
    ensures c in f && c != 0 && f[c].kids != [] && f[c].target == 0
    decreases n
  {
    assert NodeOk(f, a);
    if f[a].par == c {
      assert NodeOk(f, c);
    } else {
      ParentsHaveKids(f, f[a].par, c, n - 1);
    }
  }
}
