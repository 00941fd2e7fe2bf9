/** A chunk whose newest reference hangs below the chunk itself: freeing it drops that reference and tries again. What
    the two forests before and after have in common. */
module TallocRetry {
  import opened Basics
  import opened TallocForest

  /** f1 is f0 without h, the newest reference to c. */
  ghost predicate Popped(f0: Forest, f1: Forest, c: Addr, h: Addr) {
    && Wf(f0) && Wf(f1) && c in f0 && f0[c].refs != [] && h == f0[c].refs[0] && h in f0 && Effect(f0, f1, {h}, map[])
  }

  lemma PoppedNodes(f0: Forest, f1: Forest, c: Addr, h: Addr)
    requires Popped(f0, f1, c, h)
    ensures f1.Keys == f0.Keys - {h} && f0[h].kids == [] && f0[h].refs == [] && f0[h].target == c && h != c
    ensures forall a :: a in f1 ==> f1[a].par == f0[a].par && f1[a].loose == f0[a].loose && f1[a].target == f0[a].target
    ensures forall a :: a in f1 && a != c ==> f1[a].refs == f0[a].refs
    ensures f1[c].refs == f0[c].refs[1..]
  {
    assert NodeOk(f0, c) && NodeOk(f0, h) && h in f0[c].refs;
    var dest: map<Addr, Addr> := map[];
    assert Heads(f0, {h} + dest.Keys) == {};
    forall a | a in f1
      ensures f1[a].par == f0[a].par && f1[a].loose == f0[a].loose && f1[a].target == f0[a].target
      ensures a != c ==> f1[a].refs == f0[a].refs
    {
      assert NodeEffect(f0, f1, dest, a) && NodeOk(f0, a);
      if a != c { KeepAll(f0[a].refs, f1.Keys); }
    }
    PoppedRefs(f0, f1, c, h);
    assert NodeEffect(f0, f1, dest, c);
  }

  lemma PoppedRefs(f0: Forest, f1: Forest, c: Addr, h: Addr)
    requires Wf(f0) && c in f0 && f0[c].refs != [] && h == f0[c].refs[0] && f1.Keys == f0.Keys - {h}
    ensures Keep(f0[c].refs, f1.Keys) == f0[c].refs[1..]
  {
    assert NodeOk(f0, c);
    var s := f0[c].refs;
    assert forall x :: x in s[1..] ==> x in s && x != h;
    KeepAll(s[1..], f1.Keys);
  }

  lemma {:induction false} PoppedPath(f0: Forest, f1: Forest, c: Addr, h: Addr, a: Addr, b: Addr, n: nat)
    requires Popped(f0, f1, c, h) && a != h && b != h
    ensures Path(f0, a, b, n) <==> Path(f1, a, b, n)
    decreases n
  {
    PoppedNodes(f0, f1, c, h);
    if a != b && n > 0 && a in f0 && !f0[a].loose && f0[a].par != 0 {
      assert NodeOk(f0, a);
      PoppedPath(f0, f1, c, h, f0[a].par, b, n - 1);
    }
  }

  lemma PoppedBelow(f0: Forest, f1: Forest, c: Addr, h: Addr, a: Addr, b: Addr)
    requires Popped(f0, f1, c, h) && a != h && b != h
    ensures Below(f0, a, b) <==> Below(f1, a, b)
    ensures Own(f0, a, b) <==> Own(f1, a, b)
  {
    forall n: nat ensures Path(f0, a, b, n) <==> Path(f1, a, b, n) {
      PoppedPath(f0, f1, c, h, a, b, n);
    }
  }

  lemma PoppedOwnOnly(f0: Forest, f1: Forest, c: Addr, h: Addr, a: Addr)
    requires Popped(f0, f1, c, h) && a in f1
    ensures a != c ==> (OwnOnly(f0, a) <==> OwnOnly(f1, a)) && (Troubled(f0, a) <==> Troubled(f1, a)) && (NullRef(f0, a) <==> NullRef(f1, a))
    ensures a == c && Own(f0, h, c) ==> (OwnOnly(f0, c) <==> OwnOnly(f1, c))
  {
    PoppedNodes(f0, f1, c, h);
    assert NodeOk(f0, a);
    forall k | k in f1[a].refs ensures k in f0[a].refs && k != h && (Own(f0, k, a) <==> Own(f1, k, a)) {
      assert k in f0[a].refs && NodeOk(f1, a);
      PoppedBelow(f0, f1, c, h, k, a);
    }
    if a == c {
      assert f0[c].refs == [h] + f1[c].refs;
      assert Own(f0, h, c) ==> (AllOwn(f0, f0[c].refs, c) <==> AllOwn(f1, f1[c].refs, c));
    } else {
      assert AllOwn(f0, f0[a].refs, a) <==> AllOwn(f1, f1[a].refs, a);
      if f0[a].refs != [] { assert f0[a].refs[0] in f1[a].refs; }
    }
  }

  lemma {:induction false} PoppedGonePath(f0: Forest, f1: Forest, c: Addr, h: Addr, a: Addr, n: nat)
    requires Popped(f0, f1, c, h) && a != h
    ensures GonePath(f0, a, c, n) <==> GonePath(f1, a, c, n)
    decreases n
  {
    PoppedNodes(f0, f1, c, h);
    if a != c && n > 0 && a in f0 && !f0[a].loose && f0[a].par != 0 {
      assert NodeOk(f0, a);
      PoppedOwnOnly(f0, f1, c, h, a);
      PoppedGonePath(f0, f1, c, h, f0[a].par, n - 1);
    }
  }

  lemma PoppedGone(f0: Forest, f1: Forest, c: Addr, h: Addr, a: Addr)
    requires Popped(f0, f1, c, h) && a != h
    ensures Gone(f0, a, c) <==> Gone(f1, a, c)
  {
    forall n: nat ensures GonePath(f0, a, c, n) <==> GonePath(f1, a, c, n) {
      PoppedGonePath(f0, f1, c, h, a, n);
    }
  }

  lemma PoppedReached(f0: Forest, f1: Forest, c: Addr, h: Addr, a: Addr)
    requires Popped(f0, f1, c, h) && a != h
    ensures Reached(f0, a, c) <==> Reached(f1, a, c)
    ensures Topmost(f0, a, c) <==> Topmost(f1, a, c)
  {
    PoppedNodes(f0, f1, c, h);
    if a in f0 && a != c && !f0[a].loose && f0[a].par != 0 {
      assert NodeOk(f0, a);
      PoppedGone(f0, f1, c, h, f0[a].par);
      PoppedOwnOnly(f0, f1, c, h, a);
    }
  }

  lemma HandleUnkept(f0: Forest, f1: Forest, c: Addr, h: Addr)
    requires Popped(f0, f1, c, h)
    ensures OwnOnly(f0, h) && !Topmost(f0, h, c) && !Troubled(f0, h)
  {
    PoppedNodes(f0, f1, c, h);
    assert AllOwn(f0, f0[h].refs, h);
  }

  lemma PoppedTops(f0: Forest, f1: Forest, c: Addr, h: Addr)
    requires Popped(f0, f1, c, h)
    ensures TopSet(f0, c) == TopSet(f1, c)
  {
    PoppedNodes(f0, f1, c, h);
    HandleUnkept(f0, f1, c, h);
    forall a | a != h ensures Topmost(f0, a, c) <==> Topmost(f1, a, c) { PoppedReached(f0, f1, c, h, a); }
  }

  lemma PoppedDestinations(f0: Forest, f1: Forest, c: Addr, h: Addr, stale: Addr)
    requires Popped(f0, f1, c, h)
    ensures Destinations(f0, c, stale) == Destinations(f1, c, stale)
  {
    PoppedTops(f0, f1, c, h);
    PoppedNodes(f0, f1, c, h);
    forall a | a in TopSet(f0, c) ensures Adopter(f0, a, stale) == Adopter(f1, a, stale) {
      assert a in f1 && NodeOk(f0, a) && NodeOk(f1, a);
      if f0[a].refs != [] { assert f0[a].refs[0] in f0[a].refs && f0[a].refs[0] in f1[a].refs; }
    }
  }

  lemma PoppedDoomed(f0: Forest, f1: Forest, c: Addr, h: Addr, a: Addr)
    requires Popped(f0, f1, c, h) && a != h
    ensures Doomed(f0, a, c) <==> Doomed(f1, a, c)
  {
    PoppedNodes(f0, f1, c, h);
    PoppedGone(f0, f1, c, h, a);
    if a in f0 && f0[a].target in f0 && f0[a].target != h {
      var t := f0[a].target;
      PoppedGone(f0, f1, c, h, t);
      PoppedBelow(f0, f1, c, h, a, t);
      assert a in f0[t].refs <==> a in f1[t].refs by {
        if t == c { assert f0[c].refs == [h] + f1[c].refs; }
      }
    }
  }

  /** The handle itself goes with c; otherwise the same chunks go. */
  lemma PoppedSets(f0: Forest, f1: Forest, c: Addr, h: Addr)
    requires Popped(f0, f1, c, h) && Own(f0, h, c)
    ensures DoomedSet(f0, c) == DoomedSet(f1, c) + {h}
  {
    PoppedNodes(f0, f1, c, h);
    GoneSelf(f0, c);
    assert h in f0[c].refs;
    assert OwnHandle(f0, h, c);
    forall a | a != h ensures Doomed(f0, a, c) <==> Doomed(f1, a, c) { PoppedDoomed(f0, f1, c, h, a); }
  }

  lemma PoppedTrouble(f0: Forest, f1: Forest, c: Addr, h: Addr)
    requires Popped(f0, f1, c, h)
    ensures Trouble(f0, c) <==> Trouble(f1, c)
  {
    PoppedNodes(f0, f1, c, h);
    HandleUnkept(f0, f1, c, h);
    if Trouble(f0, c) {
      var a :| Reached(f0, a, c) && Troubled(f0, a);
      PoppedReached(f0, f1, c, h, a);
      PoppedOwnOnly(f0, f1, c, h, a);
    }
    if Trouble(f1, c) {
      var a :| Reached(f1, a, c) && Troubled(f1, a);
      PoppedReached(f0, f1, c, h, a);
      PoppedOwnOnly(f0, f1, c, h, a);
    }
  }

  lemma PoppedOuter(f0: Forest, f1: Forest, c: Addr, h: Addr, k: Addr)
    requires Popped(f0, f1, c, h) && OuterHandle(f0, k, c) && k != h
    ensures OuterHandle(f1, k, c)
  {
    PoppedNodes(f0, f1, c, h);
    PoppedBelow(f0, f1, c, h, k, c);
    forall b | b in f1 && f1[b].loose ensures !Below(f1, k, b) { PoppedBelow(f0, f1, c, h, k, b); }
  }

  lemma PoppedRefOk(f0: Forest, f1: Forest, c: Addr, h: Addr, a: Addr, k: Addr)
    requires Popped(f0, f1, c, h) && OuterOrOwn(f0, c) && a in f1 && k in f1[a].refs && Below(f1, a, c)
    ensures RefOk(f1, c, a, k)
  {
    PoppedNodes(f0, f1, c, h);
    PoppedBelow(f0, f1, c, h, a, c);
    assert NodeOk(f1, a);
    PoppedBelow(f0, f1, c, h, k, a);
    assert k in f0[a].refs && RefOk(f0, c, a, k);
    if OuterHandle(f0, k, c) { PoppedOuter(f0, f1, c, h, k); }
  }

  lemma PoppedOuterOrOwn(f0: Forest, f1: Forest, c: Addr, h: Addr)
    requires Popped(f0, f1, c, h) && OuterOrOwn(f0, c)
    ensures OuterOrOwn(f1, c)
  {
    PoppedNodes(f0, f1, c, h);
    forall a, k | a in f1 && k in f1[a].refs && Below(f1, a, c) ensures RefOk(f1, c, a, k) {
      PoppedRefOk(f0, f1, c, h, a, k);
    }
    assert NodeOk(f0, c);
    PoppedBelow(f0, f1, c, h, f0[c].par, c);
  }

  lemma PoppedTame(f0: Forest, f1: Forest, c: Addr, h: Addr)
    requires Popped(f0, f1, c, h) && Tame(f0, c)
    ensures Tame(f1, c)
  {
    PoppedNodes(f0, f1, c, h);
    PoppedOuterOrOwn(f0, f1, c, h);
    forall a | Reached(f1, a, c) && Troubled(f1, a) ensures f1[f1[a].refs[0]].par != a {
      PoppedReached(f0, f1, c, h, a);
      PoppedOwnOnly(f0, f1, c, h, a);
    }
  }

  lemma PoppedHeads(f0: Forest, f1: Forest, c: Addr, h: Addr, s: set<Addr>, k: Addr)
    requires Popped(f0, f1, c, h) && OwnOnly(f1, c) && s !! {h}
    ensures k in Heads(f1, s) ==> k in Heads(f0, s + {h}) || k in DoomedSet(f1, c)
    ensures k in Heads(f0, s + {h}) ==> k in Heads(f1, s) || k == h
  {
    PoppedNodes(f0, f1, c, h);
    if k in Heads(f1, s) {
      var a :| a in s && HasHead(f1, a) && f1[a].refs[0] == k;
      if a == c {
        GoneSelf(f1, c);
        assert k in f1[c].refs && NodeOk(f1, c);
        assert OwnHandle(f1, k, c);
      }
    }
    if k in Heads(f0, s + {h}) {
      var a :| a in s + {h} && HasHead(f0, a) && f0[a].refs[0] == k;
      if a != c { assert NodeOk(f1, a) && k in f1[a].refs; }
    }
  }

  lemma PoppedKeys(f0: Forest, f1: Forest, c: Addr, h: Addr, s: set<Addr>)
    requires Popped(f0, f1, c, h) && OwnOnly(f1, c) && s !! {h} && DoomedSet(f1, c) <= s
    ensures f1.Keys - s - Heads(f1, s) == f0.Keys - (s + {h}) - Heads(f0, s + {h})
  {
    PoppedNodes(f0, f1, c, h);
    forall k | k in f1 && k !in s ensures k in Heads(f1, s) <==> k in Heads(f0, s + {h}) {
      PoppedHeads(f0, f1, c, h, s, k);
    }
  }

  lemma PoppedNode(f0: Forest, f1: Forest, f: Forest, c: Addr, h: Addr, dest: map<Addr, Addr>, a: Addr)
    requires Popped(f0, f1, c, h) && f.Keys <= f1.Keys && a in f && NodeEffect(f1, f, dest, a)
    ensures a in f0 && NodeEffect(f0, f, dest, a)
  {
    PoppedNodes(f0, f1, c, h);
    var none: map<Addr, Addr> := map[];
    assert NodeEffect(f0, f1, none, a);
    KeepTwice(f0[a].refs, f1.Keys, f.Keys);
  }

  lemma PoppedMoves(f0: Forest, f1: Forest, c: Addr, h: Addr, stale: Addr, a: Addr)
    requires Popped(f0, f1, c, h) && a in Destinations(f1, c, stale) && HasHead(f1, a)
    ensures HasHead(f0, a)
  {
    PoppedNodes(f0, f1, c, h);
    GoneSelf(f1, c);
    assert a != c;
  }

  lemma PoppedKeySet(f0: Forest, f1: Forest, f: Forest, c: Addr, h: Addr, dest: map<Addr, Addr>)
    requires Popped(f0, f1, c, h) && Own(f0, h, c) && OwnOnly(f1, c) && h !in dest
    requires Effect(f1, f, DoomedSet(f1, c), dest)
    ensures f.Keys == f0.Keys - DoomedSet(f0, c) - Heads(f0, DoomedSet(f0, c) + dest.Keys)
  {
    var d := DoomedSet(f1, c);
    PoppedNodes(f0, f1, c, h);
    PoppedSets(f0, f1, c, h);
    PoppedKeys(f0, f1, c, h, d + dest.Keys);
    assert d + dest.Keys + {h} == DoomedSet(f0, c) + dest.Keys;
    assert f1.Keys - d - Heads(f1, d + dest.Keys) == f.Keys;
  }

  lemma EffectIs(f0: Forest, f: Forest, rel: set<Addr>, dest: map<Addr, Addr>)
    requires forall a :: a in dest ==> HasHead(f0, a) && a in f
    requires f.Keys == f0.Keys - rel - Heads(f0, rel + dest.Keys)
    requires forall a {:trigger NodeEffect(f0, f, dest, a)} :: a in f ==> a in f0 && NodeEffect(f0, f, dest, a)
    ensures Effect(f0, f, rel, dest)
  {
  }

  /** Dropping the handle and freeing what is left has the whole effect of freeing c. */
  lemma PoppedEffect(f0: Forest, f1: Forest, f: Forest, c: Addr, h: Addr, stale: Addr)
    requires Popped(f0, f1, c, h) && Own(f0, h, c) && OwnOnly(f1, c)
    requires Effect(f1, f, DoomedSet(f1, c), Destinations(f1, c, stale))
    ensures Effect(f0, f, DoomedSet(f0, c), Destinations(f0, c, stale))
  {
    PoppedNodes(f0, f1, c, h);
    PoppedDestinations(f0, f1, c, h, stale);
    var dest := Destinations(f1, c, stale);
    PoppedKeySet(f0, f1, f, c, h, dest);
    forall a | a in dest ensures HasHead(f0, a) && a in f { PoppedMoves(f0, f1, c, h, stale, a); }
    forall a | a in f ensures a in f0 && NodeEffect(f0, f, dest, a) { PoppedNode(f0, f1, f, c, h, dest, a); }
    EffectIs(f0, f, DoomedSet(f0, c), dest);
  }
}
