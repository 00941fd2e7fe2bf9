/** Two runs of harmless calls after which a free loses the forest, worked out step by step. */
module TallocKnots {
  import opened Basics
  import opened TallocForest
  import opened TallocLinks
  import opened TallocRings
  import opened TallocFree
  import opened TallocShape
  import opened TallocTrace
  import opened TallocClean
  import opened TallocCalls
  import opened TallocRuns

  // ----- steps of the recursion on given hierarchies -----

  lemma NotSeen(f: Forest, h: Addr, c: Addr, n: nat)
    requires 0 !in f && c != 0 && Ancestor(f, h, n) == 0 && forall k: nat :: k < n ==> Ancestor(f, h, k) != c
    ensures !Sees(f, h, c)
  {
    forall k: nat ensures Ancestor(f, h, k) != c {
      if k >= n { NoAncestor(f, h, n, k); }
    }
  }

  /** A chunk at most three parents up is seen. */
  lemma Seen(f: Forest, h: Addr, c: Addr, n: nat)
    requires c != 0 && n <= 3 && Ancestor(f, h, n) == c
    ensures Sees(f, h, c)
  {
  }

  /** The newest reference h to x, of which there is no child, goes, and x is kept for the rest. */
  lemma FreesKept(f: Forest, g: Forest, x: Addr, h: Addr)
    requires Wf(f) && x in f && f[x].refs != [] && h == f[x].refs[0] && h in f && !f[h].loose && f[h].target == x && !Sees(f, h, x)
    requires g == Prepared(f, h) - {h}
    ensures Frees(f, x, Freed(g, -1, true))
  {
    FreesHandle(f, h);
    FreesRefused(f, x, Freed(g, 0, true));
  }

  /** It goes, and x is tried again. */
  lemma FreesAgain(f: Forest, g: Forest, x: Addr, h: Addr, d: Freed)
    requires Wf(f) && x in f && f[x].refs != [] && h == f[x].refs[0] && h in f && !f[h].loose && f[h].target == x && Sees(f, h, x)
    requires g == Prepared(f, h) - {h} && Frees(g, x, d)
    ensures Frees(f, x, d)
  {
    FreesHandle(f, h);
    FreesRetried(f, x, Freed(g, 0, true), d);
    assert d.(clean := true && d.clean) == d;
  }

  /** What hangs neither below c nor off a chunk below c. */
  lemma NotBelowEither(f: Forest, a: Addr, c: Addr)
    requires a != c && a in f && (f[a].par == 0 || !Below(f, f[a].par, c))
    ensures !Below(f, a, c)
  {
    forall n: nat ensures !Path(f, a, c, n) {
      if n > 0 && f[a].par != 0 { assert !Path(f, f[a].par, c, n - 1); }
    }
  }

  // ----- a chunk referenced by a root and then by its own child -----

  /** Chunk 1 with child 2 and grandchild 3, and a root 4; chunk 2 is referenced from 4, by handle 5, and then from its own
      child 3, by handle 6. */
  ghost function Knot(): Forest {
    map[1 := Node(0, [2], [], false, 0), 2 := Node(1, [3], [6, 5], false, 0), 3 := Node(2, [6], [], false, 0),
        4 := Node(0, [5], [], false, 0), 5 := Node(4, [], [], false, 2), 6 := Node(3, [], [], false, 2)]
  }

  /** What freeing chunk 1 leaves: 2 and 3 are each other's parents. */
  ghost function Cut(): Forest {
    map[2 := Node(3, [3], [], false, 0), 3 := Node(2, [2], [], false, 0), 4 := Node(0, [], [], false, 0)]
  }

  ghost function Untied(): Forest {
    map[1 := Node(0, [2], [], false, 0), 2 := Node(1, [3], [], false, 0), 3 := Node(2, [], [], false, 0), 4 := Node(0, [], [], false, 0)]
  }

  ghost function Chain(): Forest {
    map[1 := Node(0, [2], [], false, 0), 2 := Node(1, [3], [], false, 0), 3 := Node(2, [], [], false, 0)]
  }

  lemma ChainReached()
    ensures Reachable(Chain())
  {
    ReachableNone();
    var f := ReachBorn(map[], 1, 0);
    f := ReachBorn(f, 2, 1);
    f := ReachBorn(f, 3, 2);
    assert f[1].kids == [2] && f[2].kids == [3];
    assert f == Chain();
  }

  lemma UntiedReached()
    ensures Reachable(Untied())
  {
    ChainReached();
    var f := ReachBorn(Chain(), 4, 0);
    assert f == Untied();
  }

  /** Six public calls, all of them harmless, tie the knot. */
  lemma KnotTied()
    ensures Reachable(Knot())
  {
    UntiedReached();
    var f := ReachReference(Untied(), 5, 4, 2);
    assert f[4].kids == [5] && f[2].refs == [5] && f[3] == Untied()[3];
    var g := ReachReference(f, 6, 3, 2);
    assert g[3].kids == [6] && g[2].refs == [6, 5] && g[2].kids == [3];
    assert g == Knot();
  }

  lemma KnotWays()
    ensures var f := Knot(); Own(f, 6, 2) && !Below(f, 5, 2) && !Below(f, 5, 1)
    ensures forall a :: Below(Knot(), a, 1) ==> a in {1, 2, 3, 6}
  {
    var f := Knot();
    assert Path(f, 2, 2, 0) && Path(f, 3, 2, 1);
    assert Path(f, 6, 2, 2);
    forall c, n: nat | c in {1, 2} ensures !Path(f, 4, c, n) {}
    forall c, n: nat | c in {1, 2} ensures !Path(f, 5, c, n) {}
    forall a, n: nat | Path(f, a, 1, n) ensures a in {1, 2, 3, 6} {}
  }

  /** Its references are in order: one from elsewhere and one from below its target. Freeing 1 comes to 2, which is
      troubled. */
  lemma KnotTroubled()
    ensures Tame(Knot(), 1) && Trouble(Knot(), 1)
  {
    var f := Knot();
    KnotWays();
    assert f[2].refs == [6, 5];
    forall a, h | a in f && h in f[a].refs && Below(f, a, 1) ensures RefOk(f, 1, a, h) {}
    assert !AllOwn(f, f[2].refs, 2) by {
      assert 5 in f[2].refs;
      if Own(f, 5, 2) { OwnIsBelow(f, 5, 2); }
    }
    GoneSelf(f, 1);
    assert Reached(f, 2, 1) && Troubled(f, 2);
  }

  lemma CutRing()
    ensures Wf(Cut()) && Idle(Cut()) && Ring(Cut(), {2, 3})
  {
    var g := Cut();
    assert NodeOk(g, 2) && NodeOk(g, 3) && NodeOk(g, 4);
    assert RingAt(g, {2, 3}, 2) && RingAt(g, {2, 3}, 3);
  }

  // The states on the way: chunk 1 unlinked, without handle 6, without handle 5, with 2 stolen.

  ghost function Knot1(): Forest {
    Knot()[1 := Node(0, [2], [], true, 0)]
  }

  ghost function Knot2(): Forest {
    map[1 := Node(0, [2], [], true, 0), 2 := Node(1, [3], [5], false, 0), 3 := Node(2, [], [], false, 0),
        4 := Node(0, [5], [], false, 0), 5 := Node(4, [], [], false, 2)]
  }

  ghost function Knot3(): Forest {
    map[1 := Node(0, [2], [], true, 0), 2 := Node(1, [3], [], false, 0), 3 := Node(2, [], [], false, 0), 4 := Node(0, [], [], false, 0)]
  }

  ghost function Knot4(): Forest {
    map[1 := Node(0, [], [], true, 0), 2 := Node(3, [3], [], false, 0), 3 := Node(2, [2], [], false, 0), 4 := Node(0, [], [], false, 0)]
  }

  lemma KnotUnlinked()
    ensures Prepared(Knot(), 1) == Knot1() && Wf(Knot1())
  {
    KnotTied();
    ReachableSound(Knot());
    PreparedWf(Knot(), 1);
  }

  /** Dropping a handle keeps the hierarchy well formed. */
  lemma HandleOff(f: Forest, h: Addr)
    requires Wf(f) && h in f && !f[h].loose && f[h].target != 0
    ensures f[h].target in f && Wf(Prepared(f, h) - {h})
  {
    assert NodeOk(f, h);
    PreparedIs(f, h);
    PreparedWf(f, h);
    RemovedWf(Prepared(f, h), h);
  }

  lemma KnotFirst()
    ensures Prepared(Knot1(), 6) - {6} == Knot2() && Wf(Knot2())
  {
    KnotUnlinked();
    assert Without([6, 5], 6) == [5] && Without([6], 6) == [];
    HandleOff(Knot1(), 6);
  }

  lemma KnotSecond()
    ensures Prepared(Knot2(), 5) - {5} == Knot3()
  {
    assert Without([5], 5) == [];
  }

  lemma KnotStolen()
    ensures Stolen(Knot3(), 3, 2) == Knot4() && Knot4() - {1} == Cut()
  {
    assert Without([2], 2) == [];
    assert [2] + [] == [2];
  }

  /** Chunk 2 loses both references and is refused. */
  lemma KnotRefused()
    ensures Frees(Knot1(), 2, Freed(Knot3(), -1, true))
  {
    KnotUnlinked();
    KnotFirst();
    KnotSecond();
    var f, g := Knot1(), Knot2();
    assert Ancestor(g, 5, 0) == 5 && Ancestor(g, 5, 1) == 4 && Ancestor(g, 5, 2) == 0;
    NotSeen(g, 5, 2, 2);
    FreesKept(g, Knot3(), 2, 5);
    assert Ancestor(f, 2, 0) == 2 && Ancestor(f, 3, 1) == 2;
    Seen(f, 6, 2, 2);
    FreesAgain(f, g, 2, 6, Freed(Knot3(), -1, true));
  }

  /** And goes to its own child. */
  lemma KnotRun()
    ensures Frees(Knot(), 1, Freed(Cut(), 0, false))
  {
    KnotUnlinked();
    KnotStolen();
    KnotRefused();
    var f := Knot3();
    assert Path(f, 2, 2, 0) && Path(f, 3, 2, 1);
    assert Below(f, 3, 2);
    FreesKidMoved(Knot1(), 1, Freed(f, -1, true), 3);
    FreesNoKids(Knot4(), 1);
    FreesNextKid(Knot1(), 1, Freed(Knot4(), 0, false), Freed(Knot4(), 0, true));
    FreesTree(Knot(), 1, Freed(Knot4(), 0, false));
  }

  lemma CutShrunk()
    ensures Shrunk(Knot(), Cut())
  {
    var f, g := Knot(), Cut();
    assert ShrunkAt(f, g, 2) && ShrunkAt(f, g, 3) && ShrunkAt(f, g, 4);
  }

  lemma NotCleanRun(f: Forest, g: Forest, c: Addr)
    requires Frees(f, c, Freed(g, 0, false))
    ensures !Clean(f, c) && FreesTo(f, g, c) && forall x :: FreesTo(f, x, c) ==> x == g
  {
    forall d | Frees(f, c, d) ensures d == Freed(g, 0, false) { FreesOneWay(f, c, d, Freed(g, 0, false)); }
  }

  /** Freeing chunk 1 then leads to that one hierarchy, in which 2 and 3 hang below each other. */
  lemma KnotCut(g: Forest)
    ensures Step(Knot(), Free(1), g) <==> g == Cut()
    ensures Ring(Cut(), {2, 3}) && !Sound(Cut()) && !Harmless(Knot(), Free(1))
  {
    KnotRun();
    NotCleanRun(Knot(), Cut(), 1);
    CutRing();
    BrokenNotAcyclic(Cut());
    KnotTied();
    ReachableSound(Knot());
    if g == Cut() { KnotIsCut(); }
  }

  lemma KnotIsCut()
    requires !Clean(Knot(), 1) && FreesTo(Knot(), Cut(), 1) && !Sound(Cut()) && Wf(Cut()) && Idle(Cut()) && Sound(Knot())
    ensures Step(Knot(), Free(1), Cut())
  {
    CutShrunk();
    KnotTroubled();
    if Prudent(Knot(), 1) { KnotNotPrudent(); }
    assert FreeCalled(Knot(), Cut(), 1, 0);
  }

  lemma KnotNotPrudent()
    ensures !Prudent(Knot(), 1)
  {
    var f := Knot();
    KnotWays();
    assert Path(f, 1, 1, 0) && Path(f, 2, 1, 1) && Path(f, 3, 1, 2) && Path(f, 6, 1, 3);
    assert Below(f, 2, 1) && Below(f, 6, 1);
    var s := Family(f, 1);
    assert 6 in s;
    assert 5 in f[2].refs;
    assert !RefsSafe(f, s, 2);
  }

  // ----- references from elsewhere in the subtree -----

  /** Chunk 1 with children 5 and 2, chunk 3 below 2, and a root 4; chunk 2 is referenced from 4, by handle 6, and then from
      its sibling 5, by handle 7; and 5 from 3, by handle 8. No chunk is referenced from below itself. */
  ghost function Tangle(): Forest {
    map[1 := Node(0, [5, 2], [], false, 0), 2 := Node(1, [3], [7, 6], false, 0), 3 := Node(2, [8], [], false, 0),
        4 := Node(0, [6], [], false, 0), 5 := Node(1, [7], [8], false, 0), 6 := Node(4, [], [], false, 2),
        7 := Node(5, [], [], false, 2), 8 := Node(3, [], [], false, 5)]
  }

  /** What freeing chunk 1 leaves: 5 below 3, 3 below 2, and 2 below 5. */
  ghost function Snarl(): Forest {
    map[2 := Node(5, [3], [], false, 0), 3 := Node(2, [5], [], false, 0), 4 := Node(0, [], [], false, 0), 5 := Node(3, [2], [], false, 0)]
  }

  ghost function Loose(): Forest {
    map[1 := Node(0, [5, 2], [], false, 0), 2 := Node(1, [3], [], false, 0), 3 := Node(2, [], [], false, 0),
        4 := Node(0, [], [], false, 0), 5 := Node(1, [], [], false, 0)]
  }

  lemma LooseReached()
    ensures Reachable(Loose())
  {
    ChainReached();
    var f := ReachBorn(Chain(), 5, 1);
    assert f[1].kids == [5, 2];
    f := ReachBorn(f, 4, 0);
    assert f == Loose();
  }

  ghost function Tangling(): Forest {
    map[1 := Node(0, [5, 2], [], false, 0), 2 := Node(1, [3], [7, 6], false, 0), 3 := Node(2, [], [], false, 0),
        4 := Node(0, [6], [], false, 0), 5 := Node(1, [7], [], false, 0), 6 := Node(4, [], [], false, 2), 7 := Node(5, [], [], false, 2)]
  }

  lemma TanglingReached()
    ensures Reachable(Tangling())
  {
    LooseReached();
    var f := ReachReference(Loose(), 6, 4, 2);
    assert f[4].kids == [6] && f[2].refs == [6] && f[5] == Loose()[5];
    var g := ReachReference(f, 7, 5, 2);
    assert g[5].kids == [7] && g[2].refs == [7, 6] && g[2].kids == [3];
    assert g == Tangling();
  }

  /** Eight public calls, all of them harmless, lead there. */
  lemma TangleReached()
    ensures Reachable(Tangle())
  {
    TanglingReached();
    var f := ReachReference(Tangling(), 8, 3, 5);
    assert f[3].kids == [8] && f[5].refs == [8] && f[5].kids == [7];
    assert f == Tangle();
  }

  // The states on the way: chunk 1 unlinked; 5 without its reference, and stolen by 3; 2 without its references, and stolen
  // by 5.

  ghost function Tangle1(): Forest {
    Tangle()[1 := Node(0, [5, 2], [], true, 0)]
  }

  ghost function Tangle2(): Forest {
    map[1 := Node(0, [5, 2], [], true, 0), 2 := Node(1, [3], [7, 6], false, 0), 3 := Node(2, [], [], false, 0),
        4 := Node(0, [6], [], false, 0), 5 := Node(1, [7], [], false, 0), 6 := Node(4, [], [], false, 2), 7 := Node(5, [], [], false, 2)]
  }

  ghost function Tangle3(): Forest {
    map[1 := Node(0, [2], [], true, 0), 2 := Node(1, [3], [7, 6], false, 0), 3 := Node(2, [5], [], false, 0),
        4 := Node(0, [6], [], false, 0), 5 := Node(3, [7], [], false, 0), 6 := Node(4, [], [], false, 2), 7 := Node(5, [], [], false, 2)]
  }

  ghost function Tangle4(): Forest {
    map[1 := Node(0, [2], [], true, 0), 2 := Node(1, [3], [6], false, 0), 3 := Node(2, [5], [], false, 0),
        4 := Node(0, [6], [], false, 0), 5 := Node(3, [], [], false, 0), 6 := Node(4, [], [], false, 2)]
  }

  ghost function Tangle5(): Forest {
    map[1 := Node(0, [2], [], true, 0), 2 := Node(1, [3], [], false, 0), 3 := Node(2, [5], [], false, 0),
        4 := Node(0, [], [], false, 0), 5 := Node(3, [], [], false, 0)]
  }

  ghost function Tangle6(): Forest {
    map[1 := Node(0, [], [], true, 0), 2 := Node(5, [3], [], false, 0), 3 := Node(2, [5], [], false, 0),
        4 := Node(0, [], [], false, 0), 5 := Node(3, [2], [], false, 0)]
  }

  lemma TangleUnlinked()
    ensures Prepared(Tangle(), 1) == Tangle1() && Wf(Tangle1())
  {
    TangleReached();
    ReachableSound(Tangle());
    PreparedWf(Tangle(), 1);
  }

  lemma TangleFirst()
    ensures Prepared(Tangle1(), 8) - {8} == Tangle2() && Wf(Tangle2())
  {
    TangleUnlinked();
    assert Without([8], 8) == [];
    HandleOff(Tangle1(), 8);
  }

  lemma TangleMoved()
    ensures Stolen(Tangle2(), 3, 5) == Tangle3() && Wf(Tangle3())
  {
    TangleFirst();
    assert Without([5, 2], 5) == [2] && [5] + [] == [5];
    DetachedWf(Tangle2(), 5);
    AttachedWf(Detached(Tangle2(), 5), 5, 3);
  }

  lemma TangleSecond()
    ensures Prepared(Tangle3(), 7) - {7} == Tangle4() && Wf(Tangle4())
  {
    TangleMoved();
    assert Without([7, 6], 7) == [6] && Without([7], 7) == [];
    HandleOff(Tangle3(), 7);
  }

  lemma TangleThird()
    ensures Prepared(Tangle4(), 6) - {6} == Tangle5()
  {
    assert Without([6], 6) == [];
  }

  lemma TangleStolen()
    ensures Stolen(Tangle5(), 5, 2) == Tangle6() && Tangle6() - {1} == Snarl()
  {
    assert Without([2], 2) == [] && [2] + [] == [2];
  }

  lemma TangleFiveUnseen()
    ensures !Sees(Tangle1(), 8, 5)
  {
    TangleUnlinked();
    var f := Tangle1();
    assert Ancestor(f, 3, 0) == 3 && Ancestor(f, 2, 0) == 2 && Ancestor(f, 1, 0) == 1 && Ancestor(f, 1, 1) == 0;
    assert Ancestor(f, 2, 1) == 1 && Ancestor(f, 2, 2) == 0;
    assert Ancestor(f, 3, 1) == 2 && Ancestor(f, 3, 2) == 1 && Ancestor(f, 3, 3) == 0;
    assert Ancestor(f, 8, 0) == 8 && Ancestor(f, 8, 1) == 3 && Ancestor(f, 8, 2) == 2 && Ancestor(f, 8, 3) == 1 && Ancestor(f, 8, 4) == 0;
    NotSeen(f, 8, 5, 4);
  }

  /** Chunk 5 loses its reference from 3, and goes to 3. */
  lemma TangleFive()
    ensures FreesKid(Tangle1(), 1, Freed(Tangle3(), 0, true))
  {
    TangleUnlinked();
    TangleFirst();
    TangleMoved();
    var f, g := Tangle1(), Tangle2();
    TangleFiveUnseen();
    FreesKept(f, g, 5, 8);
    NotBelowEither(g, 1, 5);
    NotBelowEither(g, 2, 5);
    NotBelowEither(g, 3, 5);
    assert MayJoin(g, 5, 3);
    FreesKidMoved(f, 1, Freed(g, -1, true), 3);
  }

  /** Its own reference to 2 now comes from below 2. So it is dropped, then that from 4, and 2 is refused. */
  lemma TangleTwo()
    ensures Frees(Tangle3(), 2, Freed(Tangle5(), -1, true))
  {
    TangleMoved();
    TangleSecond();
    TangleThird();
    var f, g := Tangle3(), Tangle4();
    assert Ancestor(g, 6, 0) == 6 && Ancestor(g, 6, 1) == 4 && Ancestor(g, 6, 2) == 0;
    NotSeen(g, 6, 2, 2);
    FreesKept(g, Tangle5(), 2, 6);
    assert Ancestor(f, 2, 0) == 2 && Ancestor(f, 3, 1) == 2 && Ancestor(f, 5, 2) == 2;
    Seen(f, 7, 2, 3);
    FreesAgain(f, g, 2, 7, Freed(Tangle5(), -1, true));
  }

  /** And goes to 5, below itself. */
  lemma TangleRun()
    ensures Frees(Tangle(), 1, Freed(Snarl(), 0, false))
  {
    TangleUnlinked();
    TangleFive();
    TangleTwo();
    TangleStolen();
    var f := Tangle5();
    assert Path(f, 2, 2, 0) && Path(f, 3, 2, 1) && Path(f, 5, 2, 2);
    assert Below(f, 5, 2);
    FreesKidMoved(Tangle3(), 1, Freed(f, -1, true), 5);
    FreesNoKids(Tangle6(), 1);
    FreesNextKid(Tangle3(), 1, Freed(Tangle6(), 0, false), Freed(Tangle6(), 0, true));
    FreesNextKid(Tangle1(), 1, Freed(Tangle3(), 0, true), Freed(Tangle6(), 0, false));
    FreesTree(Tangle(), 1, Freed(Tangle6(), 0, false));
  }

  lemma SnarlRing()
    ensures Wf(Snarl()) && Idle(Snarl()) && Ring(Snarl(), {2, 3, 5})
  {
    var g := Snarl();
    assert NodeOk(g, 2) && NodeOk(g, 3) && NodeOk(g, 4) && NodeOk(g, 5);
    assert RingAt(g, {2, 3, 5}, 2) && RingAt(g, {2, 3, 5}, 3) && RingAt(g, {2, 3, 5}, 5);
  }

  lemma SnarlShrunk()
    ensures Shrunk(Tangle(), Snarl())
  {
    var f, g := Tangle(), Snarl();
    assert ShrunkAt(f, g, 2) && ShrunkAt(f, g, 3) && ShrunkAt(f, g, 4) && ShrunkAt(f, g, 5);
  }

  lemma TangleWays()
    ensures var f := Tangle(); Below(f, 8, 1) && Below(f, 7, 1) && Below(f, 5, 1) && Below(f, 2, 1)
    ensures var f := Tangle(); !Below(f, 8, 5) && !Below(f, 7, 2)
  {
    var f := Tangle();
    assert Path(f, 1, 1, 0) && Path(f, 2, 1, 1) && Path(f, 5, 1, 1) && Path(f, 3, 1, 2) && Path(f, 7, 1, 2) && Path(f, 8, 1, 3);
    NotBelowEither(f, 1, 5);
    NotBelowEither(f, 2, 5);
    NotBelowEither(f, 3, 5);
    NotBelowEither(f, 8, 5);
    NotBelowEither(f, 1, 2);
    NotBelowEither(f, 5, 2);
    NotBelowEither(f, 7, 2);
  }

  lemma TangleNotTroubled(a: Addr)
    ensures !Troubled(Tangle(), a)
  {
    var f := Tangle();
    TangleWays();
    if a == 2 {
      if Own(f, 7, 2) { OwnIsBelow(f, 7, 2); }
    } else if a == 5 {
      if Own(f, 8, 5) { OwnIsBelow(f, 8, 5); }
    } else {
      assert a in f ==> f[a].refs == [];
    }
  }

  /** Nothing in the references gives it away: no chunk is troubled, and the free is of no kind for which that would tell. */
  lemma TangleUntold()
    ensures !Trouble(Tangle(), 1) && !Tame(Tangle(), 1) && !Prudent(Tangle(), 1)
  {
    var f := Tangle();
    TangleWays();
    forall a ensures !Troubled(f, a) { TangleNotTroubled(a); }
    assert 8 in f[5].refs && !RefOk(f, 1, 5, 8) by {
      if Own(f, 8, 5) { OwnIsBelow(f, 8, 5); }
    }
    assert 7 in Family(f, 1) && 7 in f[2].refs && f[2].refs[0] == 7;
    assert !RefsSafe(f, Family(f, 1), 2);
  }

  /** Freeing chunk 1 leads to that one hierarchy, with a ring of three. */
  lemma TangleSnarls(g: Forest)
    ensures Step(Tangle(), Free(1), g) <==> g == Snarl()
    ensures Ring(Snarl(), {2, 3, 5}) && !Sound(Snarl()) && !Harmless(Tangle(), Free(1))
  {
    TangleRun();
    NotCleanRun(Tangle(), Snarl(), 1);
    SnarlRing();
    BrokenNotAcyclic(Snarl());
    TangleReached();
    ReachableSound(Tangle());
    if g == Snarl() { TangleIsSnarl(); }
  }

  lemma TangleIsSnarl()
    requires !Clean(Tangle(), 1) && FreesTo(Tangle(), Snarl(), 1) && !Sound(Snarl()) && Wf(Snarl()) && Idle(Snarl())
    ensures Step(Tangle(), Free(1), Snarl())
  {
    SnarlShrunk();
    TangleUntold();
    assert FreeCalled(Tangle(), Snarl(), 1, 0);
  }
}
