/** The hierarchy of src/external/talloc/lib/talloc/talloc.c seen as a value: which chunk hangs where, and which
    reference handles point at it. The class in Talloc.dfy keeps such a value as a ghost and is proved to follow it. */
module TallocForest {
  import opened Basics

  /** One live chunk. `kids` and `refs` are in list order. `loose` marks a chunk that is in no sibling list while it is
      being freed or moved; its `par` is then what its stale parent field says. `target` is non-zero for a reference
      handle whose destructor is set, and names the chunk it refers to. */
  datatype Node = Node(par: Addr, kids: seq<Addr>, refs: seq<Addr>, loose: bool, target: Addr)

  type Forest = map<Addr, Node>

  ghost predicate Distinct(s: seq<Addr>) {
    forall i, j :: 0 <= i < j < |s| ==> s[i] != s[j]
  }

  // ----- consistency -----

  ghost predicate NodeOk(f: Forest, a: Addr)
    requires a in f
  {
    var n := f[a];
    && n.par != a
    && (!n.loose && n.par != 0 ==> n.par in f && a in f[n.par].kids)
    && (n.target != 0 ==> n.target in f && a in f[n.target].refs && n.kids == [] && n.refs == [])
    && Distinct(n.kids) && Distinct(n.refs)
    && (forall k :: k in n.kids ==> k in f && f[k].par == a && !f[k].loose)
    && (forall h :: h in n.refs ==> h in f && f[h].target == a)
  }

  ghost predicate Wf(f: Forest) {
    0 !in f && forall a {:trigger NodeOk(f, a)} :: a in f ==> NodeOk(f, a)
  }

  // ----- ancestry -----

  const TALLOC_MAX_DEPTH: nat := 10000

  /** a reaches c by at most n parent steps. */
  ghost predicate Path(f: Forest, a: Addr, c: Addr, n: nat)
    decreases n
  {
    a == c || (n > 0 && a in f && !f[a].loose && f[a].par != 0 && Path(f, f[a].par, c, n - 1))
  }

  ghost predicate Below(f: Forest, a: Addr, c: Addr) {
    exists n :: Path(f, a, c, n)
  }

  /** n parents up; 0 beyond a root. */
  ghost function Ancestor(f: Forest, a: Addr, n: nat): Addr
    decreases n
  {
    if n == 0 then a else if a in f then Ancestor(f, f[a].par, n - 1) else 0
  }

  /** What `talloc_is_parent` answers: walking up from a it comes to c before it gives up. */
  ghost predicate Sees(f: Forest, a: Addr, c: Addr) {
    c != 0 && exists n: nat :: n < TALLOC_MAX_DEPTH && Ancestor(f, a, n) == c
  }

  lemma {:induction false} NextAncestor(f: Forest, a: Addr, n: nat)
    requires 0 !in f
    ensures Ancestor(f, a, n + 1) == if Ancestor(f, a, n) in f then f[Ancestor(f, a, n)].par else 0
    decreases n
  {
    if n > 0 && a in f {
      NextAncestor(f, f[a].par, n - 1);
    }
  }

  lemma {:induction false} NoAncestor(f: Forest, a: Addr, n: nat, k: nat)
    requires 0 !in f && n <= k && Ancestor(f, a, n) == 0
    ensures Ancestor(f, a, k) == 0
    decreases k
  {
    if n < k {
      NoAncestor(f, a, n, k - 1);
      NextAncestor(f, a, k - 1);
    }
  }

  lemma {:induction false} PathAncestor(f: Forest, a: Addr, c: Addr, n: nat)
    requires Path(f, a, c, n)
    ensures exists k: nat :: k <= n && Ancestor(f, a, k) == c
    decreases n
  {
    if a == c {
      assert Ancestor(f, a, 0) == c;
    } else {
      PathAncestor(f, f[a].par, c, n - 1);
      var k: nat :| k <= n - 1 && Ancestor(f, f[a].par, k) == c;
      assert Ancestor(f, a, k + 1) == c;
    }
  }

  // ----- what goes and what stays -----

  /** The handle h hangs below the chunk a it refers to, near enough for `talloc_is_parent` to see it. */
  ghost predicate Own(f: Forest, h: Addr, a: Addr) {
    exists n: nat :: n < TALLOC_MAX_DEPTH && h != a && Path(f, h, a, n)
  }

  /** All references to a hang below a: they do not keep it. */
  ghost predicate OwnOnly(f: Forest, a: Addr) {
    a in f && exists s :: s == f[a].refs && AllOwn(f, s, a)
  }

  ghost predicate AllOwn(f: Forest, s: seq<Addr>, a: Addr) {
    forall h :: h in s ==> Own(f, h, a)
  }

  /** The newest reference to a comes from the NULL context. */
  ghost predicate NullRef(f: Forest, a: Addr) {
    a in f && f[a].refs != [] && f[a].refs[0] in f && f[f[a].refs[0]].par == 0
  }

  /** a does not survive the free of c on its own account: no reference but its own keeps it, or its reference comes from
      the NULL context and its parent is not c. (Such a chunk is handed to its grandparent, which is being freed too.) */
  ghost predicate Weak(f: Forest, a: Addr, c: Addr) {
    a in f && (OwnOnly(f, a) || (NullRef(f, a) && f[a].par != c))
  }

  /** a reaches c by at most n parent steps, and every chunk before c is weak. */
  ghost predicate GonePath(f: Forest, a: Addr, c: Addr, n: nat)
    decreases n
  {
    a == c || (n > 0 && a in f && !f[a].loose && f[a].par != 0 && Weak(f, a, c) && GonePath(f, f[a].par, c, n - 1))
  }

  /** a goes when c is freed: it hangs below c, or is c, and it and every chunk on the way is weak. */
  ghost predicate Gone(f: Forest, a: Addr, c: Addr) {
    exists n :: GonePath(f, a, c, n)
  }

  /** a is a child of a chunk that goes when c is freed. */
  ghost predicate Reached(f: Forest, a: Addr, c: Addr) {
    a in f && a != c && !f[a].loose && f[a].par != 0 && Gone(f, f[a].par, c)
  }

  /** a survives the free of c, as the first such chunk on the way down from c. */
  ghost predicate Topmost(f: Forest, a: Addr, c: Addr) {
    Reached(f, a, c) && !Weak(f, a, c)
  }

  /** a handle that goes because the chunk above it that it refers to goes. */
  ghost predicate OwnHandle(f: Forest, a: Addr, c: Addr) {
    a in f && f[a].target in f && a in f[f[a].target].refs && Gone(f, f[a].target, c) && Own(f, a, f[a].target)
  }

  /** a goes when c is freed, by itself or with the chunk it refers to. */
  ghost predicate Doomed(f: Forest, a: Addr, c: Addr) {
    Gone(f, a, c) || OwnHandle(f, a, c)
  }

  ghost function DoomedSet(f: Forest, c: Addr): set<Addr> {
    set a | a in f && Doomed(f, a, c)
  }

  ghost function TopSet(f: Forest, c: Addr): set<Addr> {
    set a | a in f && Topmost(f, a, c)
  }

  lemma {:induction false} PathMore(f: Forest, a: Addr, c: Addr, n: nat, m: nat)
    requires Path(f, a, c, n) && n <= m
    ensures Path(f, a, c, m)
    decreases n
  {
    if a != c { PathMore(f, f[a].par, c, n - 1, m - 1); }
  }

  lemma {:induction false} PathJoin(f: Forest, a: Addr, b: Addr, c: Addr, n: nat, m: nat)
    requires Path(f, a, b, n) && Path(f, b, c, m)
    ensures Path(f, a, c, n + m)
    decreases n
  {
    if a == b {
      PathMore(f, b, c, m, n + m);
    } else {
      PathJoin(f, f[a].par, b, c, n - 1, m);
    }
  }

  lemma BelowStep(f: Forest, a: Addr, c: Addr)
    requires a in f && !f[a].loose && f[a].par != 0 && Below(f, f[a].par, c)
    ensures Below(f, a, c)
  {
    var n: nat :| Path(f, f[a].par, c, n);
    assert Path(f, a, c, n + 1);
  }

  lemma BelowJoin(f: Forest, a: Addr, b: Addr, c: Addr)
    requires Below(f, a, b) && Below(f, b, c)
    ensures Below(f, a, c)
  {
    var n: nat :| Path(f, a, b, n);
    var m: nat :| Path(f, b, c, m);
    PathJoin(f, a, b, c, n, m);
  }

  lemma OwnIsBelow(f: Forest, h: Addr, a: Addr)
    requires Own(f, h, a)
    ensures Below(f, h, a) && h != a && h in f && !f[h].loose && f[h].par != 0
  {
    var n: nat :| n < TALLOC_MAX_DEPTH && h != a && Path(f, h, a, n);
  }

  lemma GoneStep(f: Forest, a: Addr, c: Addr)
    requires a in f && !f[a].loose && f[a].par != 0 && Weak(f, a, c) && Gone(f, f[a].par, c)
    ensures Gone(f, a, c)
  {
    var n: nat :| GonePath(f, f[a].par, c, n);
    assert GonePath(f, a, c, n + 1);
  }

  lemma GoneSelf(f: Forest, c: Addr)
    ensures Gone(f, c, c) && Below(f, c, c)
  {
    assert GonePath(f, c, c, 0) && Path(f, c, c, 0);
  }

  lemma {:induction false} GonePathIsPath(f: Forest, a: Addr, c: Addr, n: nat)
    requires GonePath(f, a, c, n)
    ensures Path(f, a, c, n)
    decreases n
  {
    if a != c { GonePathIsPath(f, f[a].par, c, n - 1); }
  }

  lemma GoneIsBelow(f: Forest, a: Addr, c: Addr)
    requires Gone(f, a, c)
    ensures Below(f, a, c)
  {
    var n: nat :| GonePath(f, a, c, n);
    GonePathIsPath(f, a, c, n);
  }

  lemma GoneBack(f: Forest, a: Addr, c: Addr)
    requires Gone(f, a, c) && a != c
    ensures Reached(f, a, c) && Weak(f, a, c)
  {
    var n: nat :| GonePath(f, a, c, n);
    assert GonePath(f, f[a].par, c, n - 1);
  }

  lemma DoomedIsBelow(f: Forest, a: Addr, c: Addr)
    requires Doomed(f, a, c)
    ensures Below(f, a, c)
  {
    if Gone(f, a, c) {
      GoneIsBelow(f, a, c);
    } else {
      OwnIsBelow(f, a, f[a].target);
      GoneIsBelow(f, f[a].target, c);
      BelowJoin(f, a, f[a].target, c);
    }
  }

  /** Of two chunks above a, one is above the other. */
  lemma {:induction false} Comparable(f: Forest, a: Addr, b: Addr, c: Addr, n: nat, m: nat)
    requires Path(f, a, b, n) && GonePath(f, a, c, m)
    ensures GonePath(f, b, c, m) || Path(f, c, b, n)
    decreases n
  {
    if a == c {
    } else if a != b {
      Comparable(f, f[a].par, b, c, n - 1, m - 1);
      if GonePath(f, b, c, m - 1) { GonePathMore(f, b, c, m - 1, m); }
      if Path(f, c, b, n - 1) { PathMore(f, c, b, n - 1, n); }
    }
  }

  lemma {:induction false} GonePathMore(f: Forest, a: Addr, c: Addr, n: nat, m: nat)
    requires GonePath(f, a, c, n) && n <= m
    ensures GonePath(f, a, c, m)
    decreases n
  {
    if a != c { GonePathMore(f, f[a].par, c, n - 1, m - 1); }
  }

  // ----- what a free does -----

  /** The members of s that are in k, in order. */
  ghost function Keep(s: seq<Addr>, k: set<Addr>): (r: seq<Addr>)
    ensures forall x :: x in r <==> x in s && x in k
  {
    if s == [] then [] else (if s[0] in k then [s[0]] else []) + Keep(s[1..], k)
  }

  ghost predicate HasHead(f: Forest, a: Addr) {
    a in f && f[a].refs != [] && f[a].refs[0] in f
  }

  /** Where a survivor goes: to the context its newest reference hangs off, or to `stale` if that is NULL. */
  ghost function Adopter(f: Forest, a: Addr, stale: Addr): Addr {
    if HasHead(f, a) && f[f[a].refs[0]].par != 0 then f[f[a].refs[0]].par else stale
  }

  ghost function Destinations(f: Forest, c: Addr, stale: Addr): map<Addr, Addr> {
    map a | a in TopSet(f, c) :: Adopter(f, a, stale)
  }

  /** The newest handles of the chunks in s. */
  ghost function Heads(f: Forest, s: set<Addr>): set<Addr> {
    set a | a in s && HasHead(f, a) :: f[a].refs[0]
  }

  /** From f0 to f: `rel` is released, the chunks of `dest` move there, both with their newest handle consumed, and
      nothing else changes but that handles which are gone leave the reference lists they were in. */
  ghost predicate Effect(f0: Forest, f: Forest, rel: set<Addr>, dest: map<Addr, Addr>) {
    && (forall a :: a in dest ==> HasHead(f0, a))
    && f.Keys == f0.Keys - rel - Heads(f0, rel + dest.Keys)
    && dest.Keys <= f.Keys
    && forall a {:trigger NodeEffect(f0, f, dest, a)} :: a in f ==> NodeEffect(f0, f, dest, a)
  }

  ghost predicate NodeEffect(f0: Forest, f: Forest, dest: map<Addr, Addr>, a: Addr)
    requires a in f && a in f0
  {
    && f[a].par == (if a in dest then dest[a] else f0[a].par)
    && f[a].refs == Keep(f0[a].refs, f.Keys)
    && f[a].loose == f0[a].loose
    && f[a].target == f0[a].target
  }

  /** h hangs outside c's subtree, and no chunk above it is being freed. */
  ghost predicate OuterHandle(f: Forest, h: Addr, c: Addr) {
    && h in f && !f[h].loose
    && !Below(f, h, c)
    && forall b :: b in f && f[b].loose ==> !Below(f, h, b)
  }

  /** The reference h to a hangs outside c's subtree, and if off the NULL context it is the only one; or it is a's own. */
  ghost predicate RefOk(f: Forest, c: Addr, a: Addr, h: Addr) {
    a in f && ((OuterHandle(f, h, c) && (f[h].par != 0 || |f[a].refs| == 1)) || Own(f, h, a))
  }

  /** The newest reference to a is its own, and an older one is not. */
  ghost predicate Troubled(f: Forest, a: Addr) {
    HasHead(f, a) && Own(f, f[a].refs[0], a) && !OwnOnly(f, a)
  }

  /** c is not its own ancestor. */
  ghost predicate Upright(f: Forest, c: Addr) {
    c in f && f[c].par != 0 ==> !Below(f, f[c].par, c)
  }

  /** Every reference to a chunk below c comes from outside c's subtree or from below that chunk. */
  ghost predicate OuterOrOwn(f: Forest, c: Addr) {
    && (forall a, h :: a in f && h in f[a].refs && Below(f, a, c) ==> RefOk(f, c, a, h))
    && Upright(f, c)
    && (c in f && f[c].loose ==> f[c].refs == [])
  }

  /** The same, and no troubled chunk is its own newest referrer. */
  ghost predicate Tame(f: Forest, c: Addr) {
    OuterOrOwn(f, c) && forall a :: Reached(f, a, c) && Troubled(f, a) ==> f[f[a].refs[0]].par != a
  }

  /** Freeing c comes to a troubled chunk. */
  ghost predicate Trouble(f: Forest, c: Addr) {
    exists a :: Reached(f, a, c) && Troubled(f, a)
  }

  /** A chunk below c that is neither kept by nothing nor troubled is kept from outside. */
  lemma HeadOuter(f: Forest, c: Addr, a: Addr)
    requires Wf(f) && OuterOrOwn(f, c) && a in f && Below(f, a, c) && !OwnOnly(f, a) && !Troubled(f, a)
    ensures HasHead(f, a) && OuterHandle(f, f[a].refs[0], c) && (f[f[a].refs[0]].par != 0 || |f[a].refs| == 1)
  {
    assert NodeOk(f, a);
    if f[a].refs == [] { assert AllOwn(f, f[a].refs, a); }
    var h := f[a].refs[0];
    assert h in f[a].refs && RefOk(f, c, a, h);
  }

  lemma {:induction false} KeepAll(s: seq<Addr>, k: set<Addr>)
    requires forall x :: x in s ==> x in k
    ensures Keep(s, k) == s
  {
    if s != [] { KeepAll(s[1..], k); }
  }

  lemma {:induction false} KeepTwice(s: seq<Addr>, k: set<Addr>, l: set<Addr>)
    requires l <= k
    ensures Keep(Keep(s, k), l) == Keep(s, l)
  {
    if s != [] {
      KeepTwice(s[1..], k, l);
      if s[0] in k {
        assert Keep(s, k)[0] == s[0] && Keep(s, k)[1..] == Keep(s[1..], k);
      } else {
        assert Keep(s, k) == Keep(s[1..], k);
      }
    }
  }

  // ----- one round of the loop that frees the children of c -----

  /** What the round that takes kid x of c has done. A chunk that moves to c itself has only been raised one level. */
  ghost predicate KidEffect(f: Forest, f1: Forest, c: Addr, x: Addr, rel: set<Addr>, dest: map<Addr, Addr>) {
    && x in f && c in f
    && Effect(f, f1, rel, dest)
    && if OwnOnly(f, x) then rel == DoomedSet(f, x) && dest == Destinations(f, x, c)
       else rel == {} && dest == map[x := Adopter(f, x, f[c].par)]
  }

  ghost predicate Round(f: Forest, f1: Forest, c: Addr, x: Addr, rel: set<Addr>, dest: map<Addr, Addr>) {
    && Wf(f) && Wf(f1) && c in f && f[c].loose && x in f[c].kids
    && Tame(f, c) && !Troubled(f, x) && (OwnOnly(f, x) ==> !Trouble(f, x)) && KidEffect(f, f1, c, x, rel, dest)
  }

  /** What goes with a child of c that nothing keeps goes with c. */
  lemma {:induction false} GonePathLift(f: Forest, a: Addr, c: Addr, x: Addr, n: nat)
    requires Wf(f) && c in f && f[c].loose && x in f[c].kids && x in f && OwnOnly(f, x)
    requires GonePath(f, a, x, n)
    ensures a != c && GonePath(f, a, c, n + 1)
    decreases n
  {
    assert NodeOk(f, c);
    if a != x {
      GonePathLift(f, f[a].par, c, x, n - 1);
    }
  }

  lemma GoneLift(f: Forest, a: Addr, c: Addr, x: Addr)
    requires Wf(f) && c in f && f[c].loose && x in f[c].kids && x in f && OwnOnly(f, x) && Gone(f, a, x)
    ensures a != c && Gone(f, a, c)
  {
    var n: nat :| GonePath(f, a, x, n);
    GonePathLift(f, a, c, x, n);
  }

  lemma ReachedLift(f: Forest, a: Addr, c: Addr, x: Addr)
    requires Wf(f) && c in f && f[c].loose && x in f[c].kids && x in f && OwnOnly(f, x) && Reached(f, a, x)
    ensures a != c && Reached(f, a, c) && Below(f, a, c)
  {
    GoneLift(f, f[a].par, c, x);
    GoneIsBelow(f, f[a].par, c);
    BelowStep(f, a, c);
  }

  lemma DoomedLift(f: Forest, a: Addr, c: Addr, x: Addr)
    requires Wf(f) && c in f && f[c].loose && x in f[c].kids && x in f && OwnOnly(f, x) && Doomed(f, a, x)
    ensures a != c && Doomed(f, a, c)
  {
    if Gone(f, a, x) {
      GoneLift(f, a, c, x);
    } else {
      GoneLift(f, f[a].target, c, x);
      OwnIsBelow(f, a, f[a].target);
    }
  }

  lemma ChildReached(f: Forest, c: Addr, x: Addr)
    requires Wf(f) && c in f && x in f[c].kids
    ensures x in f && x != c && f[x].par == c && Reached(f, x, c) && Below(f, x, c)
  {
    assert NodeOk(f, c);
    assert NodeOk(f, x);
    GoneSelf(f, c);
    BelowStep(f, x, c);
  }

  /** The chunks a round touches hang below c. A raised one goes with c; a moved one is a survivor. */
  lemma RoundReleased(f: Forest, f1: Forest, c: Addr, x: Addr, rel: set<Addr>, dest: map<Addr, Addr>, a: Addr)
    requires Round(f, f1, c, x, rel, dest) && a in rel
    ensures a != c && Below(f, a, c) && Doomed(f, a, c)
  {
    DoomedLift(f, a, c, x);
    DoomedIsBelow(f, a, c);
  }

  /** What is released and is no handle goes by itself. */
  lemma ReleasedGone(f: Forest, f1: Forest, c: Addr, x: Addr, rel: set<Addr>, dest: map<Addr, Addr>, a: Addr)
    requires Round(f, f1, c, x, rel, dest) && a in rel && (f[a].target == 0 || f[a].kids != [] || f[a].refs != [])
    ensures Gone(f, a, x) && Gone(f, a, c) && OwnOnly(f, x)
  {
    assert NodeOk(f, a) && 0 !in f;
    GoneLift(f, a, c, x);
  }

  lemma RoundMovedChild(f: Forest, f1: Forest, c: Addr, x: Addr, rel: set<Addr>, dest: map<Addr, Addr>)
    requires Round(f, f1, c, x, rel, dest) && !OwnOnly(f, x)
    ensures x != c && Below(f, x, c) && Topmost(f, x, c) && dest[x] == Adopter(f, x, f[c].par) && dest[x] != c
    ensures HasHead(f, x) && OuterHandle(f, f[x].refs[0], c)
  {
    ChildReached(f, c, x);
    HeadOuter(f, c, x);
    assert NodeOk(f, c) && 0 !in f;
    AdopterElsewhere(f, x, c);
  }

  /** No survivor moves to c: its reference hangs outside c's subtree. */
  lemma AdopterElsewhere(f: Forest, a: Addr, c: Addr)
    requires HasHead(f, a) && OuterHandle(f, f[a].refs[0], c) && c in f && (f[c].par != 0 ==> f[c].par != c && !Below(f, f[c].par, c))
    ensures f[f[a].refs[0]].par != c || c == 0
    ensures c != 0 ==> Adopter(f, a, f[c].par) != c
    ensures Adopter(f, a, f[c].par) != 0 ==> !Below(f, Adopter(f, a, f[c].par), c)
  {
    var h := f[a].refs[0];
    GoneSelf(f, c);
    if f[h].par != 0 && Below(f, f[h].par, c) { BelowStep(f, h, c); }
  }

  lemma RoundMoved(f: Forest, f1: Forest, c: Addr, x: Addr, rel: set<Addr>, dest: map<Addr, Addr>, a: Addr)
    requires Round(f, f1, c, x, rel, dest) && a in dest
    ensures a != c && Below(f, a, c) && Reached(f, a, c) && HasHead(f, a) && !OwnOnly(f, a)
    ensures OuterHandle(f, f[a].refs[0], c) && (f[f[a].refs[0]].par != 0 || |f[a].refs| == 1)
    ensures dest[a] == c ==> Gone(f, a, c) && NullRef(f, a)
    ensures dest[a] != c ==> Topmost(f, a, c) && dest[a] == Adopter(f, a, f[c].par)
  {
    assert NodeOk(f, c) && 0 !in f;
    if !OwnOnly(f, x) {
      ChildReached(f, c, x);
      HeadOuter(f, c, x);
      RoundMovedChild(f, f1, c, x, rel, dest);
    } else {
      assert Topmost(f, a, x);
      ReachedLift(f, a, c, x);
      HeadOuter(f, c, a);
      AdopterElsewhere(f, a, c);
      if NullRef(f, a) {
        assert f[a].par == x && NodeOk(f, x);
        GoneStep(f, a, c);
      }
    }
  }

  lemma OuterUntouched(f: Forest, f1: Forest, c: Addr, x: Addr, rel: set<Addr>, dest: map<Addr, Addr>, h: Addr)
    requires Round(f, f1, c, x, rel, dest) && OuterHandle(f, h, c)
    ensures h !in rel && h !in dest
  {
    if h in rel { RoundReleased(f, f1, c, x, rel, dest, h); }
    if h in dest { RoundMoved(f, f1, c, x, rel, dest, h); }
  }

  lemma HeadsElsewhere(f: Forest, s: set<Addr>, a: Addr, h: Addr)
    requires Wf(f) && a in f && h in f[a].refs && a !in s
    ensures h in f && h !in Heads(f, s)
  {
    assert NodeOk(f, a);
    forall t | t in s && HasHead(f, t) ensures f[t].refs[0] != h {
      assert NodeOk(f, t);
    }
  }

  // ----- ways up to a chunk that the round does not touch -----

  lemma NothingOverLoose(f: Forest, c: Addr, a: Addr)
    requires c in f && f[c].loose && a != c
    ensures !Below(f, c, a)
  {
    forall m: nat ensures !Path(f, c, a, m) {
    }
  }

  lemma BelowFirst(f: Forest, x: Addr, a: Addr)
    requires x in f && Below(f, x, a)
    ensures x == a || Below(f, f[x].par, a)
  {
    var n: nat :| Path(f, x, a, n);
    if x != a { assert Path(f, f[x].par, a, n - 1); }
  }

  /** Nothing between x and c. */
  lemma ChildBelow(f: Forest, c: Addr, x: Addr, a: Addr)
    requires Wf(f) && c in f && f[c].loose && x in f[c].kids && Below(f, x, a) && a != c
    ensures a == x
  {
    ChildReached(f, c, x);
    BelowFirst(f, x, a);
    NothingOverLoose(f, c, a);
  }

  lemma NotFromGone(f: Forest, f1: Forest, c: Addr, x: Addr, rel: set<Addr>, dest: map<Addr, Addr>, b: Addr, a: Addr)
    requires Round(f, f1, c, x, rel, dest) && OwnOnly(f, x) && Gone(f, b, x) && Below(f, b, a) && a in f && a != c
    ensures a in rel
  {
    var n: nat :| Path(f, b, a, n);
    var m: nat :| GonePath(f, b, x, m);
    Comparable(f, b, a, x, n, m);
    if !GonePath(f, a, x, m) {
      ChildBelow(f, c, x, a);
      GoneSelf(f, x);
    }
    assert Gone(f, a, x);
  }

  /** What hangs below an untouched chunk a is untouched too, handles of other chunks apart. */
  lemma BelowUntouched(f: Forest, f1: Forest, c: Addr, x: Addr, rel: set<Addr>, dest: map<Addr, Addr>, a: Addr, b: Addr)
    requires Round(f, f1, c, x, rel, dest) && a in f && a != c && a !in rel && a !in dest
    requires b in f && Below(f, b, a) && b != a && (f[b].target == 0 || f[b].target == a)
    ensures b !in rel && b !in dest
  {
    assert NodeOk(f, b) && 0 !in f;
    if b in rel {
      if Gone(f, b, x) {
        NotFromGone(f, f1, c, x, rel, dest, b, a);
      }
    }
    if b in dest {
      if OwnOnly(f, x) {
        var n: nat :| Path(f, b, a, n);
        assert Path(f, f[b].par, a, n - 1);
        NotFromGone(f, f1, c, x, rel, dest, f[b].par, a);
      } else {
        ChildBelow(f, c, x, a);
      }
    }
  }

  lemma UntouchedStays(f: Forest, f1: Forest, c: Addr, x: Addr, rel: set<Addr>, dest: map<Addr, Addr>, a: Addr, b: Addr)
    requires Round(f, f1, c, x, rel, dest) && a in f && a != c && a !in rel && a !in dest
    requires b in f && Below(f, b, a) && b != a && (f[b].target == 0 || f[b].target == a)
    ensures b in f1 && f1[b].par == f[b].par && f1[b].loose == f[b].loose && b !in dest
  {
    BelowUntouched(f, f1, c, x, rel, dest, a, b);
    assert 0 !in f;
    forall t | t in rel + dest.Keys && HasHead(f, t) ensures f[t].refs[0] != b {
      assert NodeOk(f, t);
    }
    assert NodeEffect(f, f1, dest, b);
  }

  lemma {:induction false} PathStays(f: Forest, f1: Forest, c: Addr, x: Addr, rel: set<Addr>, dest: map<Addr, Addr>, a: Addr, b: Addr, n: nat)
    requires Round(f, f1, c, x, rel, dest) && a in f && a != c && a !in rel && a !in dest
    requires Path(f, b, a, n) && (b in f ==> f[b].target == 0 || f[b].target == a)
    ensures Path(f1, b, a, n)
    decreases n
  {
    if b != a {
      UntouchedStays(f, f1, c, x, rel, dest, a, b);
      var p := f[b].par;
      assert NodeOk(f, b);
      if p in f { assert NodeOk(f, p); }
      PathStays(f, f1, c, x, rel, dest, a, p, n - 1);
    }
  }

  /** An own reference of an untouched chunk stays one. */
  lemma OwnStays(f: Forest, f1: Forest, c: Addr, x: Addr, rel: set<Addr>, dest: map<Addr, Addr>, a: Addr, h: Addr)
    requires Round(f, f1, c, x, rel, dest) && a in f && a != c && a !in rel && a !in dest && h in f[a].refs && Own(f, h, a)
    ensures h in f1 && h !in dest && f1[h].par == f[h].par && Own(f1, h, a)
  {
    OwnIsBelow(f, h, a);
    assert NodeOk(f, a);
    UntouchedStays(f, f1, c, x, rel, dest, a, h);
    var n: nat :| n < TALLOC_MAX_DEPTH && h != a && Path(f, h, a, n);
    PathStays(f, f1, c, x, rel, dest, a, h, n);
  }

  /** The way up from a chunk outside c's subtree is not changed by the round. */
  lemma {:induction false} RoundChain(f: Forest, f1: Forest, c: Addr, x: Addr, rel: set<Addr>, dest: map<Addr, Addr>, h: Addr, b: Addr, m: nat)
    requires Round(f, f1, c, x, rel, dest) && !Below(f, h, c) && Path(f1, h, b, m)
    ensures Path(f, h, b, m)
    decreases m
  {
    if h != b {
      assert NodeEffect(f, f1, dest, h);
      if h in dest { RoundMoved(f, f1, c, x, rel, dest, h); }
      if Below(f, f[h].par, c) { BelowStep(f, h, c); }
      RoundChain(f, f1, c, x, rel, dest, f[h].par, b, m - 1);
    }
  }

  lemma OuterStaysOuter(f: Forest, f1: Forest, c: Addr, x: Addr, rel: set<Addr>, dest: map<Addr, Addr>, a: Addr, h: Addr)
    requires Round(f, f1, c, x, rel, dest) && OuterHandle(f, h, c) && Below(f, a, c)
    ensures !Own(f1, h, a)
  {
    if Own(f1, h, a) {
      var n: nat :| n < TALLOC_MAX_DEPTH && h != a && Path(f1, h, a, n);
      RoundChain(f, f1, c, x, rel, dest, h, a, n);
      BelowJoin(f, h, a, c);
    }
  }

  /** The handles of a chunk below c that the round does not touch outlive it, stay where they are, and remain its own or
      not. */
  lemma RoundHandle(f: Forest, f1: Forest, c: Addr, x: Addr, rel: set<Addr>, dest: map<Addr, Addr>, a: Addr, h: Addr)
    requires Round(f, f1, c, x, rel, dest) && a in f && Below(f, a, c) && a !in dest && a !in rel && h in f[a].refs
    ensures h in f1 && h !in dest && f1[h].par == f[h].par && (Own(f1, h, a) <==> Own(f, h, a))
    ensures Own(f, h, a) || OuterHandle(f, h, c)
  {
    assert a != c;
    assert RefOk(f, c, a, h);
    if Own(f, h, a) {
      OwnStays(f, f1, c, x, rel, dest, a, h);
    } else {
      HeadsElsewhere(f, rel + dest.Keys, a, h);
      OuterUntouched(f, f1, c, x, rel, dest, h);
      assert NodeEffect(f, f1, dest, h);
      OuterStaysOuter(f, f1, c, x, rel, dest, a, h);
    }
  }

  lemma RoundRefs(f: Forest, f1: Forest, c: Addr, x: Addr, rel: set<Addr>, dest: map<Addr, Addr>, a: Addr)
    requires Round(f, f1, c, x, rel, dest) && a in f1 && Below(f, a, c) && a !in dest
    ensures f1[a].refs == f[a].refs && f1[a].par == f[a].par && f1[a].loose == f[a].loose
    ensures NullRef(f1, a) <==> NullRef(f, a)
    ensures OwnOnly(f1, a) <==> OwnOnly(f, a)
    ensures Troubled(f1, a) <==> Troubled(f, a)
    ensures Weak(f1, a, c) <==> Weak(f, a, c)
  {
    forall h | h in f[a].refs ensures h in f1 && f1[h].par == f[h].par && (Own(f1, h, a) <==> Own(f, h, a)) {
      RoundHandle(f, f1, c, x, rel, dest, a, h);
    }
    KeepAll(f[a].refs, f1.Keys);
    assert NodeEffect(f, f1, dest, a);
    assert AllOwn(f1, f[a].refs, a) <==> AllOwn(f, f[a].refs, a);
    if f[a].refs != [] { assert f[a].refs[0] in f[a].refs; assert NodeOk(f, a); }
  }

  /** A raised chunk has used up its only reference. */
  lemma RaisedRefs(f: Forest, f1: Forest, c: Addr, x: Addr, rel: set<Addr>, dest: map<Addr, Addr>, a: Addr)
    requires Round(f, f1, c, x, rel, dest) && a in dest && dest[a] == c
    ensures a in f1 && f1[a].par == c && f1[a].refs == [] && f1[a].loose == f[a].loose && !f[a].loose && OwnOnly(f1, a)
  {
    RoundMoved(f, f1, c, x, rel, dest, a);
    assert NodeEffect(f, f1, dest, a);
    var h := f[a].refs[0];
    assert h in f[a].refs && h in Heads(f, rel + dest.Keys);
    assert f[a].refs == [h] && h !in f1 && [h][1..] == [];
    assert Keep([h], f1.Keys) == Keep([h][1..], f1.Keys);
    assert AllOwn(f1, f1[a].refs, a);
  }

  /** Nothing comes to hang below c during the round; what is raised to c hung below it before. */
  lemma {:induction false} RoundAddsNothing(f: Forest, f1: Forest, c: Addr, x: Addr, rel: set<Addr>, dest: map<Addr, Addr>, a: Addr, n: nat)
    requires Round(f, f1, c, x, rel, dest) && Path(f1, a, c, n)
    ensures (a in dest ==> dest[a] == c) && Below(f, a, c)
    decreases n
  {
    if a == c {
      GoneSelf(f, c);
      if a in dest { RoundMoved(f, f1, c, x, rel, dest, a); }
    } else {
      RoundAddsNothing(f, f1, c, x, rel, dest, f1[a].par, n - 1);
      assert NodeEffect(f, f1, dest, a);
      if a in dest {
        RoundMoved(f, f1, c, x, rel, dest, a);
        assert NodeOk(f, c);
        if dest[a] != c { AdopterElsewhere(f, a, c); }
      } else {
        BelowStep(f, a, c);
      }
    }
  }

  lemma {:induction false} RoundDoomsNothing(f: Forest, f1: Forest, c: Addr, x: Addr, rel: set<Addr>, dest: map<Addr, Addr>, a: Addr, n: nat)
    requires Round(f, f1, c, x, rel, dest) && GonePath(f1, a, c, n)
    ensures Gone(f, a, c)
    decreases n
  {
    if a == c {
      GoneSelf(f, c);
    } else {
      GonePathIsPath(f1, a, c, n);
      RoundAddsNothing(f, f1, c, x, rel, dest, a, n);
      RoundDoomsNothing(f, f1, c, x, rel, dest, f1[a].par, n - 1);
      if a in dest {
        RoundMoved(f, f1, c, x, rel, dest, a);
      } else {
        RoundRefs(f, f1, c, x, rel, dest, a);
        GoneStep(f, a, c);
      }
    }
  }

  lemma HeadsAreOuter(f: Forest, f1: Forest, c: Addr, x: Addr, rel: set<Addr>, dest: map<Addr, Addr>, h: Addr)
    requires Round(f, f1, c, x, rel, dest) && h in Heads(f, rel + dest.Keys)
    ensures OuterHandle(f, h, c) || h in rel
  {
    var t :| t in rel + dest.Keys && HasHead(f, t) && f[t].refs[0] == h;
    if t in dest {
      RoundMoved(f, f1, c, x, rel, dest, t);
    } else {
      ReleasedGone(f, f1, c, x, rel, dest, t);
      GoneIsBelow(f, t, c);
      assert h in f[t].refs && NodeOk(f, t) && RefOk(f, c, t, h);
      if Own(f, h, t) { assert OwnHandle(f, h, x); }
    }
  }

  /** A chunk below c that the round neither releases nor moves is as it was. */
  lemma RoundKeeps(f: Forest, f1: Forest, c: Addr, x: Addr, rel: set<Addr>, dest: map<Addr, Addr>, a: Addr)
    requires Round(f, f1, c, x, rel, dest) && a in f && Below(f, a, c) && a !in rel && a !in dest
    ensures a in f1 && f1[a].par == f[a].par && f1[a].loose == f[a].loose && f1[a].refs == f[a].refs
    ensures Weak(f1, a, c) <==> Weak(f, a, c)
    ensures Troubled(f1, a) <==> Troubled(f, a)
  {
    if a in Heads(f, rel + dest.Keys) { HeadsAreOuter(f, f1, c, x, rel, dest, a); }
    RoundRefs(f, f1, c, x, rel, dest, a);
  }

  /** A child of a chunk that went with x goes too, or is moved. */
  lemma RoundParent(f: Forest, f1: Forest, c: Addr, x: Addr, rel: set<Addr>, dest: map<Addr, Addr>, a: Addr)
    requires Round(f, f1, c, x, rel, dest) && a in f && !f[a].loose && f[a].par in rel && f[a].par != 0
    ensures a in rel || a in dest
  {
    var p := f[a].par;
    assert NodeOk(f, a);
    ReleasedGone(f, f1, c, x, rel, dest, p);
    assert NodeOk(f, c) && a != x by { RoundReleased(f, f1, c, x, rel, dest, p); }
    if Weak(f, a, x) {
      GoneStep(f, a, x);
    } else {
      assert Topmost(f, a, x);
    }
  }

  /** What will go with c is what the round takes and what will go with c after it. */
  lemma {:induction false} RoundGone(f: Forest, f1: Forest, c: Addr, x: Addr, rel: set<Addr>, dest: map<Addr, Addr>, a: Addr, n: nat)
    requires Round(f, f1, c, x, rel, dest) && GonePath(f, a, c, n) && a != c && a !in rel
    ensures a in f1 && Gone(f1, a, c)
    decreases n
  {
    var p := f[a].par;
    assert Gone(f, a, c);
    GoneIsBelow(f, a, c);
    GoneSelf(f1, c);
    if a in dest {
      RoundMoved(f, f1, c, x, rel, dest, a);
      if dest[a] == c { RaisedRefs(f, f1, c, x, rel, dest, a); }
    } else {
      RoundKeeps(f, f1, c, x, rel, dest, a);
      if p in rel { RoundParent(f, f1, c, x, rel, dest, a); }
      if p != c { RoundGone(f, f1, c, x, rel, dest, p, n - 1); }
    }
    assert NodeOk(f, c) && 0 !in f;
    GoneStep(f1, a, c);
  }

  lemma RoundReached(f: Forest, f1: Forest, c: Addr, x: Addr, rel: set<Addr>, dest: map<Addr, Addr>, a: Addr)
    requires Round(f, f1, c, x, rel, dest) && Reached(f, a, c) && a !in rel && a !in dest
    ensures a in f1 && Reached(f1, a, c) && f1[a].refs == f[a].refs
    ensures (Weak(f1, a, c) <==> Weak(f, a, c)) && (Troubled(f1, a) <==> Troubled(f, a))
  {
    var p := f[a].par;
    GoneIsBelow(f, p, c);
    BelowStep(f, a, c);
    RoundKeeps(f, f1, c, x, rel, dest, a);
    if p in rel { RoundParent(f, f1, c, x, rel, dest, a); }
    if p == c {
      GoneSelf(f1, c);
    } else {
      var n: nat :| GonePath(f, p, c, n);
      RoundGone(f, f1, c, x, rel, dest, p, n);
    }
  }

  lemma RoundTopmost(f: Forest, f1: Forest, c: Addr, x: Addr, rel: set<Addr>, dest: map<Addr, Addr>, a: Addr)
    requires Round(f, f1, c, x, rel, dest) && Topmost(f, a, c) && (a in dest ==> dest[a] == c)
    ensures a in f1 && Topmost(f1, a, c)
  {
    if a in rel {
      if f[a].refs == [] { assert AllOwn(f, f[a].refs, a); }
      ReleasedGone(f, f1, c, x, rel, dest, a);
      GoneBack(f, a, c);
    }
    if a in dest { RoundMoved(f, f1, c, x, rel, dest, a); GoneBack(f, a, c); }
    RoundReached(f, f1, c, x, rel, dest, a);
  }

  /** What is reached after the round was reached before it and not touched, or raised. */
  lemma RoundReachedBack(f: Forest, f1: Forest, c: Addr, x: Addr, rel: set<Addr>, dest: map<Addr, Addr>, a: Addr)
    requires Round(f, f1, c, x, rel, dest) && a in f1 && Reached(f1, a, c)
    ensures a in dest ==> Weak(f1, a, c) && !Troubled(f1, a)
    ensures a !in dest ==> a in f && Reached(f, a, c) && f1[a].refs == f[a].refs
    ensures a !in dest ==> (Weak(f1, a, c) <==> Weak(f, a, c)) && (Troubled(f1, a) <==> Troubled(f, a))
  {
    var p := f1[a].par;
    GoneIsBelow(f1, p, c);
    BelowStep(f1, a, c);
    var n: nat :| Path(f1, a, c, n);
    RoundAddsNothing(f, f1, c, x, rel, dest, a, n);
    if a in dest {
      RaisedRefs(f, f1, c, x, rel, dest, a);
    } else {
      RoundRefs(f, f1, c, x, rel, dest, a);
      var m: nat :| GonePath(f1, p, c, m);
      RoundDoomsNothing(f, f1, c, x, rel, dest, p, m);
    }
  }

  lemma RoundTopmostBack(f: Forest, f1: Forest, c: Addr, x: Addr, rel: set<Addr>, dest: map<Addr, Addr>, a: Addr)
    requires Round(f, f1, c, x, rel, dest) && a in f1 && Topmost(f1, a, c)
    ensures Topmost(f, a, c) && a !in dest
  {
    RoundReachedBack(f, f1, c, x, rel, dest, a);
  }

  /** The round neither makes a troubled chunk within reach nor takes one away. */
  lemma RoundTrouble(f: Forest, f1: Forest, c: Addr, x: Addr, rel: set<Addr>, dest: map<Addr, Addr>)
    requires Round(f, f1, c, x, rel, dest)
    ensures Trouble(f1, c) <==> Trouble(f, c)
  {
    if Trouble(f1, c) {
      var a :| Reached(f1, a, c) && Troubled(f1, a);
      RoundReachedBack(f, f1, c, x, rel, dest, a);
    }
    if Trouble(f, c) {
      var a :| Reached(f, a, c) && Troubled(f, a);
      TroubledUntouched(f, f1, c, x, rel, dest, a);
      RoundReached(f, f1, c, x, rel, dest, a);
    }
  }

  lemma TroubledUntouched(f: Forest, f1: Forest, c: Addr, x: Addr, rel: set<Addr>, dest: map<Addr, Addr>, a: Addr)
    requires Round(f, f1, c, x, rel, dest) && Reached(f, a, c) && Troubled(f, a)
    ensures a !in rel && a !in dest
  {
    OwnIsBelow(f, f[a].refs[0], a);
    if a in rel {
      ReleasedGone(f, f1, c, x, rel, dest, a);
      if a != x { GoneBack(f, a, x); }
    }
  }

  lemma RoundOuterHandle(f: Forest, f1: Forest, c: Addr, x: Addr, rel: set<Addr>, dest: map<Addr, Addr>, h: Addr)
    requires Round(f, f1, c, x, rel, dest) && OuterHandle(f, h, c) && h in f1 && h !in dest
    ensures OuterHandle(f1, h, c)
  {
    assert NodeEffect(f, f1, dest, h);
    forall b | Below(f1, h, b) ensures Below(f, h, b) && (b in f1 ==> b in f && f1[b].loose == f[b].loose) {
      var m: nat :| Path(f1, h, b, m);
      RoundChain(f, f1, c, x, rel, dest, h, b, m);
      if b in f1 { assert NodeEffect(f, f1, dest, b); }
    }
  }

  lemma RoundRefOk(f: Forest, f1: Forest, c: Addr, x: Addr, rel: set<Addr>, dest: map<Addr, Addr>, a: Addr, h: Addr)
    requires Round(f, f1, c, x, rel, dest) && a in f1 && h in f1[a].refs && Below(f1, a, c)
    ensures RefOk(f1, c, a, h)
  {
    var n: nat :| Path(f1, a, c, n);
    RoundAddsNothing(f, f1, c, x, rel, dest, a, n);
    if a in dest { RaisedRefs(f, f1, c, x, rel, dest, a); }
    RoundRefs(f, f1, c, x, rel, dest, a);
    RoundHandle(f, f1, c, x, rel, dest, a, h);
    assert RefOk(f, c, a, h);
    if OuterHandle(f, h, c) { RoundOuterHandle(f, f1, c, x, rel, dest, h); }
  }

  /** References stay outside or below what they refer to, and c does not become its own ancestor. */
  lemma RoundTame(f: Forest, f1: Forest, c: Addr, x: Addr, rel: set<Addr>, dest: map<Addr, Addr>)
    requires Round(f, f1, c, x, rel, dest)
    ensures Tame(f1, c)
  {
    forall a, h | a in f1 && h in f1[a].refs && Below(f1, a, c) ensures RefOk(f1, c, a, h) {
      RoundRefOk(f, f1, c, x, rel, dest, a, h);
    }
    if c in f1 {
      if c in dest { RoundMoved(f, f1, c, x, rel, dest, c); }
      assert NodeEffect(f, f1, dest, c);
      if f1[c].par != 0 && Below(f1, f1[c].par, c) {
        var m: nat :| Path(f1, f1[c].par, c, m);
        RoundAddsNothing(f, f1, c, x, rel, dest, f1[c].par, m);
      }
    }
    forall a | Reached(f1, a, c) && Troubled(f1, a) ensures f1[f1[a].refs[0]].par != a {
      RoundReachedBack(f, f1, c, x, rel, dest, a);
      GoneIsBelow(f, f[a].par, c);
      BelowStep(f, a, c);
      assert f[a].refs[0] in f[a].refs;
      RoundHandle(f, f1, c, x, rel, dest, a, f[a].refs[0]);
    }
  }

  // ----- putting rounds together -----

  type Moves = map<Addr, Addr>

  lemma HandleNotMoved(f0: Forest, f: Forest, rel: set<Addr>, dest: Moves, a: Addr, h: Addr)
    requires Wf(f0) && Effect(f0, f, rel, dest) && a in f0 && h in f0[a].refs
    ensures h !in dest
  {
    assert NodeOk(f0, a) && NodeOk(f0, h);
  }

  /** What a later step may find of the chunks it touches: as they were, or moved already and out of references. */
  ghost predicate Fresh(f0: Forest, f: Forest, dest: Moves, a: Addr) {
    a in f0 && a in f && f[a].refs == (if a in dest then [] else f0[a].refs)
  }

  ghost predicate Joinable(f0: Forest, f: Forest, f1: Forest, rel: set<Addr>, dest: Moves, rel1: set<Addr>, dest1: Moves) {
    && Wf(f0) && Effect(f0, f, rel, dest) && Effect(f, f1, rel1, dest1)
    && (forall a :: a in rel1 || a in dest1 ==> Fresh(f0, f, dest, a))
  }

  ghost function Joined(dest: Moves, rel1: set<Addr>, dest1: Moves): Moves {
    (dest - rel1) + dest1
  }

  lemma JoinMoved(f0: Forest, f: Forest, f1: Forest, rel: set<Addr>, dest: Moves, rel1: set<Addr>, dest1: Moves, a: Addr)
    requires Joinable(f0, f, f1, rel, dest, rel1, dest1) && a in dest1
    ensures a !in dest && HasHead(f0, a) && HasHead(f, a) && f[a].refs == f0[a].refs
    ensures f[f[a].refs[0]].par == f0[f[a].refs[0]].par
  {
    assert HasHead(f, a) && Fresh(f0, f, dest, a) && NodeOk(f0, a);
    HandleNotMoved(f0, f, rel, dest, a, f0[a].refs[0]);
    assert NodeEffect(f0, f, dest, f[a].refs[0]);
  }

  lemma JoinStays(f0: Forest, f: Forest, f1: Forest, rel: set<Addr>, dest: Moves, rel1: set<Addr>, dest1: Moves, a: Addr)
    requires Joinable(f0, f, f1, rel, dest, rel1, dest1) && a in dest && a !in rel1
    ensures a in f1
  {
    if a in Heads(f, rel1 + dest1.Keys) {
      var t :| t in rel1 + dest1.Keys && HasHead(f, t) && f[t].refs[0] == a;
      assert Fresh(f0, f, dest, t);
      HandleNotMoved(f0, f, rel, dest, t, a);
    }
  }

  lemma JoinHeads(f0: Forest, f: Forest, rel: set<Addr>, dest: Moves, rel1: set<Addr>, dest1: Moves)
    requires forall a :: a in dest ==> HasHead(f0, a)
    requires forall a :: a in rel1 || a in dest1 ==> Fresh(f0, f, dest, a) && (HasHead(f, a) <==> HasHead(f0, a) && a !in dest)
    ensures Heads(f0, rel + rel1 + Joined(dest, rel1, dest1).Keys) == Heads(f0, rel + dest.Keys) + Heads(f, rel1 + dest1.Keys)
  {
    var l, r := Heads(f0, rel + rel1 + Joined(dest, rel1, dest1).Keys), Heads(f0, rel + dest.Keys) + Heads(f, rel1 + dest1.Keys);
    forall h | h in l ensures h in r {
      var a :| a in rel + rel1 + Joined(dest, rel1, dest1).Keys && HasHead(f0, a) && f0[a].refs[0] == h;
      if a !in rel + dest.Keys { assert Fresh(f0, f, dest, a); }
    }
    forall h | h in r ensures h in l {
      if h in Heads(f, rel1 + dest1.Keys) {
        var a :| a in rel1 + dest1.Keys && HasHead(f, a) && f[a].refs[0] == h;
        assert Fresh(f0, f, dest, a);
      }
    }
  }

  lemma JoinHasHead(f0: Forest, f: Forest, f1: Forest, rel: set<Addr>, dest: Moves, rel1: set<Addr>, dest1: Moves, a: Addr)
    requires Joinable(f0, f, f1, rel, dest, rel1, dest1) && (a in rel1 || a in dest1)
    requires a in dest1 || forall h :: h in f[a].refs ==> h in f
    ensures HasHead(f, a) <==> HasHead(f0, a) && a !in dest
  {
    assert Fresh(f0, f, dest, a);
    if a in dest1 { JoinMoved(f0, f, f1, rel, dest, rel1, dest1, a); }
    if a !in dest && f[a].refs != [] { assert f[a].refs[0] in f[a].refs; assert NodeOk(f0, a); }
  }

  lemma JoinKeys(f0: Forest, f: Forest, f1: Forest, rel: set<Addr>, dest: Moves, rel1: set<Addr>, dest1: Moves)
    requires Wf(f) && Joinable(f0, f, f1, rel, dest, rel1, dest1)
    ensures forall a :: a in Joined(dest, rel1, dest1) ==> HasHead(f0, a)
    ensures f1.Keys == f0.Keys - (rel + rel1) - Heads(f0, rel + rel1 + Joined(dest, rel1, dest1).Keys)
    ensures Joined(dest, rel1, dest1).Keys <= f1.Keys
  {
    forall a | a in rel1 || a in dest1 ensures Fresh(f0, f, dest, a) && (HasHead(f, a) <==> HasHead(f0, a) && a !in dest) {
      assert Fresh(f0, f, dest, a) && NodeOk(f, a);
      JoinHasHead(f0, f, f1, rel, dest, rel1, dest1, a);
    }
    JoinHeads(f0, f, rel, dest, rel1, dest1);
    forall a | a in Joined(dest, rel1, dest1) ensures HasHead(f0, a) && a in f1 {
      if a in dest1 { JoinMoved(f0, f, f1, rel, dest, rel1, dest1, a); } else { JoinStays(f0, f, f1, rel, dest, rel1, dest1, a); }
    }
  }

  lemma JoinNode(f0: Forest, f: Forest, f1: Forest, rel: set<Addr>, dest: Moves, rel1: set<Addr>, dest1: Moves, a: Addr)
    requires Joinable(f0, f, f1, rel, dest, rel1, dest1) && a in f1
    ensures a in f0 && NodeEffect(f0, f1, Joined(dest, rel1, dest1), a)
  {
    assert NodeEffect(f0, f, dest, a) && NodeEffect(f, f1, dest1, a);
    KeepTwice(f0[a].refs, f.Keys, f1.Keys);
  }

  lemma EffectJoin(f0: Forest, f: Forest, f1: Forest, rel: set<Addr>, dest: Moves, rel1: set<Addr>, dest1: Moves)
    requires Wf(f) && Joinable(f0, f, f1, rel, dest, rel1, dest1)
    ensures Effect(f0, f1, rel + rel1, Joined(dest, rel1, dest1))
  {
    JoinKeys(f0, f, f1, rel, dest, rel1, dest1);
    forall a | a in f1 ensures NodeEffect(f0, f1, Joined(dest, rel1, dest1), a) {
      JoinNode(f0, f, f1, rel, dest, rel1, dest1, a);
    }
  }

  /** Where the loop over the children of c stands: f0 is the forest it began with. A chunk moved to c itself is waiting
      for its own round; any other has found its place. */
  ghost predicate Progress(f0: Forest, f: Forest, c: Addr, rel: set<Addr>, dest: Moves) {
    && c in f && c in f0 && c !in dest
    && Effect(f0, f, rel, dest)
    && (forall a :: a in f && Below(f, a, c) ==> Fresh(f0, f, dest, a) && (a in dest ==> dest[a] == c))
    && (forall a :: a in dest ==> !f0[a].loose && (dest[a] != c ==> dest[a] == Adopter(f0, a, f0[c].par)))
    && (forall a :: a in f0 && a != c ==> (Doomed(f0, a, c) <==> a in rel || (a in f && Doomed(f, a, c))))
    && (forall a :: a in f0 ==> (Topmost(f0, a, c) <==> Settled(dest, a, c) || (a in f && Topmost(f, a, c))))
    && (forall a :: a in rel ==> a in f0 && a != c)
  }

  ghost predicate Settled(dest: Moves, a: Addr, c: Addr) {
    a in dest && dest[a] != c
  }

  lemma NoEffect(f: Forest)
    requires Wf(f)
    ensures Effect(f, f, {}, map[])
  {
    forall a | a in f ensures NodeEffect(f, f, map[], a) {
      assert NodeOk(f, a);
      KeepAll(f[a].refs, f.Keys);
    }
  }

  lemma ProgressStart(f: Forest, c: Addr)
    requires Wf(f) && c in f
    ensures Progress(f, f, c, {}, map[])
  {
    NoEffect(f);
  }

  ghost predicate Stepping(f0: Forest, f: Forest, f1: Forest, c: Addr, x: Addr, rel: set<Addr>, dest: Moves, rel1: set<Addr>, dest1: Moves) {
    Wf(f0) && Progress(f0, f, c, rel, dest) && Round(f, f1, c, x, rel1, dest1)
  }

  /** Everything a round touches hung below c, and a chunk that has found its place is not touched again. */
  lemma StepTouches(f0: Forest, f: Forest, f1: Forest, c: Addr, x: Addr, rel: set<Addr>, dest: Moves, rel1: set<Addr>, dest1: Moves, a: Addr)
    requires Stepping(f0, f, f1, c, x, rel, dest, rel1, dest1) && (a in rel1 || a in dest1)
    ensures a != c && a in f && Below(f, a, c) && Fresh(f0, f, dest, a) && !Settled(dest, a, c)
  {
    if a in rel1 { RoundReleased(f, f1, c, x, rel1, dest1, a); } else { RoundMoved(f, f1, c, x, rel1, dest1, a); }
  }

  lemma StepEffect(f0: Forest, f: Forest, f1: Forest, c: Addr, x: Addr, rel: set<Addr>, dest: Moves, rel1: set<Addr>, dest1: Moves)
    requires Stepping(f0, f, f1, c, x, rel, dest, rel1, dest1)
    ensures c in f1 && c !in Joined(dest, rel1, dest1) && Effect(f0, f1, rel + rel1, Joined(dest, rel1, dest1))
    ensures forall a :: a in rel1 ==> a in f0 && a != c
  {
    forall a | a in rel1 || a in dest1 ensures Fresh(f0, f, dest, a) && a != c {
      StepTouches(f0, f, f1, c, x, rel, dest, rel1, dest1, a);
    }
    EffectJoin(f0, f, f1, rel, dest, rel1, dest1);
    assert Path(f, c, c, 0);
    if c in Heads(f, rel1 + dest1.Keys) { HeadsAreOuter(f, f1, c, x, rel1, dest1, c); }
  }

  lemma StepBelow(f0: Forest, f: Forest, f1: Forest, c: Addr, x: Addr, rel: set<Addr>, dest: Moves, rel1: set<Addr>, dest1: Moves, a: Addr)
    requires Stepping(f0, f, f1, c, x, rel, dest, rel1, dest1) && a in f1 && Below(f1, a, c)
    ensures var d := Joined(dest, rel1, dest1); Fresh(f0, f1, d, a) && (a in d ==> d[a] == c)
  {
    var n: nat :| Path(f1, a, c, n);
    RoundAddsNothing(f, f1, c, x, rel1, dest1, a, n);
    assert Fresh(f0, f, dest, a);
    if a in dest1 {
      RaisedRefs(f, f1, c, x, rel1, dest1, a);
    } else {
      RoundRefs(f, f1, c, x, rel1, dest1, a);
    }
  }

  lemma StepMoves(f0: Forest, f: Forest, f1: Forest, c: Addr, x: Addr, rel: set<Addr>, dest: Moves, rel1: set<Addr>, dest1: Moves, a: Addr)
    requires Stepping(f0, f, f1, c, x, rel, dest, rel1, dest1) && a in Joined(dest, rel1, dest1)
    ensures var d := Joined(dest, rel1, dest1); a in f0 && !f0[a].loose && (d[a] != c ==> d[a] == Adopter(f0, a, f0[c].par))
  {
    if a in dest1 {
      StepTouches(f0, f, f1, c, x, rel, dest, rel1, dest1, a);
      RoundMoved(f, f1, c, x, rel1, dest1, a);
      forall b | b in rel1 || b in dest1 ensures Fresh(f0, f, dest, b) {
        StepTouches(f0, f, f1, c, x, rel, dest, rel1, dest1, b);
      }
      JoinMoved(f0, f, f1, rel, dest, rel1, dest1, a);
      assert NodeEffect(f0, f, dest, a) && NodeEffect(f0, f, dest, c);
      if Gone(f, a, c) { GoneBack(f, a, c); }
    }
  }

  /** The own handles of what goes with c, before the round and after it. */
  lemma StepHandle(f: Forest, f1: Forest, c: Addr, x: Addr, rel1: set<Addr>, dest1: Moves, a: Addr)
    requires Round(f, f1, c, x, rel1, dest1) && OwnHandle(f, a, c) && a !in rel1
    ensures a in f1 && OwnHandle(f1, a, c)
  {
    var t := f[a].target;
    GoneIsBelow(f, t, c);
    if t in rel1 {
      ReleasedGone(f, f1, c, x, rel1, dest1, t);
      assert OwnHandle(f, a, x);
    }
    var n: nat :| GonePath(f, t, c, n);
    RoundGone(f, f1, c, x, rel1, dest1, t, n);
    if t != c { GoneBack(f, t, c); }
    if t in dest1 {
      RoundMoved(f, f1, c, x, rel1, dest1, t);
    }
    RoundRefs(f, f1, c, x, rel1, dest1, t);
    RoundHandle(f, f1, c, x, rel1, dest1, t, a);
    assert NodeEffect(f, f1, dest1, a);
  }

  lemma StepHandleBack(f: Forest, f1: Forest, c: Addr, x: Addr, rel1: set<Addr>, dest1: Moves, a: Addr)
    requires Round(f, f1, c, x, rel1, dest1) && OwnHandle(f1, a, c)
    ensures a in f && OwnHandle(f, a, c)
  {
    var t := f1[a].target;
    GoneIsBelow(f1, t, c);
    var k: nat :| Path(f1, t, c, k);
    RoundAddsNothing(f, f1, c, x, rel1, dest1, t, k);
    var n: nat :| GonePath(f1, t, c, n);
    RoundDoomsNothing(f, f1, c, x, rel1, dest1, t, n);
    assert NodeEffect(f, f1, dest1, a) && NodeEffect(f, f1, dest1, t);
    if t in dest1 { RaisedRefs(f, f1, c, x, rel1, dest1, t); }
    RoundRefs(f, f1, c, x, rel1, dest1, t);
    RoundHandle(f, f1, c, x, rel1, dest1, t, a);
  }

  lemma StepDoomed(f: Forest, f1: Forest, c: Addr, x: Addr, rel1: set<Addr>, dest1: Moves, a: Addr)
    requires Round(f, f1, c, x, rel1, dest1) && a != c
    ensures a in f && Doomed(f, a, c) <==> a in rel1 || (a in f1 && Doomed(f1, a, c))
  {
    if a in f && Doomed(f, a, c) && a !in rel1 {
      if Gone(f, a, c) {
        var n: nat :| GonePath(f, a, c, n);
        RoundGone(f, f1, c, x, rel1, dest1, a, n);
      } else {
        StepHandle(f, f1, c, x, rel1, dest1, a);
      }
    }
    if a in rel1 { RoundReleased(f, f1, c, x, rel1, dest1, a); }
    if a in f1 && Doomed(f1, a, c) {
      if Gone(f1, a, c) {
        var n: nat :| GonePath(f1, a, c, n);
        RoundDoomsNothing(f, f1, c, x, rel1, dest1, a, n);
      } else {
        StepHandleBack(f, f1, c, x, rel1, dest1, a);
      }
    }
  }

  lemma StepTopmost(f0: Forest, f: Forest, f1: Forest, c: Addr, x: Addr, rel: set<Addr>, dest: Moves, rel1: set<Addr>, dest1: Moves, a: Addr)
    requires Stepping(f0, f, f1, c, x, rel, dest, rel1, dest1) && a in f0
    ensures Topmost(f0, a, c) <==> Settled(Joined(dest, rel1, dest1), a, c) || (a in f1 && Topmost(f1, a, c))
  {
    if a in f && Topmost(f, a, c) && !Settled(dest1, a, c) { RoundTopmost(f, f1, c, x, rel1, dest1, a); }
    if a in dest1 {
      RoundMoved(f, f1, c, x, rel1, dest1, a);
      StepTouches(f0, f, f1, c, x, rel, dest, rel1, dest1, a);
      if dest1[a] == c { GoneBack(f, a, c); }
    }
    if a in f1 && Topmost(f1, a, c) { RoundTopmostBack(f, f1, c, x, rel1, dest1, a); }
    if Settled(dest, a, c) && (a in rel1 || a in dest1) { StepTouches(f0, f, f1, c, x, rel, dest, rel1, dest1, a); }
  }

  lemma ProgressStep(f0: Forest, f: Forest, f1: Forest, c: Addr, x: Addr, rel: set<Addr>, dest: Moves, rel1: set<Addr>, dest1: Moves)
    requires Stepping(f0, f, f1, c, x, rel, dest, rel1, dest1)
    ensures Progress(f0, f1, c, rel + rel1, Joined(dest, rel1, dest1))
  {
    var d := Joined(dest, rel1, dest1);
    StepEffect(f0, f, f1, c, x, rel, dest, rel1, dest1);
    forall a | a in f1 && Below(f1, a, c) ensures Fresh(f0, f1, d, a) && (a in d ==> d[a] == c) {
      StepBelow(f0, f, f1, c, x, rel, dest, rel1, dest1, a);
    }
    forall a | a in d ensures a in f0 && !f0[a].loose && (d[a] != c ==> d[a] == Adopter(f0, a, f0[c].par)) {
      StepMoves(f0, f, f1, c, x, rel, dest, rel1, dest1, a);
    }
    forall a | a in f0 && a != c ensures Doomed(f0, a, c) <==> a in rel + rel1 || (a in f1 && Doomed(f1, a, c)) {
      StepDoomed(f, f1, c, x, rel1, dest1, a);
    }
    forall a | a in f0 ensures Topmost(f0, a, c) <==> Settled(d, a, c) || (a in f1 && Topmost(f1, a, c)) {
      StepTopmost(f0, f, f1, c, x, rel, dest, rel1, dest1, a);
    }
  }

  /** With no children left, nothing is left to go with c, and every moved chunk has found its place. */
  lemma ProgressEnd(f0: Forest, f: Forest, c: Addr, rel: set<Addr>, dest: Moves)
    requires Progress(f0, f, c, rel, dest) && Wf(f) && f[c].kids == []
    ensures rel == DoomedSet(f0, c) - {c} && dest == Destinations(f0, c, f0[c].par)
  {
    forall a | a in f && Doomed(f, a, c) ensures a == c {
      DoomedIsBelow(f, a, c);
      NothingBelow(f, a, c);
    }
    forall a | a in f ensures !Topmost(f, a, c) {
      if Reached(f, a, c) { NothingReached(f, a, c); }
    }
    forall a | a in dest ensures Settled(dest, a, c) {
      assert NodeEffect(f0, f, dest, a) && NodeOk(f, a) && 0 !in f;
    }
    forall a | a in f0 ensures Topmost(f0, a, c) <==> a in dest {}
  }

  lemma NothingReached(f: Forest, a: Addr, c: Addr)
    requires Wf(f) && c in f && f[c].kids == []
    ensures !Reached(f, a, c)
  {
    if Reached(f, a, c) {
      GoneIsBelow(f, f[a].par, c);
      assert NodeOk(f, a);
      NothingBelow(f, f[a].par, c);
    }
  }

  lemma NothingBelow(f: Forest, a: Addr, c: Addr)
    requires Wf(f) && c in f && f[c].kids == [] && Below(f, a, c)
    ensures a == c
  {
    var n: nat :| Path(f, a, c, n);
    NoKidsNoPath(f, a, c, n);
  }

  lemma {:induction false} NoKidsNoPath(f: Forest, a: Addr, c: Addr, n: nat)
    requires Wf(f) && c in f && f[c].kids == [] && Path(f, a, c, n)
    ensures a == c
    decreases n
  {
    if a != c {
      assert NodeOk(f, a);
      NoKidsNoPath(f, f[a].par, c, n - 1);
    }
  }
}
