/** The ownership records of src/mem/talloc.c (the branch built for Windows) seen as a value: a list of pairs of a block
    and its parent. Address 0 is NULL. */
module MemTree {
  import opened Basics

  datatype Record = Record(ptr: Addr, parent: Addr)

  /** Who owns whom; where two records name one block the earlier one is found. */
  function View(rs: seq<Record>): map<Addr, Addr> {
    if rs == [] then map[] else View(rs[1..])[rs[0].ptr := rs[0].parent]
  }

  ghost predicate Unique(rs: seq<Record>) {
    forall i, j :: 0 <= i < j < |rs| ==> rs[i].ptr != rs[j].ptr
  }

  /** The list without the records of some blocks. */
  function Keep(rs: seq<Record>, gone: set<Addr>): seq<Record> {
    if rs == [] then []
    else if rs[0].ptr in gone then Keep(rs[1..], gone)
    else [rs[0]] + Keep(rs[1..], gone)
  }

  // ----- the tree -----

  /** n steps towards the root; 0 above a root and above a block without a record. */
  ghost function Up(t: map<Addr, Addr>, x: Addr, n: nat): Addr
    decreases n
  {
    if n == 0 then x else if x in t then Up(t, t[x], n - 1) else 0
  }

  ghost predicate Under(t: map<Addr, Addr>, a: Addr, x: Addr) {
    exists n: nat :: n > 0 && Up(t, x, n) == a
  }

  ghost predicate Ends(t: map<Addr, Addr>, x: Addr) {
    exists n: nat :: Up(t, x, n) == 0
  }

  /** The blocks under a. */
  ghost function Below(t: map<Addr, Addr>, a: Addr): set<Addr> {
    set x | x in t && Under(t, a, x)
  }

  /** NULL has no record, every parent is NULL or has a record, and every chain of parents ends. */
  ghost predicate Sound(t: map<Addr, Addr>) {
    && 0 !in t
    && (forall x :: x in t ==> t[x] == 0 || t[x] in t)
    && (forall x :: x in t ==> Ends(t, x))
  }

  lemma {:induction false} UpAdd(t: map<Addr, Addr>, x: Addr, m: nat, n: nat)
    requires 0 !in t
    ensures Up(t, x, m + n) == Up(t, Up(t, x, m), n)
    decreases m
  {
    if m == 0 {
    } else if x in t {
      UpAdd(t, t[x], m - 1, n);
    }
  }

  /** No block is its own ancestor. */
  lemma {:induction false} NoCycle(t: map<Addr, Addr>, x: Addr, n: nat, m: nat)
    requires 0 !in t && x in t && n > 0 && Up(t, x, n) == x
    ensures Up(t, x, m) != 0
    decreases m
  {
    if m < n {
      UpAdd(t, x, m, n - m);
    } else {
      UpAdd(t, x, n, m - n);
      NoCycle(t, x, n, m - n);
    }
  }

  lemma NotUnderItself(t: map<Addr, Addr>, x: Addr)
    requires Sound(t) && x != 0
    ensures !Under(t, x, x)
  {
    if Under(t, x, x) {
      var n: nat :| n > 0 && Up(t, x, n) == x;
      assert x in t;
      var m: nat :| Up(t, x, m) == 0;
      NoCycle(t, x, n, m);
    }
  }

  lemma UnderTrans(t: map<Addr, Addr>, a: Addr, b: Addr, x: Addr)
    requires 0 !in t && Under(t, a, b) && Under(t, b, x)
    ensures Under(t, a, x)
  {
    var m: nat :| m > 0 && Up(t, b, m) == a;
    var n: nat :| n > 0 && Up(t, x, n) == b;
    UpAdd(t, x, n, m);
  }

  lemma ChildUnder(t: map<Addr, Addr>, x: Addr)
    requires x in t
    ensures Under(t, t[x], x)
  {
    assert Up(t, x, 1) == t[x];
  }

  /** The measure of the recursion of `mem_talloc_free`. */
  lemma BelowShrinks(t: map<Addr, Addr>, a: Addr, c: Addr)
    requires Sound(t) && c in t && t[c] == a
    ensures Below(t, c) < Below(t, a)
  {
    ChildUnder(t, c);
    NotUnderItself(t, c);
    forall x | x in Below(t, c) ensures x in Below(t, a) {
      UnderTrans(t, a, c, x);
    }
    assert c in Below(t, a) && c !in Below(t, c);
  }

  // ----- taking blocks out -----

  lemma {:induction false} UpWithout(t: map<Addr, Addr>, gone: set<Addr>, x: Addr, n: nat)
    requires 0 !in t
    ensures Up(t - gone, x, n) == 0 || Up(t - gone, x, n) == Up(t, x, n)
    decreases n
  {
    if n > 0 && x in t - gone {
      UpWithout(t, gone, t[x], n - 1);
    }
  }

  /** Blocks gone together with all that is under them. */
  ghost predicate Whole(t: map<Addr, Addr>, gone: set<Addr>) {
    forall x :: x in t && t[x] in gone ==> x in gone
  }

  lemma {:induction false} UpOutside(t: map<Addr, Addr>, gone: set<Addr>, x: Addr, n: nat)
    requires 0 !in t && 0 !in gone && x !in gone && Whole(t, gone)
    ensures Up(t - gone, x, n) == Up(t, x, n)
    decreases n
  {
    if n > 0 && x in t {
      UpOutside(t, gone, t[x], n - 1);
    }
  }

  lemma WithoutSound(t: map<Addr, Addr>, gone: set<Addr>)
    requires Sound(t) && 0 !in gone && Whole(t, gone)
    ensures Sound(t - gone)
  {
    forall x | x in t - gone ensures Ends(t - gone, x) {
      var n: nat :| Up(t, x, n) == 0;
      UpOutside(t, gone, x, n);
    }
  }

  /** One child and all under it gone as well. */
  lemma WholeGrows(t: map<Addr, Addr>, gone: set<Addr>, p: Addr, c: Addr)
    requires Sound(t) && p != 0 && c in t && c !in gone && t[c] == p
    requires Whole(t, gone) && gone <= Below(t, p)
    ensures Whole(t, gone + Below(t - gone, c) + {c}) && gone + Below(t - gone, c) + {c} <= Below(t, p)
  {
    var u := t - gone;
    forall x | x in Below(u, c) ensures x in Below(t, p) {
      var n: nat :| n > 0 && Up(u, x, n) == c;
      UpWithout(t, gone, x, n);
      ChildUnder(t, c);
      UnderTrans(t, p, c, x);
    }
    ChildUnder(t, c);
    forall x | x in t && t[x] in gone + Below(u, c) + {c} ensures x in gone + Below(u, c) + {c} {
      if t[x] !in gone && x !in gone {
        ChildUnder(u, x);
        if t[x] != c {
          UnderTrans(u, c, t[x], x);
        }
      }
    }
  }

  /** Once no child is left, everything under p is gone. */
  lemma {:induction false} NothingLeft(t: map<Addr, Addr>, gone: set<Addr>, p: Addr, x: Addr, n: nat)
    requires Sound(t) && p != 0 && Whole(t, gone) && x in t && n > 0 && Up(t, x, n) == p
    requires forall c :: c in t && c !in gone ==> t[c] != p
    ensures x in gone
    decreases n
  {
    if t[x] != p {
      assert Up(t, x, n) == Up(t, t[x], n - 1);
      NothingLeft(t, gone, p, t[x], n - 1);
    }
  }

  lemma AllGone(t: map<Addr, Addr>, gone: set<Addr>, p: Addr)
    requires Sound(t) && p != 0 && Whole(t, gone) && gone <= Below(t, p)
    requires forall c :: c in t && c !in gone ==> t[c] != p
    ensures gone == Below(t, p) && Whole(t, gone + {p})
  {
    forall x | x in Below(t, p) ensures x in gone {
      var n: nat :| n > 0 && Up(t, x, n) == p;
      NothingLeft(t, gone, p, x, n);
    }
  }

  // ----- lists -----

  lemma {:induction false} ViewIs(rs: seq<Record>, x: Addr)
    ensures x in View(rs) <==> exists i :: 0 <= i < |rs| && rs[i].ptr == x
  {
    if rs != [] {
      ViewIs(rs[1..], x);
      if i :| 0 <= i < |rs| && rs[i].ptr == x {
        assert i > 0 ==> rs[1..][i - 1].ptr == x;
      }
      if i :| 0 <= i < |rs[1..]| && rs[1..][i].ptr == x {
        assert rs[i + 1].ptr == x;
      }
      if x in View(rs) && x != rs[0].ptr {
        var i :| 0 <= i < |rs[1..]| && rs[1..][i].ptr == x;
        assert rs[i + 1].ptr == x;
      }
    }
  }

  lemma {:induction false} ViewAt(rs: seq<Record>, i: nat)
    requires Unique(rs) && i < |rs|
    ensures rs[i].ptr in View(rs) && View(rs)[rs[i].ptr] == rs[i].parent
  {
    if i > 0 {
      ViewAt(rs[1..], i - 1);
    }
  }

  lemma {:induction false} KeepFrom(rs: seq<Record>, gone: set<Addr>, r: Record)
    requires r in Keep(rs, gone)
    ensures r in rs && r.ptr !in gone
  {
    if rs[0].ptr !in gone && r != rs[0] {
      KeepFrom(rs[1..], gone, r);
    } else if rs[0].ptr in gone {
      KeepFrom(rs[1..], gone, r);
    }
  }

  lemma {:induction false} KeepUnique(rs: seq<Record>, gone: set<Addr>)
    requires Unique(rs)
    ensures Unique(Keep(rs, gone))
  {
    if rs != [] {
      KeepUnique(rs[1..], gone);
      forall r | r in Keep(rs[1..], gone) ensures r.ptr != rs[0].ptr {
        KeepFrom(rs[1..], gone, r);
      }
    }
  }

  lemma {:induction false} KeepView(rs: seq<Record>, gone: set<Addr>)
    requires Unique(rs)
    ensures View(Keep(rs, gone)) == View(rs) - gone
  {
    if rs != [] {
      KeepView(rs[1..], gone);
      ViewIs(rs[1..], rs[0].ptr);
    }
  }

  lemma {:induction false} KeepTwice(rs: seq<Record>, a: set<Addr>, b: set<Addr>)
    ensures Keep(Keep(rs, a), b) == Keep(rs, a + b)
  {
    if rs != [] {
      KeepTwice(rs[1..], a, b);
      if rs[0].ptr !in a {
        assert Keep(rs, a)[1..] == Keep(rs[1..], a);
      }
    }
  }

  lemma {:induction false} KeepAll(rs: seq<Record>, gone: set<Addr>)
    requires forall i :: 0 <= i < |rs| ==> rs[i].ptr !in gone
    ensures Keep(rs, gone) == rs
  {
    if rs != [] {
      KeepAll(rs[1..], gone);
    }
  }

  /** Taking one record out of a list without duplicates. */
  lemma {:induction false} KeepOne(rs: seq<Record>, i: nat)
    requires Unique(rs) && i < |rs|
    ensures Keep(rs, {rs[i].ptr}) == rs[..i] + rs[i + 1..]
  {
    if i == 0 {
      KeepAll(rs[1..], {rs[0].ptr});
    } else {
      KeepOne(rs[1..], i - 1);
      assert rs[..i] + rs[i + 1..] == [rs[0]] + (rs[1..][..i - 1] + rs[1..][i..]);
    }
  }

  // ----- what free hands to the C library -----

  /** Each block of a set once, and no block before one under it. */
  ghost predicate Released(t: map<Addr, Addr>, l: seq<Addr>, s: set<Addr>) {
    && (forall x :: x in l <==> x in s)
    && (forall i, j :: 0 <= i < j < |l| ==> l[i] != l[j] && !Under(t, l[i], l[j]))
  }

  lemma {:induction false} WholeBelow(t: map<Addr, Addr>, gone: set<Addr>, a: Addr, x: Addr)
    requires Sound(t) && 0 !in gone && Whole(t, gone) && a in gone && Under(t, a, x)
    ensures x in gone
  {
    if x !in gone {
      var n: nat :| n > 0 && Up(t, x, n) == a;
      UpOutside(t, gone, x, n);
      LastTracked(t - gone, x, n);
    }
  }

  /** A chain that has not ended is at NULL, at its start or at somebody's parent. */
  lemma {:induction false} LastTracked(t: map<Addr, Addr>, x: Addr, n: nat)
    requires n > 0 && Up(t, x, n) != 0
    ensures exists y :: y in t && t[y] == Up(t, x, n)
    decreases n
  {
    if n > 1 {
      LastTracked(t, t[x], n - 1);
    }
  }

  lemma ReleasedMore(t: map<Addr, Addr>, l: seq<Addr>, gone: set<Addr>, k: seq<Addr>, more: set<Addr>)
    requires Sound(t) && 0 !in gone && Whole(t, gone)
    requires Released(t, l, gone) && Released(t - gone, k, more) && more !! gone
    ensures Released(t, l + k, gone + more)
  {
    var b := l + k;
    forall i, j | 0 <= i < j < |b| ensures b[i] != b[j] && !Under(t, b[i], b[j]) {
      if j >= |l| {
        assert b[j] in more;
        if i < |l| {
          assert b[i] in gone;
          if Under(t, b[i], b[j]) {
            WholeBelow(t, gone, b[i], b[j]);
          }
        } else if n: nat :| n > 0 && Up(t, b[j], n) == b[i] {
          UpOutside(t, gone, b[j], n);
          assert Under(t - gone, b[i], b[j]);
        }
      }
    }
  }

  lemma ReleasedLast(t: map<Addr, Addr>, l: seq<Addr>, p: Addr)
    requires Sound(t) && p != 0 && Released(t, l, Below(t, p))
    ensures Released(t, l + [p], Below(t, p) + {p})
  {
    NotUnderItself(t, p);
    forall i | 0 <= i < |l| ensures l[i] != p && !Under(t, l[i], p) {
      assert l[i] in Below(t, p);
      if Under(t, l[i], p) {
        UnderTrans(t, p, l[i], p);
      }
    }
  }

  // ----- tracking, stealing, moving -----

  /** The first record of a block rewritten. */
  function Rewrite(rs: seq<Record>, p: Addr, r: Record): seq<Record> {
    if rs == [] then [] else if rs[0].ptr == p then [r] + rs[1..] else [rs[0]] + Rewrite(rs[1..], p, r)
  }

  function Track(rs: seq<Record>, p: Addr, parent: Addr): seq<Record> {
    if p == 0 then rs
    else if p in View(rs) then Rewrite(rs, p, Record(p, parent))
    else [Record(p, parent)] + rs
  }

  function Readdressed(r: Record, p: Addr, q: Addr): Record {
    if r.parent == p then r.(parent := q) else r
  }

  /** The blocks whose parent was p now say q. */
  function Readdress(rs: seq<Record>, p: Addr, q: Addr): seq<Record> {
    if rs == [] then [] else [Readdressed(rs[0], p, q)] + Readdress(rs[1..], p, q)
  }

  /** `mem_talloc_realloc` once the C library has put the block at q. */
  function Realloc(rs: seq<Record>, ctx: Addr, p: Addr, q: Addr): seq<Record> {
    var t := View(rs);
    var parent := if ctx == 0 && p in t then t[p] else ctx;
    var s := if p in t then Rewrite(rs, p, Record(q, parent)) else Track(rs, q, parent);
    if q != p then Readdress(s, p, q) else s
  }

  lemma {:induction false} RewriteFrom(rs: seq<Record>, p: Addr, r: Record, x: Record)
    requires x in Rewrite(rs, p, r)
    ensures x == r || x in rs
  {
    if rs[0].ptr != p && x != rs[0] {
      RewriteFrom(rs[1..], p, r, x);
    }
  }

  lemma {:induction false} RewriteIs(rs: seq<Record>, p: Addr, r: Record)
    requires Unique(rs) && p in View(rs) && (r.ptr == p || r.ptr !in View(rs))
    ensures Unique(Rewrite(rs, p, r)) && View(Rewrite(rs, p, r)) == (View(rs) - {p})[r.ptr := r.parent]
  {
    if rs[0].ptr == p {
      ViewIs(rs[1..], p);
      forall i | 0 <= i < |rs[1..]| ensures rs[1..][i].ptr != r.ptr {
        ViewIs(rs, r.ptr);
        assert rs[i + 1] == rs[1..][i];
      }
      assert View(rs[1..]) == View(rs) - {p};
    } else {
      RewriteIs(rs[1..], p, r);
      forall x | x in Rewrite(rs[1..], p, r) ensures x.ptr != rs[0].ptr {
        RewriteFrom(rs[1..], p, r, x);
      }
    }
  }

  lemma TrackIs(rs: seq<Record>, p: Addr, parent: Addr)
    requires Unique(rs) && p != 0
    ensures Unique(Track(rs, p, parent)) && View(Track(rs, p, parent)) == View(rs)[p := parent]
  {
    if p in View(rs) {
      RewriteIs(rs, p, Record(p, parent));
    } else {
      ViewIs(rs, p);
    }
  }

  lemma {:induction false} ReaddressIs(rs: seq<Record>, p: Addr, q: Addr)
    requires Unique(rs)
    ensures Unique(Readdress(rs, p, q)) && |Readdress(rs, p, q)| == |rs|
    ensures forall i :: 0 <= i < |rs| ==> Readdress(rs, p, q)[i].ptr == rs[i].ptr
    ensures View(Readdress(rs, p, q)).Keys == View(rs).Keys
    ensures forall x :: x in View(rs) ==> View(Readdress(rs, p, q))[x] == if View(rs)[x] == p then q else View(rs)[x]
  {
    if rs != [] {
      ReaddressIs(rs[1..], p, q);
    }
  }

  /** Away from p and what is under it, a new parent for p is not noticed. */
  lemma {:induction false} UpElsewhere(t: map<Addr, Addr>, p: Addr, a: Addr, x: Addr, n: nat)
    requires 0 !in t && x != p && !Under(t, p, x)
    ensures Up(t[p := a], x, n) == Up(t, x, n)
    decreases n
  {
    if n > 0 && x in t {
      ChildUnder(t, x);
      if Under(t, p, t[x]) {
        UnderTrans(t, p, t[x], x);
      }
      UpElsewhere(t, p, a, t[x], n - 1);
    }
  }

  lemma {:induction false} EndsThrough(t: map<Addr, Addr>, x: Addr, p: Addr, n: nat)
    requires Up(t, x, n) == p && p in t && Ends(t, p)
    ensures Ends(t, x)
    decreases n
  {
    if n > 0 && x in t {
      EndsThrough(t, t[x], p, n - 1);
      var m: nat :| Up(t, t[x], m) == 0;
      assert Up(t, x, m + 1) == 0;
    } else if n > 0 {
      assert Up(t, x, 1) == 0;
    }
  }

  /** The chain from x to p, if there is one, is still there. */
  lemma {:induction false} StillUnder(t: map<Addr, Addr>, p: Addr, a: Addr, x: Addr, n: nat)
    requires 0 !in t && p != 0 && x != p && n > 0 && Up(t, x, n) == p
    ensures Under(t[p := a], p, x)
    decreases n
  {
    var u := t[p := a];
    if t[x] == p {
      ChildUnder(u, x);
    } else {
      StillUnder(t, p, a, t[x], n - 1);
      ChildUnder(u, x);
      UnderTrans(u, p, t[x], x);
    }
  }

  /** A new block has nothing under it. */
  lemma NewLeaf(t: map<Addr, Addr>, p: Addr, ctx: Addr)
    requires Sound(t) && p != 0 && p !in t && (ctx == 0 || ctx in t)
    ensures Sound(t[p := ctx])
  {
    var u := t[p := ctx];
    forall x | x in t || x == 0 ensures Ends(u, x) {
      var n: nat :| Up(t, x, n) == 0 || x == 0;
      if x == 0 {
        assert Up(u, x, 0) == 0;
      } else {
        if m: nat :| m > 0 && Up(t, x, m) == p {
          LastTracked(t, x, m);
        }
        UpElsewhere(t, p, ctx, x, n);
      }
    }
    var n: nat :| Up(u, ctx, n) == 0;
    assert Up(u, p, n + 1) == 0;
  }

  /** Nothing is under a block that is not recorded. */
  lemma NothingUnder(t: map<Addr, Addr>, p: Addr, x: Addr)
    requires Sound(t) && p !in t && p != 0
    ensures !Under(t, p, x)
  {
    if n: nat :| n > 0 && Up(t, x, n) == p { LastTracked(t, x, n); }
  }

  /** Stealing keeps the records sound exactly when a block does not go to itself or under itself. */
  lemma StealSound(t: map<Addr, Addr>, p: Addr, a: Addr)
    requires Sound(t) && p != 0 && (a == 0 || a in t)
    ensures Sound(t[p := a]) <==> a != p && !Under(t, p, a)
  {
    var u := t[p := a];
    if p !in t {
      NewLeaf(t, p, a);
      NothingUnder(t, p, a);
    } else if a == p {
      ChildUnder(u, p);
      assert Under(u, p, p);
      if Sound(u) { NotUnderItself(u, p); }
    } else if n: nat :| n > 0 && Up(t, a, n) == p {
      StillUnder(t, p, a, a, n);
      ChildUnder(u, p);
      UnderTrans(u, p, a, p);
      if Sound(u) { NotUnderItself(u, p); }
    } else {
      var m: nat :| Up(t, a, m) == 0;
      UpElsewhere(t, p, a, a, m);
      assert Up(u, p, m + 1) == 0;
      forall x | x in u ensures Ends(u, x) {
        if n: nat :| n > 0 && Up(t, x, n) == p {
          if x != p {
            StillUnder(t, p, a, x, n);
            var k: nat :| k > 0 && Up(u, x, k) == p;
            EndsThrough(u, x, p, k);
          }
        } else if x != p {
          var k: nat :| Up(t, x, k) == 0;
          UpElsewhere(t, p, a, x, k);
        }
      }
    }
  }

  /** The address a block has after a move from p to q. */
  function Now(p: Addr, q: Addr, x: Addr): Addr {
    if x == p then q else x
  }

  /** The same hierarchy with one block at a new address. */
  ghost predicate Moved(t: map<Addr, Addr>, u: map<Addr, Addr>, p: Addr, q: Addr) {
    && (forall x :: x in t ==> Now(p, q, x) in u && u[Now(p, q, x)] == Now(p, q, t[x]))
    && (forall y :: y in u ==> y == q || (y in t && y != p))
  }

  lemma {:induction false} UpAfterMove(t: map<Addr, Addr>, u: map<Addr, Addr>, p: Addr, q: Addr, x: Addr, n: nat)
    requires Sound(t) && p in t && q != 0 && q !in t && Moved(t, u, p, q) && (x == 0 || x in t)
    ensures Up(u, Now(p, q, x), n) == Now(p, q, Up(t, x, n))
    decreases n
  {
    if n > 0 && x in t {
      UpAfterMove(t, u, p, q, t[x], n - 1);
    }
  }

  lemma MovedSound(t: map<Addr, Addr>, u: map<Addr, Addr>, p: Addr, q: Addr)
    requires Sound(t) && p in t && q != 0 && q !in t && Moved(t, u, p, q)
    ensures Sound(u)
  {
    forall y | y in u ensures (u[y] == 0 || u[y] in u) && Ends(u, y) {
      var x := if y == q then p else y;
      var n: nat :| Up(t, x, n) == 0;
      UpAfterMove(t, u, p, q, x, n);
    }
  }

  /** Reallocating a block that has a record: it hangs under ctx (where ctx is NULL, where it was), at its new address, and
      nothing else changes. */
  lemma ReallocMoves(rs: seq<Record>, ctx: Addr, p: Addr, q: Addr)
    requires Unique(rs) && Sound(View(rs)) && p in View(rs) && q != 0 && (q == p || q !in View(rs))
    requires ctx == 0 || ctx in View(rs)
    ensures var t := View(rs);
            var stolen := if ctx == 0 then t else t[p := ctx];
            Unique(Realloc(rs, ctx, p, q)) && Moved(stolen, View(Realloc(rs, ctx, p, q)), p, q)
  {
    var t := View(rs);
    var parent := if ctx == 0 then t[p] else ctx;
    RewriteIs(rs, p, Record(q, parent));
    if q != p {
      ReaddressIs(Rewrite(rs, p, Record(q, parent)), p, q);
    }
  }

  /** Every chain has a top. */
  lemma {:induction false} Top(t: map<Addr, Addr>, x: Addr, n: nat) returns (r: Addr)
    requires Sound(t) && x in t && Up(t, x, n) == 0
    ensures r in t && t[r] == 0 && (r == x || Under(t, r, x))
    decreases n
  {
    if t[x] == 0 {
      r := x;
    } else {
      r := Top(t, t[x], n - 1);
      ChildUnder(t, x);
      if r != t[x] { UnderTrans(t, r, t[x], x); }
    }
  }

  lemma NullStays(t: map<Addr, Addr>, n: nat)
    requires 0 !in t
    ensures Up(t, 0, n) == 0
  {
  }

  /** Hanging every root under q keeps the chains below the roots. */
  lemma {:induction false} ChainKept(t: map<Addr, Addr>, u: map<Addr, Addr>, r: Addr, x: Addr, n: nat)
    requires 0 !in t && 0 !in u && r != 0 && n > 0 && Up(t, x, n) == r && x in t
    requires forall y :: y in t && t[y] != 0 ==> y in u && u[y] == t[y]
    ensures Under(u, r, x)
    decreases n
  {
    NullStays(t, n - 1);
    ChildUnder(u, x);
    if n > 1 {
      assert t[x] in t;
      ChainKept(t, u, r, t[x], n - 1);
      UnderTrans(u, r, t[x], x);
    }
  }

  /** Reallocating NULL is meant to allocate a block under ctx. But the records whose parent is NULL are then readdressed to
      the new block, which so becomes its own ancestor. */
  lemma ReallocNullCycles(rs: seq<Record>, ctx: Addr, q: Addr)
    requires Unique(rs) && Sound(View(rs)) && q != 0 && q !in View(rs)
    requires ctx == 0 || ctx in View(rs)
    ensures Unique(Realloc(rs, ctx, 0, q)) && Under(View(Realloc(rs, ctx, 0, q)), q, q)
  {
    var t := View(rs);
    TrackIs(rs, q, ctx);
    ReaddressIs(Track(rs, q, ctx), 0, q);
    var u := View(Realloc(rs, ctx, 0, q));
    ChildUnder(u, q);
    if ctx != 0 {
      var n: nat :| Up(t, ctx, n) == 0;
      var r := Top(t, ctx, n);
      ChildUnder(u, r);
      if r != ctx {
        var k: nat :| k > 0 && Up(t, ctx, k) == r;
        ChainKept(t, u, r, ctx, k);
        UnderTrans(u, q, r, ctx);
      }
      UnderTrans(u, q, ctx, q);
    }
  }

  lemma NullNotUnder(t: map<Addr, Addr>, p: Addr)
    requires Sound(t) && p != 0
    ensures !Under(t, p, 0)
  {
    if n: nat :| n > 0 && Up(t, 0, n) == p { assert false; }
  }

  /** Moving the block back: the same hierarchy the other way round. */
  lemma MovedBack(t: map<Addr, Addr>, u: map<Addr, Addr>, p: Addr, q: Addr)
    requires Sound(u) && p in t && p != 0 && q != 0 && q != p && q !in t && Moved(t, u, p, q)
    requires 0 !in t && forall x :: x in t ==> t[x] == 0 || t[x] in t
    ensures Sound(t)
  {
    assert p !in u;
    forall y | y in u ensures Now(q, p, y) in t && t[Now(q, p, y)] == Now(q, p, u[y]) {
      var x := Now(q, p, y);
      assert Now(p, q, x) == y;
    }
    MovedSound(u, t, q, p);
  }

  lemma StolenSound(t: map<Addr, Addr>, p: Addr, ctx: Addr)
    requires Sound(t) && p in t && (ctx == 0 || ctx in t)
    ensures Sound(if ctx == 0 then t else t[p := ctx]) <==> ctx != p && !Under(t, p, ctx)
  {
    NullNotUnder(t, p);
    if ctx != 0 { StealSound(t, p, ctx); }
  }

  lemma MovedBoth(t: map<Addr, Addr>, u: map<Addr, Addr>, p: Addr, q: Addr)
    requires p in t && p != 0 && q != 0 && (q == p || q !in t) && Moved(t, u, p, q)
    requires 0 !in t && forall x :: x in t ==> t[x] == 0 || t[x] in t
    ensures Sound(u) <==> Sound(t)
  {
    if q == p {
      assert u == t;
    } else {
      if Sound(t) { MovedSound(t, u, p, q); }
      if Sound(u) { MovedBack(t, u, p, q); }
    }
  }

  /** A block without a record gets one, and has no children to be readdressed. */
  lemma ReallocNew(rs: seq<Record>, ctx: Addr, p: Addr, q: Addr)
    requires Unique(rs) && Sound(View(rs)) && p != 0 && p !in View(rs) && q != 0 && (q == p || q !in View(rs))
    requires ctx == 0 || ctx in View(rs)
    ensures View(Realloc(rs, ctx, p, q)) == View(rs)[q := ctx]
  {
    TrackIs(rs, q, ctx);
    ReaddressIs(Track(rs, q, ctx), p, q);
  }

  /** Reallocating keeps the records sound exactly when there is a block to reallocate and it does not go under itself. */
  lemma ReallocSound(rs: seq<Record>, ctx: Addr, p: Addr, q: Addr)
    requires Unique(rs) && Sound(View(rs)) && q != 0 && (q == p || q !in View(rs))
    requires ctx == 0 || ctx in View(rs)
    ensures Sound(View(Realloc(rs, ctx, p, q))) <==> p != 0 && ctx != p && !Under(View(rs), p, ctx)
  {
    var t := View(rs);
    var u := View(Realloc(rs, ctx, p, q));
    if p != 0 && p !in t {
      ReallocNew(rs, ctx, p, q);
      NewLeaf(t, q, ctx);
      NothingUnder(t, p, ctx);
    } else if p == 0 {
      ReallocNullCycles(rs, ctx, q);
      if Sound(u) { NotUnderItself(u, q); }
    } else {
      ReallocMoves(rs, ctx, p, q);
      StolenSound(t, p, ctx);
      MovedBoth(if ctx == 0 then t else t[p := ctx], u, p, q);
    }
  }

  lemma {:induction false} RewriteAt(rs: seq<Record>, i: nat, p: Addr, r: Record)
    requires i < |rs| && rs[i].ptr == p && forall j :: 0 <= j < i ==> rs[j].ptr != p
    ensures Rewrite(rs, p, r) == rs[i := r]
  {
    if i > 0 {
      RewriteAt(rs[1..], i - 1, p, r);
    }
  }

  lemma {:induction false} ReaddressAll(rs: seq<Record>, p: Addr, q: Addr)
    ensures |Readdress(rs, p, q)| == |rs|
    ensures forall i :: 0 <= i < |rs| ==> Readdress(rs, p, q)[i] == Readdressed(rs[i], p, q)
  {
    if rs != [] {
      ReaddressAll(rs[1..], p, q);
    }
  }

  lemma ReallocUnique(rs: seq<Record>, ctx: Addr, p: Addr, q: Addr)
    requires Unique(rs) && q != 0 && (q == p || q !in View(rs)) && (p !in View(rs) ==> Sound(View(rs)))
    ensures Unique(Realloc(rs, ctx, p, q))
  {
    var t := View(rs);
    var parent := if ctx == 0 && p in t then t[p] else ctx;
    if p in t {
      RewriteIs(rs, p, Record(q, parent));
      ReaddressIs(Rewrite(rs, p, Record(q, parent)), p, q);
    } else {
      TrackIs(rs, q, parent);
      ReaddressIs(Track(rs, q, parent), p, q);
    }
  }

  /** The recursive call has less to free. */
  lemma BelowLess(t: map<Addr, Addr>, gone: set<Addr>, p: Addr, c: Addr)
    requires Sound(t) && 0 !in gone && Whole(t, gone) && c in t - gone && t[c] == p
    ensures Below(t - gone, c) < Below(t, p)
  {
    WithoutSound(t, gone);
    BelowShrinks(t, p, c);
    forall x | x in Below(t - gone, c) ensures x in Below(t, c) {
      var n: nat :| n > 0 && Up(t - gone, x, n) == c;
      UpWithout(t, gone, x, n);
    }
  }

  /** The loop of `mem_talloc_free`: of the records rs, those of gone have gone, and l was given to the C library. */
  ghost predicate Freeing(rs: seq<Record>, p: Addr, gone: set<Addr>, s: seq<Record>, l: seq<Addr>) {
    var t := View(rs);
    && Unique(rs) && Sound(t) && p != 0
    && s == Keep(rs, gone) && View(s) == t - gone
    && 0 !in gone && Whole(t, gone) && gone <= Below(t, p) && Released(t, l, gone)
  }

  lemma Join(a: seq<Addr>, b: seq<Addr>, c: seq<Addr>)
    ensures a + b + c == a + (b + c)
  {
  }

  ghost predicate Childless(t: map<Addr, Addr>, p: Addr) {
    forall c :: c in t ==> t[c] != p
  }

  lemma FreeStarts(rs: seq<Record>, p: Addr)
    requires Unique(rs) && Sound(View(rs)) && p != 0
    ensures Freeing(rs, p, {}, rs, [])
  {
    KeepAll(rs, {});
  }

  lemma FreeingSound(rs: seq<Record>, p: Addr, gone: set<Addr>, s: seq<Record>, l: seq<Addr>)
    requires Freeing(rs, p, gone, s, l)
    ensures Unique(s) && Sound(View(s))
  {
    KeepUnique(rs, gone);
    WithoutSound(View(rs), gone);
  }

  /** One round: the recursive call has less to free. */
  lemma FreeingLess(rs: seq<Record>, p: Addr, gone: set<Addr>, s: seq<Record>, l: seq<Addr>, c: Addr)
    requires Freeing(rs, p, gone, s, l) && c in View(s) && View(s)[c] == p
    ensures Below(View(s), c) < Below(View(rs), p) && c != 0
  {
    BelowLess(View(rs), gone, p, c);
  }

  /** One round: a child c was freed, which gave k to the C library. */
  lemma FreeingMore(rs: seq<Record>, p: Addr, gone: set<Addr>, s: seq<Record>, l: seq<Addr>, c: Addr, k: seq<Addr>, more: set<Addr>)
    requires Freeing(rs, p, gone, s, l) && c in View(s) && View(s)[c] == p
    requires more == Below(View(s), c) + {c} && Released(View(s), k, more)
    ensures Freeing(rs, p, gone + more, Keep(s, more), l + k) && gone < gone + more
  {
    var t := View(rs);
    KeepTwice(rs, gone, more);
    KeepView(rs, gone + more);
    WholeGrows(t, gone, p, c);
    assert gone + Below(t - gone, c) + {c} == gone + more;
    ReleasedMore(t, l, gone, k, more);
    assert c in more && c !in gone;
  }

  lemma FreeEnds(rs: seq<Record>, p: Addr, gone: set<Addr>, s: seq<Record>, l: seq<Addr>)
    requires Freeing(rs, p, gone, s, l) && Childless(View(s), p)
    ensures var all := Below(View(rs), p) + {p};
      && Keep(s, {p}) == Keep(rs, all) && Released(View(rs), l + [p], all)
      && Unique(Keep(s, {p})) && Sound(View(Keep(s, {p})))
  {
    var t := View(rs);
    forall c | c in t && c !in gone ensures t[c] != p {
      assert c in View(s);
    }
    AllGone(t, gone, p);
    ReleasedLast(t, l, p);
    KeepTwice(rs, gone, {p});
    KeepUnique(rs, gone + {p});
    KeepView(rs, gone + {p});
    WithoutSound(t, gone + {p});
  }
}
