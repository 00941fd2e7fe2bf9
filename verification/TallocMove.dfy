/** A chunk that `realloc` moves: its record is copied to the new address and its neighbours are told. The hierarchy
    afterwards is the old one with the address renamed. */
module TallocMove {
  import opened Basics
  import opened TallocForest
  import opened TallocLinks
  import opened TallocFree
  import opened TallocShape

  function Ren(x: Addr, a: Addr, b: Addr): Addr {
    if x == a then b else x
  }

  function Subst(s: seq<Addr>, a: Addr, b: Addr): (r: seq<Addr>)
    ensures |r| == |s| && forall i :: 0 <= i < |s| ==> r[i] == Ren(s[i], a, b)
  {
    seq(|s|, i requires 0 <= i < |s| => Ren(s[i], a, b))
  }

  /** The hierarchy with address a renamed to b. */
  ghost function Renamed(f: Forest, a: Addr, b: Addr): Forest
    requires a in f && b !in f
  {
    map x | x in f.Keys - {a} + {b} ::
      var n := f[if x == b then a else x];
      n.(par := Ren(n.par, a, b), kids := Subst(n.kids, a, b))
  }

  /** Chunks that may move: not a handle, and not referenced. */
  ghost predicate Movable(f: Forest, a: Addr, b: Addr) {
    Wf(f) && Idle(f) && a in f && b !in f && b != 0 && f[a].refs == [] && f[a].target == 0
  }

  lemma SubstMember(s: seq<Addr>, a: Addr, b: Addr, x: Addr)
    requires b !in s
    ensures x in Subst(s, a, b) <==> if x == b then a in s else x in s && x != a
  {
    if x in Subst(s, a, b) {
      var i :| 0 <= i < |s| && Subst(s, a, b)[i] == x;
      assert s[i] in s;
    }
    if x == b && a in s {
      var i :| 0 <= i < |s| && s[i] == a;
      assert Subst(s, a, b)[i] == b;
    }
    if x != b && x in s && x != a {
      var i :| 0 <= i < |s| && s[i] == x;
      assert Subst(s, a, b)[i] == x;
    }
  }

  lemma SubstSame(s: seq<Addr>, a: Addr, b: Addr)
    requires a !in s
    ensures Subst(s, a, b) == s
  {
    forall i | 0 <= i < |s| ensures Subst(s, a, b)[i] == s[i] {
      assert s[i] in s;
    }
  }

  lemma RenamedNode(f: Forest, a: Addr, b: Addr, x: Addr)
    requires Movable(f, a, b) && x in f
    ensures var y := Ren(x, a, b); var g := Renamed(f, a, b);
            y in g && g[y] == f[x].(par := Ren(f[x].par, a, b), kids := Subst(f[x].kids, a, b))
  {
  }

  lemma RenamedDistinct(f: Forest, a: Addr, b: Addr, x: Addr)
    requires Movable(f, a, b) && x in f
    ensures b !in f[x].kids && a !in f[x].refs && b !in f[x].refs && Distinct(Subst(f[x].kids, a, b))
    ensures f[x].target != a && f[x].target != b
  {
    assert NodeOk(f, x);
    var s, r := f[x].kids, Subst(f[x].kids, a, b);
    assert NodeOk(f, a);
    forall i, j | 0 <= i < j < |s| ensures r[i] != r[j] {
      assert s[i] in s && s[j] in s;
    }
  }

  lemma RenamedOk(f: Forest, a: Addr, b: Addr, x: Addr)
    requires Movable(f, a, b) && x in f
    ensures Ren(x, a, b) in Renamed(f, a, b) && NodeOk(Renamed(f, a, b), Ren(x, a, b))
  {
    var g, y := Renamed(f, a, b), Ren(x, a, b);
    assert NodeOk(f, x);
    RenamedNode(f, a, b, x);
    RenamedDistinct(f, a, b, x);
    var p := f[x].par;
    if p != 0 {
      assert NodeOk(f, p);
      RenamedNode(f, a, b, p);
      RenamedDistinct(f, a, b, p);
      SubstMember(f[p].kids, a, b, y);
    }
    if f[x].target != 0 { RenamedNode(f, a, b, f[x].target); }
    forall k | k in g[y].kids ensures k in g && g[k].par == y && !g[k].loose {
      SubstMember(f[x].kids, a, b, k);
      RenamedNode(f, a, b, if k == b then a else k);
    }
    forall h | h in g[y].refs ensures h in g && g[h].target == y {
      RenamedNode(f, a, b, h);
    }
  }

  lemma RenamedWf(f: Forest, a: Addr, b: Addr)
    requires Movable(f, a, b)
    ensures Wf(Renamed(f, a, b)) && Idle(Renamed(f, a, b))
  {
    var g := Renamed(f, a, b);
    forall y | y in g ensures NodeOk(g, y) && !g[y].loose {
      RenamedOk(f, a, b, if y == b then a else y);
      RenamedNode(f, a, b, if y == b then a else y);
    }
  }

  // ----- the fields after the move -----

  function Shifted(x: Field, a: Addr, b: Addr): Field
    requires a in x
  {
    x[b := x[a]] - {a}
  }

  /** What `_talloc_realloc` leaves in the fields when the chunk at a now lies at b. */
  function Moved(m: Mem, a: Addr, b: Addr): Mem
    requires a in m.next && a in m.prev && a in m.parent && a in m.child && a in m.refs
    requires a in m.hnext && a in m.hprev && a in m.hptr
  {
    var next, prev, parent, child := Shifted(m.next, a, b), Shifted(m.prev, a, b), Shifted(m.parent, a, b), Shifted(m.child, a, b);
    m.(next := if m.prev[a] != 0 then next[m.prev[a] := b] else next,
       prev := if m.next[a] != 0 then prev[m.next[a] := b] else prev,
       parent := if m.child[a] != 0 then parent[m.child[a] := b] else parent,
       child := if m.parent[a] != 0 then child[m.parent[a] := b] else child,
       refs := Shifted(m.refs, a, b),
       hnext := Shifted(m.hnext, a, b), hprev := Shifted(m.hprev, a, b), hptr := Shifted(m.hptr, a, b))
  }

  ghost predicate Present(m: Mem, a: Addr) {
    && a in m.next && a in m.prev && a in m.parent && a in m.child && a in m.refs
    && a in m.hnext && a in m.hprev && a in m.hptr
  }

  /** The list that holds a. */
  lemma MovedList(m: Mem, s: seq<Addr>, a: Addr, b: Addr, i: nat)
    requires Present(m, a) && DList(m.next, m.prev, s) && i < |s| && s[i] == a && b !in s && b != 0
    ensures DList(Moved(m, a, b).next, Moved(m, a, b).prev, Subst(s, a, b))
  {
    var m', t := Moved(m, a, b), Subst(s, a, b);
    assert LinkAt(m.next, m.prev, s, i);
    SubstMember(s, a, b, 0);
    forall j, k | 0 <= j < k < |t| ensures t[j] != t[k] { assert s[j] in s && s[k] in s; }
    forall k | 0 <= k < |t| ensures LinkAt(m'.next, m'.prev, t, k) {
      assert LinkAt(m.next, m.prev, s, k) && s[k] in s;
    }
  }

  /** Any other list. */
  lemma MovedOtherList(m: Mem, s: seq<Addr>, a: Addr, b: Addr)
    requires Present(m, a) && DList(m.next, m.prev, s) && a !in s && b !in s && m.prev[a] !in s && m.next[a] !in s
    ensures DList(Moved(m, a, b).next, Moved(m, a, b).prev, s)
  {
    var m' := Moved(m, a, b);
    forall k | 0 <= k < |s| ensures LinkAt(m'.next, m'.prev, s, k) {
      assert LinkAt(m.next, m.prev, s, k) && s[k] in s;
    }
  }

  /** The siblings of a are in the list that holds a. */
  lemma Neighbours(m: Mem, f: Forest, a: Addr)
    requires Linked(m, f) && a in f && !f[a].loose
    ensures Present(m, a)
    ensures m.prev[a] != 0 ==> f[a].par in f && m.prev[a] in f[f[a].par].kids
    ensures m.next[a] != 0 ==> f[a].par in f && m.next[a] in f[f[a].par].kids
  {
    assert EndAt(m.next, m.prev, f, a);
    if f[a].par != 0 {
      IsChild(f, a);
      var s := f[f[a].par].kids;
      assert DList(m.next, m.prev, s);
      var i: nat :| i < |s| && s[i] == a;
      assert LinkAt(m.next, m.prev, s, i);
    }
  }

  lemma MovedKidList(m: Mem, f: Forest, a: Addr, b: Addr, q: Addr)
    requires Linked(m, f) && Movable(f, a, b) && q in f
    ensures Present(m, a) && DList(Moved(m, a, b).next, Moved(m, a, b).prev, Subst(f[q].kids, a, b))
  {
    Neighbours(m, f, a);
    var s := f[q].kids;
    RenamedDistinct(f, a, b, q);
    assert DList(m.next, m.prev, s) && NodeOk(f, q) && NodeOk(f, a);
    if a in s {
      var i: nat :| i < |s| && s[i] == a;
      MovedList(m, s, a, b, i);
    } else {
      SubstSame(s, a, b);
      if f[a].par in f && f[a].par != q {
        forall k | k in s ensures k !in f[f[a].par].kids { KidsApart(f, f[a].par, q, k); }
      }
      MovedOtherList(m, s, a, b);
    }
  }

  lemma MovedRefList(m: Mem, f: Forest, a: Addr, b: Addr, q: Addr)
    requires Linked(m, f) && Movable(f, a, b) && q in f
    ensures Present(m, a) && DList(Moved(m, a, b).hnext, Moved(m, a, b).hprev, f[q].refs)
  {
    Neighbours(m, f, a);
    RenamedDistinct(f, a, b, q);
    var m', s := Moved(m, a, b), f[q].refs;
    assert DList(m.hnext, m.hprev, s);
    forall k | 0 <= k < |s| ensures LinkAt(m'.hnext, m'.hprev, s, k) {
      assert LinkAt(m.hnext, m.hprev, s, k) && s[k] in s;
    }
  }

  lemma MovedFields(m: Mem, f: Forest, a: Addr, b: Addr, x: Addr)
    requires Linked(m, f) && Movable(f, a, b) && x in f
    ensures Present(m, a)
    ensures var y, g, m' := Ren(x, a, b), Renamed(f, a, b), Moved(m, a, b);
            && y in g && y in m'.parent && m'.parent[y] == ParentField(g, y)
            && EndAt(m'.next, m'.prev, g, y) && HeadAt(m'.child, m'.refs, m'.hptr, g, y)
  {
    Neighbours(m, f, a);
    RenamedNode(f, a, b, x);
    assert NodeOk(f, x) && NodeOk(f, a);
    assert EndAt(m.next, m.prev, f, x) && HeadAt(m.child, m.refs, m.hptr, f, x) && ParentField(f, x) == m.parent[x];
    assert EndAt(m.next, m.prev, f, a) && HeadAt(m.child, m.refs, m.hptr, f, a) && ParentField(f, a) == m.parent[a];
    RenamedDistinct(f, a, b, x);
    if f[a].par in f { assert NodeOk(f, f[a].par); }
    if f[x].par in f {
      RenamedNode(f, a, b, f[x].par);
      assert NodeOk(f, f[x].par);
    }
    MovedEnd(m, f, a, b, x);
    MovedHead(m, f, a, b, x);
    MovedParent(m, f, a, b, x);
  }

  lemma MovedEnd(m: Mem, f: Forest, a: Addr, b: Addr, x: Addr)
    requires Linked(m, f) && Movable(f, a, b) && x in f && Present(m, a)
    ensures EndAt(Moved(m, a, b).next, Moved(m, a, b).prev, Renamed(f, a, b), Ren(x, a, b))
  {
    Neighbours(m, f, a);
    RenamedNode(f, a, b, x);
    assert EndAt(m.next, m.prev, f, x) && EndAt(m.next, m.prev, f, a) && NodeOk(f, x);
    if f[x].par == 0 {
      if m.prev[a] != 0 { assert NodeOk(f, f[a].par); }
      if m.next[a] != 0 { assert NodeOk(f, f[a].par); }
    }
  }

  lemma MovedHead(m: Mem, f: Forest, a: Addr, b: Addr, x: Addr)
    requires Linked(m, f) && Movable(f, a, b) && x in f && Present(m, a)
    ensures HeadAt(Moved(m, a, b).child, Moved(m, a, b).refs, Moved(m, a, b).hptr, Renamed(f, a, b), Ren(x, a, b))
  {
    RenamedNode(f, a, b, x);
    RenamedDistinct(f, a, b, x);
    assert HeadAt(m.child, m.refs, m.hptr, f, x) && HeadAt(m.child, m.refs, m.hptr, f, a) && ParentField(f, a) == m.parent[a];
    assert NodeOk(f, x) && NodeOk(f, a);
    var kids := f[x].kids;
    if kids != [] {
      assert kids[0] in kids;
      assert Subst(kids, a, b)[0] == Ren(kids[0], a, b);
    }
  }

  lemma MovedParent(m: Mem, f: Forest, a: Addr, b: Addr, x: Addr)
    requires Linked(m, f) && Movable(f, a, b) && x in f && Present(m, a)
    ensures var y := Ren(x, a, b);
            y in Moved(m, a, b).parent && y in Renamed(f, a, b) && Moved(m, a, b).parent[y] == ParentField(Renamed(f, a, b), y)
  {
    RenamedNode(f, a, b, x);
    assert ParentField(f, x) == m.parent[x] && ParentField(f, a) == m.parent[a] && HeadAt(m.child, m.refs, m.hptr, f, a);
    assert NodeOk(f, x) && NodeOk(f, a);
    var p := f[x].par;
    if f[a].kids != [] { assert f[a].kids[0] in f[a].kids; }
    if p != 0 {
      RenamedNode(f, a, b, p);
      RenamedDistinct(f, a, b, p);
      assert NodeOk(f, p);
      assert f[p].kids[0] in f[p].kids;
      assert Subst(f[p].kids, a, b)[0] == Ren(f[p].kids[0], a, b);
    }
  }

  lemma MovedLists(m: Mem, f: Forest, a: Addr, b: Addr)
    requires Linked(m, f) && Movable(f, a, b)
    ensures Present(m, a)
    ensures var g, m' := Renamed(f, a, b), Moved(m, a, b); KidLists(m'.next, m'.prev, g) && RefLists(m'.hnext, m'.hprev, g)
  {
    Neighbours(m, f, a);
    var g, m' := Renamed(f, a, b), Moved(m, a, b);
    MovedKeys(m, f, a, b);
    forall y | y in g ensures DList(m'.next, m'.prev, g[y].kids) && DList(m'.hnext, m'.hprev, g[y].refs) {
      var x := if y == b then a else y;
      RenamedNode(f, a, b, x);
      MovedKidList(m, f, a, b, x);
      MovedRefList(m, f, a, b, x);
    }
  }

  lemma ShiftedKeys(x: Field, a: Addr, b: Addr, keys: set<Addr>)
    requires x.Keys == keys && a in keys && b !in keys
    ensures Shifted(x, a, b).Keys == keys - {a} + {b}
  {
  }

  lemma MovedKeys(m: Mem, f: Forest, a: Addr, b: Addr)
    requires Linked(m, f) && Movable(f, a, b) && Present(m, a)
    ensures var g, m' := Renamed(f, a, b), Moved(m, a, b);
            && m'.next.Keys == g.Keys && m'.prev.Keys == g.Keys && m'.hnext.Keys == g.Keys && m'.hprev.Keys == g.Keys
            && m'.parent.Keys == g.Keys && m'.child.Keys == g.Keys && m'.refs.Keys == g.Keys && m'.hptr.Keys == g.Keys
  {
    assert (f.Keys - {a}) + {b} == Renamed(f, a, b).Keys;
    MovedKeySets(m, a, b, f.Keys) by {
      assert EndAt(m.next, m.prev, f, a);
      NeighbourKeys(m, f, a);
    }
  }

  lemma MovedSiblingKeys(m: Mem, a: Addr, b: Addr, keys: set<Addr>)
    requires Present(m, a) && a in keys && b !in keys
    requires m.next.Keys == keys && m.prev.Keys == keys && m.parent.Keys == keys && m.child.Keys == keys
    requires forall x :: x in {m.prev[a], m.next[a], m.child[a], m.parent[a]} && x != 0 ==> x in keys && x != a
    ensures var m' := Moved(m, a, b); var moved := keys - {a} + {b};
            m'.next.Keys == moved && m'.prev.Keys == moved && m'.parent.Keys == moved && m'.child.Keys == moved
  {
    ShiftedKeys(m.next, a, b, keys);
    ShiftedKeys(m.prev, a, b, keys);
    ShiftedKeys(m.parent, a, b, keys);
    ShiftedKeys(m.child, a, b, keys);
  }

  lemma MovedKeySets(m: Mem, a: Addr, b: Addr, keys: set<Addr>)
    requires Present(m, a) && a in keys && b !in keys
    requires m.next.Keys == keys && m.prev.Keys == keys && m.parent.Keys == keys && m.child.Keys == keys
    requires m.refs.Keys == keys && m.hnext.Keys == keys && m.hprev.Keys == keys && m.hptr.Keys == keys
    requires forall x :: x in {m.prev[a], m.next[a], m.child[a], m.parent[a]} && x != 0 ==> x in keys && x != a
    ensures var m' := Moved(m, a, b); var moved := keys - {a} + {b};
            && m'.next.Keys == moved && m'.prev.Keys == moved && m'.hnext.Keys == moved && m'.hprev.Keys == moved
            && m'.parent.Keys == moved && m'.child.Keys == moved && m'.refs.Keys == moved && m'.hptr.Keys == moved
  {
    MovedSiblingKeys(m, a, b, keys);
    ShiftedKeys(m.refs, a, b, keys);
    ShiftedKeys(m.hnext, a, b, keys);
    ShiftedKeys(m.hprev, a, b, keys);
    ShiftedKeys(m.hptr, a, b, keys);
  }

  lemma NeighbourKeys(m: Mem, f: Forest, a: Addr)
    requires Linked(m, f) && a in f && !f[a].loose && Present(m, a)
    ensures m.prev[a] != 0 ==> m.prev[a] in f && m.prev[a] != a
    ensures m.next[a] != 0 ==> m.next[a] in f && m.next[a] != a
    ensures m.child[a] != 0 ==> m.child[a] in f && m.child[a] != a
    ensures m.parent[a] != 0 ==> m.parent[a] in f && m.parent[a] != a
  {
    assert NodeOk(f, a) && HeadAt(m.child, m.refs, m.hptr, f, a) && ParentField(f, a) == m.parent[a];
    if f[a].kids != [] { assert f[a].kids[0] in f[a].kids; }
    assert EndAt(m.next, m.prev, f, a);
    if f[a].par != 0 {
      IsChild(f, a);
      var s := f[f[a].par].kids;
      assert DList(m.next, m.prev, s) && NodeOk(f, f[a].par);
      var i: nat :| i < |s| && s[i] == a;
      assert LinkAt(m.next, m.prev, s, i);
    }
  }

  /** A moving realloc leaves the hierarchy as it was, up to the new address. */
  lemma MovedLinked(m: Mem, f: Forest, a: Addr, b: Addr)
    requires Linked(m, f) && Movable(f, a, b)
    ensures Present(m, a) && Linked(Moved(m, a, b), Renamed(f, a, b))
  {
    MovedLists(m, f, a, b);
    RenamedWf(f, a, b);
    MovedKeys(m, f, a, b);
    MovedRest(m, f, a, b);
  }

  lemma MovedRest(m: Mem, f: Forest, a: Addr, b: Addr)
    requires Linked(m, f) && Movable(f, a, b)
    ensures Present(m, a)
    ensures var g, m' := Renamed(f, a, b), Moved(m, a, b);
            && ParentFields(m'.parent, g) && Ends(m'.next, m'.prev, g) && HeadFields(m'.child, m'.refs, m'.hptr, g)
            && Flags(m'.destructor, m'.looping, g)
  {
    Neighbours(m, f, a);
    MovedKeys(m, f, a, b);
    var g, m' := Renamed(f, a, b), Moved(m, a, b);
    forall y | y in g
      ensures m'.parent[y] == ParentField(g, y) && EndAt(m'.next, m'.prev, g, y) && HeadAt(m'.child, m'.refs, m'.hptr, g, y)
    {
      MovedFields(m, f, a, b, if y == b then a else y);
    }
  }

  lemma RenamedAcyclic(f: Forest, a: Addr, b: Addr)
    requires Movable(f, a, b) && Acyclic(f)
    ensures Acyclic(Renamed(f, a, b))
  {
    var rank :| Ranked(f, rank);
    var g := Renamed(f, a, b);
    forall x | x in f ensures x in rank { assert RankedAt(f, rank, x); }
    var r: map<Addr, nat> := map y | y in g :: rank[if y == b then a else y];
    forall y | y in g ensures RankedAt(g, r, y) {
      var x := if y == b then a else y;
      RenamedNode(f, a, b, x);
      assert RankedAt(f, rank, x) && NodeOk(f, x);
    }
    assert Ranked(g, r);
  }
}
