/** The doubly linked lists of talloc.c: `next`/`prev` fields as maps from address to address, the two list macros,
    and what unlinking and linking a chunk do to the hierarchy. */
module TallocLinks {
  import opened Basics
  import opened TallocForest

  /** One pointer field of every chunk. */
  type Field = map<Addr, Addr>

  function Head(s: seq<Addr>): Addr {
    if s == [] then 0 else s[0]
  }

  function NextIn(s: seq<Addr>, i: nat): Addr
    requires i < |s|
  {
    if i + 1 < |s| then s[i + 1] else 0
  }

  function PrevIn(s: seq<Addr>, i: nat): Addr
    requires i < |s|
  {
    if i > 0 then s[i - 1] else 0
  }

  ghost predicate LinkAt(next: Field, prev: Field, s: seq<Addr>, i: int) {
    && 0 <= i < |s|
    && s[i] in next && s[i] in prev && next[s[i]] == NextIn(s, i) && prev[s[i]] == PrevIn(s, i)
  }

  ghost predicate DList(next: Field, prev: Field, s: seq<Addr>) {
    && 0 !in s && Distinct(s)
    && forall i {:trigger LinkAt(next, prev, s, i)} :: 0 <= i < |s| ==> LinkAt(next, prev, s, i)
  }

  /** The fields agree outside s. */
  ghost predicate SameBut(before: Field, after: Field, s: seq<Addr>) {
    before.Keys == after.Keys && forall a :: a in before && a !in s ==> after[a] == before[a]
  }

  ghost function Without(s: seq<Addr>, x: Addr): seq<Addr> {
    if s == [] then [] else if s[0] == x then s[1..] else [s[0]] + Without(s[1..], x)
  }

  lemma {:induction false} WithoutAt(s: seq<Addr>, i: nat)
    requires Distinct(s) && i < |s|
    ensures Without(s, s[i]) == s[..i] + s[i + 1..]
  {
    if i > 0 {
      WithoutAt(s[1..], i - 1);
      assert s[..i] == [s[0]] + s[1..][..i - 1];
    }
  }

  lemma {:induction false} WithoutMembers(s: seq<Addr>, x: Addr)
    requires Distinct(s)
    ensures Distinct(Without(s, x)) && forall y :: y in Without(s, x) <==> y in s && y != x
  {
    if s != [] {
      var t := s[1..];
      assert s == [s[0]] + t && s[0] !in t;
      WithoutMembers(t, x);
      var w := Without(t, x);
      if s[0] != x {
        forall i, j | 0 <= i < j < |w| + 1 ensures ([s[0]] + w)[i] != ([s[0]] + w)[j] {
          assert w[j - 1] in w;
        }
      }
    }
  }

  ghost function NextClosed(next: Field, s: seq<Addr>, i: nat): Field
    requires i < |s|
  {
    (if i > 0 then next[s[i - 1] := NextIn(s, i)] else next)[s[i] := 0]
  }

  ghost function PrevClosed(prev: Field, s: seq<Addr>, i: nat): Field
    requires i < |s|
  {
    (if i + 1 < |s| then prev[s[i + 1] := PrevIn(s, i)] else prev)[s[i] := 0]
  }

  lemma ListClosedAt(next: Field, prev: Field, s: seq<Addr>, i: nat, k: nat)
    requires DList(next, prev, s) && i < |s| && k + 1 < |s|
    ensures LinkAt(NextClosed(next, s, i), PrevClosed(prev, s, i), s[..i] + s[i + 1..], k)
  {
    assert LinkAt(next, prev, s, if k < i then k else k + 1);
  }

  lemma ListClosed(next: Field, prev: Field, s: seq<Addr>, i: nat)
    requires DList(next, prev, s) && i < |s|
    ensures DList(NextClosed(next, s, i), PrevClosed(prev, s, i), Without(s, s[i]))
  {
    WithoutAt(s, i);
    WithoutMembers(s, s[i]);
    forall k | 0 <= k < |Without(s, s[i])| ensures LinkAt(NextClosed(next, s, i), PrevClosed(prev, s, i), Without(s, s[i]), k) {
      ListClosedAt(next, prev, s, i, k);
    }
  }

  /** `_TLIST_REMOVE` of an element of the list. */
  method ListRemove(next: Field, prev: Field, list: Addr, p: Addr, ghost s: seq<Addr>)
    returns (next': Field, prev': Field, list': Addr)
    requires DList(next, prev, s) && list == Head(s) && p in s && p in next && p in prev
    ensures DList(next', prev', Without(s, p)) && list' == Head(Without(s, p))
    ensures SameBut(next, next', s) && SameBut(prev, prev', s) && next'[p] == 0 && prev'[p] == 0
  {
    next', prev', list' := next, prev, list;
    ghost var i: nat :| i < |s| && s[i] == p;
    assert LinkAt(next, prev, s, i);
    if i > 0 { assert LinkAt(next, prev, s, i - 1); }
    if i + 1 < |s| { assert LinkAt(next, prev, s, i + 1); }
    if p == list' {
      list' := next'[p];
      if list' != 0 { prev' := prev'[list' := 0]; }
    } else {
      if prev'[p] != 0 { next' := next'[prev'[p] := next'[p]]; }
      if next'[p] != 0 { prev' := prev'[next'[p] := prev'[p]]; }
    }
    if p != list' {
      next', prev' := next'[p := 0], prev'[p := 0];
    }
    assert next' == NextClosed(next, s, i) && prev' == PrevClosed(prev, s, i);
    ListClosed(next, prev, s, i);
    WithoutAt(s, i);
  }

  /** `_TLIST_ADD`. */
  method ListAdd(next: Field, prev: Field, list: Addr, p: Addr, ghost s: seq<Addr>)
    returns (next': Field, prev': Field, list': Addr)
    requires DList(next, prev, s) && list == Head(s) && p !in s && p != 0 && p in next && p in prev
    ensures DList(next', prev', [p] + s) && list' == p
    ensures SameBut(next, next', [p] + s) && SameBut(prev, prev', [p] + s)
  {
    next', prev', list' := next, prev, list;
    if s != [] { assert LinkAt(next, prev, s, 0); }
    if list' == 0 {
      list' := p;
      next', prev' := next'[p := 0], prev'[p := 0];
    } else {
      prev' := prev'[list' := p];
      next' := next'[p := list'];
      prev' := prev'[p := 0];
      list' := p;
    }
    forall k | 0 <= k < |s| + 1 ensures LinkAt(next', prev', [p] + s, k) {
      if k > 0 { assert LinkAt(next, prev, s, k - 1); }
    }
  }

  // ----- what the list operations do to the hierarchy -----

  /** c taken out of the list it is in. It keeps the parent field it had, which only a first child has. */
  ghost function Detached(f: Forest, c: Addr): Forest
    requires c in f
  {
    var p := f[c].par;
    if p !in f then f[c := f[c].(par := 0, loose := true)]
    else
      f[p := f[p].(kids := Without(f[p].kids, c))]
       [c := f[c].(par := if Head(f[p].kids) == c then p else 0, loose := true)]
  }

  /** A loose c put in front of p's children, or made a root. */
  ghost function Attached(f: Forest, c: Addr, p: Addr): Forest
    requires c in f && (p != 0 ==> p in f)
  {
    var g := if p == 0 then f else f[p := f[p].(kids := [c] + f[p].kids)];
    g[c := g[c].(par := p, loose := false)]
  }

  /** The reference destructor: handle h leaves its target's list. */
  ghost function Untargeted(f: Forest, h: Addr): Forest
    requires h in f && f[h].target in f
  {
    var t := f[h].target;
    var g := f[t := f[t].(refs := Without(f[t].refs, h))];
    g[h := g[h].(target := 0)]
  }

  lemma DetachedNode(f: Forest, c: Addr, a: Addr)
    requires Wf(f) && c in f && !f[c].loose && a in f
    requires f[c].par != 0 ==> f[c].par in f && f[c].par != c && Distinct(f[f[c].par].kids)
    ensures NodeOk(Detached(f, c), a)
  {
    var p, g := f[c].par, Detached(f, c);
    assert NodeOk(f, a);
    if p != 0 { WithoutMembers(f[p].kids, c); }
  }

  lemma DetachedWf(f: Forest, c: Addr)
    requires Wf(f) && c in f && !f[c].loose
    ensures Wf(Detached(f, c))
  {
    assert NodeOk(f, c);
    if f[c].par != 0 { assert NodeOk(f, f[c].par); }
    var g := Detached(f, c);
    forall a | a in g ensures NodeOk(g, a) {
      DetachedNode(f, c, a);
    }
  }

  lemma AttachedNode(f: Forest, c: Addr, p: Addr, a: Addr)
    requires Wf(f) && c in f && f[c].loose && c != p && (p != 0 ==> p in f && f[p].target == 0) && a in f
    ensures NodeOk(Attached(f, c, p), a)
  {
    assert NodeOk(f, a);
    var g := Attached(f, c, p);
    if a == p {
      assert Distinct(g[a].kids);
    } else {
      assert g[a].kids == f[a].kids;
    }
  }

  lemma AttachedWf(f: Forest, c: Addr, p: Addr)
    requires Wf(f) && c in f && f[c].loose && c != p && (p != 0 ==> p in f && f[p].target == 0)
    ensures Wf(Attached(f, c, p))
  {
    var g := Attached(f, c, p);
    forall a | a in g ensures NodeOk(g, a) {
      AttachedNode(f, c, p, a);
    }
  }

  lemma UntargetedWf(f: Forest, h: Addr)
    requires Wf(f) && h in f && f[h].target != 0
    ensures f[h].target in f && f[h].target != h && Wf(Untargeted(f, h))
  {
    assert NodeOk(f, h);
    assert NodeOk(f, f[h].target);
    var t, g := f[h].target, Untargeted(f, h);
    WithoutMembers(f[t].refs, h);
    forall a | a in g ensures NodeOk(g, a) {
      assert NodeOk(f, a);
    }
  }

  lemma RemovedWf(f: Forest, c: Addr)
    requires Wf(f) && c in f && f[c].loose && f[c].kids == [] && f[c].refs == [] && f[c].target == 0
    ensures Wf(f - {c})
  {
    forall a | a in f - {c} ensures NodeOk(f - {c}, a) {
      assert NodeOk(f, a);
    }
  }

  // ----- the fields of all chunks against the hierarchy -----

  ghost predicate KidLists(next: Field, prev: Field, f: Forest) {
    && next.Keys == f.Keys && prev.Keys == f.Keys
    && forall a {:trigger DList(next, prev, f[a].kids)} :: a in f ==> DList(next, prev, f[a].kids)
  }

  /** Roots and loose chunks have no siblings. */
  ghost predicate EndAt(next: Field, prev: Field, f: Forest, a: Addr) {
    a in f && a in next && a in prev && (f[a].loose || f[a].par == 0 ==> next[a] == 0 && prev[a] == 0)
  }

  ghost predicate Ends(next: Field, prev: Field, f: Forest) {
    forall a {:trigger EndAt(next, prev, f, a)} :: a in f ==> EndAt(next, prev, f, a)
  }

  ghost predicate RefLists(hnext: Field, hprev: Field, f: Forest) {
    && hnext.Keys == f.Keys && hprev.Keys == f.Keys
    && forall a {:trigger DList(hnext, hprev, f[a].refs)} :: a in f ==> DList(hnext, hprev, f[a].refs)
  }

  /** Only the first of a list of siblings carries a parent pointer; a loose chunk keeps the one it had. */
  ghost function ParentField(f: Forest, a: Addr): Addr
    requires a in f
  {
    if f[a].loose then f[a].par
    else if f[a].par in f && Head(f[f[a].par].kids) == a then f[a].par
    else 0
  }

  ghost predicate ParentFields(parent: Field, f: Forest) {
    parent.Keys == f.Keys && forall a {:trigger ParentField(f, a)} :: a in f ==> parent[a] == ParentField(f, a)
  }

  ghost predicate HeadAt(child: Field, refs: Field, hptr: Field, f: Forest, a: Addr) {
    && a in f && a in child && a in refs && a in hptr
    && child[a] == Head(f[a].kids) && refs[a] == Head(f[a].refs) && (f[a].target != 0 ==> hptr[a] == f[a].target)
  }

  ghost predicate HeadFields(child: Field, refs: Field, hptr: Field, f: Forest) {
    && child.Keys == f.Keys && refs.Keys == f.Keys && hptr.Keys == f.Keys
    && forall a {:trigger HeadAt(child, refs, hptr, f, a)} :: a in f ==> HeadAt(child, refs, hptr, f, a)
  }

  lemma DListFrame(next: Field, prev: Field, next': Field, prev': Field, s: seq<Addr>, t: seq<Addr>)
    requires DList(next, prev, t) && SameBut(next, next', s) && SameBut(prev, prev', s)
    requires forall a :: a in t ==> a !in s
    ensures DList(next', prev', t)
  {
    forall i | 0 <= i < |t| ensures LinkAt(next', prev', t, i) {
      assert t[i] in t && LinkAt(next, prev, t, i);
    }
  }

  lemma KidsApart(f: Forest, p: Addr, q: Addr, a: Addr)
    requires Wf(f) && p in f && q in f && p != q && a in f[q].kids
    ensures a !in f[p].kids && a in f && f[a].par == q && !f[a].loose
  {
    assert NodeOk(f, p) && NodeOk(f, q);
  }

  lemma RefsApart(f: Forest, p: Addr, q: Addr, a: Addr)
    requires Wf(f) && p in f && q in f && p != q && a in f[q].refs
    ensures a !in f[p].refs
  {
    assert NodeOk(f, p) && NodeOk(f, q);
  }

  /** Replacing p's list, and links only in it, leaves every other list of children as it was. */
  lemma OtherKids(f: Forest, p: Addr, s: seq<Addr>, q: Addr, next: Field, prev: Field, next': Field, prev': Field)
    requires Wf(f) && KidLists(next, prev, f) && p in f && q in f && p != q
    requires forall a :: a in s && a in f && !f[a].loose ==> a in f[p].kids
    requires SameBut(next, next', s) && SameBut(prev, prev', s)
    ensures DList(next', prev', f[q].kids)
  {
    forall k | k in f[q].kids ensures k !in s { KidsApart(f, p, q, k); }
    DListFrame(next, prev, next', prev', s, f[q].kids);
  }

  lemma OtherRefs(f: Forest, t: Addr, q: Addr, s: seq<Addr>, hnext: Field, hprev: Field, hnext': Field, hprev': Field)
    requires Wf(f) && RefLists(hnext, hprev, f) && t in f && q in f && t != q
    requires forall a :: a in s ==> a in f[t].refs
    requires SameBut(hnext, hnext', s) && SameBut(hprev, hprev', s)
    ensures DList(hnext', hprev', f[q].refs)
  {
    forall k | k in f[q].refs ensures k !in s { RefsApart(f, t, q, k); }
    DListFrame(hnext, hprev, hnext', hprev', s, f[q].refs);
  }

  /** Outside p's children the roots and loose chunks keep their empty links. */
  lemma EndsKept(f: Forest, p: Addr, a: Addr)
    requires Wf(f) && p in f && a in f && (f[a].loose || f[a].par != p)
    ensures a !in f[p].kids
  {
    assert NodeOk(f, p);
  }

  lemma KidListsSame(f: Forest, g: Forest, next: Field, prev: Field)
    requires KidLists(next, prev, f) && g.Keys == f.Keys
    requires forall a :: a in f ==> g[a].kids == f[a].kids
    ensures KidLists(next, prev, g)
  {
    forall a | a in g ensures DList(next, prev, g[a].kids) {
      assert DList(next, prev, f[a].kids);
    }
  }

  lemma RefListsSame(f: Forest, g: Forest, hnext: Field, hprev: Field)
    requires RefLists(hnext, hprev, f) && g.Keys == f.Keys
    requires forall a :: a in f ==> g[a].refs == f[a].refs
    ensures RefLists(hnext, hprev, g)
  {
    forall a | a in g ensures DList(hnext, hprev, g[a].refs) {
      assert DList(hnext, hprev, f[a].refs);
    }
  }

  lemma KidListsChanged(f: Forest, g: Forest, p: Addr, s: seq<Addr>, next: Field, prev: Field, next': Field, prev': Field)
    requires Wf(f) && p in f && KidLists(next, prev, f)
    requires g.Keys == f.Keys && forall a :: a in f && a != p ==> g[a].kids == f[a].kids
    requires forall a :: a in s && a in f && !f[a].loose ==> a in f[p].kids
    requires SameBut(next, next', s) && SameBut(prev, prev', s)
    requires DList(next', prev', g[p].kids)
    ensures KidLists(next', prev', g)
  {
    forall a | a in g ensures DList(next', prev', g[a].kids) {
      if a != p { OtherKids(f, p, s, a, next, prev, next', prev'); }
    }
  }

  lemma EndsChanged(f: Forest, g: Forest, c: Addr, p: Addr, s: seq<Addr>, next: Field, prev: Field, next': Field, prev': Field)
    requires Wf(f) && p in f && c in f && Ends(next, prev, f)
    requires g.Keys == f.Keys && forall a :: a in f && a != c ==> g[a].loose == f[a].loose && g[a].par == f[a].par
    requires forall a :: a in s && a != c ==> a in f[p].kids
    requires SameBut(next, next', s) && SameBut(prev, prev', s)
    requires c in next && c in prev && (g[c].loose || g[c].par == 0 ==> next'[c] == 0 && prev'[c] == 0)
    requires p != 0
    ensures Ends(next', prev', g)
  {
    forall a | a in g ensures EndAt(next', prev', g, a) {
      assert EndAt(next, prev, f, a);
      if a != c && (f[a].loose || f[a].par == 0) { EndsKept(f, p, a); }
    }
  }

  lemma RefListsChanged(f: Forest, g: Forest, t: Addr, hnext: Field, hprev: Field, hnext': Field, hprev': Field)
    requires Wf(f) && t in f && RefLists(hnext, hprev, f)
    requires g.Keys == f.Keys && forall a :: a in f && a != t ==> g[a].refs == f[a].refs
    requires SameBut(hnext, hnext', f[t].refs) && SameBut(hprev, hprev', f[t].refs)
    requires DList(hnext', hprev', g[t].refs)
    ensures RefLists(hnext', hprev', g)
  {
    forall a | a in g ensures DList(hnext', hprev', g[a].refs) {
      if a != t { OtherRefs(f, t, a, f[t].refs, hnext, hprev, hnext', hprev'); }
    }
  }

  /** Detaching the first child hands the parent pointer to the next one; detaching another changes no parent field. */
  lemma ParentFieldsDetached(f: Forest, c: Addr, parent: Field, parent': Field)
    requires Wf(f) && c in f && !f[c].loose && f[c].par in f && ParentFields(parent, f)
    requires var kids := f[f[c].par].kids;
             parent' == if Head(kids) == c && |kids| > 1 then parent[kids[1] := f[c].par] else parent
    ensures ParentFields(parent', Detached(f, c))
  {
    var p, g := f[c].par, Detached(f, c);
    var kids := f[p].kids;
    assert NodeOk(f, c) && NodeOk(f, p);
    assert Head(kids) == c ==> Without(kids, c) == kids[1..];
    if |kids| > 1 { assert kids[1] in kids; }
    forall a | a in g ensures parent'[a] == ParentField(g, a) {
      ParentFieldsDetachedAt(f, c, parent, parent', a);
    }
  }

  lemma ParentFieldsDetachedAt(f: Forest, c: Addr, parent: Field, parent': Field, a: Addr)
    requires Wf(f) && c in f && !f[c].loose && f[c].par in f && ParentFields(parent, f) && a in f
    requires f[c].par != c
    requires var kids := f[f[c].par].kids;
             && c in kids && (|kids| > 1 ==> kids[1] in f && f[kids[1]].par == f[c].par && !f[kids[1]].loose && kids[1] != kids[0])
             && parent' == if Head(kids) == c && |kids| > 1 then parent[kids[1] := f[c].par] else parent
    ensures a in parent' && parent'[a] == ParentField(Detached(f, c), a)
  {
    var p, g := f[c].par, Detached(f, c);
    var kids := f[p].kids;
    assert NodeOk(f, a);
    assert ParentField(f, a) == parent[a];
    if Head(kids) == c {
      assert Without(kids, c) == kids[1..];
    } else {
      assert Head(Without(kids, c)) == Head(kids);
    }
  }

  lemma RootFields(f: Forest, c: Addr, next: Field, prev: Field, parent: Field)
    requires Wf(f) && c in f && !f[c].loose && f[c].par == 0 && ParentFields(parent, f) && Ends(next, prev, f)
    ensures ParentFields(parent, Detached(f, c)) && Ends(next, prev, Detached(f, c))
  {
    var g := Detached(f, c);
    forall a | a in g ensures EndAt(next, prev, g, a) {
      assert EndAt(next, prev, f, a);
    }
    forall a | a in g ensures parent[a] == ParentField(g, a) {
      assert ParentField(f, a) == parent[a] && NodeOk(f, a);
    }
  }

  lemma HeadFieldsDetached(f: Forest, c: Addr, child: Field, child': Field, refs: Field, hptr: Field)
    requires Wf(f) && c in f && !f[c].loose && HeadFields(child, refs, hptr, f) && f[c].par != c
    requires child' == if f[c].par in f && Head(f[f[c].par].kids) == c then child[f[c].par := Head(Without(f[f[c].par].kids, c))] else child
    ensures HeadFields(child', refs, hptr, Detached(f, c))
  {
    var p, g := f[c].par, Detached(f, c);
    forall a | a in g ensures HeadAt(child', refs, hptr, g, a) {
      assert HeadAt(child, refs, hptr, f, a);
    }
  }

  // ----- all fields, step by step -----

  datatype Mem = Mem(next: Field, prev: Field, parent: Field, child: Field, refs: Field,
                     hnext: Field, hprev: Field, hptr: Field, destructor: set<Addr>, looping: set<Addr>)

  /** Only handles have the reference destructor; only loose chunks are flagged as being freed. */
  ghost predicate Flags(destructor: set<Addr>, looping: set<Addr>, f: Forest) {
    && (forall a {:trigger a in destructor} :: a in destructor <==> a in f && f[a].target != 0)
    && (forall a {:trigger a in looping} :: a in looping ==> a in f && f[a].loose)
  }

  /** The fields say what the hierarchy says. */
  ghost predicate Linked(m: Mem, f: Forest) {
    && Wf(f) && KidLists(m.next, m.prev, f) && Ends(m.next, m.prev, f) && RefLists(m.hnext, m.hprev, f)
    && ParentFields(m.parent, f) && HeadFields(m.child, m.refs, m.hptr, f) && Flags(m.destructor, m.looping, f)
  }

  ghost predicate Child(f: Forest, c: Addr) {
    Wf(f) && c in f && !f[c].loose && f[c].par in f && f[c].par != c && f[c].par != 0 && c in f[f[c].par].kids
  }

  lemma IsChild(f: Forest, c: Addr)
    requires Wf(f) && c in f && !f[c].loose && f[c].par != 0
    ensures Child(f, c) && Distinct(f[f[c].par].kids) && c != 0
  {
    assert NodeOk(f, c) && NodeOk(f, f[c].par);
  }

  lemma KidListsDetached(f: Forest, c: Addr, next: Field, prev: Field, next': Field, prev': Field)
    requires Child(f, c) && KidLists(next, prev, f)
    requires SameBut(next, next', f[f[c].par].kids) && SameBut(prev, prev', f[f[c].par].kids)
    requires DList(next', prev', Without(f[f[c].par].kids, c))
    ensures KidLists(next', prev', Detached(f, c))
  {
    KidListsChanged(f, Detached(f, c), f[c].par, f[f[c].par].kids, next, prev, next', prev');
  }

  lemma EndsDetached(f: Forest, c: Addr, next: Field, prev: Field, next': Field, prev': Field)
    requires Child(f, c) && Ends(next, prev, f) && c in next' && c in prev' && next'[c] == 0 && prev'[c] == 0
    requires SameBut(next, next', f[f[c].par].kids) && SameBut(prev, prev', f[f[c].par].kids)
    ensures Ends(next', prev', Detached(f, c))
  {
    assert EndAt(next, prev, f, c);
    EndsChanged(f, Detached(f, c), c, f[c].par, f[f[c].par].kids, next, prev, next', prev');
  }

  lemma RestDetached(f: Forest, c: Addr, m: Mem)
    requires RefLists(m.hnext, m.hprev, f) && Flags(m.destructor, m.looping, f) && c in f
    ensures RefLists(m.hnext, m.hprev, Detached(f, c)) && Flags(m.destructor, m.looping, Detached(f, c))
  {
    RefListsSame(f, Detached(f, c), m.hnext, m.hprev);
  }

  lemma RootLists(f: Forest, c: Addr, m: Mem)
    requires Linked(m, f) && c in f && !f[c].loose && f[c].par == 0
    ensures KidLists(m.next, m.prev, Detached(f, c)) && Ends(m.next, m.prev, Detached(f, c))
    ensures m.next[c] == 0 && m.prev[c] == 0
  {
    KidListsSame(f, Detached(f, c), m.next, m.prev);
    assert EndAt(m.next, m.prev, f, c);
    RootFields(f, c, m.next, m.prev, m.parent);
  }

  lemma UnlinkedRoot(m: Mem, f: Forest, c: Addr)
    requires Linked(m, f) && c in f && !f[c].loose && f[c].par == 0
    ensures Linked(m, Detached(f, c)) && m.next[c] == 0 && m.prev[c] == 0
  {
    DetachedWf(f, c);
    RootLists(f, c, m);
    RootFields(f, c, m.next, m.prev, m.parent);
    HeadFieldsDetached(f, c, m.child, m.child, m.refs, m.hptr) by { assert NodeOk(f, c); }
    RestDetached(f, c, m);
  }

  /** The `next` and `prev` fields after a chunk that is not first in its list has been unlinked. */
  function MiddleNext(m: Mem, c: Addr): Field
    requires c in m.next && c in m.prev
  {
    (if m.prev[c] != 0 then m.next[m.prev[c] := m.next[c]] else m.next)[c := 0]
  }

  function MiddlePrev(m: Mem, c: Addr): Field
    requires c in m.next && c in m.prev
  {
    (if m.next[c] != 0 then m.prev[m.next[c] := m.prev[c]] else m.prev)[c := 0]
  }

  lemma UnlinkedMiddle(m: Mem, f: Forest, c: Addr)
    requires Linked(m, f) && c in f && !f[c].loose && f[c].par != 0 && ParentField(f, c) == 0
    ensures c in m.next && c in m.prev
    ensures Linked(m.(next := MiddleNext(m, c), prev := MiddlePrev(m, c)), Detached(f, c))
  {
    IsChild(f, c);
    var p, kids := f[c].par, f[f[c].par].kids;
    assert DList(m.next, m.prev, kids);
    var i: nat :| i < |kids| && kids[i] == c;
    MiddleIsClosed(m, kids, i);
    ListClosed(m.next, m.prev, kids, i);
    DetachedWf(f, c);
    RestDetached(f, c, m);
    KidListsDetached(f, c, m.next, m.prev, MiddleNext(m, c), MiddlePrev(m, c));
    EndsDetached(f, c, m.next, m.prev, MiddleNext(m, c), MiddlePrev(m, c));
    ParentFieldsDetached(f, c, m.parent, m.parent);
    HeadFieldsDetached(f, c, m.child, m.child, m.refs, m.hptr);
  }

  lemma MiddleIsClosed(m: Mem, s: seq<Addr>, i: nat)
    requires DList(m.next, m.prev, s) && i < |s|
    ensures s[i] in m.next && s[i] in m.prev
    ensures MiddleNext(m, s[i]) == NextClosed(m.next, s, i) && MiddlePrev(m, s[i]) == PrevClosed(m.prev, s, i)
    ensures SameBut(m.next, MiddleNext(m, s[i]), s) && SameBut(m.prev, MiddlePrev(m, s[i]), s)
  {
    assert LinkAt(m.next, m.prev, s, i);
    if i > 0 { assert LinkAt(m.next, m.prev, s, i - 1); }
    if i + 1 < |s| { assert LinkAt(m.next, m.prev, s, i + 1); }
  }

  // Attaching.

  ghost predicate Attachable(f: Forest, c: Addr, p: Addr) {
    Wf(f) && c in f && f[c].loose && c != p && c != 0 && p != 0 && p in f && f[p].target == 0 && c !in f[p].kids
  }

  lemma IsAttachable(f: Forest, c: Addr, p: Addr)
    requires Wf(f) && c in f && f[c].loose && c != p && p in f && f[p].target == 0
    ensures Attachable(f, c, p)
  {
    assert NodeOk(f, p);
  }

  lemma KidListsAttached(f: Forest, c: Addr, p: Addr, next: Field, prev: Field, next': Field, prev': Field)
    requires Attachable(f, c, p) && KidLists(next, prev, f)
    requires SameBut(next, next', [c] + f[p].kids) && SameBut(prev, prev', [c] + f[p].kids)
    requires DList(next', prev', [c] + f[p].kids)
    ensures KidLists(next', prev', Attached(f, c, p))
  {
    KidListsChanged(f, Attached(f, c, p), p, [c] + f[p].kids, next, prev, next', prev');
  }

  lemma EndsAttached(f: Forest, c: Addr, p: Addr, next: Field, prev: Field, next': Field, prev': Field)
    requires Attachable(f, c, p) && Ends(next, prev, f)
    requires SameBut(next, next', [c] + f[p].kids) && SameBut(prev, prev', [c] + f[p].kids)
    ensures Ends(next', prev', Attached(f, c, p))
  {
    assert EndAt(next, prev, f, c);
    EndsChanged(f, Attached(f, c, p), c, p, [c] + f[p].kids, next, prev, next', prev');
  }

  lemma ParentFieldsAttached(f: Forest, c: Addr, p: Addr, parent: Field)
    requires Attachable(f, c, p) && ParentFields(parent, f)
    ensures ParentFields(if f[p].kids == [] then parent[c := p] else parent[c := p][f[p].kids[0] := 0], Attached(f, c, p))
  {
    var g := Attached(f, c, p);
    var parent' := if f[p].kids == [] then parent[c := p] else parent[c := p][f[p].kids[0] := 0];
    assert NodeOk(f, p);
    if f[p].kids != [] { assert f[p].kids[0] in f[p].kids; }
    forall a | a in g ensures parent'[a] == ParentField(g, a) {
      assert ParentField(f, a) == parent[a] && NodeOk(f, a);
    }
  }

  lemma HeadFieldsAttached(f: Forest, c: Addr, p: Addr, child: Field, refs: Field, hptr: Field)
    requires Attachable(f, c, p) && HeadFields(child, refs, hptr, f)
    ensures HeadFields(child[p := c], refs, hptr, Attached(f, c, p))
  {
    var g := Attached(f, c, p);
    forall a | a in g ensures HeadAt(child[p := c], refs, hptr, g, a) {
      assert HeadAt(child, refs, hptr, f, a);
    }
  }

  lemma RestAttached(f: Forest, c: Addr, p: Addr, m: Mem)
    requires RefLists(m.hnext, m.hprev, f) && Flags(m.destructor, m.looping, f) && c in f && (p == 0 || p in f) && c !in m.looping
    ensures RefLists(m.hnext, m.hprev, Attached(f, c, p)) && Flags(m.destructor, m.looping, Attached(f, c, p))
  {
    RefListsSame(f, Attached(f, c, p), m.hnext, m.hprev);
  }

  lemma EndsRooted(f: Forest, c: Addr, next: Field, prev: Field)
    requires Ends(next, prev, f) && c in f && f[c].loose
    ensures c in next && c in prev && next[c] == 0 && prev[c] == 0 && Ends(next, prev, Attached(f, c, 0))
  {
    var g := Attached(f, c, 0);
    assert EndAt(next, prev, f, c);
    forall a | a in g ensures EndAt(next, prev, g, a) { assert EndAt(next, prev, f, a); }
  }

  lemma ParentsRooted(f: Forest, c: Addr, parent: Field)
    requires Wf(f) && ParentFields(parent, f) && c in f && f[c].loose
    ensures ParentFields(parent[c := 0], Attached(f, c, 0))
  {
    var g := Attached(f, c, 0);
    forall a | a in g ensures parent[c := 0][a] == ParentField(g, a) {
      assert ParentField(f, a) == parent[a] && NodeOk(f, a);
    }
  }

  lemma FieldsRooted(m: Mem, f: Forest, c: Addr)
    requires Linked(m, f) && c in f && f[c].loose
    ensures m.next[c] == 0 && m.prev[c] == 0
    ensures KidLists(m.next, m.prev, Attached(f, c, 0)) && Ends(m.next, m.prev, Attached(f, c, 0))
    ensures ParentFields(m.parent[c := 0], Attached(f, c, 0))
  {
    EndsRooted(f, c, m.next, m.prev);
    ParentsRooted(f, c, m.parent);
    KidListsSame(f, Attached(f, c, 0), m.next, m.prev);
  }

  lemma HeadsRooted(m: Mem, f: Forest, c: Addr)
    requires Linked(m, f) && c in f && f[c].loose
    ensures HeadFields(m.child, m.refs, m.hptr, Attached(f, c, 0))
  {
    var g := Attached(f, c, 0);
    forall a | a in g ensures HeadAt(m.child, m.refs, m.hptr, g, a) {
      assert HeadAt(m.child, m.refs, m.hptr, f, a);
    }
  }

  /** A loose chunk becomes a root. */
  lemma RootAttached(m: Mem, f: Forest, c: Addr)
    requires Linked(m, f) && c in f && f[c].loose && c !in m.looping
    ensures var m' := m.(parent := m.parent[c := 0], next := m.next[c := 0], prev := m.prev[c := 0]);
            Linked(m', Attached(f, c, 0))
  {
    AttachedWf(f, c, 0);
    FieldsRooted(m, f, c);
    HeadsRooted(m, f, c);
    RestAttached(f, c, 0, m);
    assert m.next[c := 0] == m.next && m.prev[c := 0] == m.prev;
  }

  // Handles.

  /** h put in front of the handles that refer to t. */
  ghost function Targeted(f: Forest, h: Addr, t: Addr): Forest
    requires h in f && t in f
  {
    var g := f[t := f[t].(refs := [h] + f[t].refs)];
    g[h := g[h].(target := t)]
  }

  lemma TargetedNode(f: Forest, h: Addr, t: Addr, a: Addr)
    requires Wf(f) && h in f && t in f && h != t && t != 0 && f[t].target == 0 && a in f
    requires f[h].target == 0 && f[h].kids == [] && f[h].refs == []
    ensures NodeOk(Targeted(f, h, t), a)
  {
    assert NodeOk(f, a);
  }

  lemma FlagsUntargeted(m: Mem, f: Forest, h: Addr)
    requires Flags(m.destructor, m.looping, f) && h in f && f[h].target in f && f[h].target != h
    ensures Flags(m.destructor - {h}, m.looping, Untargeted(f, h))
  {
  }

  lemma HeadsUntargeted(m: Mem, f: Forest, h: Addr)
    requires HeadFields(m.child, m.refs, m.hptr, f)
    requires h in f && f[h].target in f && f[h].target != h
    ensures HeadFields(m.child, m.refs[f[h].target := Head(Without(f[f[h].target].refs, h))], m.hptr, Untargeted(f, h))
  {
    var t, g := f[h].target, Untargeted(f, h);
    var refs := m.refs[t := Head(Without(f[t].refs, h))];
    forall a | a in g ensures HeadAt(m.child, refs, m.hptr, g, a) {
      assert HeadAt(m.child, m.refs, m.hptr, f, a);
    }
    assert HeadFields(m.child, refs, m.hptr, g);
  }

  lemma UntargetedShape(f: Forest, h: Addr)
    requires h in f && f[h].target in f && f[h].target != h
    ensures var g := Untargeted(f, h);
            && g.Keys == f.Keys
            && (forall a :: a in f ==> g[a].kids == f[a].kids && g[a].par == f[a].par && g[a].loose == f[a].loose)
            && (forall a :: a in f && a != f[h].target ==> g[a].refs == f[a].refs)
  {
  }

  lemma RefsUntargeted(m: Mem, f: Forest, h: Addr, hnext': Field, hprev': Field)
    requires Linked(m, f) && h in f && f[h].target in f && f[h].target != h && f[h].target != 0
    requires SameBut(m.hnext, hnext', f[f[h].target].refs) && SameBut(m.hprev, hprev', f[f[h].target].refs)
    requires DList(hnext', hprev', Without(f[f[h].target].refs, h))
    ensures var t := f[h].target;
            var m' := m.(hnext := hnext', hprev := hprev', refs := m.refs[t := Head(Without(f[t].refs, h))],
                         destructor := m.destructor - {h});
            Linked(m', Untargeted(f, h))
  {
    UntargetedWf(f, h);
    UntargetedShape(f, h);
    RefListsChanged(f, Untargeted(f, h), f[h].target, m.hnext, m.hprev, hnext', hprev');
    SameButRefs(m, f, Untargeted(f, h));
    HeadsUntargeted(m, f, h);
    FlagsUntargeted(m, f, h);
  }

  /** Changing reference lists and targets touches neither siblings nor parents. */
  lemma SameButRefs(m: Mem, f: Forest, g: Forest)
    requires Linked(m, f) && g.Keys == f.Keys
    requires forall a :: a in f ==> g[a].kids == f[a].kids && g[a].par == f[a].par && g[a].loose == f[a].loose
    ensures KidLists(m.next, m.prev, g) && Ends(m.next, m.prev, g) && ParentFields(m.parent, g)
  {
    KidListsSame(f, g, m.next, m.prev);
    forall a | a in g ensures EndAt(m.next, m.prev, g, a) && m.parent[a] == ParentField(g, a) {
      assert EndAt(m.next, m.prev, f, a) && ParentField(f, a) == m.parent[a];
    }
  }

  ghost predicate Targetable(f: Forest, h: Addr, t: Addr) {
    h in f && t in f && h != t && f[t].target == 0 && f[h].target == 0 && f[h].kids == [] && f[h].refs == []
  }

  lemma HeadsTargeted(m: Mem, f: Forest, h: Addr, t: Addr)
    requires HeadFields(m.child, m.refs, m.hptr, f) && Flags(m.destructor, m.looping, f) && Targetable(f, h, t) && t != 0
    ensures HeadFields(m.child, m.refs[t := h], m.hptr[h := t], Targeted(f, h, t))
    ensures Flags(m.destructor + {h}, m.looping, Targeted(f, h, t))
  {
    var g := Targeted(f, h, t);
    forall a | a in g ensures HeadAt(m.child, m.refs[t := h], m.hptr[h := t], g, a) {
      assert HeadAt(m.child, m.refs, m.hptr, f, a);
    }
  }

  lemma RefListsTargeted(m: Mem, f: Forest, h: Addr, t: Addr, hnext': Field, hprev': Field)
    requires Wf(f) && RefLists(m.hnext, m.hprev, f) && Targetable(f, h, t)
    requires SameBut(m.hnext, hnext', [h] + f[t].refs) && SameBut(m.hprev, hprev', [h] + f[t].refs)
    requires DList(hnext', hprev', [h] + f[t].refs)
    ensures RefLists(hnext', hprev', Targeted(f, h, t))
  {
    var g := Targeted(f, h, t);
    forall a | a in g ensures DList(hnext', hprev', g[a].refs) {
      if a != t { TargetedOther(f, h, t, a, m.hnext, m.hprev, hnext', hprev'); }
    }
  }

  lemma TargetedShape(f: Forest, h: Addr, t: Addr)
    requires Targetable(f, h, t)
    ensures var g := Targeted(f, h, t);
            && g.Keys == f.Keys
            && (forall a :: a in f ==> g[a].kids == f[a].kids && g[a].par == f[a].par && g[a].loose == f[a].loose)
  {
  }

  lemma TargetedWf(f: Forest, h: Addr, t: Addr)
    requires Wf(f) && Targetable(f, h, t)
    ensures Wf(Targeted(f, h, t))
  {
    forall a | a in f ensures NodeOk(Targeted(f, h, t), a) { TargetedNode(f, h, t, a); }
  }

  lemma RefsTargeted(m: Mem, f: Forest, h: Addr, t: Addr, hnext': Field, hprev': Field)
    requires Linked(m, f) && Targetable(f, h, t)
    requires SameBut(m.hnext, hnext', [h] + f[t].refs) && SameBut(m.hprev, hprev', [h] + f[t].refs)
    requires DList(hnext', hprev', [h] + f[t].refs)
    ensures var m' := m.(hnext := hnext', hprev := hprev', refs := m.refs[t := h], hptr := m.hptr[h := t],
                         destructor := m.destructor + {h});
            Linked(m', Targeted(f, h, t))
  {
    TargetedWf(f, h, t);
    TargetedShape(f, h, t);
    SameButRefs(m, f, Targeted(f, h, t));
    RefListsTargeted(m, f, h, t, hnext', hprev');
    HeadsTargeted(m, f, h, t);
  }

  lemma TargetedOther(f: Forest, h: Addr, t: Addr, a: Addr, hnext: Field, hprev: Field, hnext': Field, hprev': Field)
    requires Wf(f) && RefLists(hnext, hprev, f) && h in f && t in f && a in f && a != t && f[h].target == 0
    requires SameBut(hnext, hnext', [h] + f[t].refs) && SameBut(hprev, hprev', [h] + f[t].refs)
    ensures DList(hnext', hprev', f[a].refs)
  {
    assert DList(hnext, hprev, f[a].refs);
    forall k | k in f[a].refs ensures k !in [h] + f[t].refs {
      RefsApart(f, t, a, k);
      assert NodeOk(f, a);
    }
    DListFrame(hnext, hprev, hnext', hprev', [h] + f[t].refs, f[a].refs);
  }

  // Birth and death.

  function Dropped(m: Mem, c: Addr): Mem {
    Mem(m.next - {c}, m.prev - {c}, m.parent - {c}, m.child - {c}, m.refs - {c},
        m.hnext - {c}, m.hprev - {c}, m.hptr - {c}, m.destructor - {c}, m.looping - {c})
  }

  lemma RemovedLinked(m: Mem, f: Forest, c: Addr)
    requires Linked(m, f) && c in f && f[c].loose && f[c].kids == [] && f[c].refs == [] && f[c].target == 0
    ensures Linked(Dropped(m, c), f - {c})
  {
    var g, m' := f - {c}, Dropped(m, c);
    RemovedWf(f, c);
    forall a | a in g
      ensures DList(m'.next, m'.prev, g[a].kids) && DList(m'.hnext, m'.hprev, g[a].refs) && m'.parent[a] == ParentField(g, a)
    {
      RemovedAt(m, f, c, a);
    }
    forall a | a in g ensures EndAt(m'.next, m'.prev, g, a) && HeadAt(m'.child, m'.refs, m'.hptr, g, a) {
      assert EndAt(m.next, m.prev, f, a) && HeadAt(m.child, m.refs, m.hptr, f, a);
    }
  }

  lemma DListDrop(next: Field, prev: Field, s: seq<Addr>, c: Addr)
    requires DList(next, prev, s) && c !in s
    ensures DList(next - {c}, prev - {c}, s)
  {
    forall i | 0 <= i < |s| ensures LinkAt(next - {c}, prev - {c}, s, i) {
      assert LinkAt(next, prev, s, i) && s[i] in s;
    }
  }

  lemma RemovedAt(m: Mem, f: Forest, c: Addr, a: Addr)
    requires Linked(m, f) && c in f && f[c].loose && f[c].kids == [] && f[c].target == 0 && a in f && a != c
    ensures var m' := Dropped(m, c);
            && DList(m'.next, m'.prev, f[a].kids) && DList(m'.hnext, m'.hprev, f[a].refs)
            && a in m'.parent && m'.parent[a] == ParentField(f - {c}, a)
  {
    assert NodeOk(f, a) && ParentField(f, a) == m.parent[a];
    assert DList(m.next, m.prev, f[a].kids) && DList(m.hnext, m.hprev, f[a].refs);
    DListDrop(m.next, m.prev, f[a].kids, c);
    DListDrop(m.hnext, m.hprev, f[a].refs, c);
  }
}
