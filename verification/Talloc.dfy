/** src/external/talloc/lib/talloc/talloc.c: the chunk hierarchy, updated in place.

    Memory is kept field by field: `m.next[a]` is the `next` field of the chunk at address a. A chunk that has been
    freed is in no field. Fresh addresses come from the caller of a method, as `malloc` would choose them. The null
    context is NULL, as it is unless leak reporting is switched on. */
module Talloc {
  import opened Basics
  import opened TallocForest
  import opened TallocLinks
  import opened TallocFree
  import opened TallocShape
  import opened TallocTrace
  import opened TallocClean
  import opened TallocMove
  import opened TallocCalls
  import TallocRuns

  class Heap {
    var m: Mem
    /** The `size` field of every chunk; entries of released chunks are left behind. */
    var size: map<Addr, nat>
    ghost var f: Forest

    /** What holds between calls. */
    ghost predicate Valid()
      reads this
    {
      Linked(m, f) && Sound(f) && f.Keys <= size.Keys
    }

    constructor ()
      ensures Valid() && f == map[]
    {
      m := Mem(map[], map[], map[], map[], map[], map[], map[], map[], {}, {});
      size := map[];
      f := map[];
      NothingSound();
    }

    /** `talloc_parent_chunk`: walk to the front of the list, whose head alone carries the parent. */
    method ParentChunk(c: Addr) returns (p: Addr)
      requires Linked(m, f) && c in f
      ensures p == f[c].par
    {
      var tc := c;
      ghost var listed := !f[c].loose && f[c].par != 0;
      assert EndAt(m.next, m.prev, f, c);
      if listed { IsChild(f, c); }
      ghost var kids := if listed then f[f[c].par].kids else [c];
      ghost var i: nat :| i < |kids| && kids[i] == c;
      if listed {
        assert NodeOk(f, f[c].par) && DList(m.next, m.prev, kids) && LinkAt(m.next, m.prev, kids, i);
      }
      while m.prev[tc] != 0
        invariant i < |kids| && kids[i] == tc && tc in f
        invariant if listed then LinkAt(m.next, m.prev, kids, i) else tc == c && m.prev[c] == 0
        decreases i
      {
        tc := m.prev[tc];
        i := i - 1;
        assert kids[i] in kids && LinkAt(m.next, m.prev, kids, i);
      }
      assert kids[0] in kids;
      assert ParentField(f, tc) == m.parent[tc];
      p := m.parent[tc];
    }

    /** `talloc_is_parent`: walk up from context; give up after TALLOC_MAX_DEPTH parents. */
    method IsParent(context: Addr, ptr: Addr, ghost keep: set<Addr>) returns (b: bool)
      requires Linked(m, f) && context in f && Kept(f, keep)
      ensures b == Sees(f, context, ptr)
      ensures b ==> Below(f, context, ptr) || HitsLoose(f, context)
    {
      var tc, depth: int := context, TALLOC_MAX_DEPTH;
      ghost var n: nat := 0;
      while tc != 0
        invariant tc != 0 ==> tc in f && (Path(f, context, tc, n) || HitsLoose(f, context))
        invariant 0 <= depth == TALLOC_MAX_DEPTH - n && tc == Ancestor(f, context, n)
        invariant forall k: nat :: k < n ==> Ancestor(f, context, k) != ptr
        decreases depth, tc != 0
      {
        if depth <= 0 { return false; }
        if tc == ptr { return true; }
        NextAncestor(f, context, n);
        ghost var at := tc;
        assert NodeOk(f, tc) && KeptAt(f, keep, tc);
        tc := ParentChunk(tc);
        depth := depth - 1;
        if tc != 0 && Path(f, context, at, n) {
          if f[at].loose {
            assert Below(f, context, at);
          } else {
            assert Path(f, at, tc, 1) by { assert Path(f, tc, tc, 0); }
            PathJoin(f, context, at, tc, n, 1);
          }
        }
        n := n + 1;
      }
      forall k: nat | k >= n ensures Ancestor(f, context, k) == 0 { NoAncestor(f, context, n, k); }
      return false;
    }

    /** `_tc_free_internal`. `keep` holds the chunks above c; it matters only to the proof. */
    method FreeInternal(c: Addr, ghost keep: set<Addr>) returns (r: int)
      requires Linked(m, f) && c in f
      requires f[c].loose ==> c in m.looping && f[c].refs == []
      requires !f[c].loose && (f[c].kids != [] || f[c].refs != []) ==> Rooted(f, c, keep)
      modifies `m, `f
      ensures Linked(m, f)
      ensures old(f[c].loose) ==> r == 0 && m == old(m) && f == old(f)
      ensures !old(f[c].loose) ==>
                FreeOutcome(old(f), f, c, r) && FreeExact(old(f), f, c) && RefusalExact(old(f), f, c, r)
                && LeafExact(old(f), f, c) && StaysKept(old(f), f, c, keep) && Traced(old(f), f, c, r)
      decreases Live(f), if f[c].refs != [] then 4 else 1
    {
      assert HeadAt(m.child, m.refs, m.hptr, f, c);
      RefsNotNull(f, c);
      if m.refs[c] != 0 {
        r := FreeReference(c, keep);
        return;
      }
      if c in m.looping {
        return 0;
      }
      FreeUnreferenced(c, keep);
      r := 0;
    }

    method FreeUnreferenced(c: Addr, ghost keep: set<Addr>)
      requires Linked(m, f) && c in f && !f[c].loose && f[c].refs == [] && (f[c].kids != [] ==> Rooted(f, c, keep))
      modifies `m, `f
      ensures Linked(m, f)
      ensures FreeOutcome(old(f), f, c, 0) && StaysKept(old(f), f, c, keep)
      ensures FreeExact(old(f), f, c) && RefusalExact(old(f), f, c, 0) && LeafExact(old(f), f, c)
      ensures Traced(old(f), f, c, 0)
      decreases Live(f), 0
    {
      ghost var f0 := f;
      BeforeChildren(f, c, keep);
      m := Prepare(m, f, c);
      f := Prepared(f, c);
      FreeChildren(c, keep);
      AfterChildren(m, f0, f, c, keep);
      TracedTree(f0, f, c);
      m := Dropped(m, c);
      f := f - {c};
    }

    /** A referenced chunk is not freed: its newest reference is, and if that came from below the chunk itself the free
        is tried again. */
    method FreeReference(c: Addr, ghost keep: set<Addr>) returns (r: int)
      requires Linked(m, f) && c in f && !f[c].loose && f[c].refs != [] && Rooted(f, c, keep)
      modifies `m, `f
      ensures Linked(m, f)
      ensures FreeOutcome(old(f), f, c, r) && FreeExact(old(f), f, c) && RefusalExact(old(f), f, c, r)
      ensures StaysKept(old(f), f, c, keep) && Traced(old(f), f, c, r)
      decreases Live(f), 3
    {
      ghost var f0 := f;
      var h, isChild := DropNewest(c, keep);
      if isChild {
        ghost var f1 := f;
        r := FreeInternal(c, keep);
        Retried(f0, f1, f, c, h, r, keep);
        return;
      }
      NotRetried(f0, f, c, h, keep);
      r := -1;
    }

    /** Its first half: is the newest reference from below, and away with it. */
    method DropNewest(c: Addr, ghost keep: set<Addr>) returns (h: Addr, isChild: bool)
      requires Linked(m, f) && c in f && !f[c].loose && f[c].refs != [] && Rooted(f, c, keep)
      modifies `m, `f
      ensures Linked(m, f) && Dropping(old(f), f, c, h, isChild, keep)
      decreases Live(f), 2
    {
      ghost var f0 := f;
      assert HeadAt(m.child, m.refs, m.hptr, f, c);
      HandleOf(f, c, keep);
      h := m.refs[c];
      isChild := IsParent(h, c, keep);
      var dropped := FreeInternal(h, keep);
      HandleGone(f0, f, c);
      NewestDropped(f0, f, c, h, isChild, keep);
    }

    /** `_tc_free_children_internal`. */
    method FreeChildren(c: Addr, ghost keep: set<Addr>)
      requires Linked(m, f) && c in f && f[c].loose && (f[c].kids != [] ==> Kept(f, keep) && c !in keep)
      modifies `m, `f
      ensures Linked(m, f) && ChildrenOutcome(old(f), f, c, keep) && TracedLoop(old(f), f, c)
      decreases Live(f), 6
    {
      ghost var f0 := f;
      LoopBegins(f, c, keep);
      LedBegins(f, c);
      assert HeadAt(m.child, m.refs, m.hptr, f, c);
      while m.child[c] != 0
        invariant Linked(m, f) && Looping(f0, f, c, keep) && Live(f) <= Live(f0) && Led(f0, f, c)
        invariant c in m.child && m.child[c] == Head(f[c].kids)
        decreases Live(f)
      {
        ghost var fx := f;
        FreeOneChild(c, keep);
        LoopGoesOn(f0, fx, f, c, keep);
        LedOn(f0, fx, f, c);
        assert HeadAt(m.child, m.refs, m.hptr, f, c);
      }
      HeadNotNull(f, c);
      LoopEnds(f0, f, c, keep);
      LedEnds(f0, f, c);
    }

    /** One round of that loop: free the first child, or give it to whoever refers to it. */
    method FreeOneChild(c: Addr, ghost keep: set<Addr>)
      requires Linked(m, f) && c in f && f[c].loose && f[c].kids != [] && Kept(f, keep) && c !in keep
      modifies `m, `f
      ensures Linked(m, f) && RoundOutcome(old(f), f, c, keep) && TracedRound(old(f), f, c)
      decreases Live(f), 5
    {
      ghost var f0 := f;
      assert HeadAt(m.child, m.refs, m.hptr, f, c);
      var x := m.child[c];
      FirstChild(f, c, keep);
      assert HeadAt(m.child, m.refs, m.hptr, f, x);
      var newParent := 0;
      if m.refs[x] != 0 {
        HandleOf(f, x, keep);
        newParent := ParentChunk(m.refs[x]);
      }
      var r := FreeInternal(x, keep);
      assert ShrunkAt(f0, f, c);
      if r == 0 {
        ReleasedRings(f0, f, c, x);
        ReleasedChild(f0, f, c, x);
        TracedAway(f0, f, c, x);
      } else {
        HandleOf(f0, x, keep);
        NewParentLives(f0, f, c, x, keep);
        assert ShrunkAt(f0, f, x);
        MoveRefused(c, x, newParent, f0, keep);
      }
    }

    /** A child that could not be freed goes to newParent, or else to the parent of c. */
    method MoveRefused(c: Addr, x: Addr, newParent: Addr, ghost f0: Forest, ghost keep: set<Addr>)
      requires Linked(m, f) && c in f && x in f && !f[x].loose && f[x].par == c && f[c].loose
      requires newParent != 0 ==> newParent in f && f[newParent].target == 0
      requires f[c].par != 0 ==> f[c].par in f && f[f[c].par].target == 0
      requires Wf(f0) && c in f0 && f0[c].loose && x in f0[c].kids && x in f0 && c != 0 && x != c
      requires Kept(f0, keep) && f0[x].refs != [] && f0[x].refs[0] in f0 && f0[x].target == 0 && !f0[x].loose && x !in keep
      requires newParent == f0[f0[x].refs[0]].par && f[c].par == f0[c].par
      requires FreeOutcome(f0, f, x, -1) && RefusalExact(f0, f, x, -1) && Kept(f, keep) && SamePars(f0, f, keep)
      requires Traced(f0, f, x, -1) && f0[c].kids != [] && x == f0[c].kids[0] && !f0[f0[x].refs[0]].loose
      modifies `m, `f
      ensures Linked(m, f) && RoundOutcome(f0, f, c, keep) && TracedRound(f0, f, c)
    {
      ghost var fm := f;
      var np := newParent;
      var p := ParentChunk(x);
      if p == c {
        if np == 0 {
          np := ParentChunk(c);
        }
        StealInternal(np, x);
      }
      RefusedChild(f0, fm, f, c, x, np, keep);
      MovedTraced(f0, fm, f, c, x, np, keep);
    }

    method StealInternal(newCtx: Addr, c: Addr)
      requires Linked(m, f) && c in f && !f[c].loose && (newCtx != 0 ==> newCtx in f && f[newCtx].target == 0)
      modifies `m, `f
      ensures Linked(m, f) && m.destructor == old(m.destructor) && m.looping == old(m.looping)
      ensures f == Stolen(old(f), newCtx, c)
    {
      m := Steal(m, f, newCtx, c);
      f := Stolen(f, newCtx, c);
    }

    // ----- the public calls -----

    /** `talloc_size` and its kin outside pools: b is what `malloc` returns. */
    method Alloc(ctx: Addr, bytes: nat, b: Addr) returns (r: Addr)
      requires Valid() && (ctx != 0 ==> Plain(f, ctx)) && b !in f
      modifies this
      ensures Valid()
      ensures r == if bytes >= MAX_TALLOC_SIZE then 0 else b
      ensures r == 0 ==> f == old(f) && m == old(m) && size == old(size)
      ensures r != 0 ==> f == Born(old(f), b, ctx) && size == old(size)[b := bytes]
    {
      if bytes >= MAX_TALLOC_SIZE || b == 0 {
        return 0;
      }
      LooseLinked(m, f, b);
      BornSound(f, b, ctx);
      ghost var loose := f[b := Node(0, [], [], true, 0)];
      m := Added(m, b);
      if ctx != 0 {
        m := LinkUnder(m, loose, b, ctx);
      } else {
        RootAttached(m, loose, b);
        m := m.(parent := m.parent[b := 0], next := m.next[b := 0], prev := m.prev[b := 0]);
      }
      f := Born(f, b, ctx);
      size := size[b := bytes];
      r := b;
    }

    /** `talloc_reference`: a handle below context that leads the list of c's references. */
    method Reference(context: Addr, c: Addr, b: Addr) returns (r: Addr)
      requires Valid() && (context != 0 ==> Plain(f, context)) && (c != 0 ==> Plain(f, c)) && b !in f
      modifies this
      ensures Valid()
      ensures r == if b == 0 then 0 else c
      ensures r == 0 ==> f == old(f) && m == old(m)
      ensures r != 0 ==> f == Targeted(Born(old(f), b, context), b, c)
    {
      if c == 0 { return 0; }
      var handle := Alloc(context, 32, b);
      if handle == 0 { return 0; }
      BornTarget(old(f), b, context, c);
      Point(b, c);
      r := c;
    }

    /** The new handle h is made to refer to c. */
    method Point(h: Addr, c: Addr)
      requires Valid() && Targetable(f, h, c)
      modifies `m, `f
      ensures Valid() && f == Targeted(old(f), h, c)
    {
      PointSound(f, h, c);
      m := AddReference(m, f, h, c);
      f := Targeted(f, h, c);
    }

    /** `talloc_steal`. */
    method StealLoc(newCtx: Addr, c: Addr) returns (r: Addr)
      requires Valid() && (newCtx != 0 ==> Plain(f, newCtx)) && (c != 0 ==> Plain(f, c))
      modifies this
      ensures r == c && Linked(m, f) && Idle(f) && size == old(size)
      ensures f == if c == 0 then old(f) else Stolen(old(f), newCtx, c)
      ensures Valid() <==> c == 0 || newCtx == 0 || newCtx == c || !Below(old(f), newCtx, c)
    {
      if c == 0 { return 0; }
      ghost var f0 := f;
      StealInternal(newCtx, c);
      StealResult(f0, newCtx, c);
      r := c;
    }

    /** The search of `talloc_unreference`. */
    method FindReference(context: Addr, c: Addr) returns (h: Addr)
      requires Linked(m, f) && c in f
      ensures h == ReferenceFrom(f, f[c].refs, context)
    {
      assert HeadAt(m.child, m.refs, m.hptr, f, c) && NodeOk(f, c) && DList(m.hnext, m.hprev, f[c].refs);
      ghost var refs := f[c].refs;
      h := m.refs[c];
      ghost var i: nat := 0;
      while h != 0
        invariant i <= |refs| && h == (if i < |refs| then refs[i] else 0)
        invariant ReferenceFrom(f, refs, context) == ReferenceFrom(f, refs[i..], context)
        decreases |refs| - i
      {
        assert refs[i] in refs && LinkAt(m.hnext, m.hprev, refs, i);
        var p := ParentChunk(h);
        if p == context { return; }
        assert refs[i..][1..] == refs[i + 1..];
        h := m.hnext[h];
        i := i + 1;
      }
    }

    /** `talloc_unreference`: drop the newest reference from context. */
    method Unreference(context: Addr, c: Addr) returns (r: int)
      requires Valid() && Plain(f, c)
      modifies `m, `f
      ensures Valid() && Unreferenced(old(f), f, context, c, r)
      ensures r != 0 ==> m == old(m)
    {
      ghost var f0 := f;
      var h := FindReference(context, c);
      if h == 0 { return -1; }
      ReferenceLeaf(f, c, h);
      r := FreeInternal(h, {});
      ReferenceDropped(f0, f, context, c, h, r);
    }

    /** `talloc_unlink`: give up one parent of c, the context itself or a reference from it. */
    method UnlinkFrom(context: Addr, c: Addr) returns (r: int)
      requires Valid() && (c != 0 ==> Plain(f, c))
      modifies `m, `f
      ensures Linked(m, f) && Idle(f) && f.Keys <= size.Keys
      ensures if c == 0 then r == -1 && f == old(f) else Unlinked(old(f), f, context, c, r)
      ensures r != 0 ==> m == old(m)
    {
      if c == 0 { return -1; }
      ghost var f0 := f;
      r := Unreference(context, c);
      if r == 0 { return 0; }
      var p := ParentChunk(c);
      if context != p { return -1; }
      r := LetGo(c);
    }

    /** c's parent gives it up: it is freed, or goes to the context of its newest reference. */
    method LetGo(c: Addr) returns (r: int)
      requires Valid() && Plain(f, c) && (f[c].refs != [] ==> ReferenceFrom(f, f[c].refs, f[c].par) == 0)
      modifies `m, `f
      ensures Linked(m, f) && Idle(f) && f.Keys <= size.Keys && r == 0
      ensures GivenUp(old(f), f, c)
    {
      ghost var f0 := f;
      assert HeadAt(m.child, m.refs, m.hptr, f, c);
      RefsNotNull(f, c);
      if m.refs[c] == 0 {
        r := FreeWhole(c);
        return;
      }
      var h := m.refs[c];
      NewestReference(f, c);
      var newParent := ParentChunk(h);
      r := Unreference(newParent, c);
      HandleDropped(f0, f, c, h, newParent, r);
      ghost var f1 := f;
      StolenIdle(f, newParent, c);
      StealInternal(newParent, c);
      HandOver(f0, f1, c, h, newParent);
    }

    /** `talloc_free`: refused, with nothing changed, for a referenced chunk, unless it is a root with one reference. */
    method Free(c: Addr) returns (r: int)
      requires Valid() && (c != 0 ==> Plain(f, c))
      modifies `m, `f
      ensures Linked(m, f) && Idle(f) && f.Keys <= size.Keys
      ensures if c == 0 then r == -1 && f == old(f) else FreeCalled(old(f), f, c, r)
      ensures r != 0 ==> m == old(m)
    {
      if c == 0 { return -1; }
      ghost var f0 := f;
      assert HeadAt(m.child, m.refs, m.hptr, f, c) && NodeOk(f, c) && DList(m.hnext, m.hprev, f[c].refs);
      RefsNotNull(f, c);
      if m.refs[c] != 0 {
        assert LinkAt(m.hnext, m.hprev, f[c].refs, 0);
        var p := ParentChunk(c);
        SecondNotNull(f, c);
        if p == 0 && m.hnext[m.refs[c]] == 0 {
          OnlyReference(f, c);
          r := UnlinkFrom(0, c);
          return;
        }
        return -1;
      }
      r := FreeWhole(c);
    }

    /** `_talloc_free_internal`, for a chunk no reference is left to. */
    method FreeWhole(c: Addr) returns (r: int)
      requires Valid() && Plain(f, c) && f[c].refs == []
      modifies `m, `f
      ensures Linked(m, f) && Idle(f) && f.Keys <= size.Keys && r == 0 && FreedByCall(old(f), f, c)
    {
      ghost var f0 := f;
      AboveIsKept(f, c);
      r := FreeInternal(c, Above(f, c));
      FreedIs(f0, f, c, r);
    }

    /** `talloc_realloc` outside pools: b is what `realloc`, or `malloc`, returns. */
    method Realloc(context: Addr, c: Addr, bytes: nat, b: Addr) returns (r: Addr)
      requires Valid() && (context != 0 ==> Plain(f, context)) && (c != 0 ==> Plain(f, c)) && (b !in f || (b == c && c != 0))
      modifies this
      ensures Linked(m, f) && Idle(f) && f.Keys <= size.Keys
      ensures bytes == 0 ==> r == 0 && size == old(size)
      ensures bytes == 0 ==> if c == 0 then f == old(f) else exists u :: Unlinked(old(f), f, context, c, u)
      ensures bytes != 0 ==> Valid()
      ensures bytes != 0 && r == 0 ==> f == old(f) && m == old(m) && size == old(size)
      ensures bytes != 0 && c != 0 ==>
                r == if bytes >= MAX_TALLOC_SIZE || old(f)[c].refs != [] then 0 else if KeepsBlock(old(size)[c], bytes) then c else b
      ensures bytes != 0 && c == 0 ==> r == (if bytes >= MAX_TALLOC_SIZE then 0 else b) && (r != 0 ==> f == Born(old(f), b, context))
      ensures r != 0 && c != 0 ==> Reallocated(old(f), f, c, b, r)
      ensures r != 0 ==> Resized(old(size), size, c, r, bytes)
    {
      if bytes == 0 {
        var u := UnlinkFrom(context, c);
        return 0;
      }
      if bytes >= MAX_TALLOC_SIZE { return 0; }
      if c == 0 {
        r := Alloc(context, bytes, b);
        return;
      }
      assert HeadAt(m.child, m.refs, m.hptr, f, c);
      RefsNotNull(f, c);
      if m.refs[c] != 0 { return 0; }
      if bytes < size[c] {
        if size[c] - bytes < 1024 {
          size := size[c := bytes];
          return c;
        }
      } else if size[c] == bytes {
        return c;
      }
      r := MoveTo(c, bytes, b);
    }

    method MoveTo(c: Addr, bytes: nat, b: Addr) returns (r: Addr)
      requires Valid() && Plain(f, c) && f[c].refs == [] && (b !in f || b == c)
      modifies this
      ensures Valid() && r == b
      ensures r == 0 ==> f == old(f) && m == old(m) && size == old(size)
      ensures r != 0 ==> Reallocated(old(f), f, c, b, r) && size == old(size)[b := bytes]
    {
      if b == 0 { return 0; }
      if b != c {
        MoveResult(m, f, c, b);
        f := Renamed(f, c, b);
      } else {
        InPlace(m, f, c);
      }
      m := TellNeighbours(m, c, b);
      size := size[b := bytes];
      r := b;
    }

    /** Any of the calls above, as a step of a run. */
    method Perform(call: TallocRuns.Call)
      requires Valid() && TallocRuns.Allowed(f, call)
      requires call.Realloc? && call.ptr in f ==> call.held == size[call.ptr]
      modifies this
      ensures Linked(m, f) && f.Keys <= size.Keys && TallocRuns.Step(old(f), call, f)
      ensures Valid() <==> TallocRuns.Harmless(old(f), call)
    {
      ghost var f0 := f;
      if call.Unlink? || call.Free? {
        PerformFree(call);
      } else if call.Realloc? {
        PerformRealloc(call);
      } else {
        PerformOther(call);
      }
      TallocRuns.StepSound(f0, call, f);
    }

    method PerformFree(call: TallocRuns.Call)
      requires Valid() && TallocRuns.Allowed(f, call) && (call.Unlink? || call.Free?)
      modifies `m, `f
      ensures Linked(m, f) && f.Keys <= size.Keys && TallocRuns.Step(old(f), call, f)
    {
      if call.Unlink? {
        var r := UnlinkFrom(call.context, call.ptr);
      } else {
        var r := Free(call.ptr);
      }
    }

    method PerformRealloc(call: TallocRuns.Call)
      requires Valid() && TallocRuns.Allowed(f, call) && call.Realloc? && (call.ptr in f ==> call.held == size[call.ptr])
      modifies this
      ensures Linked(m, f) && f.Keys <= size.Keys && TallocRuns.Step(old(f), call, f)
    {
      var r := Realloc(call.context, call.ptr, call.bytes, call.block);
    }

    method PerformOther(call: TallocRuns.Call)
      requires Valid() && TallocRuns.Allowed(f, call) && (call.Alloc? || call.Reference? || call.Steal?)
      modifies this
      ensures Linked(m, f) && f.Keys <= size.Keys && TallocRuns.Step(old(f), call, f)
    {
      match call {
        case Alloc(context, bytes, block) =>
          var r := Alloc(context, bytes, block);
        case Reference(context, c, block) =>
          if c != 0 && block != 0 { BornTarget(f, block, context, c); }
          var r := Reference(context, c, block);
        case Steal(context, c) =>
          var r := StealLoc(context, c);
      }
    }
  }

  /** The end of `talloc_reference`. */
  method AddReference(m0: Mem, ghost f: Forest, h: Addr, t: Addr) returns (m: Mem)
    requires Linked(m0, f) && Targetable(f, h, t)
    ensures Linked(m, Targeted(f, h, t))
  {
    RefsAddable(m0, f, h, t);
    var hnext, hprev, list := ListAdd(m0.hnext, m0.hprev, m0.refs[t], h, f[t].refs);
    RefsTargeted(m0, f, h, t, hnext, hprev);
    m := m0.(hnext := hnext, hprev := hprev, refs := m0.refs[t := list], hptr := m0.hptr[h := t],
             destructor := m0.destructor + {h});
  }

  /** The record, copied by `realloc`, is at b: write b into its first child, its parent if it leads the list, and its
      two siblings. */
  method TellNeighbours(m0: Mem, a: Addr, b: Addr) returns (m: Mem)
    requires Present(m0, a)
    ensures b != a ==> m == Moved(m0, a, b)
    ensures b == a && ToldAlready(m0, a) ==> m == m0
  {
    m := m0;
    if b != a {
      m := m.(next := Shifted(m.next, a, b), prev := Shifted(m.prev, a, b), parent := Shifted(m.parent, a, b),
              child := Shifted(m.child, a, b), refs := Shifted(m.refs, a, b),
              hnext := Shifted(m.hnext, a, b), hprev := Shifted(m.hprev, a, b), hptr := Shifted(m.hptr, a, b));
    }
    if m0.parent[a] != 0 { m := m.(child := m.child[m0.parent[a] := b]); }
    if m0.child[a] != 0 { m := m.(parent := m.parent[m0.child[a] := b]); }
    if m0.prev[a] != 0 { m := m.(next := m.next[m0.prev[a] := b]); }
    if m0.next[a] != 0 { m := m.(prev := m.prev[m0.next[a] := b]); }
  }

  /** `talloc_reference_destructor`: the handle leaves the list of its target. */
  method ReferenceDestructor(m0: Mem, ghost f: Forest, h: Addr) returns (m: Mem)
    requires Linked(m0, f) && h in m0.destructor && h in f && !f[h].loose
    ensures f[h].target in f && Linked(m, Untargeted(f, h)) && m.looping == m0.looping
  {
    UntargetedWf(f, h);
    assert HeadAt(m0.child, m0.refs, m0.hptr, f, h);
    var t := m0.hptr[h];
    assert NodeOk(f, h) && HeadAt(m0.child, m0.refs, m0.hptr, f, t) && DList(m0.hnext, m0.hprev, f[t].refs);
    var hnext, hprev, list := ListRemove(m0.hnext, m0.hprev, m0.refs[t], h, f[t].refs);
    RefsUntargeted(m0, f, h, hnext, hprev);
    m := m0.(hnext := hnext, hprev := hprev, refs := m0.refs[t := list], destructor := m0.destructor - {h});
  }

  /** Before the children of c are freed: its destructor has run, it is unlinked and flagged TALLOC_FLAG_LOOP. */
  method Prepare(m0: Mem, ghost f: Forest, c: Addr) returns (m: Mem)
    requires Linked(m0, f) && c in f && !f[c].loose
    ensures f[c].target != 0 ==> f[c].target in f
    ensures Linked(m, Prepared(f, c)) && c in m.looping
  {
    PreparedWf(f, c);
    DestructorIs(m0, f, c);
    m := m0;
    if c in m.destructor {
      m := ReferenceDestructor(m, f, c);
      UntargetedFacts(f, c);
      m := Unlink(m, Untargeted(f, c), c);
    } else {
      m := Unlink(m, f, c);
    }
    FlagLooping(m, Prepared(f, c), c);
    m := m.(looping := m.looping + {c});
  }

  /** `_talloc_steal_internal`: move c to the front of newCtx's children, or make it a root. */
  method Steal(m0: Mem, ghost f: Forest, newCtx: Addr, c: Addr) returns (m: Mem)
    requires Linked(m0, f) && c in f && !f[c].loose && (newCtx != 0 ==> newCtx in f && f[newCtx].target == 0)
    ensures Linked(m, Stolen(f, newCtx, c)) && m.destructor == m0.destructor && m.looping == m0.looping
  {
    assert ParentField(f, c) == m0.parent[c];
    m := m0;
    if newCtx != 0 && (c == newCtx || m.parent[c] == newCtx) {
      return;
    }
    m := Unlink(m, f, c);
    if newCtx == 0 {
      RootAttached(m, Detached(f, c), c);
      m := m.(parent := m.parent[c := 0], next := m.next[c := 0], prev := m.prev[c := 0]);
    } else {
      DetachedFacts(f, c);
      m := LinkUnder(m, Detached(f, c), c, newCtx);
    }
  }

  /** The unlinking that freeing and stealing share. */
  method Unlink(m0: Mem, ghost f: Forest, c: Addr) returns (m: Mem)
    requires Linked(m0, f) && c in f && !f[c].loose
    ensures Linked(m, Detached(f, c)) && m.destructor == m0.destructor && m.looping == m0.looping
    ensures c !in m.looping
  {
    assert ParentField(f, c) == m0.parent[c];
    if m0.parent[c] != 0 {
      m := UnlinkFirst(m0, f, c);
    } else {
      m := UnlinkOther(m0, f, c);
    }
  }

  /** `tc->parent = new_tc`, the old first child loses its parent pointer, `_TLIST_ADD`. */
  method LinkUnder(m0: Mem, ghost f: Forest, c: Addr, p: Addr) returns (m: Mem)
    requires Linked(m0, f) && c in f && f[c].loose && c !in m0.looping && c != p && p in f && f[p].target == 0
    ensures Linked(m, Attached(f, c, p))
    ensures m.destructor == m0.destructor && m.looping == m0.looping
  {
    IsAttachable(f, c, p);
    AttachedWf(f, c, p);
    RestAttached(f, c, p, m0);
    ParentFieldsAttached(f, c, p, m0.parent);
    HeadFieldsAttached(f, c, p, m0.child, m0.refs, m0.hptr);
    assert HeadAt(m0.child, m0.refs, m0.hptr, f, p) && DList(m0.next, m0.prev, f[p].kids);

    m := m0.(parent := m0.parent[c := p]);
    if m.child[p] != 0 {
      m := m.(parent := m.parent[m.child[p] := 0]);
    }
    var next, prev, list := ListAdd(m.next, m.prev, m.child[p], c, f[p].kids);
    KidListsAttached(f, c, p, m0.next, m0.prev, next, prev);
    EndsAttached(f, c, p, m0.next, m0.prev, next, prev);
    m := m.(next := next, prev := prev, child := m.child[p := list]);
  }

  /** Taking the first child out: `_TLIST_REMOVE`, and the next child inherits the parent pointer. */
  method UnlinkFirst(m0: Mem, ghost f: Forest, c: Addr) returns (m: Mem)
    requires Linked(m0, f) && c in f && !f[c].loose && c in m0.parent && m0.parent[c] != 0
    ensures Linked(m, Detached(f, c))
    ensures m.destructor == m0.destructor && m.looping == m0.looping
  {
    m := m0;
    assert ParentField(f, c) == m.parent[c];
    IsChild(f, c);
    var p := m.parent[c];
    assert HeadAt(m.child, m.refs, m.hptr, f, p) && DList(m.next, m.prev, f[p].kids);
    ghost var kids := f[p].kids;
    assert Without(kids, c) == kids[1..];
    DetachedWf(f, c);
    RestDetached(f, c, m);

    var next, prev, list := ListRemove(m.next, m.prev, m.child[p], c, kids);
    KidListsDetached(f, c, m.next, m.prev, next, prev);
    EndsDetached(f, c, m.next, m.prev, next, prev);
    ParentFieldsDetached(f, c, m.parent, if |kids| > 1 then m.parent[kids[1] := p] else m.parent);
    m := m.(next := next, prev := prev, child := m.child[p := list]);
    if m.child[p] != 0 {
      m := m.(parent := m.parent[m.child[p] := p]);
    }
    HeadFieldsDetached(f, c, m0.child, m.child, m.refs, m.hptr);
  }

  /** Taking another child, or a root, out: its neighbours close up. */
  method UnlinkOther(m0: Mem, ghost f: Forest, c: Addr) returns (m: Mem)
    requires Linked(m0, f) && c in f && !f[c].loose && c in m0.parent && m0.parent[c] == 0
    ensures Linked(m, Detached(f, c))
    ensures m.destructor == m0.destructor && m.looping == m0.looping
  {
    if f[c].par == 0 {
      UnlinkedRoot(m0, f, c);
    } else {
      assert ParentField(f, c) == m0.parent[c];
      UnlinkedMiddle(m0, f, c);
    }
    var next, prev := m0.next, m0.prev;
    if prev[c] != 0 { next := next[prev[c] := next[c]]; }
    if m0.next[c] != 0 { prev := prev[m0.next[c] := prev[c]]; }
    next, prev := next[c := 0], prev[c := 0];
    if f[c].par == 0 {
      assert next == m0.next && prev == m0.prev;
      assert m0 == m0.(next := next, prev := prev);
    }
    m := m0.(next := next, prev := prev);
  }
}
