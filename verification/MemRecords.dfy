/** src/mem/talloc.c (the branch built for Windows): the list of ownership records, updated in place. The list is a sequence
    here and a pointer to a record an index; the addresses the C library hands out are parameters. */
module MemRecords {
  import opened Basics
  import opened MemTree

  class Memory {
    /** `mem_records`. */
    var records: seq<Record>
    /** The blocks given to `free`, in order. */
    var freed: seq<Addr>

    ghost predicate Valid()
      reads this
    {
      Unique(records) && Sound(View(records))
    }

    constructor ()
      ensures Valid() && records == [] && freed == []
    {
      records, freed := [], [];
    }

    /** `mem_find_record`; -1 where the source returns NULL. */
    method FindRecord(ptr: Addr) returns (i: int)
      ensures -1 <= i < |records|
      ensures i >= 0 ==> records[i].ptr == ptr && forall j :: 0 <= j < i ==> records[j].ptr != ptr
      ensures i >= 0 <==> ptr in View(records)
    {
      i := 0;
      while i < |records|
        invariant 0 <= i <= |records|
        invariant forall j :: 0 <= j < i ==> records[j].ptr != ptr
      {
        if records[i].ptr == ptr {
          ViewIs(records, ptr);
          return;
        }
        i := i + 1;
      }
      ViewIs(records, ptr);
      i := -1;
    }

    /** `mem_track`. */
    method Track(ptr: Addr, parent: Addr)
      modifies `records
      ensures records == MemTree.Track(old(records), ptr, parent)
    {
      if ptr == 0 { return; }
      var i := FindRecord(ptr);
      if i < 0 {
        records := [Record(ptr, parent)] + records;
      } else {
        RewriteAt(records, i, ptr, Record(ptr, parent));
        records := records[i := records[i].(parent := parent)];
      }
    }

    /** `mem_untrack`. */
    method Untrack(ptr: Addr)
      requires Unique(records)
      modifies `records
      ensures records == Keep(old(records), {ptr})
    {
      var i := 0;
      while i < |records|
        invariant 0 <= i <= |records| && records == old(records)
        invariant forall j :: 0 <= j < i ==> records[j].ptr != ptr
      {
        if records[i].ptr == ptr {
          KeepOne(records, i);
          records := records[..i] + records[i + 1..];
          return;
        }
        i := i + 1;
      }
      KeepAll(records, {ptr});
    }

    /** `mem_talloc_alloc` and `mem_talloc_new_ctx`, with the address `calloc` returned. */
    method Alloc(ctx: Addr, got: Addr) returns (ptr: Addr)
      requires Valid() && got !in View(records) && (ctx == 0 || ctx in View(records))
      modifies `records
      ensures Valid() && ptr == got
      ensures View(records) == if got == 0 then old(View(records)) else old(View(records))[got := ctx]
    {
      ptr := got;
      Track(ptr, ctx);
      if got != 0 {
        TrackIs(old(records), got, ctx);
        NewLeaf(old(View(records)), got, ctx);
      }
    }

    /** `mem_talloc_steal`. */
    method Steal(newCtx: Addr, ptr: Addr) returns (r: Addr)
      requires Valid() && (newCtx == 0 || newCtx in View(records))
      modifies `records
      ensures r == ptr && Unique(records)
      ensures View(records) == if ptr == 0 then old(View(records)) else old(View(records))[ptr := newCtx]
      ensures Valid() <==> ptr == 0 || (newCtx != ptr && !old(Under(View(records), ptr, newCtx)))
    {
      Track(ptr, newCtx);
      if ptr != 0 {
        TrackIs(old(records), ptr, newCtx);
        StealSound(old(View(records)), ptr, newCtx);
      }
      r := ptr;
    }

    /** `mem_talloc_parent`. */
    method Parent(ptr: Addr) returns (parent: Addr)
      requires Valid()
      ensures parent == if ptr in View(records) then View(records)[ptr] else 0
    {
      var i := FindRecord(ptr);
      if i < 0 { return 0; }
      ViewAt(records, i);
      parent := records[i].parent;
    }

    /** `mem_talloc_realloc`, with the address `realloc` returned. */
    method Realloc(ctx: Addr, ptr: Addr, got: Addr) returns (r: Addr)
      requires Valid() && (ctx == 0 || ctx in View(records))
      requires got == ptr || got !in View(records)
      modifies `records
      ensures r == got
      ensures got == 0 ==> records == old(records)
      ensures got != 0 ==> records == MemTree.Realloc(old(records), ctx, ptr, got)
      ensures got != 0 ==> (Valid() <==> ptr != 0 && ctx != ptr && !old(Under(View(records), ptr, ctx)))
    {
      var parent := ctx;
      var i := FindRecord(ptr);
      if parent == 0 && i >= 0 {
        ViewAt(records, i);
        parent := records[i].parent;
      }
      r := got;
      if r == 0 { return; }
      ReallocUnique(records, ctx, ptr, got);
      ReallocSound(records, ctx, ptr, got);
      if i >= 0 {
        RewriteAt(records, i, ptr, Record(r, parent));
        records := records[i := Record(r, parent)];
      } else {
        Track(r, parent);
      }
      if r != ptr {
        Readdress(ptr, r);
      }
    }

    /** The loop of `mem_talloc_realloc` over the children of a block that moved. */
    method Readdress(oldAddr: Addr, newAddr: Addr)
      modifies `records
      ensures records == MemTree.Readdress(old(records), oldAddr, newAddr)
    {
      var i := 0;
      ghost var rs := records;
      while i < |records|
        invariant 0 <= i <= |records| == |rs|
        invariant forall j :: 0 <= j < i ==> records[j] == Readdressed(rs[j], oldAddr, newAddr)
        invariant forall j :: i <= j < |rs| ==> records[j] == rs[j]
      {
        if records[i].parent == oldAddr {
          records := records[i := records[i].(parent := newAddr)];
        }
        i := i + 1;
      }
      ReaddressAll(rs, oldAddr, newAddr);
    }

    /** The search of `mem_talloc_free` for a child; 0 where there is none. */
    method AnyChild(ptr: Addr) returns (child: Addr)
      requires Valid()
      ensures child != 0 ==> child in View(records) && View(records)[child] == ptr
      ensures child == 0 ==> Childless(View(records), ptr)
    {
      var i := 0;
      while i < |records|
        invariant 0 <= i <= |records|
        invariant forall j :: 0 <= j < i ==> records[j].parent != ptr
      {
        if records[i].parent == ptr {
          ViewAt(records, i);
          return records[i].ptr;
        }
        i := i + 1;
      }
      forall c | c in View(records) ensures View(records)[c] != ptr {
        ViewIs(records, c);
        var j :| 0 <= j < |records| && records[j].ptr == c;
        ViewAt(records, j);
      }
      child := 0;
    }

    /** One round of the loop of `mem_talloc_free`; false where no child is left. */
    method FreeChild(ptr: Addr, ghost rs: seq<Record>, ghost gone: set<Addr>, ghost was: seq<Addr>, ghost l: seq<Addr>)
      returns (more: bool, ghost now: set<Addr>, ghost k: seq<Addr>)
      requires Freeing(rs, ptr, gone, records, l) && freed == was + l
      modifies this
      ensures Freeing(rs, ptr, now, records, k) && freed == was + k
      ensures more ==> gone < now && now <= Below(View(rs), ptr)
      ensures !more ==> now == gone && Childless(View(records), ptr)
      decreases Below(View(rs), ptr), 0
    {
      FreeingSound(rs, ptr, gone, records, l);
      var child := AnyChild(ptr);
      more, now, k := child != 0, gone, l;
      if more {
        FreeingLess(rs, ptr, gone, records, l, child);
        ghost var s := records;
        ghost var mine := Below(View(s), child) + {child};
        ghost var j := Free(child);
        FreeingMore(rs, ptr, gone, s, l, child, j, mine);
        Join(was, l, j);
        now, k := gone + mine, l + j;
      }
    }

    /** `mem_talloc_free`: the records of the block and of everything under it go, and no other; each of these blocks is given
        to the C library once, none before what is under it. */
    method Free(ptr: Addr) returns (ghost l: seq<Addr>)
      requires Valid()
      modifies this
      ensures Valid()
      ensures freed == old(freed) + l
      ensures ptr == 0 ==> records == old(records) && l == []
      ensures ptr != 0 ==> records == Keep(old(records), old(Below(View(records), ptr)) + {ptr})
      ensures ptr != 0 ==> MemTree.Released(old(View(records)), l, old(Below(View(records), ptr)) + {ptr})
      decreases Below(View(records), ptr), 1
    {
      l := [];
      if ptr == 0 { return; }
      ghost var rs, was := records, freed;
      ghost var gone: set<Addr> := {};
      FreeStarts(rs, ptr);
      var more := true;
      while more
        invariant Freeing(rs, ptr, gone, records, l) && freed == was + l
        invariant !more ==> Childless(View(records), ptr)
        decreases Below(View(rs), ptr) - gone, more
      {
        more, gone, l := FreeChild(ptr, rs, gone, was, l);
      }
      FreeingSound(rs, ptr, gone, records, l);
      FreeEnds(rs, ptr, gone, records, l);
      Untrack(ptr);
      freed := freed + [ptr];
      l := l + [ptr];
    }

    /** `mem_talloc_module_shutdown`. */
    method Shutdown()
      modifies `records
      ensures records == []
    {
      while records != []
        decreases |records|
      {
        records := records[1..];
      }
    }
  }
}
