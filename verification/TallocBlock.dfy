/** A pool as a block of bytes, updated in place: `tc_alloc_pool`, `_tc_free_poolmem`, the pool branch of
    `_talloc_realloc` and the creation of pools. Chunk headers are fields here, not bytes; the space they take is counted. */
module TallocBlock {
  import opened Basics
  import opened TallocPool

  class Pool {
    const mem: array<Byte>
    const fillEnabled: bool
    const fillValue: Byte
    var bodySize: nat
    var end: nat
    var objectCount: nat
    var flagFree: bool
    /** How often `free` has been called on the block. */
    var released: nat
    /** The `size` fields of the live members. */
    var size: map<nat, nat>

    ghost function St(): State
      reads this, mem
    {
      State(TP_HDR_SIZE + TC_HDR_SIZE + Align16(bodySize), mem.Length, end, objectCount, flagFree, released, size)
    }

    ghost predicate Valid()
      reads this, mem
    {
      Inv(St())
    }

    constructor (poolSize: nat, fillEnabled: bool, fillValue: Byte)
      ensures Valid() && fresh(mem)
      ensures var first := TP_HDR_SIZE + TC_HDR_SIZE; St() == State(first, first + poolSize, first, 1, false, 0, map[])
    {
      mem := new Byte[TP_HDR_SIZE + TC_HDR_SIZE + poolSize];
      this.fillEnabled, this.fillValue := fillEnabled, fillValue;
      bodySize, end, objectCount, flagFree, released, size := 0, TP_HDR_SIZE + TC_HDR_SIZE, 1, false, 0, map[];
    }

    /** `tc_next_chunk`. */
    function NextChunk(c: nat): nat
      requires c in size
      reads this
    {
      c + Align16(TC_HDR_SIZE + size[c])
    }

    /** `tc_pool_first_chunk`. */
    function FirstChunk(): (a: nat)
      reads this
      ensures a == TP_HDR_SIZE + TC_HDR_SIZE + Align16(bodySize)
    {
      TP_HDR_SIZE + Align16(TC_HDR_SIZE + bodySize)
    }

    /** `memset` with the fill value, when filling is on. */
    method Invalidate(lo: nat, hi: nat)
      requires lo <= hi <= mem.Length
      modifies mem
      ensures Wrote(old(mem[..]), mem[..], lo, hi)
      ensures fillEnabled ==> forall i :: lo <= i < hi ==> mem[i] == fillValue
    {
      if fillEnabled {
        for i := lo to hi
          invariant Wrote(old(mem[..]), mem[..], lo, i)
          invariant forall j :: lo <= j < i ==> mem[j] == fillValue
        {
          mem[i] := fillValue;
        }
      }
    }

    /** `memmove` towards the front, or `memcpy`. */
    method MoveBytes(to: nat, from: nat, n: nat)
      requires to + n <= mem.Length && from + n <= mem.Length && (to <= from || from + n <= to)
      modifies mem
      ensures Wrote(old(mem[..]), mem[..], to, to + n)
      ensures mem[to..to + n] == old(mem[..])[from..from + n]
    {
      ghost var was := mem[..];
      for k := 0 to n
        invariant Wrote(was, mem[..], to, to + k)
        invariant mem[to..to + k] == was[from..from + k]
      {
        assert mem[..][from + k] == was[from + k];
        mem[to + k] := mem[from + k];
        assert was[from..from + k + 1] == was[from..from + k] + [was[from + k]];
      }
    }

    /** `tc_alloc_pool`: the new member's address, or 0. */
    method TcAllocPool(n: nat) returns (r: nat)
      requires Valid() && objectCount > 0
      modifies this
      ensures Valid() && St() == AllocStep(old(St()), n)
      ensures r == if St() == old(St()) then 0 else old(end)
      ensures r != 0 ==> Intact(old(St()), mem[..], St(), mem[..], r)
    {
      ghost var s := St();
      AllocKeeps(s, n);
      var spaceLeft := mem.Length - end;
      var chunkSize := Align16(n + TC_HDR_SIZE);
      if spaceLeft < chunkSize { return 0; }
      r := end;
      end := end + chunkSize;
      objectCount := objectCount + 1;
      size := size[r := n];
      WritesInside(s, mem[..], St(), mem[..], r, s.end, s.end);
    }

    /** `_tc_free_poolmem`. */
    method TcFreePoolmem(c: nat)
      requires Valid() && c in size
      modifies this, mem
      ensures Valid() && St() == FreeStep(old(St()), c)
      ensures Intact(old(St()), old(mem[..]), St(), mem[..], c)
    {
      ghost var s, m := St(), mem[..];
      assert Fits(s, c);
      FreeKeeps(s, c);
      var nextTc := NextChunk(c);
      Invalidate(c + TC_HDR_SIZE, c + TC_HDR_SIZE + size[c]);
      size := size - {c};
      objectCount := objectCount - 1;
      ghost var m1 := mem[..];
      if objectCount == 1 && !flagFree {
        end := FirstChunk();
        Invalidate(end, mem.Length);
      } else if objectCount == 0 {
        released := released + 1;
      } else if end == nextTc {
        end := c;
      }
      FreedIntact(s, m, m1, mem[..], c);
      assert St() == FreeStep(s, c);
    }

    /** `talloc_realloc` of a member without references or limits; its context lets it go when n is 0. `heap` says
        whether `malloc` succeeds; `carried` is what has been copied into such a block. */
    method Realloc(c: nat, n: nat, heap: bool) returns (place: Place, carried: seq<Byte>)
      requires Valid() && c in size
      modifies this, mem
      ensures Valid() && ReallocCalled(old(St()), old(mem[..]), St(), mem[..], c, n, heap, place, carried)
    {
      carried := [];
      CountsMembers(St(), c);
      if n == 0 {
        TcFreePoolmem(c);
        place := Failed;
      } else if n >= MAX_TALLOC_SIZE {
        place := Failed;
      } else if n < size[c] {
        ShrinkInPlace(c, n);
        place := Inside(c);
      } else if size[c] == n {
        SameDone(St(), mem[..], c, heap);
        place := Inside(c);
      } else {
        place, carried := Grow(c, n, heap);
      }
    }

    method Grow(c: nat, n: nat, heap: bool) returns (place: Place, carried: seq<Byte>)
      requires Valid() && c in size && n > size[c]
      modifies this, mem
      ensures Valid() && ReallocDone(old(St()), old(mem[..]), St(), mem[..], c, n, heap, place, carried)
    {
      carried := [];
      assert Fits(St(), c);
      CountsMembers(St(), c);
      var nextTc := NextChunk(c);
      var oldChunkSize := Align16(TC_HDR_SIZE + size[c]);
      var newChunkSize := Align16(TC_HDR_SIZE + n);
      var chunkCount := objectCount;
      if !flagFree { chunkCount := chunkCount - 1; }
      if chunkCount == 1 && mem.Length - FirstChunk() >= newChunkSize {
        var start := MoveToFront(c, n);
        place := Inside(start);
      } else if newChunkSize == oldChunkSize
                || (chunkCount != 1 && nextTc == end && mem.Length - end >= newChunkSize - oldChunkSize) {
        GrowInPlace(c, n);
        place := Inside(c);
      } else {
        place, carried := MoveAway(c, n, heap);
      }
    }

    method ShrinkInPlace(c: nat, n: nat)
      requires Valid() && c in size && n < size[c]
      modifies this, mem
      ensures Valid() && forall heap :: ReallocDone(old(St()), old(mem[..]), St(), mem[..], c, n, heap, Inside(c), [])
    {
      ghost var s, m := St(), mem[..];
      assert Fits(s, c);
      CountsMembers(s, c);
      var nextTc := NextChunk(c);
      Invalidate(c + TC_HDR_SIZE + n, c + TC_HDR_SIZE + size[c]);
      size := size[c := n];
      if nextTc == end { end := NextChunk(c); }
      ShrinkDone(s, m, mem[..], c, n);
    }

    method GrowInPlace(c: nat, n: nat)
      requires Valid() && GrowsInPlace(St(), c, n)
      modifies this
      ensures Valid() && forall heap :: ReallocDone(old(St()), mem[..], St(), mem[..], c, n, heap, Inside(c), [])
    {
      GrowDone(St(), mem[..], c, n);
      var nextTc := NextChunk(c);
      size := size[c := n];
      if nextTc == end { end := NextChunk(c); }
    }

    /** The only member slides to the front of the pool. */
    method MoveToFront(c: nat, n: nat) returns (start: nat)
      requires Valid() && c in size && n > size[c] && MovesDown(St(), n)
      modifies this, mem
      ensures Valid() && forall heap :: ReallocDone(old(St()), old(mem[..]), St(), mem[..], c, n, heap, Inside(start), [])
    {
      ghost var s, m := St(), mem[..];
      assert Fits(s, c);
      start := FirstChunk();
      var newUsed := TC_HDR_SIZE + n;
      MoveBytes(start, c, TC_HDR_SIZE + size[c]);
      ghost var m1 := mem[..];
      size := (size - {c})[start := n];
      end := newUsed + start;
      Invalidate(end, mem.Length);
      end := Align16(TC_HDR_SIZE + n) + start;
      FrontDone(s, m, m1, mem[..], c, n);
      MoveDownKeeps(s, c, n);
      assert St() == s.(size := (s.size - {c})[s.first := n], end := s.first + Used(n));
    }

    /** The bytes go to the new member at copy, and c is freed. */
    method CopyAway(c: nat, n: nat, copy: nat, ghost heap: bool, ghost s: State)
      requires Valid() && Inv(s) && MovesAway(s, c, n) && s.limit == mem.Length && Fits(s, c) && s.count > 0
      requires St() == AllocStep(s, n) && St() != s && copy == s.end && c in size && size[c] == s.size[c]
      requires copy in size && size[copy] == n && copy + TC_HDR_SIZE + s.size[c] <= mem.Length && c < copy
      modifies this, mem
      ensures Valid() && ReallocDone(s, old(mem[..]), St(), mem[..], c, n, heap, Inside(copy), [])
    {
      ghost var m, s1 := mem[..], St();
      MoveBytes(copy, c, TC_HDR_SIZE + size[c]);
      ghost var m1 := mem[..];
      MovedPayload(s, m, s1, m1, c, copy);
      TcFreePoolmem(c);
      AwayDone(s, m, s1, m1, St(), mem[..], c, n, heap);
    }

    /** Copied to new space in the pool, or else out of the pool. */
    method MoveAway(c: nat, n: nat, heap: bool) returns (place: Place, carried: seq<Byte>)
      requires Valid() && MovesAway(St(), c, n)
      modifies this, mem
      ensures Valid() && ReallocDone(old(St()), old(mem[..]), St(), mem[..], c, n, heap, place, carried)
    {
      ghost var s, m := St(), mem[..];
      assert Fits(s, c);
      CountsMembers(s, c);
      carried := [];
      var copy := TcAllocPool(n);
      if copy != 0 {
        CopyAway(c, n, copy, heap, s);
        place := Inside(copy);
      } else if heap {
        carried := mem[c + TC_HDR_SIZE..c + TC_HDR_SIZE + size[c]];
        TcFreePoolmem(c);
        OutsideDone(s, m, St(), mem[..], c, n);
        place := Outside;
      } else {
        FailedDone(s, m, c, n);
        place := Failed;
      }
    }

    /** `_tc_free_internal` on the pool itself, when its children are gone. */
    method FreePool()
      requires Valid() && !flagFree
      modifies this
      ensures Valid() && St() == FreePoolStep(old(St()))
      ensures released == old(released) + if old(size) == map[] then 1 else 0
    {
      FreePoolKeeps(St());
      flagFree := true;
      objectCount := objectCount - 1;
      if objectCount != 0 { return; }
      released := released + 1;
    }
  }

  /** `talloc_pool`: NULL when the size is out of range or `malloc` fails. */
  method NewPool(bytes: nat, heap: bool, fill: bool, value: Byte) returns (p: Pool?)
    ensures p == null <==> bytes >= MAX_TALLOC_SIZE || !heap
    ensures p != null ==> fresh(p) && fresh(p.mem) && p.Valid() && p.bodySize == 0
    ensures p != null ==> var first := TP_HDR_SIZE + TC_HDR_SIZE; p.St() == State(first, first + bytes, first, 1, false, 0, map[])
  {
    if bytes >= MAX_TALLOC_SIZE || !heap { return null; }
    p := new Pool(bytes, fill, value);
  }

  lemma Wraps(a: nat, b: nat)
    requires a < SIZE_MODULUS && b < SIZE_MODULUS
    ensures (a + b) % SIZE_MODULUS == if a + b < SIZE_MODULUS then a + b else a + b - SIZE_MODULUS
  {
  }

  /** All sums of `talloc_pooled_object` are of type `size_t`, and checked for having wrapped. */
  method CheckedSize(typeSize: nat, subobjects: nat, total: nat) returns (ok: bool, bytes: nat)
    requires typeSize < SIZE_MODULUS && total < SIZE_MODULUS && subobjects <= UINT_MAX
    ensures ok <==> subobjects < UINT_MAX && PooledSize(typeSize, subobjects, total) < SIZE_MODULUS
    ensures ok ==> bytes == PooledSize(typeSize, subobjects, total)
  {
    Wraps(typeSize, total);
    bytes := (typeSize + total) % SIZE_MODULUS;
    if bytes < typeSize || bytes < total { return false, 0; }
    if subobjects == UINT_MAX { return false, 0; }
    Wraps((TC_HDR_SIZE + TP_HDR_SIZE + 15) * (subobjects + 1), 0);
    var slack := (TC_HDR_SIZE + TP_HDR_SIZE + 15) * (subobjects + 1) % SIZE_MODULUS;
    Wraps(bytes, slack);
    var tmp := (bytes + slack) % SIZE_MODULUS;
    if slack < subobjects + 1 || tmp < bytes || tmp < slack { return false, 0; }
    return true, tmp;
  }

  /** `talloc_pooled_object`. */
  method PooledObject(typeSize: nat, subobjects: nat, total: nat, heap: bool, fill: bool, value: Byte) returns (p: Pool?)
    requires typeSize < SIZE_MODULUS && total < SIZE_MODULUS && subobjects <= UINT_MAX
    ensures p == null <==> subobjects == UINT_MAX || PooledSize(typeSize, subobjects, total) >= MAX_TALLOC_SIZE || !heap
    ensures p != null ==> fresh(p) && fresh(p.mem) && p.Valid() && p.bodySize == typeSize
    ensures p != null ==>
              var first := TP_HDR_SIZE + TC_HDR_SIZE + Align16(typeSize);
              var limit := TP_HDR_SIZE + TC_HDR_SIZE + PooledSize(typeSize, subobjects, total);
              p.St() == State(first, limit, first, 1, false, 0, map[])
  {
    var ok, bytes := CheckedSize(typeSize, subobjects, total);
    if !ok { return null; }
    p := NewPool(bytes, heap, fill, value);
    if p == null { return; }
    p.bodySize := typeSize;
    p.end := p.end + Align16(typeSize);
  }
}
