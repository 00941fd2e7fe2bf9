/** The pools of src/external/talloc/lib/talloc/talloc.c: one malloced block out of which members are cut. Addresses are
    offsets from the start of the block, which `malloc` aligns to 16 bytes. No pool inside a pool, no memory limits. */
module TallocPool {
  import opened Basics

  const TC_HDR_SIZE: nat := 96
  const TP_HDR_SIZE: nat := 32
  const UINT_MAX: nat := 0xFFFF_FFFF

  /** `TC_ALIGN16`. */
  function Align16(n: nat): (r: nat)
    ensures r % 16 == 0 && n <= r < n + 16
  {
    (n + 15) / 16 * 16
  }

  /** What a member of n bytes takes of the pool. */
  function Used(n: nat): (r: nat)
    ensures r % 16 == 0 && TC_HDR_SIZE + n <= r < TC_HDR_SIZE + n + 16
  {
    Align16(TC_HDR_SIZE + n)
  }

  /** `first` and `limit` bound the space for members; `freed` says that the pool itself has been freed; `released`
      counts the calls of `free` on the block. */
  datatype State = State(first: nat, limit: nat, end: nat, count: nat, freed: bool, released: nat, size: map<nat, nat>)

  // ----- what holds between calls -----

  ghost predicate Fits(s: State, a: nat) {
    a in s.size && a % 16 == 0 && s.first <= a && a + Used(s.size[a]) <= s.end
  }

  ghost predicate Apart(s: State, a: nat, b: nat) {
    a in s.size && b in s.size && (a == b || a + Used(s.size[a]) <= b || b + Used(s.size[b]) <= a)
  }

  ghost predicate Packed(s: State) {
    && (forall a {:trigger Fits(s, a)} :: a in s.size ==> Fits(s, a))
    && (forall a, b {:trigger Apart(s, a, b)} :: a in s.size && b in s.size ==> Apart(s, a, b))
  }

  ghost predicate Inv(s: State) {
    && s.first % 16 == 0 && s.end % 16 == 0 && s.first <= s.end <= s.limit
    && Packed(s)
    && s.count == |s.size| + (if s.freed then 0 else 1)
    && s.released == (if s.count == 0 then 1 else 0)
    && (s.size == map[] && !s.freed ==> s.end == s.first)
  }

  // ----- the operations -----

  function AllocStep(s: State, n: nat): State
    requires s.end <= s.limit
  {
    if s.limit - s.end < Used(n) then s
    else s.(end := s.end + Used(n), count := s.count + 1, size := s.size[s.end := n])
  }

  function FreeStep(s: State, c: nat): State
    requires c in s.size && s.count > 0
  {
    var t := s.(count := s.count - 1, size := s.size - {c});
    if t.count == 1 && !t.freed then t.(end := t.first)
    else if t.count == 0 then t.(released := t.released + 1)
    else if t.end == c + Used(s.size[c]) then t.(end := c)
    else t
  }

  /** The pool itself is freed; its members may have been stolen and live on. */
  function FreePoolStep(s: State): State
    requires s.count > 0
  {
    var t := s.(freed := true, count := s.count - 1);
    if t.count == 0 then t.(released := t.released + 1) else t
  }

  /** Where a member is after `talloc_realloc`. `Outside` is a block of its own. */
  datatype Place = Failed | Inside(at: nat) | Outside

  function ReallocStep(s: State, c: nat, n: nat, heap: bool): (State, Place)
    requires c in s.size && s.count > 0 && s.first <= s.end <= s.limit && c + Used(s.size[c]) <= s.end
  {
    var was := s.size[c];
    var next := c + Used(was);
    if n < was then (s.(size := s.size[c := n], end := if next == s.end then c + Used(n) else s.end), Inside(c))
    else if n == was then (s, Inside(c))
    else
      var only := s.count - (if s.freed then 0 else 1) == 1;
      if only && Used(n) <= s.limit - s.first then
        (s.(size := (s.size - {c})[s.first := n], end := s.first + Used(n)), Inside(s.first))
      else if Used(n) == Used(was) then (s.(size := s.size[c := n]), Inside(c))
      else if !only && next == s.end && Used(n) - Used(was) <= s.limit - s.end then
        (s.(size := s.size[c := n], end := c + Used(n)), Inside(c))
      else if Used(n) <= s.limit - s.end then (FreeStep(AllocStep(s, n), c), Inside(s.end))
      else if heap then (FreeStep(s, c), Outside)
      else (s, Failed)
  }

  // ----- the invariant is kept -----

  lemma AllocKeeps(s: State, n: nat)
    requires Inv(s) && s.count > 0
    ensures Inv(AllocStep(s, n))
    ensures s.end !in s.size && AllocStep(s, n).released == s.released
  {
    forall a | a in s.size ensures a < s.end { assert Fits(s, a); }
    if AllocStep(s, n) != s {
      AllocPacks(s, n);
    }
  }

  lemma AllocPacks(s: State, n: nat)
    requires Inv(s) && s.count > 0 && AllocStep(s, n) != s
    ensures Packed(AllocStep(s, n))
  {
    var t := AllocStep(s, n);
    forall a | a in t.size ensures Fits(t, a) { assert a != s.end ==> Fits(s, a); }
    forall a, b | a in t.size && b in t.size ensures Apart(t, a, b) {
      assert a != s.end ==> Fits(s, a);
      assert b != s.end ==> Fits(s, b);
      assert a != s.end && b != s.end ==> Apart(s, a, b);
    }
  }

  lemma LessPacked(s: State, c: nat)
    requires Packed(s) && c in s.size
    ensures Packed(s.(size := s.size - {c}))
  {
    var t := s.(size := s.size - {c});
    forall a | a in t.size ensures Fits(t, a) { assert Fits(s, a); }
    forall a, b | a in t.size && b in t.size ensures Apart(t, a, b) { assert Apart(s, a, b); }
  }

  /** Members that avoid the end of the pool stay below a smaller end. */
  lemma EndMoves(s: State, e: nat)
    requires Packed(s) && forall a :: a in s.size ==> a + Used(s.size[a]) <= e
    ensures Packed(s.(end := e))
  {
    var t := s.(end := e);
    forall a | a in t.size ensures Fits(t, a) { assert Fits(s, a); }
    forall a, b | a in t.size && b in t.size ensures Apart(t, a, b) { assert Apart(s, a, b); }
  }

  /** Nothing lies behind the last member. */
  lemma LastMember(s: State, c: nat, a: nat)
    requires Packed(s) && c in s.size && c + Used(s.size[c]) == s.end && a in s.size && a != c
    ensures a + Used(s.size[a]) <= c
  {
    assert Apart(s, a, c) && Fits(s, a);
  }

  lemma FreeKeeps(s: State, c: nat)
    requires Inv(s) && c in s.size
    ensures Inv(FreeStep(s, c))
    ensures FreeStep(s, c).released == s.released + if s.freed && |s.size| == 1 then 1 else 0
  {
    assert Fits(s, c);
    LessPacked(s, c);
    var t := s.(count := s.count - 1, size := s.size - {c});
    assert Packed(t) by { SamePacked(s.(size := s.size - {c}), t); }
    assert |t.size| == |s.size| - 1;
    if t.count == 1 && !t.freed {
      assert t.size == map[];
    } else if t.end == c + Used(s.size[c]) {
      forall a | a in t.size ensures a + Used(t.size[a]) <= c { LastMember(s, c, a); }
      EndMoves(t, c);
    }
    if t.size == map[] { assert t.count == if t.freed then 0 else 1; }
    SamePacked(FreeStep(s, c).(released := t.released), FreeStep(s, c));
  }

  lemma SamePacked(s: State, t: State)
    requires Packed(s) && t.size == s.size && t.first == s.first && t.end == s.end
    ensures Packed(t)
  {
    forall a | a in t.size ensures Fits(t, a) { assert Fits(s, a); }
    forall a, b | a in t.size && b in t.size ensures Apart(t, a, b) { assert Apart(s, a, b); }
  }

  lemma FreePoolKeeps(s: State)
    requires Inv(s) && !s.freed
    ensures Inv(FreePoolStep(s))
    ensures FreePoolStep(s).released == s.released + if s.size == map[] then 1 else 0
  {
    SamePacked(s, FreePoolStep(s));
    if s.size == map[] { assert |s.size| == 0; } else { assert |s.size| != 0; }
  }

  /** Changing the size of c in place, when what it now takes avoids all other members. */
  lemma ResizeKeeps(s: State, c: nat, n: nat, e: nat)
    requires Packed(s) && c in s.size && c + Used(n) <= e
    requires Used(n) <= Used(s.size[c]) || c + Used(s.size[c]) == s.end
    requires e == s.end || c + Used(s.size[c]) == s.end
    ensures Packed(s.(size := s.size[c := n], end := e))
  {
    var t := s.(size := s.size[c := n], end := e);
    assert Fits(s, c);
    forall a | a in t.size ensures Fits(t, a) {
      assert Fits(s, a);
      if a != c && c + Used(s.size[c]) == s.end { LastMember(s, c, a); }
    }
    forall a, b | a in t.size && b in t.size ensures Apart(t, a, b) {
      assert Apart(s, a, b);
      if c + Used(s.size[c]) == s.end {
        if a != c { LastMember(s, c, a); }
        if b != c { LastMember(s, c, b); }
      }
    }
  }

  /** A pool with one member. */
  lemma OnlyMember(s: State, c: nat)
    requires c in s.size && |s.size| == 1
    ensures s.size.Keys == {c}
  {
    assert |s.size.Keys - {c}| == 0;
  }

  lemma MoveDownKeeps(s: State, c: nat, n: nat)
    requires Inv(s) && c in s.size && |s.size| == 1 && Used(n) <= s.limit - s.first
    ensures Inv(s.(size := (s.size - {c})[s.first := n], end := s.first + Used(n)))
    ensures (s.size - {c})[s.first := n].Keys == {s.first}
  {
    OnlyMember(s, c);
    var t := s.(size := (s.size - {c})[s.first := n], end := s.first + Used(n));
    assert t.size == map[s.first := n];
    forall a | a in t.size ensures Fits(t, a) {}
    forall a, b | a in t.size && b in t.size ensures Apart(t, a, b) {}
  }

  lemma ReallocAllocated(s: State, c: nat, n: nat)
    requires Inv(s) && c in s.size && Used(n) <= s.limit - s.end
    ensures Inv(FreeStep(AllocStep(s, n), c)) && FreeStep(AllocStep(s, n), c).released == s.released
  {
    AllocKeeps(s, n);
    FreeKeeps(AllocStep(s, n), c);
    assert AllocStep(s, n).size[s.end := n] == s.size[s.end := n];
  }

  lemma ResizedInv(s: State, c: nat, n: nat, e: nat)
    requires Inv(s) && c in s.size && Packed(s.(size := s.size[c := n], end := e)) && e <= s.limit
    requires e == s.end || e == c + Used(n)
    ensures Inv(s.(size := s.size[c := n], end := e))
  {
    assert s.size[c := n].Keys == s.size.Keys;
    assert Fits(s, c);
  }

  lemma ShrinkKeeps(s: State, c: nat, n: nat, e: nat)
    requires Inv(s) && c in s.size && n < s.size[c]
    requires e == if c + Used(s.size[c]) == s.end then c + Used(n) else s.end
    ensures Inv(s.(size := s.size[c := n], end := e))
  {
    assert Fits(s, c);
    ResizeKeeps(s, c, n, e);
    ResizedInv(s, c, n, e);
  }

  lemma GrowKeeps(s: State, c: nat, n: nat)
    requires Inv(s) && c in s.size
    requires Used(n) == Used(s.size[c]) || (c + Used(s.size[c]) == s.end && c + Used(n) <= s.limit)
    ensures Inv(s.(size := s.size[c := n], end := if Used(n) == Used(s.size[c]) then s.end else c + Used(n)))
  {
    assert Fits(s, c);
    var e := if Used(n) == Used(s.size[c]) then s.end else c + Used(n);
    ResizeKeeps(s, c, n, e);
    ResizedInv(s, c, n, e);
  }

  lemma ReallocKeeps(s: State, c: nat, n: nat, heap: bool)
    requires Inv(s) && c in s.size
    ensures c + Used(s.size[c]) <= s.end && s.count > 0
    ensures Inv(ReallocStep(s, c, n, heap).0)
  {
    assert Fits(s, c);
    CountsMembers(s, c);
    var was := s.size[c];
    var only := s.count - (if s.freed then 0 else 1) == 1;
    if n < was {
      ShrinkKeeps(s, c, n, if c + Used(was) == s.end then c + Used(n) else s.end);
    } else if n == was {
    } else if only && Used(n) <= s.limit - s.first {
      MoveDownKeeps(s, c, n);
    } else if Used(n) == Used(was) {
      GrowKeeps(s, c, n);
      assert s.(size := s.size[c := n], end := s.end) == s.(size := s.size[c := n]);
    } else if !only && c + Used(was) == s.end && Used(n) - Used(was) <= s.limit - s.end {
      GrowKeeps(s, c, n);
    } else if Used(n) <= s.limit - s.end {
      ReallocAllocated(s, c, n);
    } else if heap {
      FreeKeeps(s, c);
    }
  }

  lemma CountsMembers(s: State, c: nat)
    requires Inv(s) && c in s.size
    ensures s.count > 0 && |s.size| > 0
  {
  }

  // ----- over whole runs -----

  datatype Op = Alloc(n: nat) | Free(c: nat) | Realloc(c: nat, n: nat, heap: bool) | FreePool

  /** Calls that a caller may make: on a live member, on a pool not freed yet, below a live context of the pool. */
  predicate Allowed(s: State, op: Op) {
    match op
    case Alloc(n) => s.count > 0
    case Free(c) => c in s.size
    case Realloc(c, n, heap) => c in s.size
    case FreePool => !s.freed
  }

  ghost function Step(s: State, op: Op): State
    requires Inv(s) && Allowed(s, op)
  {
    match op
    case Alloc(n) => AllocStep(s, n)
    case Free(c) => CountsMembers(s, c); FreeStep(s, c)
    case Realloc(c, n, heap) => ReallocKeeps(s, c, n, heap); ReallocStep(s, c, n, heap).0
    case FreePool => FreePoolStep(s)
  }

  lemma StepKeeps(s: State, op: Op)
    requires Inv(s) && Allowed(s, op)
    ensures Inv(Step(s, op))
    ensures Step(s, op).released >= s.released && s.released == 0
  {
    assert s.count > 0 by { if op.Free? || op.Realloc? { CountsMembers(s, op.c); } }
    match op
    case Alloc(n) => AllocKeeps(s, n);
    case Free(c) => FreeKeeps(s, c);
    case Realloc(c, n, heap) =>
      CountsMembers(s, c);
      ReallocKeeps(s, c, n, heap);
    case FreePool => FreePoolKeeps(s);
  }

  /** s leads to t by allowed calls. */
  ghost predicate Reaches(s: State, ops: seq<Op>, t: State)
    decreases |ops|
  {
    if ops == [] then s == t
    else Inv(s) && Allowed(s, ops[0]) && Reaches(Step(s, ops[0]), ops[1..], t)
  }

  /** After every run members lie apart inside the pool, `object_count` counts them and the pool, and the block has
      been released exactly once if nothing is left, and not at all otherwise; then no further call is allowed. */
  lemma {:induction false} RunsKeep(s: State, ops: seq<Op>, t: State)
    requires Inv(s) && Reaches(s, ops, t)
    ensures Inv(t)
    ensures t.released == (if t.freed && t.size == map[] then 1 else 0)
    ensures t.released == 1 ==> forall op :: !Allowed(t, op)
    decreases |ops|
  {
    if ops != [] {
      StepKeeps(s, ops[0]);
      RunsKeep(Step(s, ops[0]), ops[1..], t);
    } else if t.size != map[] {
      var a :| a in t.size;
      assert |t.size.Keys - {a}| == |t.size| - 1;
    }
    if t.released == 1 { assert |t.size| == 0; }
  }

  /** Freeing what was allocated last gives the space back. */
  lemma FreeUndoesAlloc(s: State, n: nat)
    requires Inv(s) && s.count > 0 && Used(n) <= s.limit - s.end
    ensures s.end in AllocStep(s, n).size && FreeStep(AllocStep(s, n), s.end) == s
  {
    AllocKeeps(s, n);
    assert AllocStep(s, n).size - {s.end} == s.size;
    if s.count == 1 && !s.freed { assert |s.size| == 0; }
  }

  /** Making the member allocated last smaller leaves the pool as if no more had been asked for. */
  lemma ShrinkIsSmallerAlloc(s: State, was: nat, n: nat, heap: bool)
    requires Inv(s) && s.count > 0 && Used(was) <= s.limit - s.end && n < was
    ensures var t := AllocStep(s, was);
      && s.end in t.size && t.first <= t.end <= t.limit && s.end + Used(t.size[s.end]) <= t.end
      && ReallocStep(t, s.end, n, heap) == (AllocStep(s, n), Inside(s.end))
  {
    UsedGrows(n, was);
    var t := AllocStep(s, was);
    assert t.size[s.end := n] == AllocStep(s, n).size;
  }

  lemma UsedGrows(n: nat, m: nat)
    requires n <= m
    ensures Used(n) <= Used(m)
  {
  }

  /** So does growing it in place and making it small again. */
  lemma ShrinkUndoesGrow(s: State, c: nat, n: nat, heap: bool)
    requires Inv(s) && c in s.size && c + Used(s.size[c]) == s.end && s.size[c] < n
    requires s.count > 0 && ReallocStep(s, c, n, heap).1 == Inside(c)
    ensures var t := ReallocStep(s, c, n, heap).0;
      && c in t.size && t.count > 0 && t.first <= t.end <= t.limit && c + Used(t.size[c]) <= t.end
      && ReallocStep(t, c, s.size[c], heap) == (s, Inside(c))
  {
    assert Fits(s, c);
    var t := ReallocStep(s, c, n, heap).0;
    GrownInPlace(s, c, n, heap);
    assert t.size[c := s.size[c]] == s.size;
  }

  lemma GrownInPlace(s: State, c: nat, n: nat, heap: bool)
    requires Inv(s) && c in s.size && c + Used(s.size[c]) == s.end && s.size[c] < n
    requires s.count > 0 && ReallocStep(s, c, n, heap).1 == Inside(c)
    ensures ReallocStep(s, c, n, heap).0 == s.(size := s.size[c := n], end := c + Used(n)) && c + Used(n) <= s.limit
  {
    assert Fits(s, c);
    UsedGrows(s.size[c], n);
    assert (s.size - {c})[c := n] == s.size[c := n];
  }

  /** n bytes would fit at `at`, c and what is free being given up for them. */
  predicate RoomAt(s: State, c: nat, at: nat, n: nat)
    requires c in s.size
  {
    at + Used(n) <= s.limit
    && (at == s.end || (at == c && c + Used(s.size[c]) == s.end) || (at == s.first && s.size.Keys == {c}))
  }

  lemma RoomIsUsed(s: State, c: nat, n: nat, heap: bool, at: nat)
    requires Inv(s) && c in s.size && s.count > 0 && RoomAt(s, c, at, n)
    ensures c + Used(s.size[c]) <= s.end && ReallocStep(s, c, n, heap).1.Inside?
  {
    assert Fits(s, c);
    SoleMember(s, c);
  }

  /** Where a member that grows gets to: out of the pool exactly if it takes more space than it has and there is no room for
      it, whether behind the members, in its place if it is the last, or at the front if it is the only one; and then it
      fails exactly if there is no block to be had. Inside, its new place is one of those or its own. */
  lemma ReallocPlaces(s: State, c: nat, n: nat, heap: bool)
    requires Inv(s) && c in s.size && s.count > 0
    ensures c + Used(s.size[c]) <= s.end
    ensures var (t, p) := ReallocStep(s, c, n, heap);
      && (p.Inside? <==> Used(n) <= Used(s.size[c]) || exists at: nat {:trigger RoomAt(s, c, at, n)} :: RoomAt(s, c, at, n))
      && (p.Failed? ==> !heap && t == s) && (p.Outside? ==> heap)
      && (p.Inside? ==> p.at == c || RoomAt(s, c, p.at, n))
      && (n <= s.size[c] ==> p == Inside(c))
  {
    assert Fits(s, c);
    var p := ReallocStep(s, c, n, heap).1;
    if Used(n) <= Used(s.size[c]) {
      StaysInside(s, c, n, heap);
    } else if p.Inside? {
      SoleMember(s, c);
      UsedApart(n, s.size[c]);
      assert RoomAt(s, c, p.at, n);
    }
    forall at: nat | RoomAt(s, c, at, n) ensures p.Inside? { RoomIsUsed(s, c, n, heap, at); }
  }

  lemma UsedApart(n: nat, m: nat)
    requires Used(n) > Used(m)
    ensures n > m
  {
    if n <= m { UsedGrows(n, m); }
  }

  lemma StaysInside(s: State, c: nat, n: nat, heap: bool)
    requires Inv(s) && c in s.size && s.count > 0 && Used(n) <= Used(s.size[c])
    ensures c + Used(s.size[c]) <= s.end
    ensures var p := ReallocStep(s, c, n, heap).1;
      p.Inside? && (p.at == c || RoomAt(s, c, p.at, n)) && (n <= s.size[c] ==> p.at == c)
  {
    assert Fits(s, c);
    SoleMember(s, c);
    if n > s.size[c] { UsedGrows(s.size[c], n); }
  }

  lemma SoleMember(s: State, c: nat)
    requires Inv(s) && c in s.size
    ensures s.count - (if s.freed then 0 else 1) == 1 <==> s.size.Keys == {c}
  {
    assert |s.size| == |s.size.Keys|;
    if |s.size.Keys| == 1 { OneKey(s.size.Keys, c); }
  }

  lemma OneKey(keys: set<nat>, c: nat)
    requires c in keys && |keys| == 1
    ensures keys == {c}
  {
    assert |keys - {c}| == 0;
  }

  // ----- the counter cannot wrap -----

  ghost predicate Spaced(at: set<nat>, lo: nat, hi: nat) {
    && (forall a :: a in at ==> lo <= a && a + TC_HDR_SIZE <= hi)
    && (forall a, b :: a in at && b in at && a < b ==> a + TC_HDR_SIZE <= b)
  }

  lemma {:induction false} Highest(at: set<nat>) returns (m: nat)
    requires at != {}
    ensures m in at && forall a :: a in at ==> a <= m
    decreases |at|
  {
    var x :| x in at;
    var rest := at - {x};
    assert |rest| == |at| - 1;
    m := x;
    if rest != {} {
      var r := Highest(rest);
      if r > m { m := r; }
    }
    forall a | a in at ensures a <= m {
      if a != x { assert a in rest; }
    }
  }

  lemma {:induction false} SpacedCount(at: set<nat>, lo: nat, hi: nat)
    requires Spaced(at, lo, hi) && lo <= hi
    ensures TC_HDR_SIZE * |at| <= hi - lo
    decreases |at|
  {
    if at != {} {
      var m := Highest(at);
      var rest := at - {m};
      assert |rest| == |at| - 1;
      SpacedCount(rest, lo, m);
    }
  }

  /** Every member takes a header at least, so a pool below `MAX_TALLOC_SIZE` bytes never overflows `object_count`. */
  lemma CountFits(s: State)
    requires Inv(s) && s.limit - s.first < MAX_TALLOC_SIZE
    ensures TC_HDR_SIZE * |s.size| <= s.end - s.first && s.count < UINT_MAX
  {
    forall a | a in s.size.Keys ensures s.first <= a && a + TC_HDR_SIZE <= s.end { assert Fits(s, a); }
    forall a, b | a in s.size.Keys && b in s.size.Keys && a < b ensures a + TC_HDR_SIZE <= b { assert Apart(s, a, b); }
    SpacedCount(s.size.Keys, s.first, s.end);
  }

  // ----- pools sized for an object and its subobjects -----

  function Sum(sizes: seq<nat>): nat {
    if sizes == [] then 0 else sizes[0] + Sum(sizes[1..])
  }

  function AllocAll(s: State, sizes: seq<nat>): State
    requires s.end <= s.limit
    decreases |sizes|
  {
    if sizes == [] then s else AllocAll(AllocStep(s, sizes[0]), sizes[1..])
  }

  /** The size `_talloc_pooled_object` asks for. */
  function PooledSize(typeSize: nat, subobjects: nat, total: nat): nat {
    typeSize + total + (TC_HDR_SIZE + TP_HDR_SIZE + 15) * (subobjects + 1)
  }

  /** With what is left at least the total plus 111 bytes an object, no allocation is refused. */
  lemma {:induction false} RoomForAll(s: State, sizes: seq<nat>)
    requires Inv(s) && s.count > 0 && Sum(sizes) + (TC_HDR_SIZE + 15) * |sizes| <= s.limit - s.end
    ensures |AllocAll(s, sizes).size| == |s.size| + |sizes|
    decreases |sizes|
  {
    if sizes != [] {
      var n := sizes[0];
      assert Used(n) <= n + TC_HDR_SIZE + 15;
      AllocKeeps(s, n);
      assert |AllocStep(s, n).size| == |s.size| + 1;
      RoomForAll(AllocStep(s, n), sizes[1..]);
    }
  }

  lemma EmptyInv(first: nat, limit: nat)
    requires first <= limit && first % 16 == 0
    ensures Inv(State(first, limit, first, 1, false, 0, map[]))
  {
  }

  lemma PooledRoom(typeSize: nat, subobjects: nat, total: nat, n: nat, sum: nat)
    requires n <= subobjects && sum <= total
    ensures Align16(typeSize) + sum + (TC_HDR_SIZE + 15) * n <= PooledSize(typeSize, subobjects, total)
  {
    assert (TC_HDR_SIZE + 15) * n <= (TC_HDR_SIZE + 15) * subobjects;
  }

  /** A pooled object has room for the subobjects it was created for, whatever their sizes. */
  lemma PooledObjectSuffices(typeSize: nat, subobjects: nat, total: nat, sizes: seq<nat>)
    requires |sizes| <= subobjects && Sum(sizes) <= total
    ensures var first := TP_HDR_SIZE + TC_HDR_SIZE + Align16(typeSize);
            var limit := TP_HDR_SIZE + TC_HDR_SIZE + PooledSize(typeSize, subobjects, total);
            first <= limit && |AllocAll(State(first, limit, first, 1, false, 0, map[]), sizes).size| == |sizes|
  {
    var first := TP_HDR_SIZE + TC_HDR_SIZE + Align16(typeSize);
    var limit := TP_HDR_SIZE + TC_HDR_SIZE + PooledSize(typeSize, subobjects, total);
    PooledRoom(typeSize, subobjects, total, |sizes|, Sum(sizes));
    EmptyInv(first, limit);
    RoomForAll(State(first, limit, first, 1, false, 0, map[]), sizes);
  }

  // ----- bytes -----

  /** The bytes that belong to the holder of member a. */
  ghost function Payload(m: seq<Byte>, s: State, a: nat): seq<Byte>
    requires a in s.size && a + TC_HDR_SIZE + s.size[a] <= |m|
  {
    m[a + TC_HDR_SIZE..a + TC_HDR_SIZE + s.size[a]]
  }

  ghost predicate KeptMember(s0: State, m0: seq<Byte>, s: State, m: seq<Byte>, a: nat) {
    && a in s0.size && a in s.size && s.size[a] == s0.size[a] && a + TC_HDR_SIZE + s.size[a] <= |m0| == |m|
    && Payload(m, s, a) == Payload(m0, s0, a)
  }

  /** No byte of the pool's own body, nor of a member other than c, has changed. */
  ghost predicate Intact(s0: State, m0: seq<Byte>, s: State, m: seq<Byte>, c: nat) {
    && |m0| == |m| && s.first == s0.first <= |m| && m[..s0.first] == m0[..s0.first]
    && forall a {:trigger KeptMember(s0, m0, s, m, a)} :: a in s0.size && a != c ==> KeptMember(s0, m0, s, m, a)
  }

  /** m differs from m0 at most between lo and hi. */
  ghost predicate Wrote(m0: seq<Byte>, m: seq<Byte>, lo: nat, hi: nat) {
    |m| == |m0| && forall i :: 0 <= i < |m| && !(lo <= i < hi) ==> m[i] == m0[i]
  }

  lemma PayloadKept(s0: State, m0: seq<Byte>, s: State, m: seq<Byte>, a: nat, lo: nat, hi: nat)
    requires Wrote(m0, m, lo, hi) && a in s0.size && a in s.size && s.size[a] == s0.size[a]
    requires a + TC_HDR_SIZE + s.size[a] <= |m0|
    requires a + TC_HDR_SIZE + s.size[a] <= lo || hi <= a + TC_HDR_SIZE
    ensures KeptMember(s0, m0, s, m, a)
  {
  }

  /** Writing inside c, or behind the end, leaves every other member alone. */
  lemma WritesInside(s0: State, m0: seq<Byte>, s: State, m: seq<Byte>, c: nat, lo: nat, hi: nat)
    requires Packed(s0) && s0.first <= s0.end <= s0.limit == |m0| && Wrote(m0, m, lo, hi) && s.first == s0.first <= lo
    requires (c in s0.size && c <= lo && hi <= c + Used(s0.size[c])) || s0.end <= lo || s0.size.Keys <= {c}
    requires forall a :: a in s0.size && a != c ==> a in s.size && s.size[a] == s0.size[a]
    ensures Intact(s0, m0, s, m, c)
  {
    forall a | a in s0.size && a != c ensures KeptMember(s0, m0, s, m, a) {
      assert Fits(s0, a);
      if c in s0.size { assert Apart(s0, a, c) && Fits(s0, c); }
      PayloadKept(s0, m0, s, m, a, lo, hi);
    }
  }

  lemma LastFreed(s0: State, m0: seq<Byte>, s: State, m: seq<Byte>, c: nat)
    requires Packed(s0) && s0.first <= s0.end <= s0.limit == |m0| && Wrote(m0, m, s0.first, |m0|) && s.first == s0.first
    requires c in s0.size && s.size == s0.size - {c} && |s.size| == 0
    ensures Intact(s0, m0, s, m, c)
  {
    assert s0.size.Keys <= {c};
    WritesInside(s0, m0, s, m, c, s0.first, |m0|);
  }

  /** The writes of a free: the payload of c, and everything once c was the only member. */
  lemma FreedIntact(s: State, m0: seq<Byte>, m1: seq<Byte>, m: seq<Byte>, c: nat)
    requires Inv(s) && c in s.size && s.limit == |m0| && Fits(s, c) && s.count > 0
    requires Wrote(m0, m1, c + TC_HDR_SIZE, c + TC_HDR_SIZE + s.size[c])
    requires if s.count == 2 && !s.freed then Wrote(m1, m, s.first, |m1|) else m == m1
    ensures Intact(s, m0, FreeStep(s, c), m, c)
  {
    if s.count == 2 && !s.freed {
      assert |(s.size - {c}).Keys| == 0 by { assert |s.size.Keys - {c}| == 0 && (s.size - {c}).Keys == s.size.Keys - {c}; }
      LastFreed(s, m0, FreeStep(s, c), m, c);
    } else {
      WritesInside(s, m0, FreeStep(s, c), m, c, c + TC_HDR_SIZE, c + TC_HDR_SIZE + s.size[c]);
    }
  }

  lemma IntactJoin(s0: State, m0: seq<Byte>, s1: State, m1: seq<Byte>, s2: State, m2: seq<Byte>, c: nat)
    requires Intact(s0, m0, s1, m1, c) && Intact(s1, m1, s2, m2, c)
    ensures Intact(s0, m0, s2, m2, c)
  {
    forall a | a in s0.size && a != c ensures KeptMember(s0, m0, s2, m2, a) {
      assert KeptMember(s0, m0, s1, m1, a) && KeptMember(s1, m1, s2, m2, a);
    }
  }

  // ----- what realloc does to bytes -----

  /** One member in all, the pool aside. */
  ghost predicate Alone(s: State) {
    s.count - (if s.freed then 0 else 1) == 1
  }

  ghost predicate MovesDown(s: State, n: nat) {
    Alone(s) && s.first <= s.limit && Used(n) <= s.limit - s.first
  }

  function Min(a: nat, b: nat): nat {
    if a < b then a else b
  }

  /** Where the member went, and that its bytes went with it and no others were touched. */
  ghost predicate ReallocDone(s0: State, m0: seq<Byte>, s: State, m: seq<Byte>, c: nat, n: nat, heap: bool, place: Place, carried: seq<Byte>) {
    && Inv(s0) && c in s0.size && s0.limit == |m0| && s.limit == |m| && Fits(s0, c) && s0.count > 0
    && (s, place) == ReallocStep(s0, c, n, heap)
    && Intact(s0, m0, s, m, c)
    && match place
       case Failed => m == m0
       case Outside => carried == Payload(m0, s0, c)
       case Inside(at) =>
         && at in s.size && s.size[at] == n && at + TC_HDR_SIZE + n <= |m|
         && Payload(m, s, at)[..Min(s0.size[c], n)] == Payload(m0, s0, c)[..Min(s0.size[c], n)]
  }

  /** The whole of `talloc_realloc`: n of 0 frees, too large an n is refused. */
  ghost predicate ReallocCalled(s0: State, m0: seq<Byte>, s: State, m: seq<Byte>, c: nat, n: nat, heap: bool, place: Place, carried: seq<Byte>) {
    && c in s0.size && s0.count > 0
    && if n == 0 then place == Failed && s == FreeStep(s0, c) && Intact(s0, m0, s, m, c)
       else if n >= MAX_TALLOC_SIZE then place == Failed && s == s0 && m == m0
       else ReallocDone(s0, m0, s, m, c, n, heap, place, carried)
  }

  lemma MovedPayload(s: State, m: seq<Byte>, s1: State, m1: seq<Byte>, c: nat, e: nat)
    requires Inv(s) && c in s.size && |m| == s.limit == |m1| && e == s.end && Fits(s, c)
    requires e in s1.size && s1.size[e] > s.size[c] && s1 == AllocStep(s, s1.size[e]) && Inv(s1) && s1 != s
    requires Wrote(m, m1, e, e + TC_HDR_SIZE + s.size[c])
    requires e + TC_HDR_SIZE + s.size[c] <= |m|
    requires m1[e..e + TC_HDR_SIZE + s.size[c]] == m[c..c + TC_HDR_SIZE + s.size[c]]
    ensures Intact(s, m, s1, m1, c) && e != c && Fits(s1, e) && c in s1.size && s1.size[c] == s.size[c]
    ensures Payload(m1, s1, e)[..s.size[c]] == Payload(m, s, c)
  {
    var w := s.size[c];
    AllocKeeps(s, s1.size[e]);
    assert Fits(s1, e);
    WritesInside(s, m, s1, m1, c, e, e + TC_HDR_SIZE + w);
    assert m1[e + TC_HDR_SIZE..e + TC_HDR_SIZE + w] == m1[e..e + TC_HDR_SIZE + w][TC_HDR_SIZE..];
    assert m[c + TC_HDR_SIZE..c + TC_HDR_SIZE + w] == m[c..c + TC_HDR_SIZE + w][TC_HDR_SIZE..];
    assert Payload(m1, s1, e)[..w] == m1[e + TC_HDR_SIZE..e + TC_HDR_SIZE + w];
  }

  lemma CopiedIntact(s: State, m: seq<Byte>, s1: State, m1: seq<Byte>, s2: State, m2: seq<Byte>, c: nat, e: nat)
    requires Intact(s, m, s1, m1, c) && Intact(s1, m1, s2, m2, c)
    requires e != c && e in s1.size && e + TC_HDR_SIZE + s1.size[e] <= |m1|
    ensures Intact(s, m, s2, m2, c)
    ensures e in s2.size && s2.size[e] == s1.size[e] && |m2| == |m1| && Payload(m2, s2, e) == Payload(m1, s1, e)
  {
    IntactJoin(s, m, s1, m1, s2, m2, c);
    assert KeptMember(s1, m1, s2, m2, e);
  }

  lemma FrontPayload(m0: seq<Byte>, m1: seq<Byte>, m: seq<Byte>, c: nat, e: nat, w: nat, n: nat)
    requires |m0| == |m1| == |m| && w <= n && e + TC_HDR_SIZE + n <= |m0| && c + TC_HDR_SIZE + w <= |m0|
    requires m1[e..e + TC_HDR_SIZE + w] == m0[c..c + TC_HDR_SIZE + w]
    requires Wrote(m1, m, e + TC_HDR_SIZE + n, |m1|)
    ensures m[e + TC_HDR_SIZE..e + TC_HDR_SIZE + n][..w] == m0[c + TC_HDR_SIZE..c + TC_HDR_SIZE + w]
  {
    var h := TC_HDR_SIZE;
    assert m1[e + h..e + h + w] == m1[e..e + h + w][h..];
    assert m0[c + h..c + h + w] == m0[c..c + h + w][h..];
    assert m[e + h..e + h + w] == m1[e + h..e + h + w];
    assert m[e + h..e + h + n][..w] == m[e + h..e + h + w];
  }

  /** The only member copied to the front of the pool, and the rest of the pool filled. */
  lemma FrontDone(s: State, m0: seq<Byte>, m1: seq<Byte>, m: seq<Byte>, c: nat, n: nat)
    requires Inv(s) && c in s.size && n > s.size[c] && MovesDown(s, n) && s.limit == |m0| && Fits(s, c)
    requires s.first + TC_HDR_SIZE + n <= |m0|
    requires Wrote(m0, m1, s.first, s.first + TC_HDR_SIZE + s.size[c])
    requires m1[s.first..s.first + TC_HDR_SIZE + s.size[c]] == m0[c..c + TC_HDR_SIZE + s.size[c]]
    requires Wrote(m1, m, s.first + TC_HDR_SIZE + n, |m1|)
    ensures var t := s.(size := (s.size - {c})[s.first := n], end := s.first + Used(n));
            forall heap :: ReallocDone(s, m0, t, m, c, n, heap, Inside(s.first), [])
  {
    var t := s.(size := (s.size - {c})[s.first := n], end := s.first + Used(n));
    CountsMembers(s, c);
    SoleMember(s, c);
    WritesInside(s, m0, t, m, c, s.first, |m|);
    FrontPayload(m0, m1, m, c, s.first, s.size[c], n);
    assert Payload(m0, s, c)[..s.size[c]] == Payload(m0, s, c);
  }

  lemma ShrinkDone(s: State, m0: seq<Byte>, m: seq<Byte>, c: nat, n: nat)
    requires Inv(s) && c in s.size && n < s.size[c] && s.limit == |m0| && Fits(s, c) && s.count > 0
    requires Wrote(m0, m, c + TC_HDR_SIZE + n, c + TC_HDR_SIZE + s.size[c])
    ensures var t := ReallocStep(s, c, n, false).0; Inv(t) && forall heap :: ReallocDone(s, m0, t, m, c, n, heap, Inside(c), [])
  {
    var t := ReallocStep(s, c, n, false).0;
    ShrinkKeeps(s, c, n, t.end);
    WritesInside(s, m0, t, m, c, c + TC_HDR_SIZE + n, c + TC_HDR_SIZE + s.size[c]);
    assert Payload(m, t, c)[..n] == Payload(m0, s, c)[..n];
  }

  /** The chunk keeps its place: its padding suffices, or it is the last of several and there is room behind it. */
  ghost predicate GrowsInPlace(s: State, c: nat, n: nat) {
    && c in s.size && s.end <= s.limit && n > s.size[c] && !MovesDown(s, n)
    && (Used(n) == Used(s.size[c]) || (!Alone(s) && c + Used(s.size[c]) == s.end && Used(n) - Used(s.size[c]) <= s.limit - s.end))
  }

  lemma PayloadStart(s: State, m: seq<Byte>, c: nat, n: nat)
    requires c in s.size && c + TC_HDR_SIZE + s.size[c] <= |m| && n <= s.size[c]
    ensures Payload(m, s, c)[..n] == m[c + TC_HDR_SIZE..c + TC_HDR_SIZE + n]
  {
  }

  lemma GrowDone(s: State, m: seq<Byte>, c: nat, n: nat)
    requires Inv(s) && GrowsInPlace(s, c, n) && s.limit == |m|
    ensures var t := s.(size := s.size[c := n], end := if c + Used(s.size[c]) == s.end then c + Used(n) else s.end);
            Inv(t) && forall heap :: ReallocDone(s, m, t, m, c, n, heap, Inside(c), [])
  {
    var t := s.(size := s.size[c := n], end := if c + Used(s.size[c]) == s.end then c + Used(n) else s.end);
    assert Fits(s, c);
    CountsMembers(s, c);
    GrowKeeps(s, c, n);
    WritesInside(s, m, t, m, c, c, c);
    PayloadStart(s, m, c, s.size[c]);
    PayloadStart(t, m, c, s.size[c]);
  }

  ghost predicate MovesAway(s: State, c: nat, n: nat) {
    c in s.size && s.end <= s.limit && n > s.size[c] && !MovesDown(s, n) && !GrowsInPlace(s, c, n)
  }

  lemma AwayDone(s: State, m0: seq<Byte>, s1: State, m1: seq<Byte>, s2: State, m2: seq<Byte>, c: nat, n: nat, heap: bool)
    requires Inv(s) && MovesAway(s, c, n) && s.limit == |m0| && Fits(s, c) && s.count > 0
    requires s1 == AllocStep(s, n) && s1 != s && c in s1.size && s1.count > 0 && s2 == FreeStep(s1, c)
    requires Intact(s, m0, s1, m1, c) && Intact(s1, m1, s2, m2, c)
    requires s.end != c && s.end in s1.size && s.end + TC_HDR_SIZE + n <= |m1| && s1.size[s.end] == n
    requires Payload(m1, s1, s.end)[..s.size[c]] == Payload(m0, s, c)
    ensures ReallocDone(s, m0, s2, m2, c, n, heap, Inside(s.end), [])
  {
    CopiedIntact(s, m0, s1, m1, s2, m2, c, s.end);
    assert Payload(m0, s, c)[..s.size[c]] == Payload(m0, s, c);
  }

  lemma SameDone(s: State, m: seq<Byte>, c: nat, heap: bool)
    requires Inv(s) && c in s.size && s.limit == |m|
    ensures ReallocDone(s, m, s, m, c, s.size[c], heap, Inside(c), [])
  {
    assert Fits(s, c);
    CountsMembers(s, c);
    WritesInside(s, m, s, m, c, c, c);
  }

  lemma AllocRefused(s: State, n: nat)
    requires s.end <= s.limit && AllocStep(s, n) == s
    ensures s.limit - s.end < Used(n)
  {
    assert AllocStep(s, n).count == s.count;
  }

  lemma FailedDone(s: State, m: seq<Byte>, c: nat, n: nat)
    requires Inv(s) && MovesAway(s, c, n) && s.limit == |m| && AllocStep(s, n) == s
    ensures ReallocDone(s, m, s, m, c, n, false, Failed, [])
  {
    assert Fits(s, c);
    CountsMembers(s, c);
    WritesInside(s, m, s, m, c, c, c);
    AllocRefused(s, n);
  }

  lemma OutsideDone(s: State, m0: seq<Byte>, s1: State, m: seq<Byte>, c: nat, n: nat)
    requires Inv(s) && MovesAway(s, c, n) && s.limit == |m0| && AllocStep(s, n) == s && Fits(s, c) && s.count > 0
    requires s1 == FreeStep(s, c) && Intact(s, m0, s1, m, c)
    ensures ReallocDone(s, m0, s1, m, c, n, true, Outside, Payload(m0, s, c))
  {
    AllocRefused(s, n);
  }
}
