/** src/map/map.c: the table as an object updated in place.

    `come_map_put` receives a pointer to the caller's map pointer, because rehashing replaces the
    table; `Cell` is that pointer. Allocation is taken to succeed. */
module ComeMap {
  import opened FloatCount
  import opened MapTable

  const INITIAL_CAPACITY: nat := 16

  /** Sizes from here on are doubled to nothing. */
  const HALF_OF_ALL: nat := 0x8000_0000

  class Table {
    const size: nat
    var count: nat
    const entries: array<Entry>

    /** What a put needs: right sizes and at most three quarters full. */
    ghost predicate Shaped()
      reads this, entries
    {
      && size == entries.Length > 0
      && count == Count(entries[..])
      && Loaded(count, size)
      && forall i :: 0 <= i < size && entries[i].occupied ==> entries[i].key.Str?
    }

    ghost predicate Valid()
      reads this, entries
    {
      Shaped() && Wf(entries[..])
    }

    ghost function Contents(): map<Text, Value>
      reads this, entries
    {
      View(entries[..])
    }

    /** Allocation and `memset`: `come_map_new`, and the first half of `rehash`. */
    constructor (n: nat)
      requires n > 0
      ensures size == n && count == 0 && entries[..] == Empties(n)
      ensures Valid() && Contents() == map[]
      ensures fresh(entries)
    {
      size, count := n, 0;
      entries := new Entry[n](_ => EMPTY);
      new;
      assert entries[..] == Empties(n);
      EmptiesMeanNothing(n);
    }
  }

  class Cell {
    var m: Table?

    constructor (m: Table?)
      ensures this.m == m
    {
      this.m := m;
    }
  }

  /** What `come_map_put` may write through its argument. */
  ghost function Behind(cell: Cell?): set<object>
    reads cell
  {
    if cell == null then {} else if cell.m == null then {cell} else {cell, cell.m, cell.m.entries}
  }

  ghost function SlotsOf(m: Table?): seq<Entry>
    reads m, if m == null then {} else {m.entries}
  {
    if m == null then Empties(INITIAL_CAPACITY) else m.entries[..]
  }

  method HashString(str: Text) returns (hash: nat)
    ensures hash == Hash(str)
  {
    hash := 5381;
    for i := 0 to |str|
      invariant HashFrom(hash, str[i..]) == Hash(str)
    {
      hash := (33 * hash + Signed(str[i])) % 0x1_0000_0000;
    }
  }

  lemma PutSlotsShape(s: Slots, k: Text, v: Value)
    requires forall i :: 0 <= i < |s| && s[i].occupied ==> s[i].key.Str?
    ensures Count(s) <= Count(PutSlots(s, k, v)) <= Count(s) + 1
    ensures forall i :: 0 <= i < |s| && PutSlots(s, k, v)[i].occupied ==> PutSlots(s, k, v)[i].key.Str?
  {
    CountUpdate(s, Find(s, k), PutSlots(s, k, v)[Find(s, k)]);
  }

  /** The probing loop of `come_map_put` and the store that follows it. */
  method Store(m: Table, key: Text, value: Value)
    requires m.Shaped() && !Overloaded(m.count, m.size)
    modifies m, m.entries
    ensures m.Shaped() && m.entries[..] == PutSlots(old(m.entries[..]), key, value)
    ensures m.count <= old(m.count) + 1
  {
    ghost var s: Slots := m.entries[..];
    LoadedRoom(m.count + 1, m.size);
    RoomLeft(s);
    FindStops(s, key);
    ghost var p := Find(s, key);
    PutSlotsShape(s, key, value);
    CountUpdate(s, p, PutSlots(s, key, value)[p]);
    LoadedLess(m.count, m.count + 1, m.size);

    var hash := HashString(key);
    var idx: nat := hash % m.size;
    while m.entries[idx].occupied
      invariant idx < m.size
      invariant m.entries[..] == s && m.count == Count(s)
      invariant Dist(Home(key, |s|), idx, |s|) <= Dist(Home(key, |s|), p, |s|)
      decreases Dist(Home(key, |s|), p, |s|) - Dist(Home(key, |s|), idx, |s|)
    {
      if m.entries[idx].key == Str(key) {
        m.entries[idx] := m.entries[idx].(value := value);
        assert m.entries[..] == PutSlots(s, key, value);
        return;
      }
      SuccMod(idx, m.size);
      idx := (idx + 1) % m.size;
    }
    m.entries[idx] := Entry(Str(key), value, hash, true);
    m.count := m.count + 1;
    assert m.entries[..] == PutSlots(s, key, value);
  }

  /** `come_map_put`: `cell` is `m_ptr`. All but the last postcondition hold of any shaped table, as the
      nested puts of rehashing and removal need; the last speaks of tables in normal use. */
  method Put(cell: Cell?, key: Key, value: Value)
    requires cell != null && cell.m != null ==> cell.m.Shaped() && (Overloaded(cell.m.count, cell.m.size) ==> cell.m.size < HALF_OF_ALL)
    modifies Behind(cell)
    ensures cell != null && key.Null? ==> cell.m == old(cell.m) && (cell.m != null ==> cell.m.entries[..] == old(SlotsOf(cell.m)))
    ensures cell != null && key.Str? ==>
              && cell.m != null && cell.m.Shaped()
              && cell.m.entries[..] == MapTable.Put(old(SlotsOf(cell.m)), key.text, value)
              && (fresh({cell.m, cell.m.entries}) || cell.m == old(cell.m))
    ensures cell != null && key.Str? && old(cell.m) != null && !Overloaded(old(cell.m.count), old(cell.m.size)) ==>
              cell.m == old(cell.m) && cell.m.count <= old(cell.m.count) + 1
    ensures cell != null && key.Str? && (old(cell.m) == null || old(cell.m.Valid())) ==>
              && cell.m.Valid()
              && cell.m.Contents() == (if old(cell.m) == null then map[] else old(cell.m.Contents()))[key.text := value]
    decreases if cell != null && cell.m != null && Overloaded(cell.m.count, cell.m.size) then 1 else 0, 1
  {
    if cell == null || key.Null? {
      return;
    }
    ghost var s: Slots := SlotsOf(cell.m);
    if old(cell.m) == null || old(cell.m.Valid()) {
      EmptiesMeanNothing(INITIAL_CAPACITY);
      PutKeepsGood(s, key.text, value);
    }
    if cell.m == null {
      cell.m := new Table(INITIAL_CAPACITY);
    }
    if Overloaded(cell.m.count, cell.m.size) {
      Rehash(cell);
    }
    Store(cell.m, key.text, value);
  }

  /** `rehash`: a table of twice the size replaces the caller's, holding the same entries; the old one is untouched. */
  method Rehash(cell: Cell)
    requires cell.m != null && cell.m.Shaped() && cell.m.size < HALF_OF_ALL
    requires Overloaded(cell.m.count, cell.m.size)
    modifies cell
    ensures cell.m != null && fresh({cell.m, cell.m.entries}) && cell.m.Shaped()
    ensures cell.m.entries[..] == Rehashed(old(cell.m.entries[..]))
    ensures !Overloaded(cell.m.count, cell.m.size)
    decreases 1, 0
  {
    var oldM := cell.m;
    var newSize := oldM.size * 2;
    assert newSize < 0x1_0000_0000;
    var holder := new Cell(null);
    holder.m := new Table(newSize);
    EmptiesMeanNothing(newSize);
    MoveEntries(oldM, holder);
    AllMoved(oldM.entries[..], holder.m.count);
    cell.m := holder.m;
  }

  /** Its loop over the old entries. */
  method MoveEntries(oldM: Table, holder: Cell)
    requires oldM.Shaped()
    requires holder.m != null && holder.m.Shaped() && holder.m.size == 2 * oldM.size && holder.m.count == 0
    requires holder.m != oldM && holder.m.entries != oldM.entries && holder.m.entries[..] == Empties(2 * oldM.size)
    modifies holder, holder.m, holder.m.entries
    ensures holder.m == old(holder.m) && holder.m.Shaped()
    ensures holder.m.entries[..] == Rehashed(old(oldM.entries[..])) && holder.m.count <= old(Count(oldM.entries[..]))
    decreases 0, 4
  {
    ghost var s: Slots := oldM.entries[..];
    assert s[..0] == [];
    var i := 0;
    while i < oldM.size
      invariant 0 <= i <= oldM.size && holder.m == old(holder.m) && holder.m.Shaped()
      invariant holder.m.count <= Count(s[..i])
      invariant Transfer(s, i, holder.m.entries[..]) == Rehashed(s)
      invariant oldM.entries[..] == s && oldM.size == |s|
    {
      MoveEntry(oldM, holder, i);
      i := i + 1;
    }
    assert s[..i] == s;
  }

  /** One round of it. */
  method MoveEntry(oldM: Table, holder: Cell, i: nat)
    requires oldM.Shaped() && i < oldM.size
    requires holder.m != null && holder.m.Shaped() && holder.m.size == 2 * oldM.size && holder.m.count <= Count(oldM.entries[..i])
    requires holder.m != oldM && holder.m.entries != oldM.entries
    modifies holder, holder.m, holder.m.entries
    ensures holder.m == old(holder.m) && holder.m.Shaped() && oldM.entries[..] == old(oldM.entries[..])
    ensures holder.m.count <= Count(oldM.entries[..i + 1])
    ensures Transfer(oldM.entries[..], i + 1, holder.m.entries[..]) == Transfer(oldM.entries[..], i, old(holder.m.entries[..]))
    decreases 0, 3
  {
    ghost var s: Slots := oldM.entries[..];
    assert s[..i] == oldM.entries[..i] && s[..i + 1] == oldM.entries[..i + 1] && s[..i + 1][..i] == s[..i];
    if oldM.entries[i].occupied {
      NestedPutFits(s, i, holder.m.count);
      PutBack(holder, oldM.entries[i]);
    }
  }

  /** The puts nested in rehashing and in removal: there is room, so the table stays the same object. */
  method PutBack(holder: Cell, e: Entry)
    requires holder.m != null && holder.m.Shaped()
    requires !Overloaded(holder.m.count, holder.m.size) && e.key.Str?
    modifies holder, holder.m, holder.m.entries
    ensures holder.m == old(holder.m) && holder.m.Shaped() && holder.m.count <= old(holder.m.count) + 1
    ensures holder.m.entries[..] == PutSlots(old(holder.m.entries[..]), e.key.text, e.value)
    decreases 0, 2
  {
    Put(holder, e.key, e.value);
  }

  /** In `rehash` the new table has taken in at most the entries before slot i: the nested put cannot rehash again. */
  lemma NestedPutFits(s: Slots, i: nat, count: nat)
    requires i < |s| && s[i].occupied && Loaded(Count(s), |s|) && count <= Count(s[..i])
    ensures !Overloaded(count, 2 * |s|) && count < Count(s)
  {
    assert s[..i + 1][..i] == s[..i];
    CountPrefix(s, i + 1);
    LoadedLess(count + 1, Count(s), |s|);
  }

  lemma AllMoved(s: Slots, count: nat)
    requires Loaded(Count(s), |s|) && count <= Count(s)
    ensures !Overloaded(count, 2 * |s|)
  {
    LoadedDouble(Count(s), |s|);
    LoadedLess(count + 1, Count(s) + 1, 2 * |s|);
  }

  method Get(m: Table?, key: Key) returns (value: Value)
    requires m != null ==> m.Valid()
    ensures value == if m != null && key.Str? && key.text in m.Contents() then m.Contents()[key.text] else 0
    ensures m != null && key.Str? ==> value == Lookup(m.entries[..], key.text)
  {
    if m == null || key.Null? {
      return 0;
    }
    GoodRoom(m.entries[..]);
    FindDecides(m.entries[..], key.text);
    value := ProbeFor(m, key);
  }

  /** The loop of `come_map_get`, which also stops when it is back where it began. */
  method ProbeFor(m: Table, key: Key) returns (value: Value)
    requires m.Valid() && key.Str? && HasEmpty(m.entries[..])
    ensures value == Lookup(m.entries[..], key.text)
  {
    ghost var s: Slots := m.entries[..];
    FindDecides(s, key.text);
    ghost var p, home := Find(s, key.text), Home(key.text, |s|);
    var hash := HashString(key.text);
    var idx: nat := hash % m.size;
    var start := idx;
    while m.entries[idx].occupied
      invariant idx < m.size && start == home
      invariant Dist(home, idx, |s|) <= Dist(home, p, |s|)
      decreases Dist(home, p, |s|) - Dist(home, idx, |s|)
    {
      if m.entries[idx].key == key {
        return m.entries[idx].value;
      }
      ProbeStep(s, key.text, idx);
      idx := (idx + 1) % m.size;
      if idx == start { break; }
    }
    return 0;
  }

  method Len(m: Table?) returns (n: nat)
    requires m != null ==> m.Valid()
    ensures n == if m == null then 0 else |m.Contents()|
  {
    if m != null { CountIsCardinality(m.entries[..]); }
    n := if m == null then 0 else m.count;
  }

  /** `come_map_remove`. */
  method Remove(m: Table?, key: Key)
    requires m != null ==> m.Valid()
    modifies if m == null then {} else {m, m.entries}
    ensures m != null && key.Null? ==> m.Valid() && m.entries[..] == old(m.entries[..])
    ensures m != null && key.Str? ==> m.Valid() && m.entries[..] == MapTable.Remove(old(m.entries[..]), key.text)
    ensures m != null && key.Str? ==> m.Contents() == old(m.Contents()) - {key.text}
  {
    if m == null || key.Null? {
      return;
    }
    ghost var s: Slots := m.entries[..];
    RemoveFromTable(m, key.text);
    RemoveIsDelete(s, key.text);
  }

  /** The search for the key. */
  method RemoveFromTable(m: Table, key: Text)
    requires m.Valid()
    modifies m, m.entries
    ensures m.Shaped() && m.entries[..] == MapTable.Remove(old(m.entries[..]), key)
  {
    ghost var s: Slots := m.entries[..];
    GoodRoom(s);
    FindDecides(s, key);
    ghost var p, home := Find(s, key), Home(key, |s|);
    var hash := HashString(key);
    var idx: nat := hash % m.size;
    var start := idx;
    while m.entries[idx].occupied
      invariant idx < m.size && start == home
      invariant m.entries[..] == s && m.count == old(m.count)
      invariant Dist(home, idx, |s|) <= Dist(home, p, |s|)
      decreases Dist(home, p, |s|) - Dist(home, idx, |s|)
    {
      if m.entries[idx].key == Str(key) {
        TakeOut(m, key, idx);
        return;
      }
      ProbeStep(s, key, idx);
      idx := (idx + 1) % m.size;
      if idx == start { break; }
    }
  }

  /** What `come_map_remove` does once the key is found in slot idx. */
  method TakeOut(m: Table, ghost key: Text, idx: nat)
    requires m.Valid() && key in m.Contents() && idx == Find(m.entries[..], key)
    modifies m, m.entries
    ensures m.Shaped() && m.entries[..] == MapTable.Remove(old(m.entries[..]), key)
  {
    ghost var s: Slots := m.entries[..];
    ClearFound(s, key);
    LoadedLess(m.count - 1, m.count, m.size);
    m.entries[idx] := m.entries[idx].(occupied := false, key := Null, value := 0);
    m.count := m.count - 1;
    ghost var t: Slots := m.entries[..];
    assert t == s[idx := Cleared(s[idx])];
    SuccMod(idx, m.size);
    var next := (idx + 1) % m.size;
    ReinsertCluster(m, idx, next);
    RemoveLeads(s, key, idx, t, next, m.entries[..]);
  }

  /** The inner loop of `come_map_remove`. */
  method ReinsertCluster(m: Table, ghost p: nat, first: nat)
    requires m.Shaped()
    requires first < m.size && OneHole(m.entries[..], p, first, m.size)
    modifies m, m.entries
    ensures m.Shaped() && m.count == old(m.count)
    ensures LeadsTo(old(m.entries[..]), first, m.size, m.entries[..])
  {
    var next: nat := first;
    ghost var left: nat := m.size;
    ghost var s: Slots := m.entries[..];
    ghost var goal := LeadsSomewhere(s, first, m.size);
    while m.entries[next].occupied
      invariant next < m.size && m.Shaped() && m.count == old(m.count) && m.entries[..] == s
      invariant OneHole(s, p, next, left) && LeadsTo(s, next, left, goal)
      decreases left
    {
      RoundKeepsOneHole(s, p, next, left);
      RoundLeadsOn(s, next, left, goal);
      ghost var r := Round(s, next);
      ReinsertOne(m, next);
      SuccMod(next, m.size);
      assert (next + 1) % m.size == Succ(next, |s|);
      s := r;
      next := (next + 1) % m.size;
      left := left - 1;
    }
    ScanStops(s, next, left, goal);
  }

  /** One round: the nested put goes through the local pointer `holder.m`, which stays the caller's table. */
  method ReinsertOne(m: Table, next: nat)
    requires m.Shaped() && next < m.size && m.entries[next].occupied
    modifies m, m.entries
    ensures m.Shaped() && m.entries[..] == Round(old(m.entries[..]), next)
    ensures Count(m.entries[..]) == old(Count(m.entries[..])) ==> m.count == old(m.count)
  {
    ghost var s: Slots := m.entries[..];
    var entry := m.entries[next];
    CountUpdate(s, next, entry.(occupied := false));
    LoadedLess(m.count - 1, m.count, m.size);
    m.entries[next] := entry.(occupied := false);
    m.count := m.count - 1;
    assert m.entries[..] == Taken(s, next);
    var holder := new Cell(m);
    PutBack(holder, entry);
  }
}
