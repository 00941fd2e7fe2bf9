/** The open-addressing table of src/map/map.c seen as a value: a sequence of slots.

    The functions here compute what one put, one rehash and one removal leave in the
    slots; the lemmas say what that means for the finite map the table stands for.
    The class in Map.dfy updates an array in place and is proved against them. */
module MapTable {
  import opened Basics
  import opened FloatCount

  /** Key text: bytes before the terminating NUL. */
  type Text = s: seq<Byte> | 0 !in s witness []

  /** A `void*`; 0 is NULL. */
  type Value = nat

  /** A `string` pointer, which may be NULL. */
  datatype Key = Null | Str(text: Text)

  datatype Entry = Entry(key: Key, value: Value, hash: nat, occupied: bool)

  const EMPTY := Entry(Null, 0, 0, false)

  type Slots = s: seq<Entry> | |s| > 0 witness [EMPTY]

  // ----- hashing and cyclic positions -----

  /** `char` is signed: bytes from 128 up are negative when widened to `int`. */
  function Signed(b: Byte): int {
    if b < 128 then b else b - 256
  }

  /** The DJB2 loop, in 32-bit wrap-around arithmetic. */
  function HashFrom(hash: nat, t: seq<Byte>): nat
    decreases t
  {
    if t == [] then hash else HashFrom((33 * hash + Signed(t[0])) % 0x1_0000_0000, t[1..])
  }

  function Hash(t: Text): nat {
    HashFrom(5381, t)
  }

  /** Without wrapping around: 5381, times 33 for every byte, and the byte added. */
  function Djb2(t: Text): int {
    if t == [] then 5381 else Djb2(t[..|t| - 1]) * 33 + Signed(t[|t| - 1])
  }

  lemma {:induction false} HashFromLast(hash: nat, t: seq<Byte>, b: Byte)
    ensures HashFrom(hash, t + [b]) == (33 * HashFrom(hash, t) + Signed(b)) % 0x1_0000_0000
    decreases t
  {
    if t == [] {
      assert (t + [b])[1..] == [] && (t + [b])[0] == b;
    } else {
      assert (t + [b])[1..] == t[1..] + [b] && (t + [b])[0] == t[0];
      HashFromLast((33 * hash + Signed(t[0])) % 0x1_0000_0000, t[1..], b);
    }
  }

  lemma WrapsOnce(a: int, b: int)
    ensures (33 * (a % 0x1_0000_0000) + b) % 0x1_0000_0000 == (a * 33 + b) % 0x1_0000_0000
  {
  }

  /** Wrapping around after every byte or once at the end is the same. */
  lemma {:induction false} HashIsDjb2(t: Text)
    ensures Hash(t) == Djb2(t) % 0x1_0000_0000
    decreases |t|
  {
    if t != [] {
      var front, last := t[..|t| - 1], t[|t| - 1];
      HashIsDjb2(front);
      assert t == front + [last];
      HashFromLast(5381, front, last);
      WrapsOnce(Djb2(front), Signed(last));
    }
  }

  function Succ(i: nat, n: nat): (r: nat)
    requires i < n
    ensures r < n && r == if i + 1 == n then 0 else i + 1
  {
    SuccMod(i, n);
    (i + 1) % n
  }

  lemma SuccMod(i: nat, n: nat)
    requires i < n
    ensures (i + 1) % n == if i + 1 == n then 0 else i + 1
  {
  }

  function Home(t: Text, n: nat): (r: nat)
    requires n > 0
    ensures r < n
  {
    Hash(t) % n
  }

  /** Steps from slot i forward to slot j. */
  function Dist(i: nat, j: nat, n: nat): (d: nat)
    requires i < n && j < n
    ensures d < n
  {
    if j >= i then j - i else j - i + n
  }

  // ----- what a table means -----

  function Count(s: seq<Entry>): (c: nat)
    ensures c <= |s|
  {
    if s == [] then 0 else Count(s[..|s| - 1]) + if s[|s| - 1].occupied then 1 else 0
  }

  /** Every occupied slot holds a key with its hash, and no key occurs twice. */
  ghost predicate Distinct(s: seq<Entry>) {
    && (forall i :: 0 <= i < |s| && s[i].occupied ==> s[i].key.Str? && s[i].hash == Hash(s[i].key.text))
    && (forall i, j :: 0 <= i < j < |s| && s[i].occupied && s[j].occupied ==> s[i].key != s[j].key)
  }

  /** Every slot from h up to, not including, i is occupied. */
  ghost predicate Run(s: Slots, h: nat, i: nat)
    requires h < |s| && i < |s|
  {
    forall t :: 0 <= t < |s| && Dist(h, t, |s|) < Dist(h, i, |s|) ==> s[t].occupied
  }

  /** Every slot from an entry's home to its position is occupied. */
  ghost predicate Probed(s: Slots) {
    forall i :: 0 <= i < |s| && s[i].occupied && s[i].key.Str? ==> Run(s, Home(s[i].key.text, |s|), i)
  }

  ghost predicate Wf(s: Slots) {
    Distinct(s) && Probed(s)
  }

  function View(s: seq<Entry>): map<Text, Value> {
    if s == [] then map[] else
    var n := |s| - 1;
    if s[n].occupied && s[n].key.Str? then View(s[..n])[s[n].key.text := s[n].value] else View(s[..n])
  }

  ghost predicate HasEmpty(s: seq<Entry>) {
    exists q :: 0 <= q < |s| && !s[q].occupied
  }

  lemma {:induction false} CountUpdate(s: seq<Entry>, i: nat, e: Entry)
    requires i < |s|
    ensures Count(s[i := e]) == Count(s) - (if s[i].occupied then 1 else 0) + (if e.occupied then 1 else 0)
  {
    var n := |s| - 1;
    if i == n {
      assert s[i := e][..n] == s[..n];
    } else {
      assert s[i := e][..n] == s[..n][i := e];
      CountUpdate(s[..n], i, e);
    }
  }

  lemma {:induction false} CountFull(s: seq<Entry>)
    requires !HasEmpty(s)
    ensures Count(s) == |s|
  {
    if s != [] {
      var t := s[..|s| - 1];
      forall q | 0 <= q < |t| ensures t[q].occupied {
        assert s[q].occupied;
      }
      CountFull(t);
    }
  }

  lemma DistinctPrefix(s: seq<Entry>, n: nat)
    requires Distinct(s) && n <= |s|
    ensures Distinct(s[..n])
  {
  }

  lemma {:induction false} ViewAt(s: seq<Entry>, i: nat)
    requires Distinct(s) && i < |s| && s[i].occupied
    ensures s[i].key.text in View(s) && View(s)[s[i].key.text] == s[i].value
  {
    if i < |s| - 1 {
      DistinctPrefix(s, |s| - 1);
      ViewAt(s[..|s| - 1], i);
    }
  }

  /** The slot that holds a key of the map. */
  ghost function Slot(s: seq<Entry>, k: Text): (i: nat)
    requires Distinct(s) && k in View(s)
    ensures i < |s| && s[i].occupied && s[i].key == Str(k) && View(s)[k] == s[i].value
  {
    var n := |s| - 1;
    DistinctPrefix(s, n);
    if s[n].occupied && s[n].key == Str(k) then n else Slot(s[..n], k)
  }

  /** Two tables with the same occupied slots, up to where they lie, mean the same map. */
  lemma ViewIs(s: seq<Entry>, m: map<Text, Value>)
    requires Distinct(s)
    requires forall i :: 0 <= i < |s| && s[i].occupied ==> s[i].key.text in m && m[s[i].key.text] == s[i].value
    requires forall k :: k in m ==> k in View(s)
    ensures View(s) == m
  {
    forall k | k in View(s) ensures k in m && View(s)[k] == m[k] {
      var i := Slot(s, k);
    }
  }

  lemma NotEarlier(s: seq<Entry>, n: nat)
    requires Distinct(s) && n < |s| && s[n].occupied
    ensures Distinct(s[..n]) && s[n].key.text !in View(s[..n])
  {
    DistinctPrefix(s, n);
    if s[n].key.text in View(s[..n]) {
      var i := Slot(s[..n], s[n].key.text);
    }
  }

  /** `come_map_len` is the cardinality of the map. */
  lemma {:induction false} CountIsCardinality(s: seq<Entry>)
    requires Distinct(s)
    ensures Count(s) == |View(s)|
  {
    if s != [] {
      var n := |s| - 1;
      DistinctPrefix(s, n);
      if s[n].occupied { NotEarlier(s, n); }
      CountIsCardinality(s[..n]);
    }
  }

  // ----- probing -----

  ghost predicate Stops(s: seq<Entry>, k: Text, i: nat)
    requires i < |s|
  {
    s[i].occupied ==> s[i].key == Str(k)
  }

  /** The probing loop from slot i, for at most `left` steps. */
  function Probe(s: Slots, k: Text, i: nat, left: nat): (p: nat)
    requires i < |s|
    ensures p < |s|
    decreases left
  {
    if left == 0 || !s[i].occupied || s[i].key == Str(k) then i
    else Probe(s, k, Succ(i, |s|), left - 1)
  }

  /** p is where probing from i ends: it stops there and at no slot on the way. */
  ghost predicate FirstStop(s: Slots, k: Text, i: nat, p: nat)
    requires i < |s| && p < |s|
  {
    && Stops(s, k, p)
    && forall t :: 0 <= t < |s| && Dist(i, t, |s|) < Dist(i, p, |s|) ==> !Stops(s, k, t)
  }

  lemma {:induction false} ProbeFinds(s: Slots, k: Text, i: nat, left: nat, q: nat)
    requires i < |s| && q < |s| && Stops(s, k, q) && Dist(i, q, |s|) <= left
    ensures FirstStop(s, k, i, Probe(s, k, i, left))
    decreases left
  {
    if left > 0 && !Stops(s, k, i) {
      var j := Succ(i, |s|);
      ProbeFinds(s, k, j, left - 1, q);
      var p := Probe(s, k, j, left - 1);
      forall t | 0 <= t < |s| && Dist(i, t, |s|) < Dist(i, p, |s|) ensures !Stops(s, k, t) {
        if t != i { assert Dist(j, t, |s|) < Dist(j, p, |s|); }
      }
    }
  }

  lemma FirstStopUnique(s: Slots, k: Text, i: nat, p: nat, q: nat)
    requires i < |s| && p < |s| && q < |s|
    requires FirstStop(s, k, i, p) && FirstStop(s, k, i, q)
    ensures p == q
  {
    assert Dist(i, p, |s|) == Dist(i, q, |s|);
  }

  /** Where a lookup of k ends. */
  function Find(s: Slots, k: Text): (p: nat)
    ensures p < |s|
  {
    Probe(s, k, Home(k, |s|), |s|)
  }

  lemma FindIs(s: Slots, k: Text, p: nat)
    requires p < |s| && FirstStop(s, k, Home(k, |s|), p)
    ensures Find(s, k) == p
  {
    var h := Home(k, |s|);
    ProbeFinds(s, k, h, |s|, p);
    FirstStopUnique(s, k, h, p, Find(s, k));
  }

  lemma FindStops(s: Slots, k: Text)
    requires HasEmpty(s)
    ensures FirstStop(s, k, Home(k, |s|), Find(s, k))
  {
    var q: nat :| q < |s| && !s[q].occupied;
    ProbeFinds(s, k, Home(k, |s|), |s|, q);
  }

  /** The probe moves on from a slot that does not stop it towards the one that does, and does not come round. */
  lemma ProbeStep(s: Slots, k: Text, idx: nat)
    requires Wf(s) && HasEmpty(s) && idx < |s| && s[idx].occupied && s[idx].key != Str(k)
    requires Dist(Home(k, |s|), idx, |s|) <= Dist(Home(k, |s|), Find(s, k), |s|)
    ensures var next, home := Succ(idx, |s|), Home(k, |s|);
      Dist(home, idx, |s|) < Dist(home, next, |s|) <= Dist(home, Find(s, k), |s|) && next != home
  {
    FindStops(s, k);
    StepOn(Home(k, |s|), idx, Find(s, k), |s|);
  }

  lemma StepOn(home: nat, idx: nat, p: nat, n: nat)
    requires home < n && idx < n && p < n && idx != p && Dist(home, idx, n) <= Dist(home, p, n)
    ensures Dist(home, idx, n) < Dist(home, Succ(idx, n), n) <= Dist(home, p, n) && Succ(idx, n) != home
  {
  }

  /** In a well-formed table a lookup decides membership. */
  lemma FindDecides(s: Slots, k: Text)
    requires Wf(s) && HasEmpty(s)
    ensures FirstStop(s, k, Home(k, |s|), Find(s, k))
    ensures k in View(s) <==> s[Find(s, k)].occupied
    ensures k in View(s) ==> s[Find(s, k)].key == Str(k) && View(s)[k] == s[Find(s, k)].value
  {
    FindStops(s, k);
    var p := Find(s, k);
    if s[p].occupied {
      ViewAt(s, p);
    } else if k in View(s) {
      RunStops(s, k, Home(k, |s|), p, Slot(s, k));
    }
  }

  lemma RunStops(s: Slots, k: Text, h: nat, p: nat, i: nat)
    requires h < |s| && p < |s| && i < |s|
    requires FirstStop(s, k, h, p) && Run(s, h, i) && s[i].occupied && s[i].key == Str(k)
    ensures s[p].occupied
  {
    assert Stops(s, k, i);
  }

  // ----- put -----

  function Fresh(k: Text, v: Value): Entry {
    Entry(Str(k), v, Hash(k), true)
  }

  /** `come_map_put` once the load test has passed. */
  function PutSlots(s: Slots, k: Text, v: Value): (r: Slots)
    ensures |r| == |s|
  {
    var p := Find(s, k);
    if s[p].occupied then s[p := s[p].(value := v)] else s[p := Fresh(k, v)]
  }

  /** Filling an empty slot with a key that occurs nowhere. */
  lemma FillView(s: seq<Entry>, p: nat, k: Text, v: Value)
    requires Distinct(s) && p < |s| && !s[p].occupied && k !in View(s)
    ensures Distinct(s[p := Fresh(k, v)]) && View(s[p := Fresh(k, v)]) == View(s)[k := v]
  {
    var r := s[p := Fresh(k, v)];
    forall i | 0 <= i < |s| && s[i].occupied ensures s[i].key != Str(k) {
      ViewAt(s, i);
    }
    assert Distinct(r);
    forall x | x in View(s) ensures x in View(r) {
      assert r[Slot(s, x)].occupied;
      ViewAt(r, Slot(s, x));
    }
    forall i | 0 <= i < |r| && r[i].occupied
      ensures r[i].key.text in View(s)[k := v] && View(s)[k := v][r[i].key.text] == r[i].value
    {
      if i != p { ViewAt(s, i); }
    }
    ViewAt(r, p);
    ViewIs(r, View(s)[k := v]);
  }

  /** Emptying a slot takes exactly its key out of the map. */
  lemma EmptyView(s: seq<Entry>, p: nat, e: Entry)
    requires Distinct(s) && p < |s| && s[p].occupied && !e.occupied
    ensures Distinct(s[p := e]) && View(s[p := e]) == View(s) - {s[p].key.text}
  {
    var r := s[p := e];
    forall x | x in View(s) && x != s[p].key.text ensures x in View(r) {
      ViewAt(r, Slot(s, x));
    }
    forall i | 0 <= i < |r| && r[i].occupied
      ensures r[i].key.text in View(s) - {s[p].key.text} && View(s)[r[i].key.text] == r[i].value
    {
      ViewAt(s, i);
    }
    ViewIs(r, View(s) - {s[p].key.text});
  }

  /** Overwriting the value in a slot. */
  lemma OverwriteView(s: Slots, p: nat, v: Value)
    requires Wf(s) && p < |s| && s[p].occupied
    ensures Wf(s[p := s[p].(value := v)])
    ensures View(s[p := s[p].(value := v)]) == View(s)[s[p].key.text := v]
  {
    var r, k := s[p := s[p].(value := v)], s[p].key.text;
    forall i | 0 <= i < |r| && r[i].occupied && r[i].key.Str? ensures Run(r, Home(r[i].key.text, |r|), i) {
      assert Run(s, Home(s[i].key.text, |s|), i);
    }
    ViewAt(s, p);
    forall x | x in View(s)[k := v] ensures x in View(r) {
      ViewAt(r, Slot(s, x));
    }
    forall i | 0 <= i < |r| && r[i].occupied
      ensures r[i].key.text in View(s)[k := v] && View(s)[k := v][r[i].key.text] == r[i].value
    {
      ViewAt(s, i);
    }
    ViewIs(r, View(s)[k := v]);
  }

  /** A put into a well-formed table with room is a map update and keeps it well-formed. */
  lemma PutIsUpdate(s: Slots, k: Text, v: Value)
    requires Wf(s) && HasEmpty(s)
    ensures Wf(PutSlots(s, k, v)) && View(PutSlots(s, k, v)) == View(s)[k := v]
    ensures Count(PutSlots(s, k, v)) == Count(s) + if k in View(s) then 0 else 1
  {
    FindDecides(s, k);
    var p, r := Find(s, k), PutSlots(s, k, v);
    CountUpdate(s, p, r[p]);
    if s[p].occupied {
      OverwriteView(s, p, v);
    } else {
      FillView(s, p, k, v);
      FillProbed(s, p, k, v);
    }
  }

  lemma FillProbed(s: Slots, p: nat, k: Text, v: Value)
    requires Probed(s) && p < |s| && Run(s, Home(k, |s|), p)
    ensures Probed(s[p := Fresh(k, v)])
  {
    var r := s[p := Fresh(k, v)];
    forall i | 0 <= i < |r| && r[i].occupied && r[i].key.Str? ensures Run(r, Home(r[i].key.text, |r|), i) {
      if i != p { assert Run(s, Home(s[i].key.text, |s|), i); }
    }
  }

  // ----- rehash -----

  function Empties(n: nat): (s: seq<Entry>)
    ensures |s| == n
  {
    seq(n, _ => EMPTY)
  }

  /** Put every occupied slot of `from` from position i on into `to`. */
  function Transfer(from: seq<Entry>, i: nat, to: Slots): (r: Slots)
    requires i <= |from|
    ensures |r| == |to|
    decreases |from| - i
  {
    if i == |from| then to
    else if from[i].occupied && from[i].key.Str? then Transfer(from, i + 1, PutSlots(to, from[i].key.text, from[i].value))
    else Transfer(from, i + 1, to)
  }

  function Rehashed(s: Slots): (r: Slots)
    ensures |r| == 2 * |s|
  {
    Transfer(s, 0, Empties(2 * |s|))
  }

  lemma {:induction false} EmptiesMeanNothing(n: nat)
    ensures Distinct(Empties(n)) && View(Empties(n)) == map[] && Count(Empties(n)) == 0
    ensures n > 0 ==> Wf(Empties(n))
  {
    if n > 0 {
      assert Empties(n)[..n - 1] == Empties(n - 1);
      EmptiesMeanNothing(n - 1);
    }
  }

  lemma {:induction false} CountPrefix(s: seq<Entry>, n: nat)
    requires n <= |s|
    ensures Count(s[..n]) <= Count(s)
  {
    if n < |s| {
      CountPrefix(s[..|s| - 1], n);
      assert s[..|s| - 1][..n] == s[..n];
    } else {
      assert s[..n] == s;
    }
  }

  lemma RoomLeft(s: Slots)
    requires Count(s) < |s|
    ensures HasEmpty(s)
  {
    if !HasEmpty(s) { CountFull(s); }
  }

  lemma {:induction false} TransferKeeps(from: Slots, i: nat, to: Slots)
    requires i <= |from| && Distinct(from) && Wf(to)
    requires View(to) == View(from[..i]) && Count(to) == Count(from[..i]) && Count(from) < |to|
    ensures Wf(Transfer(from, i, to))
    ensures View(Transfer(from, i, to)) == View(from) && Count(Transfer(from, i, to)) == Count(from)
    decreases |from| - i
  {
    if i == |from| {
      assert from[..i] == from;
    } else {
      var next := from[..i + 1];
      assert next[..i] == from[..i];
      if from[i].occupied {
        CountPrefix(from, i);
        RoomLeft(to);
        NotEarlier(from, i);
        PutIsUpdate(to, from[i].key.text, from[i].value);
        TransferKeeps(from, i + 1, PutSlots(to, from[i].key.text, from[i].value));
      } else {
        TransferKeeps(from, i + 1, to);
      }
    }
  }

  /** Rehashing changes where the entries lie and nothing else. */
  lemma RehashKeepsMap(s: Slots)
    requires Distinct(s)
    ensures Wf(Rehashed(s)) && View(Rehashed(s)) == View(s) && Count(Rehashed(s)) == Count(s)
  {
    EmptiesMeanNothing(2 * |s|);
    assert s[..0] == [];
    TransferKeeps(s, 0, Empties(2 * |s|));
  }

  /** The table that has room for one more: itself, or rehashed. */
  function Roomy(s: Slots): Slots {
    if Overloaded(Count(s), |s|) then Rehashed(s) else s
  }

  /** `come_map_put` with its load test. */
  function Put(s: Slots, k: Text, v: Value): Slots {
    PutSlots(Roomy(s), k, v)
  }

  /** What every run keeps: well-formed, and at most three quarters full as the load test reckons. */
  ghost predicate Good(s: Slots) {
    Wf(s) && Loaded(Count(s), |s|)
  }

  lemma RoomyKeeps(s: Slots)
    requires Wf(s) && Loaded(Count(s), |s|)
    ensures var t := Roomy(s); Wf(t) && View(t) == View(s) && Count(t) == Count(s) && Loaded(Count(s) + 1, |t|)
  {
    if Overloaded(Count(s), |s|) {
      RehashKeepsMap(s);
      LoadedDouble(Count(s), |s|);
    }
  }

  /** The quantifier keeps proofs from looking into it. */
  ghost predicate Updated(s: Slots, k: Text, v: Value, r: Slots) {
    exists u :: u == r && Good(u) && View(u) == View(s)[k := v]
  }

  lemma StoredUpdated(t: Slots, k: Text, v: Value)
    requires Wf(t) && Loaded(Count(t) + 1, |t|)
    ensures Updated(t, k, v, PutSlots(t, k, v))
  {
    RoomForOne(t);
    PutIsUpdate(t, k, v);
    StillLoaded(t, PutSlots(t, k, v));
  }

  lemma StillLoaded(t: Slots, r: Slots)
    requires Loaded(Count(t) + 1, |t|) && Count(r) <= Count(t) + 1 && |r| == |t|
    ensures Loaded(Count(r), |r|)
  {
    LoadedLess(Count(r), Count(t) + 1, |t|);
  }

  lemma PutKeepsGood(s: Slots, k: Text, v: Value)
    requires Good(s)
    ensures Good(Put(s, k, v)) && View(Put(s, k, v)) == View(s)[k := v]
  {
    RoomyKeeps(s);
    StoredUpdated(Roomy(s), k, v);
  }

  lemma RoomForOne(t: Slots)
    requires Loaded(Count(t) + 1, |t|)
    ensures HasEmpty(t)
  {
    LoadedRoom(Count(t) + 1, |t|);
    RoomLeft(t);
  }

  lemma GoodRoom(s: Slots)
    requires Good(s)
    ensures HasEmpty(s) && Count(s) < |s|
  {
    LoadedRoom(Count(s), |s|);
    RoomLeft(s);
  }

  // ----- remove -----

  function Cleared(e: Entry): Entry {
    e.(key := Null, value := 0, occupied := false)
  }

  function Taken(s: Slots, next: nat): Slots
    requires next < |s|
  {
    s[next := s[next].(occupied := false)]
  }

  /** One round of the re-insertion loop: take the entry at `next` out and put it back. */
  function Round(s: Slots, next: nat): (r: Slots)
    requires next < |s| && s[next].key.Str?
    ensures |r| == |s|
  {
    PutSlots(Taken(s, next), s[next].key.text, s[next].value)
  }

  /** The re-insertion loop, over the rest of the cluster. */
  function Reinsert(s: Slots, next: nat, left: nat): (r: Slots)
    requires next < |s|
    ensures |r| == |s|
    decreases left, 1
  {
    ReinsertOnce(s, next, left)
  }

  /** One round of it. (The recursion goes through a function of its own so that proofs open one round at a time.) */
  function ReinsertOnce(s: Slots, next: nat, left: nat): (r: Slots)
    requires next < |s|
    ensures |r| == |s|
    decreases left, 0
  {
    if left == 0 || !s[next].occupied || s[next].key.Null? then s
    else Reinsert(Round(s, next), Succ(next, |s|), left - 1)
  }

  lemma ReinsertStops(s: Slots, next: nat, left: nat)
    requires next < |s| && !s[next].occupied
    ensures Reinsert(s, next, left) == s
  {
  }

  /** The scan from next on ends with r. (The quantifier keeps proofs from looking into it.) */
  ghost predicate LeadsTo(s: Slots, next: nat, left: nat, r: Slots)
    requires next < |s|
  {
    exists k: nat :: k == left && r == Reinsert(s, next, k)
  }

  lemma LeadsSomewhere(s: Slots, next: nat, left: nat) returns (r: Slots)
    requires next < |s|
    ensures LeadsTo(s, next, left, r)
  {
    r := Reinsert(s, next, left);
  }

  lemma ScanStops(s: Slots, next: nat, left: nat, r: Slots)
    requires next < |s| && !s[next].occupied && LeadsTo(s, next, left, r)
    ensures r == s
  {
    ReinsertStops(s, next, left);
  }

  lemma RoundLeadsOn(s: Slots, next: nat, left: nat, r: Slots)
    requires next < |s| && left > 0 && s[next].occupied && s[next].key.Str? && LeadsTo(s, next, left, r)
    ensures LeadsTo(Round(s, next), Succ(next, |s|), left - 1, r)
  {
    var k: nat :| k == left && r == Reinsert(s, next, k);
    assert Reinsert(s, next, left) == ReinsertOnce(s, next, left);
    assert r == Reinsert(Round(s, next), Succ(next, |s|), left - 1);
  }

  function Remove(s: Slots, k: Text): (r: Slots)
    ensures |r| == |s|
  {
    var p := Find(s, k);
    if s[p].occupied then Reinsert(s[p := Cleared(s[p])], Succ(p, |s|), |s|) else s
  }

  lemma RemoveLeads(s: Slots, k: Text, p: nat, t: Slots, next: nat, r: Slots)
    requires p == Find(s, k) && s[p].occupied && t == s[p := Cleared(s[p])] && next == Succ(p, |s|)
    requires LeadsTo(t, next, |t|, r)
    ensures r == Remove(s, k)
  {
  }

  /** Between the removed slot p and the scan position `next` there is exactly one hole, h. An entry whose path
      from home crosses the hole lies in the unscanned rest of the cluster. */
  ghost predicate Hole(s: Slots, p: nat, h: nat, next: nat) {
    && p < |s| && h < |s| && next < |s| && next != p
    && !s[h].occupied && Dist(p, h, |s|) < Dist(p, next, |s|)
    && (forall t :: 0 <= t < |s| && t != h && Dist(p, t, |s|) < Dist(p, next, |s|) ==> s[t].occupied)
    && (forall i :: 0 <= i < |s| && s[i].occupied && s[i].key.Str? ==> Crossing(s, p, h, next, i))
  }

  ghost predicate Crossing(s: Slots, p: nat, h: nat, next: nat, i: nat)
    requires p < |s| && h < |s| && next < |s| && i < |s| && s[i].key.Str?
  {
    var home := Home(s[i].key.text, |s|);
    && RunBut(s, home, i, h)
    && (Dist(home, h, |s|) < Dist(home, i, |s|) ==> Dist(p, i, |s|) >= Dist(p, next, |s|) && Run(s, next, i))
  }

  /** Every slot from a up to, not including, i is occupied, except perhaps h. */
  ghost predicate RunBut(s: Slots, a: nat, i: nat, h: nat)
    requires a < |s| && i < |s|
  {
    forall t :: 0 <= t < |s| && t != h && Dist(a, t, |s|) < Dist(a, i, |s|) ==> s[t].occupied
  }

  /** Clearing a slot of a well-formed table opens the hole. */
  lemma ClearOpensHole(s: Slots, p: nat)
    requires Wf(s) && p < |s| && s[p].occupied && |s| > 1
    ensures Hole(s[p := Cleared(s[p])], p, p, Succ(p, |s|))
  {
    var r, next := s[p := Cleared(s[p])], Succ(p, |s|);
    forall i | 0 <= i < |r| && r[i].occupied && r[i].key.Str? ensures Crossing(r, p, p, next, i) {
      var home := Home(s[i].key.text, |s|);
      assert Run(s, home, i);
      if Dist(home, p, |s|) < Dist(home, i, |s|) {
        forall t | 0 <= t < |s| && Dist(next, t, |s|) < Dist(next, i, |s|) ensures r[t].occupied {
          assert Dist(home, t, |s|) < Dist(home, i, |s|);
        }
      }
    }
  }

  /** When the scan meets an empty slot nothing crosses the hole any more. */
  lemma ScanEndRestoresProbing(s: Slots, p: nat, h: nat, next: nat)
    requires Hole(s, p, h, next) && !s[next].occupied
    ensures Probed(s)
  {
    forall i | 0 <= i < |s| && s[i].occupied && s[i].key.Str? ensures Run(s, Home(s[i].key.text, |s|), i) {
      assert Crossing(s, p, h, next, i);
    }
  }

  /** q is an empty slot the scan has not reached. */
  ghost predicate Ahead(s: Slots, p: nat, next: nat, q: nat) {
    p < |s| && next < |s| && q < |s| && !s[q].occupied && Dist(p, q, |s|) >= Dist(p, next, |s|) > 0
  }

  /** The re-inserted entry goes into the hole if its path crosses it, and back where it was otherwise. */
  lemma ReinsertTarget(s: Slots, p: nat, h: nat, next: nat)
    requires Distinct(s) && Hole(s, p, h, next) && s[next].occupied
    ensures var home := Home(s[next].key.text, |s|);
            Find(Taken(s, next), s[next].key.text) == if Dist(home, h, |s|) < Dist(home, next, |s|) then h else next
  {
    var k, r := s[next].key.text, Taken(s, next);
    var home := Home(k, |s|);
    assert Crossing(s, p, h, next, next);
    assert RunBut(s, home, next, h);
    var target := if Dist(home, h, |s|) < Dist(home, next, |s|) then h else next;
    forall t | 0 <= t < |s| && Dist(home, t, |s|) < Dist(home, target, |s|) ensures !Stops(r, k, t) {
      assert s[t].occupied && t != next;
    }
    FindIs(r, k, target);
  }

  ghost predicate Scanning(s: Slots, p: nat, h: nat, next: nat, q: nat) {
    Distinct(s) && Hole(s, p, h, next) && Ahead(s, p, next, q)
  }

  lemma RoundIs(s: Slots, p: nat, h: nat, next: nat)
    requires Distinct(s) && Hole(s, p, h, next) && s[next].occupied
    ensures var target := Find(Taken(s, next), s[next].key.text);
      && target == (if Dist(Home(s[next].key.text, |s|), h, |s|) < Dist(Home(s[next].key.text, |s|), next, |s|) then h else next)
      && Round(s, next) == Taken(s, next)[target := Fresh(s[next].key.text, s[next].value)]
      && Distinct(Round(s, next)) && View(Round(s, next)) == View(s) && Count(Round(s, next)) == Count(s)
  {
    ReinsertTarget(s, p, h, next);
    MoveKeepsMap(s, next, Find(Taken(s, next), s[next].key.text));
  }

  lemma AheadOn(s: Slots, r: Slots, p: nat, next: nat, q: nat)
    requires Ahead(s, p, next, q) && s[next].occupied && |r| == |s| && !r[q].occupied
    ensures Ahead(r, p, Succ(next, |s|), q) && Dist(next, q, |s|) == Dist(Succ(next, |s|), q, |s|) + 1 && Succ(next, |s|) != p
  {
  }

  lemma HoleBehind(s: Slots, p: nat, h: nat, next: nat, q: nat)
    requires Hole(s, p, h, next) && Ahead(s, p, next, q) && s[next].occupied
    ensures q != h && q != next
  {
  }

  /** One round of the re-insertion loop moves the hole or leaves it, and changes neither map nor count. */
  lemma ReinsertStep(s: Slots, p: nat, h: nat, next: nat, q: nat) returns (h': nat)
    requires Scanning(s, p, h, next, q) && s[next].occupied
    ensures Scanning(Round(s, next), p, h', Succ(next, |s|), q)
    ensures Dist(next, q, |s|) == Dist(Succ(next, |s|), q, |s|) + 1
    ensures View(Round(s, next)) == View(s) && Count(Round(s, next)) == Count(s)
  {
    RoundIs(s, p, h, next);
    AheadOn(s, s, p, next, q);
    var r := Round(s, next);
    if Find(Taken(s, next), s[next].key.text) == next {
      h' := h;
      assert r == s;
      HoleStays(s, p, h, next);
    } else {
      h' := next;
      HoleBehind(s, p, h, next, q);
      AheadOn(s, r, p, next, q);
      HoleMoves(s, p, h, next, q);
    }
  }

  lemma MoveKeepsMap(s: Slots, next: nat, target: nat)
    requires Distinct(s) && next < |s| && s[next].occupied && target < |s| && !Taken(s, next)[target].occupied
    ensures var r := Taken(s, next)[target := Fresh(s[next].key.text, s[next].value)];
            Distinct(r) && View(r) == View(s) && Count(r) == Count(s)
  {
    var t, k, v := Taken(s, next), s[next].key.text, s[next].value;
    EmptyView(s, next, t[next]);
    ViewAt(s, next);
    FillView(t, target, k, v);
    CountUpdate(s, next, t[next]);
    CountUpdate(t, target, Fresh(k, v));
    assert View(s) == (View(s) - {k})[k := v];
  }

  lemma HoleStays(s: Slots, p: nat, h: nat, next: nat)
    requires Hole(s, p, h, next) && s[next].occupied && s[next].key.Str? && Succ(next, |s|) != p
    requires var home := Home(s[next].key.text, |s|); Dist(home, h, |s|) >= Dist(home, next, |s|)
    ensures Hole(s, p, h, Succ(next, |s|))
  {
    forall i | 0 <= i < |s| && s[i].occupied && s[i].key.Str? ensures Crossing(s, p, h, Succ(next, |s|), i) {
      CrossingStays(s, p, h, next, i);
    }
  }

  lemma CrossingStays(s: Slots, p: nat, h: nat, next: nat, i: nat)
    requires Hole(s, p, h, next) && s[next].occupied && s[next].key.Str? && Succ(next, |s|) != p
    requires var home := Home(s[next].key.text, |s|); Dist(home, h, |s|) >= Dist(home, next, |s|)
    requires i < |s| && s[i].occupied && s[i].key.Str?
    ensures Crossing(s, p, h, Succ(next, |s|), i)
  {
    var after := Succ(next, |s|);
    assert Crossing(s, p, h, next, i);
    var home := Home(s[i].key.text, |s|);
    if Dist(home, h, |s|) < Dist(home, i, |s|) {
      assert i != next;
      forall t | 0 <= t < |s| && Dist(after, t, |s|) < Dist(after, i, |s|) ensures s[t].occupied {
        assert Dist(next, t, |s|) < Dist(next, i, |s|);
      }
    }
  }

  lemma HoleMoves(s: Slots, p: nat, h: nat, next: nat, q: nat)
    requires Hole(s, p, h, next) && s[next].occupied && s[next].key.Str? && Ahead(s, p, next, q)
    requires var home := Home(s[next].key.text, |s|); Dist(home, h, |s|) < Dist(home, next, |s|)
    ensures var r := Taken(s, next)[h := Fresh(s[next].key.text, s[next].value)];
            Hole(r, p, next, Succ(next, |s|))
  {
    var n, after, k := |s|, Succ(next, |s|), s[next].key.text;
    var r := Taken(s, next)[h := Fresh(k, s[next].value)];
    forall i | 0 <= i < n && r[i].occupied && r[i].key.Str? ensures Crossing(r, p, next, after, i) {
      if i == h {
        assert Crossing(s, p, h, next, next);
      } else {
        assert Crossing(s, p, h, next, i);
        CrossingMoves(s, p, h, next, q, i);
      }
    }
  }

  /** The entry at next has filled the hole, and left one. */
  ghost function Swapped(s: Slots, h: nat, next: nat): (r: Slots)
    requires h < |s| && next < |s| && s[next].key.Str?
    ensures |r| == |s|
  {
    Taken(s, next)[h := Fresh(s[next].key.text, s[next].value)]
  }

  lemma CrossingMoves(s: Slots, p: nat, h: nat, next: nat, q: nat, i: nat)
    requires Hole(s, p, h, next) && s[next].occupied && s[next].key.Str? && Ahead(s, p, next, q)
    requires i < |s| && i != next && i != h && s[i].occupied && s[i].key.Str? && Crossing(s, p, h, next, i)
    ensures Crossing(Swapped(s, h, next), p, next, Succ(next, |s|), i)
  {
    var n, home := |s|, Home(s[i].key.text, |s|);
    assert RunBut(s, home, i, h);
    RunMoves(s, h, next, home, i);
    if Dist(home, next, n) < Dist(home, i, n) {
      BehindNext(s, p, h, next, q, home, i);
    }
  }

  lemma RunMoves(s: Slots, h: nat, next: nat, home: nat, i: nat)
    requires h < |s| && next < |s| && home < |s| && i < |s| && s[next].key.Str? && RunBut(s, home, i, h)
    ensures RunBut(Swapped(s, h, next), home, i, next)
  {
  }

  /** The empty slot q would lie on the way if i were before the scan position or the hole after it. */
  lemma BehindNext(s: Slots, p: nat, h: nat, next: nat, q: nat, home: nat, i: nat)
    requires Hole(s, p, h, next) && s[next].occupied && s[next].key.Str? && Ahead(s, p, next, q)
    requires i < |s| && i != next && i != h && s[i].occupied && home < |s| && RunBut(s, home, i, h)
    requires Dist(home, h, |s|) < Dist(home, i, |s|) ==> Dist(p, i, |s|) >= Dist(p, next, |s|)
    requires Dist(home, next, |s|) < Dist(home, i, |s|)
    ensures Dist(p, i, |s|) >= Dist(p, Succ(next, |s|), |s|) && Run(Swapped(s, h, next), Succ(next, |s|), i)
  {
    var n, after, r := |s|, Succ(next, |s|), Swapped(s, h, next);
    forall t | 0 <= t < n && Dist(after, t, n) < Dist(after, i, n) ensures r[t].occupied {
      assert Dist(home, t, n) < Dist(home, i, n);
    }
  }

  /** What the re-insertion loop keeps: one hole behind the scan position, and an empty slot at most `left` ahead. */
  ghost predicate OneHole(s: Slots, p: nat, next: nat, left: nat) {
    exists h, q :: Scanning(s, p, h, next, q) && Dist(next, q, |s|) <= left
  }

  lemma RoundKeepsOneHole(s: Slots, p: nat, next: nat, left: nat)
    requires OneHole(s, p, next, left) && next < |s| && s[next].occupied
    ensures s[next].key.Str? && left > 0 && OneHole(Round(s, next), p, Succ(next, |s|), left - 1)
    ensures View(Round(s, next)) == View(s) && Count(Round(s, next)) == Count(s)
  {
    var h, q :| Scanning(s, p, h, next, q) && Dist(next, q, |s|) <= left;
    var h' := ReinsertStep(s, p, h, next, q);
  }

  lemma ScanEnds(s: Slots, p: nat, next: nat, left: nat)
    requires OneHole(s, p, next, left) && next < |s| && !s[next].occupied
    ensures Wf(s)
  {
    var h, q :| Scanning(s, p, h, next, q) && Dist(next, q, |s|) <= left;
    ScanEndRestoresProbing(s, p, h, next);
  }

  /** The re-insertion loop closes the hole: it ends with a well-formed table for the same map. */
  lemma ReinsertRestores(s: Slots, p: nat, next: nat, left: nat)
    requires next < |s| && OneHole(s, p, next, left)
    ensures Wf(Reinsert(s, next, left))
    ensures View(Reinsert(s, next, left)) == View(s) && Count(Reinsert(s, next, left)) == Count(s)
  {
    var r := Reinsert(s, next, left);
    ScanRestores(s, p, next, left, r);
  }

  lemma {:induction false} ScanRestores(s: Slots, p: nat, next: nat, left: nat, r: Slots)
    requires next < |s| && OneHole(s, p, next, left) && LeadsTo(s, next, left, r)
    ensures Wf(r) && View(r) == View(s) && Count(r) == Count(s)
    decreases left
  {
    if s[next].occupied {
      RoundKeepsOneHole(s, p, next, left);
      RoundLeadsOn(s, next, left, r);
      ScanRestores(Round(s, next), p, Succ(next, |s|), left - 1, r);
    } else {
      ScanEnds(s, p, next, left);
      ScanStops(s, next, left, r);
    }
  }

  /** After the key is found and its slot cleared: the state in which the re-insertion loop starts. */
  lemma ClearFound(s: Slots, k: Text)
    requires Good(s) && k in View(s)
    ensures s[Find(s, k)].occupied
    ensures var p := Find(s, k); var r := s[p := Cleared(s[p])];
            && OneHole(r, p, Succ(p, |s|), |s|)
            && View(r) == View(s) - {k} && Count(r) == Count(s) - 1
  {
    GoodRoom(s);
    FindDecides(s, k);
    var p := Find(s, k);
    var r := s[p := Cleared(s[p])];
    EmptyView(s, p, r[p]);
    CountUpdate(s, p, r[p]);
    var q: nat :| q < |s| && !s[q].occupied;
    ClearOpensHole(s, p);
    assert Scanning(r, p, p, Succ(p, |s|), q);
  }

  /** `come_map_remove` takes exactly the given key out, and the table stays well-formed. */
  lemma RemoveIsDelete(s: Slots, k: Text)
    requires Good(s)
    ensures Good(Remove(s, k)) && View(Remove(s, k)) == View(s) - {k}
    ensures Count(Remove(s, k)) == Count(s) - if k in View(s) then 1 else 0
  {
    GoodRoom(s);
    FindDecides(s, k);
    var p := Find(s, k);
    if s[p].occupied {
      ClearFound(s, k);
      ReinsertRestores(s[p := Cleared(s[p])], p, Succ(p, |s|), |s|);
    } else {
      assert View(s) == View(s) - {k};
    }
    LoadedLess(Count(Remove(s, k)), Count(s), |s|);
  }

  // ----- whole runs -----

  /** The value `come_map_get` returns; NULL when the key is absent. */
  function Lookup(s: Slots, k: Text): Value {
    if s[Find(s, k)].occupied then s[Find(s, k)].value else 0
  }

  datatype Op = OpPut(key: Text, value: Value) | OpRemove(key: Text) | OpGet(key: Text) | OpLen

  datatype Answer = Done | Got(value: Value) | Size(n: nat)

  function TableStep(s: Slots, op: Op): (Slots, Answer) {
    match op
    case OpPut(k, v) => (Put(s, k, v), Done)
    case OpRemove(k) => (Remove(s, k), Done)
    case OpGet(k) => (s, Got(Lookup(s, k)))
    case OpLen => (s, Size(Count(s)))
  }

  function MapStep(m: map<Text, Value>, op: Op): (map<Text, Value>, Answer) {
    match op
    case OpPut(k, v) => (m[k := v], Done)
    case OpRemove(k) => (m - {k}, Done)
    case OpGet(k) => (m, Got(if k in m then m[k] else 0))
    case OpLen => (m, Size(|m|))
  }

  function TableRun(s: Slots, ops: seq<Op>): (Slots, seq<Answer>)
    decreases |ops|
  {
    if ops == [] then (s, []) else
    var (t, a) := TableStep(s, ops[0]);
    var (u, rest) := TableRun(t, ops[1..]);
    (u, [a] + rest)
  }

  function MapRun(m: map<Text, Value>, ops: seq<Op>): (map<Text, Value>, seq<Answer>)
    decreases |ops|
  {
    if ops == [] then (m, []) else
    var (t, a) := MapStep(m, ops[0]);
    var (u, rest) := MapRun(t, ops[1..]);
    (u, [a] + rest)
  }

  /** Over every run the table answers as a finite map does, and ends well-formed and at most three quarters full. */
  lemma {:induction false} RunsAgree(s: Slots, ops: seq<Op>)
    requires Good(s)
    ensures Good(TableRun(s, ops).0)
    ensures View(TableRun(s, ops).0) == MapRun(View(s), ops).0
    ensures TableRun(s, ops).1 == MapRun(View(s), ops).1
    decreases |ops|
  {
    if ops != [] {
      match ops[0] {
        case OpPut(k, v) => PutKeepsGood(s, k, v);
        case OpRemove(k) => RemoveIsDelete(s, k);
        case OpGet(k) => GoodRoom(s); FindDecides(s, k);
        case OpLen => CountIsCardinality(s);
      }
      RunsAgree(TableStep(s, ops[0]).0, ops[1..]);
    }
  }
}
