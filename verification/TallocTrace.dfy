/** The recursion of `_tc_free_internal` and `_tc_free_children_internal` as a function of the hierarchy, for every free
    whatever the references: what it leaves, and whether it stole a chunk for one of the chunk's own descendants. */
module TallocTrace {
  import opened Basics
  import opened TallocForest
  import opened TallocLinks
  import opened TallocRings
  import opened TallocFree
  import opened TallocShape

  /** The hierarchy a free leaves, its result, and whether every chunk it stole went to a context not below that chunk. */
  datatype Freed = Freed(f: Forest, r: int, clean: bool)

  /** A chunk may go to np unless np hangs below it. */
  ghost predicate MayJoin(f: Forest, c: Addr, np: Addr) {
    np == 0 || np == c || !Below(f, np, c)
  }

  ghost function NewestContext(f: Forest, c: Addr): Addr {
    if HasHead(f, c) then f[f[c].refs[0]].par else 0
  }

  ghost function After(clean: bool, d: Option<Freed>): Option<Freed> {
    if d.None? then None else Some(d.value.(clean := clean && d.value.clean))
  }

  /** A child that was not freed is stolen, unless it is no child any more. */
  ghost function GivenAway(d: Freed, c: Addr, x: Addr, newest: Addr): Option<Freed> {
    var np := if newest == 0 && c in d.f then d.f[c].par else newest;
    if x !in d.f || (np != 0 && np !in d.f) then None
    else if d.f[x].par != c then Some(Freed(d.f, 0, d.clean))
    else Some(Freed(Stolen(d.f, np, x), 0, d.clean && MayJoin(d.f, x, np)))
  }

  /** `_tc_free_internal` with at most n calls inside each other; None if that is too few, or if a pointer dangles. */
  ghost function FreeOf(f: Forest, c: Addr, n: nat): Option<Freed>
    decreases n
  {
    if n == 0 || c !in f then None
    else if f[c].refs != [] then
      var h := f[c].refs[0];
      var d := FreeOf(f, h, n - 1);
      if d.None? then None
      else if Sees(f, h, c) then After(d.value.clean, FreeOf(d.value.f, c, n - 1))
      else Some(Freed(d.value.f, -1, d.value.clean))
    else if f[c].loose then Some(Freed(f, 0, true))
    else if f[c].target != 0 && f[c].target !in f then None
    else
      var d := KidsFreed(Prepared(f, c), c, n - 1);
      if d.None? then None else Some(Freed(d.value.f - {c}, 0, d.value.clean))
  }

  /** `_tc_free_children_internal`. */
  ghost function KidsFreed(f: Forest, c: Addr, n: nat): Option<Freed>
    decreases n
  {
    if n == 0 || c !in f then None
    else if f[c].kids == [] then Some(Freed(f, 0, true))
    else
      var d := KidFreed(f, c, n - 1);
      if d.None? then None else After(d.value.clean, KidsFreed(d.value.f, c, n - 1))
  }

  /** One round of its loop. */
  ghost function KidFreed(f: Forest, c: Addr, n: nat): Option<Freed>
    decreases n
  {
    if n == 0 || c !in f || f[c].kids == [] then None
    else
      var x := f[c].kids[0];
      var d := FreeOf(f, x, n - 1);
      if d.None? then None
      else if d.value.r == 0 then d
      else GivenAway(d.value, c, x, NewestContext(f, x))
  }

  // ----- more calls allowed change nothing -----

  lemma {:induction false} FreeMore(f: Forest, c: Addr, n: nat)
    requires FreeOf(f, c, n).Some?
    ensures FreeOf(f, c, n + 1) == FreeOf(f, c, n)
    decreases n
  {
    if f[c].refs != [] {
      var h := f[c].refs[0];
      FreeMore(f, h, n - 1);
      var d := FreeOf(f, h, n - 1).value;
      if Sees(f, h, c) { FreeMore(d.f, c, n - 1); }
    } else if !f[c].loose {
      KidsMore(Prepared(f, c), c, n - 1);
    }
  }

  lemma {:induction false} KidsMore(f: Forest, c: Addr, n: nat)
    requires KidsFreed(f, c, n).Some?
    ensures KidsFreed(f, c, n + 1) == KidsFreed(f, c, n)
    decreases n
  {
    if f[c].kids != [] {
      KidMore(f, c, n - 1);
      KidsMore(KidFreed(f, c, n - 1).value.f, c, n - 1);
    }
  }

  lemma {:induction false} KidMore(f: Forest, c: Addr, n: nat)
    requires KidFreed(f, c, n).Some?
    ensures KidFreed(f, c, n + 1) == KidFreed(f, c, n)
    decreases n
  {
    FreeMore(f, f[c].kids[0], n - 1);
  }

  lemma {:induction false} FreeUpTo(f: Forest, c: Addr, n: nat, m: nat)
    requires FreeOf(f, c, n).Some? && n <= m
    ensures FreeOf(f, c, m) == FreeOf(f, c, n)
    decreases m
  {
    if n < m {
      FreeUpTo(f, c, n, m - 1);
      FreeMore(f, c, m - 1);
    }
  }

  lemma {:induction false} KidsUpTo(f: Forest, c: Addr, n: nat, m: nat)
    requires KidsFreed(f, c, n).Some? && n <= m
    ensures KidsFreed(f, c, m) == KidsFreed(f, c, n)
    decreases m
  {
    if n < m {
      KidsUpTo(f, c, n, m - 1);
      KidsMore(f, c, m - 1);
    }
  }

  lemma {:induction false} KidUpTo(f: Forest, c: Addr, n: nat, m: nat)
    requires KidFreed(f, c, n).Some? && n <= m
    ensures KidFreed(f, c, m) == KidFreed(f, c, n)
    decreases m
  {
    if n < m {
      KidUpTo(f, c, n, m - 1);
      KidMore(f, c, m - 1);
    }
  }

  // ----- a run and what it leads to -----

  ghost predicate Frees(f: Forest, c: Addr, d: Freed) {
    exists n {:trigger FreeOf(f, c, n)} :: FreeOf(f, c, n) == Some(d)
  }

  ghost predicate FreesKids(f: Forest, c: Addr, d: Freed) {
    exists n {:trigger KidsFreed(f, c, n)} :: KidsFreed(f, c, n) == Some(d)
  }

  ghost predicate FreesKid(f: Forest, c: Addr, d: Freed) {
    exists n {:trigger KidFreed(f, c, n)} :: KidFreed(f, c, n) == Some(d)
  }

  /** There is only one way a free can go. */
  lemma FreesOneWay(f: Forest, c: Addr, d: Freed, e: Freed)
    requires Frees(f, c, d) && Frees(f, c, e)
    ensures d == e
  {
    var n: nat :| FreeOf(f, c, n) == Some(d);
    var m: nat :| FreeOf(f, c, m) == Some(e);
    FreeUpTo(f, c, n, n + m);
    FreeUpTo(f, c, m, n + m);
  }

  // The rules by which runs are put together.

  lemma FreesRefused(f: Forest, c: Addr, d: Freed)
    requires c in f && f[c].refs != [] && Frees(f, f[c].refs[0], d) && !Sees(f, f[c].refs[0], c)
    ensures Frees(f, c, Freed(d.f, -1, d.clean))
  {
    var n: nat :| FreeOf(f, f[c].refs[0], n) == Some(d);
    assert FreeOf(f, c, n + 1) == Some(Freed(d.f, -1, d.clean));
  }

  lemma FreesRetried(f: Forest, c: Addr, d: Freed, e: Freed)
    requires c in f && f[c].refs != [] && Frees(f, f[c].refs[0], d) && Sees(f, f[c].refs[0], c) && Frees(d.f, c, e)
    ensures Frees(f, c, e.(clean := d.clean && e.clean))
  {
    var h := f[c].refs[0];
    var n: nat :| FreeOf(f, h, n) == Some(d);
    var m: nat :| FreeOf(d.f, c, m) == Some(e);
    FreeUpTo(f, h, n, n + m);
    FreeUpTo(d.f, c, m, n + m);
    assert FreeOf(f, c, n + m + 1) == Some(e.(clean := d.clean && e.clean));
  }

  lemma FreesTree(f: Forest, c: Addr, d: Freed)
    requires c in f && f[c].refs == [] && !f[c].loose && (f[c].target != 0 ==> f[c].target in f)
    requires FreesKids(Prepared(f, c), c, d)
    ensures Frees(f, c, Freed(d.f - {c}, 0, d.clean))
  {
    var n: nat :| KidsFreed(Prepared(f, c), c, n) == Some(d);
    assert FreeOf(f, c, n + 1) == Some(Freed(d.f - {c}, 0, d.clean));
  }

  lemma FreesNoKids(f: Forest, c: Addr)
    requires c in f && f[c].kids == []
    ensures FreesKids(f, c, Freed(f, 0, true))
  {
    assert KidsFreed(f, c, 1) == Some(Freed(f, 0, true));
  }

  lemma FreesNextKid(f: Forest, c: Addr, d: Freed, e: Freed)
    requires c in f && f[c].kids != [] && FreesKid(f, c, d) && FreesKids(d.f, c, e)
    ensures FreesKids(f, c, e.(clean := d.clean && e.clean))
  {
    var n: nat :| KidFreed(f, c, n) == Some(d);
    var m: nat :| KidsFreed(d.f, c, m) == Some(e);
    KidUpTo(f, c, n, n + m);
    KidsUpTo(d.f, c, m, n + m);
    assert KidsFreed(f, c, n + m + 1) == Some(e.(clean := d.clean && e.clean));
  }

  lemma FreesKidAway(f: Forest, c: Addr, d: Freed)
    requires c in f && f[c].kids != [] && Frees(f, f[c].kids[0], d) && d.r == 0
    ensures FreesKid(f, c, d)
  {
    var n: nat :| FreeOf(f, f[c].kids[0], n) == Some(d);
    assert KidFreed(f, c, n + 1) == Some(d);
  }

  lemma FreesKidMoved(f: Forest, c: Addr, d: Freed, np: Addr)
    requires c in f && f[c].kids != [] && Frees(f, f[c].kids[0], d) && d.r != 0
    requires f[c].kids[0] in d.f && d.f[f[c].kids[0]].par == c && c in d.f && (np != 0 ==> np in d.f)
    requires np == if NewestContext(f, f[c].kids[0]) == 0 then d.f[c].par else NewestContext(f, f[c].kids[0])
    ensures FreesKid(f, c, Freed(Stolen(d.f, np, f[c].kids[0]), 0, d.clean && MayJoin(d.f, f[c].kids[0], np)))
  {
    var x := f[c].kids[0];
    var n: nat :| FreeOf(f, x, n) == Some(d);
    assert KidFreed(f, c, n + 1) == Some(Freed(Stolen(d.f, np, x), 0, d.clean && MayJoin(d.f, x, np)));
  }

  /** A handle without children goes alone. */
  lemma FreesHandle(f: Forest, h: Addr)
    requires Wf(f) && h in f && !f[h].loose && f[h].target != 0
    ensures f[h].target in f && Frees(f, h, Freed(Prepared(f, h) - {h}, 0, true))
  {
    assert NodeOk(f, h);
    PreparedIs(f, h);
    FreesNoKids(Prepared(f, h), h);
    FreesTree(f, h, Freed(Prepared(f, h), 0, true));
  }
}
