/** Runs of public calls of talloc.c on the hierarchy: when the hierarchy stays a forest. */
module TallocRuns {
  import opened Basics
  import opened TallocForest
  import opened TallocLinks
  import opened TallocFree
  import opened TallocShape
  import opened TallocTrace
  import opened TallocMove
  import opened TallocCalls

  /** A call, with the block `malloc` or `realloc` returns for it; 0 if it returns NULL. `held` is the chunk's `size` field. */
  datatype Call =
    | Alloc(context: Addr, bytes: nat, block: Addr)
    | Reference(context: Addr, ptr: Addr, block: Addr)
    | Steal(context: Addr, ptr: Addr)
    | Unlink(context: Addr, ptr: Addr)
    | Free(ptr: Addr)
    | Realloc(context: Addr, ptr: Addr, bytes: nat, held: nat, block: Addr)

  /** NULL, or an address a caller may hold. */
  ghost predicate Passable(f: Forest, c: Addr) {
    c != 0 ==> Plain(f, c)
  }

  /** What a caller owes: live chunks, and fresh memory from `malloc`. */
  ghost predicate Allowed(f: Forest, call: Call) {
    match call
    case Alloc(context, _, block) => Passable(f, context) && block !in f
    case Reference(context, c, block) => Passable(f, context) && Passable(f, c) && block !in f
    case Steal(context, c) => Passable(f, context) && Passable(f, c)
    case Unlink(_, c) => Passable(f, c)
    case Free(c) => Passable(f, c)
    case Realloc(context, c, _, _, block) => Passable(f, context) && Passable(f, c) && (block !in f || (block == c && c != 0))
  }

  ghost predicate UnlinkStep(f: Forest, context: Addr, c: Addr, g: Forest) {
    if c == 0 then g == f else exists r :: Unlinked(f, g, context, c, r)
  }

  ghost predicate AllocStep(f: Forest, context: Addr, bytes: nat, block: Addr, g: Forest)
    requires Passable(f, context)
  {
    g == if bytes >= MAX_TALLOC_SIZE || block == 0 then f else Born(f, block, context)
  }

  /** Outside pools: nothing changes if c keeps its block, and if there is none to be had; else c is at its new address. */
  ghost predicate ReallocStep(f: Forest, c: Addr, bytes: nat, held: nat, block: Addr, g: Forest)
    requires c in f
  {
    if bytes >= MAX_TALLOC_SIZE || f[c].refs != [] || KeepsBlock(held, bytes) || block == 0 then g == f
    else Reallocated(f, g, c, block, block)
  }

  /** g is what the call makes of f, as the methods of the heap promise it. */
  ghost predicate Step(f: Forest, call: Call, g: Forest) {
    && Wf(g) && Idle(g) && Allowed(f, call)
    && match call
       case Alloc(context, bytes, block) => AllocStep(f, context, bytes, block, g)
       case Reference(context, c, block) =>
         if c == 0 || block == 0 then g == f else Targetable(Born(f, block, context), block, c) && g == Targeted(Born(f, block, context), block, c)
       case Steal(context, c) => g == if c == 0 then f else Stolen(f, context, c)
       case Unlink(context, c) => UnlinkStep(f, context, c, g)
       case Free(c) => if c == 0 then g == f else exists r :: FreeCalled(f, g, c, r)
       case Realloc(context, c, bytes, held, block) =>
         if bytes == 0 then UnlinkStep(f, context, c, g)
         else if c == 0 then AllocStep(f, context, bytes, block, g)
         else ReallocStep(f, c, bytes, held, block, g)
  }

  /** Giving up the context as a parent of c is harmless if it only drops a reference; if c then goes, when no chunk is
      stolen for its own descendant on the way; and if c is handed over, when its new context does not hang below it. */
  ghost predicate HarmlessUnlink(f: Forest, context: Addr, c: Addr) {
    if c !in f || ReferenceFrom(f, f[c].refs, context) != 0 || f[c].par != context then true
    else if f[c].refs == [] then Clean(f, c) else MayJoin(f, c, NewestContext(f, c))
  }

  /** A steal must not take a chunk below itself, and a free must not on its way. */
  ghost predicate Harmless(f: Forest, call: Call) {
    match call
    case Alloc(_, _, _) => true
    case Reference(_, _, _) => true
    case Steal(context, c) => c == 0 || MayJoin(f, c, context)
    case Unlink(context, c) => HarmlessUnlink(f, context, c)
    case Free(c) =>
      if c !in f then true
      else if f[c].refs == [] then Clean(f, c)
      else |f[c].refs| > 1 || f[c].par != 0 || MayJoin(f, c, NewestContext(f, c))
    case Realloc(context, c, bytes, _, _) => bytes == 0 ==> HarmlessUnlink(f, context, c)
  }

  lemma DroppedSound(f: Forest, g: Forest, c: Addr, h: Addr)
    requires Sound(f) && c in f && h in f[c].refs && Effect(f, g, {h}, map[]) && Wf(g) && Idle(g)
    ensures Sound(g)
  {
    assert NodeOk(f, c) && NodeOk(f, h);
    HandleKeys(f, g, h);
    SameParents(f, g);
  }

  lemma UnlinkSound(f: Forest, g: Forest, context: Addr, c: Addr)
    requires Sound(f) && Passable(f, c) && UnlinkStep(f, context, c, g) && Wf(g) && Idle(g)
    ensures Sound(g) <==> HarmlessUnlink(f, context, c)
  {
    assert 0 !in f;
    if c != 0 {
      var r :| Unlinked(f, g, context, c, r);
      var h := ReferenceFrom(f, f[c].refs, context);
      if h != 0 {
        DroppedSound(f, g, c, h);
      } else if f[c].par == context && f[c].refs != [] {
        NewestReference(f, c);
      }
    }
  }

  lemma FreeSound(f: Forest, g: Forest, c: Addr, r: int)
    requires Sound(f) && Plain(f, c) && FreeCalled(f, g, c, r) && Wf(g) && Idle(g)
    ensures Sound(g) <==> Harmless(f, Free(c))
  {
    if f[c].refs != [] {
      NewestReference(f, c);
      if |f[c].refs| == 1 && f[c].par == 0 && NullRef(f, c) { DroppedSound(f, g, c, f[c].refs[0]); }
    }
  }

  lemma AllocSound(f: Forest, context: Addr, bytes: nat, block: Addr, g: Forest)
    requires Sound(f) && Passable(f, context) && (block != 0 ==> block !in f) && AllocStep(f, context, bytes, block, g)
    ensures Sound(g)
  {
    if bytes < MAX_TALLOC_SIZE && block != 0 { BornSound(f, block, context); }
  }

  lemma ReallocSound(f: Forest, c: Addr, bytes: nat, held: nat, block: Addr, g: Forest)
    requires Sound(f) && Plain(f, c) && ReallocStep(f, c, bytes, held, block, g)
    ensures Sound(g)
  {
    if g != f { RenamedSound(f, c, block); }
  }

  /** A call on a sound hierarchy leaves a sound one exactly if it was harmless. */
  lemma StepSound(f: Forest, call: Call, g: Forest)
    requires Sound(f) && Step(f, call, g)
    ensures Sound(g) <==> Harmless(f, call)
  {
    match call
    case Alloc(context, bytes, block) =>
      AllocSound(f, context, bytes, block, g);
    case Reference(context, c, block) =>
      if c != 0 && block != 0 {
        BornSound(f, block, context);
        TargetedSound(Born(f, block, context), block, c);
      }
    case Steal(context, c) =>
      if c != 0 { StolenSound(f, context, c); }
    case Unlink(context, c) =>
      UnlinkSound(f, g, context, c);
    case Free(c) =>
      assert 0 !in f;
      if c != 0 {
        var r :| FreeCalled(f, g, c, r);
        FreeSound(f, g, c, r);
      }
    case Realloc(context, c, bytes, held, block) =>
      if bytes == 0 {
        UnlinkSound(f, g, context, c);
      } else if c == 0 {
        AllocSound(f, context, bytes, block, g);
      } else {
        ReallocSound(f, c, bytes, held, block, g);
      }
  }

  /** Calls made one after the other, beginning with no chunks at all. */
  ghost predicate Run(calls: seq<Call>, states: seq<Forest>) {
    && |states| == |calls| + 1 && states[0] == map[]
    && forall i {:trigger calls[i]} :: 0 <= i < |calls| ==> Step(states[i], calls[i], states[i + 1])
  }

  lemma {:induction false} HarmlessSound(calls: seq<Call>, states: seq<Forest>, n: nat)
    requires Run(calls, states) && n <= |calls| && forall i :: 0 <= i < n ==> Harmless(states[i], calls[i])
    ensures Sound(states[n])
    decreases n
  {
    if n == 0 {
      NothingSound();
    } else {
      HarmlessSound(calls, states, n - 1);
      StepSound(states[n - 1], calls[n - 1], states[n]);
    }
  }

  /** Over a whole run the hierarchy stays a forest exactly if every call was harmless when it was made. */
  lemma {:induction false} RunSound(calls: seq<Call>, states: seq<Forest>)
    requires Run(calls, states)
    ensures (forall i :: 0 <= i < |states| ==> Sound(states[i])) <==> (forall i :: 0 <= i < |calls| ==> Harmless(states[i], calls[i]))
  {
    if forall i :: 0 <= i < |calls| ==> Harmless(states[i], calls[i]) {
      forall i | 0 <= i < |states| ensures Sound(states[i]) { HarmlessSound(calls, states, i); }
    }
    if forall i :: 0 <= i < |states| ==> Sound(states[i]) {
      forall i | 0 <= i < |calls| ensures Harmless(states[i], calls[i]) { StepSound(states[i], calls[i], states[i + 1]); }
    }
  }

  // ----- what can be seen before a call -----

  /** Does the call free its chunk, rather than refuse, drop a reference or hand it over? */
  ghost predicate Goes(f: Forest, call: Call) {
    match call
    case Alloc(_, _, _) => false
    case Reference(_, _, _) => false
    case Steal(_, _) => false
    case Unlink(context, c) => c in f && f[c].refs == [] && f[c].par == context
    case Free(c) => c in f && f[c].refs == []
    case Realloc(context, c, bytes, _, _) => bytes == 0 && c in f && f[c].refs == [] && f[c].par == context
  }

  /** A call whose harm can be told from the references: if it frees its chunk, that chunk is prudent, or every reference into
      its subtree comes from outside or from below its own target. */
  ghost predicate Telling(f: Forest, call: Call) {
    Goes(f, call) ==> Prudent(f, call.ptr) || Tame(f, call.ptr)
  }

  /** The harm told from the references: there is none to a prudent chunk, and otherwise none without a troubled one. */
  ghost predicate Safe(f: Forest, call: Call) {
    if Goes(f, call) then Prudent(f, call.ptr) || !Trouble(f, call.ptr) else Harmless(f, call)
  }

  lemma SafeIsHarmless(f: Forest, call: Call, g: Forest)
    requires Sound(f) && Step(f, call, g) && Telling(f, call)
    ensures Safe(f, call) <==> Harmless(f, call)
  {
    if Goes(f, call) {
      assert ReferenceFrom(f, f[call.ptr].refs, f[call.ptr].par) == 0;
      if call.Free? { var r :| FreeCalled(f, g, call.ptr, r); }
      if !call.Free? { var r :| Unlinked(f, g, call.context, call.ptr, r); }
    }
  }

  /** Over a run of such calls the hierarchy stays a forest exactly if every call was safe. */
  lemma {:induction false} TellingRunSound(calls: seq<Call>, states: seq<Forest>)
    requires Run(calls, states) && forall i :: 0 <= i < |calls| ==> Telling(states[i], calls[i])
    ensures (forall i :: 0 <= i < |states| ==> Sound(states[i])) <==> (forall i :: 0 <= i < |calls| ==> Safe(states[i], calls[i]))
  {
    if forall i :: 0 <= i < |states| ==> Sound(states[i]) {
      RunSound(calls, states);
      forall i | 0 <= i < |calls| ensures Safe(states[i], calls[i]) { SafeIsHarmless(states[i], calls[i], states[i + 1]); }
    }
    if forall i :: 0 <= i < |calls| ==> Safe(states[i], calls[i]) {
      forall i | 0 <= i < |states| ensures Sound(states[i]) { SafeSound(calls, states, i); }
    }
  }

  lemma {:induction false} SafeSound(calls: seq<Call>, states: seq<Forest>, n: nat)
    requires Run(calls, states) && n <= |calls| && forall i :: 0 <= i < n ==> Telling(states[i], calls[i]) && Safe(states[i], calls[i])
    ensures Sound(states[n])
    decreases n
  {
    if n == 0 {
      NothingSound();
    } else {
      SafeSound(calls, states, n - 1);
      SafeIsHarmless(states[n - 1], calls[n - 1], states[n]);
      StepSound(states[n - 1], calls[n - 1], states[n]);
    }
  }

  // ----- what harmless calls lead to -----

  /** A run of harmless calls leads from nothing to f. */
  ghost predicate Reachable(f: Forest) {
    exists calls, states :: HarmlessRun(calls, states) && states[|calls|] == f
  }

  ghost predicate HarmlessStep(f: Forest, call: Call, g: Forest) {
    Step(f, call, g) && Harmless(f, call)
  }

  ghost predicate HarmlessRun(calls: seq<Call>, states: seq<Forest>) {
    && |states| == |calls| + 1 && states[0] == map[]
    && forall i {:trigger calls[i]} :: 0 <= i < |calls| ==> HarmlessStep(states[i], calls[i], states[i + 1])
  }

  lemma ReachableSound(f: Forest)
    requires Reachable(f)
    ensures Sound(f)
  {
    var calls, states :| HarmlessRun(calls, states) && states[|calls|] == f;
    HarmlessSound(calls, states, |calls|);
  }

  lemma ReachableNone()
    ensures Reachable(map[])
  {
    var calls: seq<Call>, states: seq<Forest> := [], [map[]];
    assert HarmlessRun(calls, states) && states[|calls|] == map[];
  }

  lemma ReachableStep(f: Forest, call: Call, g: Forest)
    requires Reachable(f) && HarmlessStep(f, call, g)
    ensures Reachable(g)
  {
    var calls, states :| HarmlessRun(calls, states) && states[|calls|] == f;
    LongerRun(calls, states, call, g);
    assert (states + [g])[|calls + [call]|] == g;
  }

  lemma LongerRun(calls: seq<Call>, states: seq<Forest>, call: Call, g: Forest)
    requires HarmlessRun(calls, states) && HarmlessStep(states[|calls|], call, g)
    ensures HarmlessRun(calls + [call], states + [g])
  {
    var calls', states' := calls + [call], states + [g];
    forall i | 0 <= i < |calls'| ensures HarmlessStep(states'[i], calls'[i], states'[i + 1]) {
      if i < |calls| { assert calls'[i] == calls[i] && states'[i] == states[i] && states'[i + 1] == states[i + 1]; }
    }
  }

  lemma ReachBorn(f: Forest, b: Addr, context: Addr) returns (g: Forest)
    requires Reachable(f) && b !in f && b != 0 && Passable(f, context)
    ensures Reachable(g) && g.Keys == f.Keys + {b} && g[b] == Node(context, [], [], false, 0)
    ensures context != 0 ==> g[context] == f[context].(kids := [b] + f[context].kids)
    ensures forall a :: a in f && a != context ==> g[a] == f[a]
  {
    ReachableSound(f);
    BornSound(f, b, context);
    BornFacts(f, b, context);
    g := Born(f, b, context);
    ReachableStep(f, Alloc(context, 0, b), g);
  }

  lemma ReachReference(f: Forest, b: Addr, context: Addr, c: Addr) returns (g: Forest)
    requires Reachable(f) && b !in f && b != 0 && Plain(f, context) && Plain(f, c) && c != context
    ensures Reachable(g) && g.Keys == f.Keys + {b} && g[b] == Node(context, [], [], false, c)
    ensures g[context] == f[context].(kids := [b] + f[context].kids) && g[c] == f[c].(refs := [b] + f[c].refs)
    ensures forall a :: a in f && a != context && a != c ==> g[a] == f[a]
  {
    ReachableSound(f);
    BornSound(f, b, context);
    BornFacts(f, b, context);
    BornTarget(f, b, context, c);
    TargetedSound(Born(f, b, context), b, c);
    assert 0 !in f;
    g := Targeted(Born(f, b, context), b, c);
    ReachableStep(f, Reference(context, c, b), g);
  }
}
