/** Exactly which matches the engine finds, without reference to how it looks for them, and some that it misses. */
module RegexExact {
  import opened Basics
  import opened RegexSyntax
  import opened RegexMeaning

  // ----- the matches within reach -----

  /** One more repetition, as the engine takes it: a character, or the preferred match of a group's body if that is not
      empty. A group is never matched in another way than the preferred one. */
  ghost predicate Step(P: string, T: string, atom: Atom, i: nat, j: nat)
    decreases atom, 1
  {
    i < |T| && i < j && if atom.Group? then Preferred(P, T, atom.body, i, j) else j == i + 1 && CharHas(P, atom, T[i])
  }

  /** Always true: it names what a quantifier below is about. */
  ghost predicate Pick(k: nat, m: nat, j: nat) {
    true
  }

  ghost predicate Steps(P: string, T: string, atom: Atom, i: nat, j: nat, k: nat)
    decreases atom, 2, k
  {
    if k == 0 then j == i
    else exists m: nat {:trigger Pick(k, m, j)} :: Pick(k, m, j) && Steps(P, T, atom, i, m, k - 1) && Step(P, T, atom, m, j)
  }

  /** At the end of the text no item is begun but a `$`, and an item that is a group is begun only where the group matches. */
  ghost predicate Enterable(P: string, T: string, atom: Atom, i: nat)
    decreases atom, 2
  {
    if atom.Group? then i < |T| && exists j: nat :: Preferred(P, T, atom.body, i, j)
    else !atom.Unclosed? && (i < |T| || atom == Literal('$'))
  }

  /** From i to m with k repetitions, of which there are at most 511. */
  ghost predicate Way(P: string, T: string, atom: Atom, lo: nat, hi: int, i: nat, k: nat, m: nat)
    decreases atom, 3
  {
    lo <= k < MAX_POSITIONS && (hi < 0 || k <= hi) && Steps(P, T, atom, i, m, k)
  }

  /** The matches within the engine's reach. */
  ghost predicate Reachable(P: string, T: string, re: Regex, i: nat, j: nat)
    decreases re, 0
  {
    match re
    case Done => i == j <= |T|
    case Dollar => i == j == |T|
    case Then(atom, lo, hi, rest) =>
      && Enterable(P, T, atom, i)
      && exists k: nat, m: nat {:trigger Pick(k, m, j)} :: Pick(k, m, j) && Way(P, T, atom, lo, hi, i, k, m) && Reachable(P, T, rest, m, j)
  }

  /** Some match is within reach. */
  ghost predicate Alive(P: string, T: string, re: Regex, i: nat) {
    exists j: nat :: Reachable(P, T, re, i, j)
  }

  /** The one among them that counts: each item is repeated as often as leaves the rest of the pattern within reach. */
  ghost predicate Preferred(P: string, T: string, re: Regex, i: nat, j: nat)
    decreases re, 3
  {
    match re
    case Done => i == j <= |T|
    case Dollar => i == j == |T|
    case Then(atom, lo, hi, rest) =>
      && Enterable(P, T, atom, i)
      && exists k: nat, m: nat {:trigger Pick(k, m, j)} ::
           Pick(k, m, j) && Way(P, T, atom, lo, hi, i, k, m) && Preferred(P, T, rest, m, j) && Longest(P, T, re, i, k)
  }

  /** With more than k repetitions of the first item the rest is out of reach. */
  ghost predicate Longest(P: string, T: string, re: Regex, i: nat, k: nat)
    requires re.Then?
    decreases re, 2
  {
    forall k': nat, m: nat, j: nat {:trigger Pick(k', m, j)} ::
      Pick(k', m, j) && k < k' && Way(P, T, re.atom, re.lo, re.hi, i, k', m) ==> !Reachable(P, T, re.rest, m, j)
  }

  lemma ReachableThen(P: string, T: string, re: Regex, i: nat, j: nat)
    requires re.Then?
    ensures Reachable(P, T, re, i, j) <==>
      Enterable(P, T, re.atom, i) &&
      exists k: nat, m: nat {:trigger Pick(k, m, j)} ::
        Pick(k, m, j) && Way(P, T, re.atom, re.lo, re.hi, i, k, m) && Reachable(P, T, re.rest, m, j)
  {
  }

  lemma PreferredThen(P: string, T: string, re: Regex, i: nat, j: nat)
    requires re.Then?
    ensures Preferred(P, T, re, i, j) <==>
      Enterable(P, T, re.atom, i) &&
      exists k: nat, m: nat {:trigger Pick(k, m, j)} ::
        Pick(k, m, j) && Way(P, T, re.atom, re.lo, re.hi, i, k, m) && Preferred(P, T, re.rest, m, j) && Longest(P, T, re, i, k)
  {
  }

  /** The repetitions of the first item of a match within reach. */
  lemma ReachableWay(P: string, T: string, re: Regex, i: nat, j: nat) returns (k: nat, m: nat)
    requires re.Then? && Reachable(P, T, re, i, j)
    ensures Way(P, T, re.atom, re.lo, re.hi, i, k, m) && Reachable(P, T, re.rest, m, j)
  {
    ReachableThen(P, T, re, i, j);
    k, m :| Pick(k, m, j) && Way(P, T, re.atom, re.lo, re.hi, i, k, m) && Reachable(P, T, re.rest, m, j);
  }

  lemma PreferredWay(P: string, T: string, re: Regex, i: nat, j: nat) returns (k: nat, m: nat)
    requires re.Then? && Preferred(P, T, re, i, j)
    ensures Way(P, T, re.atom, re.lo, re.hi, i, k, m) && Preferred(P, T, re.rest, m, j) && Longest(P, T, re, i, k)
  {
    PreferredThen(P, T, re, i, j);
    k, m :| Pick(k, m, j) && Way(P, T, re.atom, re.lo, re.hi, i, k, m) && Preferred(P, T, re.rest, m, j) && Longest(P, T, re, i, k);
  }

  lemma EndIs(P: string, T: string, re: Regex, i: nat, j: nat)
    requires !re.Then?
    ensures Reachable(P, T, re, i, j) <==> Preferred(P, T, re, i, j)
    ensures Reachable(P, T, re, i, j) <==> i == j <= |T| && (re.Dollar? ==> i == |T|)
  {
  }

  // ----- the greedy run -----

  lemma {:induction false} StepIs(P: string, T: string, atom: Atom, i: nat, j: nat)
    requires i <= |T|
    ensures Step(P, T, atom, i, j) <==> Once(P, T, atom, i) == Some(j) && j != i
    decreases atom, 1
  {
    if i < |T| && atom.Group? { FirstFound(P, T, atom.body, i); }
  }

  lemma {:induction false} EnterableIs(P: string, T: string, atom: Atom, i: nat)
    requires i <= |T|
    ensures Enterable(P, T, atom, i) <==> Startable(P, T, atom, i)
    decreases atom, 2
  {
    if i < |T| && atom.Group? {
      FirstFound(P, T, atom.body, i);
      if First(P, T, atom.body, i).Some? { assert Preferred(P, T, atom.body, i, First(P, T, atom.body, i).value); }
    }
  }

  lemma StepsLast(P: string, T: string, atom: Atom, i: nat, j: nat, k: nat) returns (b: nat)
    requires Steps(P, T, atom, i, j, k) && k > 0
    ensures Steps(P, T, atom, i, b, k - 1) && Step(P, T, atom, b, j)
  {
    b :| Pick(k, b, j) && Steps(P, T, atom, i, b, k - 1) && Step(P, T, atom, b, j);
  }

  lemma {:induction false} StepsShorter(P: string, T: string, atom: Atom, i: nat, j: nat, k: nat, n: nat) returns (m: nat)
    requires Steps(P, T, atom, i, j, k) && n <= k
    ensures Steps(P, T, atom, i, m, n)
    decreases k
  {
    m := j;
    if n < k {
      var b := StepsLast(P, T, atom, i, j, k);
      m := StepsShorter(P, T, atom, i, b, k - 1, n);
    }
  }

  /** xs are the only places to get to from i. */
  ghost predicate Trail(P: string, T: string, atom: Atom, i: nat, xs: seq<nat>) {
    && |xs| > 0
    && forall k: nat, m: nat {:trigger Steps(P, T, atom, i, m, k)} :: k < |xs| ==> (Steps(P, T, atom, i, m, k) <==> m == xs[k])
  }

  ghost predicate InText(T: string, xs: seq<nat>) {
    forall x :: 0 <= x < |xs| ==> xs[x] <= |T|
  }

  lemma {:induction false} TrailGrows(P: string, T: string, atom: Atom, i: nat, xs: seq<nat>, next: nat)
    requires Trail(P, T, atom, i, xs) && xs[|xs| - 1] <= |T| && Once(P, T, atom, xs[|xs| - 1]) == Some(next) && next != xs[|xs| - 1]
    ensures Trail(P, T, atom, i, xs + [next])
    decreases atom, 2
  {
    var n, last := |xs|, xs[|xs| - 1];
    forall m: nat ensures Steps(P, T, atom, i, m, n) <==> m == next {
      StepIs(P, T, atom, last, m);
      assert Steps(P, T, atom, i, last, n - 1) && Pick(n, last, m);
      if Steps(P, T, atom, i, m, n) {
        var b := StepsLast(P, T, atom, i, m, n);
      }
    }
  }

  lemma {:induction false} TrailStops(P: string, T: string, atom: Atom, i: nat, xs: seq<nat>, k: nat, m: nat)
    requires Trail(P, T, atom, i, xs) && xs[|xs| - 1] <= |T| && Steps(P, T, atom, i, m, k)
    requires Once(P, T, atom, xs[|xs| - 1]).None? || Once(P, T, atom, xs[|xs| - 1]).value == xs[|xs| - 1]
    ensures k < |xs|
    decreases atom, 2
  {
    if |xs| <= k {
      var e := StepsShorter(P, T, atom, i, m, k, |xs|);
      var b := StepsLast(P, T, atom, i, e, |xs|);
      StepIs(P, T, atom, b, e);
    }
  }

  /** The engine's run visits exactly the places its repetitions get to. */
  ghost predicate RunCovers(P: string, T: string, atom: Atom, hi: int, i: nat, xs: seq<nat>) {
    && Trail(P, T, atom, i, xs) && InText(T, xs) && |xs| <= MAX_POSITIONS && (hi < 0 || |xs| <= hi + 1)
    && forall k: nat, m: nat {:trigger Steps(P, T, atom, i, m, k)} ::
         k < MAX_POSITIONS && (hi < 0 || k <= hi) && Steps(P, T, atom, i, m, k) ==> k < |xs|
  }

  lemma {:induction false} RunIs(P: string, T: string, atom: Atom, hi: int, i: nat, xs: seq<nat>)
    requires 0 < |xs| <= MAX_POSITIONS && Trail(P, T, atom, i, xs) && InText(T, xs) && (hi < 0 || |xs| <= hi + 1)
    ensures RunCovers(P, T, atom, hi, i, Run(P, T, atom, hi, xs))
    decreases atom, 3, MAX_POSITIONS - |xs|
  {
    var n, last := |xs|, xs[|xs| - 1];
    if (hi < 0 || n <= hi) && n < MAX_POSITIONS {
      var next := Once(P, T, atom, last);
      if next.Some? && next.value != last {
        OnceSound(P, T, atom, last);
        TrailGrows(P, T, atom, i, xs, next.value);
        RunIs(P, T, atom, hi, i, xs + [next.value]);
      } else {
        forall k: nat, m: nat | Steps(P, T, atom, i, m, k) ensures k < n { TrailStops(P, T, atom, i, xs, k, m); }
      }
    }
  }

  lemma {:induction false} FirstRun(P: string, T: string, atom: Atom, hi: int, i: nat)
    requires i <= |T|
    ensures RunCovers(P, T, atom, hi, i, Run(P, T, atom, hi, [i]))
    decreases atom, 4
  {
    forall k: nat, m: nat | k < |[i]| ensures Steps(P, T, atom, i, m, k) <==> m == [i][k] {}
    RunIs(P, T, atom, hi, i, [i]);
  }

  /** The ways from i on end at the places of the run. */
  ghost predicate WaysAre(P: string, T: string, re: Regex, i: nat, xs: seq<nat>)
    requires re.Then?
  {
    forall k: nat, m: nat {:trigger Way(P, T, re.atom, re.lo, re.hi, i, k, m)} ::
      Way(P, T, re.atom, re.lo, re.hi, i, k, m) <==> re.lo <= k < |xs| && m == xs[k]
  }

  lemma RunWays(P: string, T: string, re: Regex, i: nat, xs: seq<nat>)
    requires re.Then? && RunCovers(P, T, re.atom, re.hi, i, xs)
    ensures WaysAre(P, T, re, i, xs)
  {
    forall k: nat, m: nat ensures Way(P, T, re.atom, re.lo, re.hi, i, k, m) <==> re.lo <= k < |xs| && m == xs[k] {
      if k < |xs| { assert Steps(P, T, re.atom, i, m, k) <==> m == xs[k]; }
    }
  }

  // ----- the last position that works -----

  lemma {:induction false} LatestFinds(P: string, T: string, rest: Regex, xs: seq<nat>, n: int, lo: nat) returns (k: nat)
    requires n < |xs| && Latest(P, T, rest, xs, n, lo).Some?
    ensures lo <= k <= n && First(P, T, rest, xs[k]) == Latest(P, T, rest, xs, n, lo)
    ensures forall x :: k < x <= n ==> First(P, T, rest, xs[x]).None?
    decreases n + 1
  {
    if First(P, T, rest, xs[n]).Some? { k := n; } else { k := LatestFinds(P, T, rest, xs, n - 1, lo); }
  }

  lemma {:induction false} LatestIs(P: string, T: string, rest: Regex, xs: seq<nat>, n: int, lo: nat, k: nat)
    requires n < |xs| && lo <= k <= n && First(P, T, rest, xs[k]).Some? && forall x :: k < x <= n ==> First(P, T, rest, xs[x]).None?
    ensures Latest(P, T, rest, xs, n, lo) == First(P, T, rest, xs[k])
    decreases n + 1
  {
    if k < n { LatestIs(P, T, rest, xs, n - 1, lo, k); }
  }

  lemma {:induction false} LatestNone(P: string, T: string, rest: Regex, xs: seq<nat>, n: int, lo: nat, k: nat)
    requires n < |xs| && lo <= k <= n && Latest(P, T, rest, xs, n, lo).None?
    ensures First(P, T, rest, xs[k]).None?
    decreases n + 1
  {
    if k < n { LatestNone(P, T, rest, xs, n - 1, lo, k); }
  }

  // ----- what the engine reports -----

  ghost predicate FoundRight(P: string, T: string, re: Regex, i: nat) {
    && (First(P, T, re, i).Some? <==> Alive(P, T, re, i))
    && forall j: nat :: Preferred(P, T, re, i, j) <==> First(P, T, re, i) == Some(j)
  }

  ghost predicate RestsFound(P: string, T: string, rest: Regex, xs: seq<nat>) {
    forall k: nat {:trigger xs[k]} :: k < |xs| ==> FoundRight(P, T, rest, xs[k])
  }

  lemma ThenAlive(P: string, T: string, re: Regex, i: nat, xs: seq<nat>)
    requires re.Then? && Enterable(P, T, re.atom, i) && WaysAre(P, T, re, i, xs) && RestsFound(P, T, re.rest, xs) && |xs| > 0
    ensures Latest(P, T, re.rest, xs, |xs| - 1, re.lo).Some? ==> Alive(P, T, re, i)
  {
    if Latest(P, T, re.rest, xs, |xs| - 1, re.lo).Some? {
      var k := LatestFinds(P, T, re.rest, xs, |xs| - 1, re.lo);
      var m := xs[k];
      assert FoundRight(P, T, re.rest, m);
      var j: nat :| Reachable(P, T, re.rest, m, j);
      assert Way(P, T, re.atom, re.lo, re.hi, i, k, m) && Pick(k, m, j);
      ReachableThen(P, T, re, i, j);
    }
  }

  lemma ReachableIsFound(P: string, T: string, re: Regex, i: nat, xs: seq<nat>, j: nat)
    requires re.Then? && WaysAre(P, T, re, i, xs) && RestsFound(P, T, re.rest, xs) && |xs| > 0 && Reachable(P, T, re, i, j)
    ensures Latest(P, T, re.rest, xs, |xs| - 1, re.lo).Some?
  {
    var k, m := ReachableWay(P, T, re, i, j);
    RestIsFound(P, T, re.rest, xs, k, j);
    NotNone(P, T, re.rest, xs, re.lo, k);
  }

  lemma NotNone(P: string, T: string, rest: Regex, xs: seq<nat>, lo: nat, k: nat)
    requires lo <= k < |xs| && First(P, T, rest, xs[k]).Some?
    ensures Latest(P, T, rest, xs, |xs| - 1, lo).Some?
  {
    if Latest(P, T, rest, xs, |xs| - 1, lo).None? { LatestNone(P, T, rest, xs, |xs| - 1, lo, k); }
  }

  lemma RestIsFound(P: string, T: string, rest: Regex, xs: seq<nat>, k: nat, j: nat)
    requires RestsFound(P, T, rest, xs) && k < |xs| && Reachable(P, T, rest, xs[k], j)
    ensures First(P, T, rest, xs[k]).Some?
  {
    assert FoundRight(P, T, rest, xs[k]);
  }

  lemma RestIsPreferred(P: string, T: string, rest: Regex, xs: seq<nat>, k: nat, j: nat)
    requires RestsFound(P, T, rest, xs) && k < |xs| && Preferred(P, T, rest, xs[k], j)
    ensures First(P, T, rest, xs[k]) == Some(j)
  {
    assert FoundRight(P, T, rest, xs[k]);
  }

  lemma FoundIsPreferred(P: string, T: string, re: Regex, i: nat, xs: seq<nat>, j: nat)
    requires re.Then? && Enterable(P, T, re.atom, i) && WaysAre(P, T, re, i, xs) && RestsFound(P, T, re.rest, xs) && |xs| > 0
    requires Latest(P, T, re.rest, xs, |xs| - 1, re.lo) == Some(j)
    ensures Preferred(P, T, re, i, j)
  {
    var k := LatestFinds(P, T, re.rest, xs, |xs| - 1, re.lo);
    var m := xs[k];
    assert FoundRight(P, T, re.rest, m);
    forall k': nat, m': nat, j': nat | k < k' && Way(P, T, re.atom, re.lo, re.hi, i, k', m') ensures !Reachable(P, T, re.rest, m', j') {
      assert FoundRight(P, T, re.rest, xs[k']);
    }
    assert Longest(P, T, re, i, k);
    assert Way(P, T, re.atom, re.lo, re.hi, i, k, m) && Pick(k, m, j);
    PreferredThen(P, T, re, i, j);
  }

  lemma LongerFails(P: string, T: string, re: Regex, i: nat, xs: seq<nat>, k: nat, x: nat)
    requires re.Then? && WaysAre(P, T, re, i, xs) && RestsFound(P, T, re.rest, xs) && Longest(P, T, re, i, k) && re.lo <= k < x < |xs|
    ensures First(P, T, re.rest, xs[x]).None?
  {
    var m := xs[x];
    assert Way(P, T, re.atom, re.lo, re.hi, i, x, m);
    assert FoundRight(P, T, re.rest, m);
    forall j: nat ensures !Reachable(P, T, re.rest, m, j) { assert Pick(x, m, j); }
  }

  /** Behind the k-th of the positions the rest is found from none. (The quantifier keeps proofs from looking into it.) */
  ghost predicate LastFound(P: string, T: string, rest: Regex, xs: seq<nat>, k: nat) {
    exists ys: seq<nat> {:trigger |ys|} :: ys == xs && forall x: nat {:trigger ys[x]} :: k < x < |ys| ==> First(P, T, rest, ys[x]).None?
  }

  lemma PreferredIsFound(P: string, T: string, re: Regex, i: nat, xs: seq<nat>, j: nat)
    requires re.Then? && WaysAre(P, T, re, i, xs) && RestsFound(P, T, re.rest, xs) && |xs| > 0 && Preferred(P, T, re, i, j)
    ensures Latest(P, T, re.rest, xs, |xs| - 1, re.lo) == Some(j)
  {
    var k := PreferredPlace(P, T, re, i, xs, j);
    LatestAt(P, T, re.rest, xs, re.lo, k);
  }

  lemma PreferredPlace(P: string, T: string, re: Regex, i: nat, xs: seq<nat>, j: nat) returns (k: nat)
    requires re.Then? && WaysAre(P, T, re, i, xs) && RestsFound(P, T, re.rest, xs) && Preferred(P, T, re, i, j)
    ensures re.lo <= k < |xs| && First(P, T, re.rest, xs[k]) == Some(j) && LastFound(P, T, re.rest, xs, k)
  {
    var m;
    k, m := PreferredWay(P, T, re, i, j);
    RestIsPreferred(P, T, re.rest, xs, k, j);
    LongerFail(P, T, re, i, xs, k);
  }

  lemma LongerFail(P: string, T: string, re: Regex, i: nat, xs: seq<nat>, k: nat)
    requires re.Then? && WaysAre(P, T, re, i, xs) && RestsFound(P, T, re.rest, xs) && Longest(P, T, re, i, k) && re.lo <= k
    ensures LastFound(P, T, re.rest, xs, k)
  {
    forall x: nat | k < x < |xs| ensures First(P, T, re.rest, xs[x]).None? { LongerFails(P, T, re, i, xs, k, x); }
  }

  lemma LatestAt(P: string, T: string, rest: Regex, xs: seq<nat>, lo: nat, k: nat)
    requires lo <= k < |xs| && First(P, T, rest, xs[k]).Some? && LastFound(P, T, rest, xs, k)
    ensures Latest(P, T, rest, xs, |xs| - 1, lo) == First(P, T, rest, xs[k])
  {
    LatestIs(P, T, rest, xs, |xs| - 1, lo, k);
  }

  lemma ThenFound(P: string, T: string, re: Regex, i: nat, xs: seq<nat>)
    requires re.Then? && Enterable(P, T, re.atom, i) && WaysAre(P, T, re, i, xs) && RestsFound(P, T, re.rest, xs) && |xs| > 0
    requires First(P, T, re, i) == Latest(P, T, re.rest, xs, |xs| - 1, re.lo)
    ensures FoundRight(P, T, re, i)
  {
    ThenAlive(P, T, re, i, xs);
    forall j: nat | Reachable(P, T, re, i, j) ensures First(P, T, re, i).Some? { ReachableIsFound(P, T, re, i, xs, j); }
    forall j: nat ensures Preferred(P, T, re, i, j) <==> First(P, T, re, i) == Some(j) {
      if Preferred(P, T, re, i, j) { PreferredIsFound(P, T, re, i, xs, j); }
      if First(P, T, re, i) == Some(j) { FoundIsPreferred(P, T, re, i, xs, j); }
    }
  }

  lemma NotEntered(P: string, T: string, re: Regex, i: nat)
    requires re.Then? && !Enterable(P, T, re.atom, i) && First(P, T, re, i).None?
    ensures FoundRight(P, T, re, i)
  {
    forall j: nat ensures !Reachable(P, T, re, i, j) && !Preferred(P, T, re, i, j) {
      ReachableThen(P, T, re, i, j);
      PreferredThen(P, T, re, i, j);
    }
  }

  lemma {:induction false} FirstFound(P: string, T: string, re: Regex, i: nat)
    requires i <= |T|
    ensures FoundRight(P, T, re, i)
    decreases re, 1
  {
    if re.Then? {
      ThenIs(P, T, re, i);
    } else {
      forall j: nat
        ensures Reachable(P, T, re, i, j) <==> First(P, T, re, i) == Some(j)
        ensures Preferred(P, T, re, i, j) <==> First(P, T, re, i) == Some(j)
      {
        EndIs(P, T, re, i, j);
      }
    }
  }

  lemma {:induction false} ThenIs(P: string, T: string, re: Regex, i: nat)
    requires i <= |T| && re.Then?
    ensures FoundRight(P, T, re, i)
    decreases re, 0
  {
    EnterableIs(P, T, re.atom, i);
    if Startable(P, T, re.atom, i) {
      var xs := Run(P, T, re.atom, re.hi, [i]);
      FirstRun(P, T, re.atom, re.hi, i);
      RunWays(P, T, re, i, xs);
      forall k: nat | k < |xs| ensures FoundRight(P, T, re.rest, xs[k]) { FirstFound(P, T, re.rest, xs[k]); }
      ThenFound(P, T, re, i, xs);
    } else {
      NotEntered(P, T, re, i);
    }
  }

  /** The engine reports a match exactly when there is one within reach, and then the preferred one: for every pattern, and
      every place in the text. */
  lemma FirstIs(P: string, T: string, re: Regex, i: nat)
    requires i <= |T|
    ensures First(P, T, re, i).Some? <==> Alive(P, T, re, i)
    ensures forall j: nat :: Preferred(P, T, re, i, j) <==> First(P, T, re, i) == Some(j)
  {
    FirstFound(P, T, re, i);
  }

  /** A pattern is found exactly when it has a match within reach; what is reported begins as early as one of these can, and
      ends where the preferred one does. */
  lemma SearchExact(P: string, T: string, re: Regex, anchored: bool)
    ensures Search(P, T, re, anchored, 0).Some? <==> exists s: nat :: s <= (if anchored then 0 else |T|) && Alive(P, T, re, s)
    ensures Search(P, T, re, anchored, 0).Some? ==>
              var (s, e) := Search(P, T, re, anchored, 0).value;
              s <= |T| && Preferred(P, T, re, s, e) && forall q: nat :: q < s ==> !Alive(P, T, re, q)
  {
    SearchLeftmost(P, T, re, anchored, 0);
    var r := Search(P, T, re, anchored, 0);
    forall s: nat | s <= (if anchored then 0 else |T|) && Alive(P, T, re, s) ensures r.Some? {
      FirstFound(P, T, re, s);
    }
    if r.Some? {
      var (s, e) := r.value;
      FirstFound(P, T, re, s);
      forall q: nat | q < s ensures !Alive(P, T, re, q) { FirstFound(P, T, re, q); }
    }
  }

  // ----- within reach and beyond -----

  lemma {:induction false} StepsRepeat(P: string, T: string, atom: Atom, i: nat, j: nat, k: nat)
    requires Steps(P, T, atom, i, j, k) && i <= |T|
    ensures i <= j <= |T| && Repeats(P, T, atom, i, j, k)
    decreases k
  {
    if k > 0 {
      var m := StepsLast(P, T, atom, i, j, k);
      StepsRepeat(P, T, atom, i, m, k - 1);
      StepIs(P, T, atom, m, j);
      OnceSound(P, T, atom, m);
      assert AtomMatches(P, T, atom, m, j);
    }
  }

  /** The matches within reach are matches. */
  lemma {:induction false} ReachableMatches(P: string, T: string, re: Regex, i: nat, j: nat)
    requires i <= |T| && Reachable(P, T, re, i, j)
    ensures Matches(P, T, re, i, j)
    decreases re
  {
    if re.Then? {
      var k, m := ReachableWay(P, T, re, i, j);
      StepsRepeat(P, T, re.atom, i, m, k);
      ReachableMatches(P, T, re.rest, m, j);
    } else {
      EndIs(P, T, re, i, j);
    }
  }

  lemma {:induction false} RepeatsStep(P: string, T: string, atom: Atom, i: nat, j: nat, k: nat)
    requires !atom.Group? && Repeats(P, T, atom, i, j, k) && i <= |T|
    ensures j == i + k <= |T| && Steps(P, T, atom, i, j, k)
    decreases k
  {
    if k > 0 {
      var m: nat :| i <= m <= j && Repeats(P, T, atom, i, m, k - 1) && AtomMatches(P, T, atom, m, j);
      RepeatsStep(P, T, atom, i, m, k - 1);
      assert Step(P, T, atom, m, j) && Pick(k, m, j);
    }
  }

  /** Without groups a match is within reach when it ends before the text does and is not longer than 511. */
  lemma {:induction false} MatchesReachable(P: string, T: string, re: Regex, i: nat, j: nat)
    requires GroupFree(re) && Matches(P, T, re, i, j) && i <= |T| && j < |T| && j < i + MAX_POSITIONS
    ensures i <= j && Reachable(P, T, re, i, j)
    decreases re
  {
    if re.Then? {
      var k: nat, m: nat :| re.lo <= k && (re.hi < 0 || k <= re.hi) && Repeats(P, T, re.atom, i, m, k) && Matches(P, T, re.rest, m, j);
      RepeatsStep(P, T, re.atom, i, m, k);
      MatchesReachable(P, T, re.rest, m, j);
      assert Way(P, T, re.atom, re.lo, re.hi, i, k, m) && Pick(k, m, j);
      ReachableThen(P, T, re, i, j);
    } else {
      EndIs(P, T, re, i, j);
    }
  }

  // ----- matches that are missed -----

  /** `a*` describes the empty text, and is not found in it: no atom is looked at where the text ends. */
  lemma StarMissesEmptyText()
    ensures var P := "a*"; var re := Then(Literal('a'), 0, -1, Done);
            && Decode(P, 0, '\0') == Good(re, 2)
            && Matches(P, "", re, 0, 0) && Search(P, "", re, false, 0).None?
  {
    var P := "a*";
    var re := Then(Literal('a'), 0, -1, Done);
    assert Decode(P, 2, '\0') == Good(Done, 2);
    assert DecodeAtom(P, 0) == GoodAtom(Literal('a'), 1);
    assert Repeats(P, "", re.atom, 0, 0, 0) && Matches(P, "", Done, 0, 0);
  }

  /** But for a `$` that is not the end of the pattern: `$*` is found there. */
  lemma DollarItemAtEnd()
    ensures var P := "$*"; var re := Then(Literal('$'), 0, -1, Done);
            Decode(P, 0, '\0') == Good(re, 2) && Search(P, "", re, false, 0) == Some((0, 0))
  {
    var P := "$*";
    var re := Then(Literal('$'), 0, -1, Done);
    assert Decode(P, 2, '\0') == Good(Done, 2);
    assert DecodeAtom(P, 0) == GoodAtom(Literal('$'), 1);
    assert Run(P, "", Literal('$'), -1, [0]) == [0];
    assert Latest(P, "", Done, [0], 0, 0) == Some(0);
  }

  /** `(a)?b` describes `b`, and is not found in it: a group that fails is not skipped. */
  lemma OptionalGroupNotSkipped()
    ensures var P, T := "(a)?b", "b";
            var body, tail := Then(Literal('a'), 1, 1, Done), Then(Literal('b'), 1, 1, Done);
            var re := Then(Group(0, body), 0, 1, tail);
            && Decode(P, 0, '\0') == Good(re, 5)
            && Matches(P, T, re, 0, 1) && Search(P, T, re, false, 0).None?
  {
    var P, T := "(a)?b", "b";
    var body, tail := Then(Literal('a'), 1, 1, Done), Then(Literal('b'), 1, 1, Done);
    var re := Then(Group(0, body), 0, 1, tail);
    OptionalGroupDecoded(P, body, tail);
    assert Repeats(P, T, Group(0, body), 0, 0, 0);
    assert AtomMatches(P, T, Literal('b'), 0, 1);
    assert Repeats(P, T, Literal('b'), 0, 0, 0) && Repeats(P, T, Literal('b'), 0, 1, 1) && Matches(P, T, Done, 1, 1);
    assert Matches(P, T, tail, 0, 1);
    assert Run(P, T, Literal('a'), 1, [0]) == [0];
    assert First(P, T, body, 0).None?;
    assert First(P, T, re, 0).None? && First(P, T, re, 1).None?;
  }

  lemma OptionalGroupDecoded(P: string, body: Regex, tail: Regex)
    requires P == "(a)?b" && body == Then(Literal('a'), 1, 1, Done) && tail == Then(Literal('b'), 1, 1, Done)
    ensures Decode(P, 0, '\0') == Good(Then(Group(0, body), 0, 1, tail), 5)
  {
    assert FindMatching(P, 0, '(', ')') == Some(2) by {
      assert FindFrom(P, 2, 1, false, '(', ')') == Some(2);
      assert FindFrom(P, 1, 1, false, '(', ')') == Some(2);
    }
    assert Decode(P, 2, ')') == Good(Done, 2);
    assert Decode(P, 1, ')') == Good(body, 2) by { assert DecodeAtom(P, 1) == GoodAtom(Literal('a'), 2); }
    assert DecodeAtom(P, 0) == GoodAtom(Group(0, body), 3);
    assert ReadQuant(P, 3) == Quant(0, 1, 4);
    assert Decode(P, 5, '\0') == Good(Done, 5);
    assert Decode(P, 4, '\0') == Good(tail, 5) by { assert DecodeAtom(P, 4) == GoodAtom(Literal('b'), 5); }
  }

  /** How `a*` and then `a` run over `aa`. */
  lemma RunsOverTwo(P: string, T: string)
    requires P == "(a*)a" && T == "aa"
    ensures First(P, T, Then(Literal('a'), 0, -1, Done), 0) == Some(2)
    ensures First(P, T, Then(Literal('a'), 0, -1, Done), 1) == Some(2)
    ensures First(P, T, Then(Literal('a'), 1, 1, Done), 2).None?
  {
    var a := Literal('a');
    assert Run(P, T, a, -1, [0, 1, 2]) == [0, 1, 2];
    assert Run(P, T, a, -1, [0, 1]) == [0, 1, 2];
    assert Run(P, T, a, -1, [0]) == [0, 1, 2];
    assert Run(P, T, a, -1, [1, 2]) == [1, 2];
    assert Run(P, T, a, -1, [1]) == [1, 2];
  }

  lemma DescribesTwo(P: string, T: string)
    requires P == "(a*)a" && T == "aa"
    ensures var body, tail := Then(Literal('a'), 0, -1, Done), Then(Literal('a'), 1, 1, Done);
            Matches(P, T, Then(Group(0, body), 1, 1, tail), 0, 2)
  {
    var a := Literal('a');
    var body, tail := Then(a, 0, -1, Done), Then(a, 1, 1, Done);
    assert AtomMatches(P, T, a, 0, 1) && AtomMatches(P, T, a, 1, 2);
    assert Repeats(P, T, a, 0, 0, 0) && Repeats(P, T, a, 0, 1, 1) && Matches(P, T, Done, 1, 1);
    assert Matches(P, T, body, 0, 1) && AtomMatches(P, T, Group(0, body), 0, 1);
    assert Repeats(P, T, Group(0, body), 0, 0, 0) && Repeats(P, T, Group(0, body), 0, 1, 1);
    assert Repeats(P, T, a, 1, 1, 0) && Repeats(P, T, a, 1, 2, 1) && Matches(P, T, Done, 2, 2);
    assert Matches(P, T, tail, 1, 2);
  }

  lemma TwoDecoded(P: string, body: Regex, tail: Regex)
    requires P == "(a*)a" && body == Then(Literal('a'), 0, -1, Done) && tail == Then(Literal('a'), 1, 1, Done)
    ensures Decode(P, 0, '\0') == Good(Then(Group(0, body), 1, 1, tail), 5)
  {
    assert FindMatching(P, 0, '(', ')') == Some(3) by {
      assert FindFrom(P, 3, 1, false, '(', ')') == Some(3);
      assert FindFrom(P, 2, 1, false, '(', ')') == Some(3);
      assert FindFrom(P, 1, 1, false, '(', ')') == Some(3);
    }
    assert Decode(P, 3, ')') == Good(Done, 3);
    assert Decode(P, 1, ')') == Good(body, 3) by { assert DecodeAtom(P, 1) == GoodAtom(Literal('a'), 2); }
    assert DecodeAtom(P, 0) == GoodAtom(Group(0, body), 4);
    assert ReadQuant(P, 4) == Quant(1, 1, 4);
    assert Decode(P, 5, '\0') == Good(Done, 5);
    assert Decode(P, 4, '\0') == Good(tail, 5) by { assert DecodeAtom(P, 4) == GoodAtom(Literal('a'), 5); }
  }

  lemma SecondFails(P: string, T: string, rest: Regex, xs: seq<nat>, lo: nat)
    requires |xs| == 2 && lo == 1 && First(P, T, rest, xs[1]).None?
    ensures Latest(P, T, rest, xs, 1, lo).None?
  {
  }

  lemma GroupTakesAll(P: string, T: string, body: Regex, xs: seq<nat>)
    requires |xs| == 1 && xs[0] < 2 == |T| && First(P, T, body, xs[0]) == Some(2)
    ensures Run(P, T, Group(0, body), 1, xs) == xs + [2]
  {
    var g := Group(0, body);
    assert Once(P, T, g, xs[0]) == Some(2);
    assert Run(P, T, g, 1, xs) == Run(P, T, g, 1, xs + [2]);
  }

  /** From neither place is the rest of `(a*)a` found in `aa` once the group has taken all there is. */
  lemma TwoMissed(P: string, T: string, body: Regex, tail: Regex, i: nat)
    requires i <= 2 == |T| && First(P, T, body, 0) == Some(2) && First(P, T, body, 1) == Some(2) && First(P, T, tail, 2).None?
    ensures First(P, T, Then(Group(0, body), 1, 1, tail), i).None?
  {
    if i < 2 { MissedBehind(P, T, body, tail, i); } else { MissedAtEnd(P, T, body, tail); }
  }

  lemma MissedAtEnd(P: string, T: string, body: Regex, tail: Regex)
    ensures First(P, T, Then(Group(0, body), 1, 1, tail), |T|).None?
  {
    assert Once(P, T, Group(0, body), |T|).None?;
    assert !Startable(P, T, Group(0, body), |T|);
  }

  lemma MissedBehind(P: string, T: string, body: Regex, tail: Regex, i: nat)
    requires i < 2 == |T| && First(P, T, body, i) == Some(2) && First(P, T, tail, 2).None?
    ensures First(P, T, Then(Group(0, body), 1, 1, tail), i).None?
  {
    var re := Then(Group(0, body), 1, 1, tail);
    var lo := 1;
    GroupTakesAll(P, T, body, [i]);
    var xs := Run(P, T, re.atom, re.hi, [i]);
    SecondFails(P, T, tail, xs, lo);
    assert First(P, T, re, i) == Latest(P, T, tail, xs, 1, re.lo);
  }

  /** `(a*)a` describes `aa`, and is not found in it: a group is not entered again for a shorter match. */
  lemma GroupNotReentered()
    ensures var P, T := "(a*)a", "aa";
            var body, tail := Then(Literal('a'), 0, -1, Done), Then(Literal('a'), 1, 1, Done);
            var re := Then(Group(0, body), 1, 1, tail);
            && Decode(P, 0, '\0') == Good(re, 5)
            && Matches(P, T, re, 0, 2) && Search(P, T, re, false, 0).None?
  {
    var P, T := "(a*)a", "aa";
    var body, tail := Then(Literal('a'), 0, -1, Done), Then(Literal('a'), 1, 1, Done);
    DescribesTwo(P, T);
    TwoDecoded(P, body, tail);
    RunsOverTwo(P, T);
    TwoMissed(P, T, body, tail, 0);
    TwoMissed(P, T, body, tail, 1);
    TwoMissed(P, T, body, tail, 2);
  }
}
