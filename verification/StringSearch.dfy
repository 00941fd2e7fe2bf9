/** Splitting, joining and replacing in src/string/string.c, as functions of the text: bytes without NUL. */
module StringSearch {
  import opened Basics

  predicate Occurs(s: string, sub: string, i: nat) {
    i + |sub| <= |s| && s[i..i + |sub|] == sub
  }

  /** `strstr(s + from, sub)`: where sub first occurs at or after from; -1 for NULL. */
  function Find(s: string, sub: string, from: nat): (r: int)
    ensures r == -1 || (from <= r && r + |sub| <= |s|)
    decreases |s| - from
  {
    if from + |sub| > |s| then -1 else if Occurs(s, sub, from) then from else Find(s, sub, from + 1)
  }

  /** No occurrence starts between lo and hi. */
  ghost predicate NoneBetween(s: string, sub: string, lo: nat, hi: int) {
    forall i: nat {:trigger Occurs(s, sub, i)} :: lo <= i < hi ==> !Occurs(s, sub, i)
  }

  lemma {:induction false} FindFirst(s: string, sub: string, from: nat)
    ensures var r := Find(s, sub, from);
            if r == -1 then NoneBetween(s, sub, from, |s| + 1) else Occurs(s, sub, r) && NoneBetween(s, sub, from, r)
    decreases |s| - from
  {
    if from + |sub| <= |s| && !Occurs(s, sub, from) { FindFirst(s, sub, from + 1); }
  }

  lemma FindOccurs(s: string, sub: string, from: nat)
    requires Find(s, sub, from) != -1
    ensures Occurs(s, sub, Find(s, sub, from))
  {
    FindFirst(s, sub, from);
  }

  lemma FindUnique(s: string, sub: string, from: nat, i: nat)
    requires from <= i && Occurs(s, sub, i) && NoneBetween(s, sub, from, i)
    ensures Find(s, sub, from) == i
  {
    FindFirst(s, sub, from);
  }

  /** There is another match to be used; left < 0 means that any number may be. */
  predicate Another(s: string, sub: string, from: nat, left: int) {
    left != 0 && Find(s, sub, from) != -1
  }

  function Less(left: int): int {
    if left > 0 then left - 1 else left
  }

  function CountMatches(s: string, sub: string, from: nat, left: int): nat
    requires sub != "" && from <= |s|
    decreases |s| - from
  {
    if Another(s, sub, from, left) then 1 + CountMatches(s, sub, Find(s, sub, from) + |sub|, Less(left)) else 0
  }

  /** The parts between matches from `from` on. */
  function Parts(s: string, sub: string, from: nat, left: int): (r: seq<string>)
    requires sub != "" && from <= |s|
    ensures |r| > 0
    decreases |s| - from
  {
    if Another(s, sub, from, left) then
      [s[from..Find(s, sub, from)]] + Parts(s, sub, Find(s, sub, from) + |sub|, Less(left))
    else [s[from..]]
  }

  function Replaced(s: string, sub: string, put: string, from: nat, left: int): string
    requires sub != "" && from <= |s|
    decreases |s| - from
  {
    if Another(s, sub, from, left) then
      s[from..Find(s, sub, from)] + put + Replaced(s, sub, put, Find(s, sub, from) + |sub|, Less(left))
    else s[from..]
  }

  /** `come_string_split_n`: n parts at most, any number for 0; an empty separator splits nothing. */
  function Split(s: string, sep: string, n: nat): seq<string> {
    if sep == "" then [s] else Parts(s, sep, 0, n - 1)
  }

  /** `come_string_replace`: n matches at most, any number for 0. */
  function Replace(s: string, sub: string, put: string, n: nat): string {
    if sub == "" then s else Replaced(s, sub, put, 0, if n == 0 then -1 else n)
  }

  /** `come_string_join`. */
  function Join(parts: seq<string>, sep: string): string {
    if parts == [] then "" else if |parts| == 1 then parts[0] else parts[0] + sep + Join(parts[1..], sep)
  }

  // ----- what splitting, joining and replacing have to do with each other -----

  lemma JoinMore(first: string, rest: seq<string>, sep: string)
    requires |rest| > 0
    ensures Join([first] + rest, sep) == first + sep + Join(rest, sep)
  {
    assert ([first] + rest)[1..] == rest;
  }

  /** One match more. */
  lemma OneMatch(s: string, sub: string, put: string, from: nat, left: int)
    requires sub != "" && from <= |s| && Another(s, sub, from, left)
    ensures var i := Find(s, sub, from);
            var next := i + |sub|;
            && from <= i && next <= |s|
            && Parts(s, sub, from, left) == [s[from..i]] + Parts(s, sub, next, Less(left))
            && Replaced(s, sub, put, from, left) == s[from..i] + put + Replaced(s, sub, put, next, Less(left))
            && CountMatches(s, sub, from, left) == 1 + CountMatches(s, sub, next, Less(left))
  {
  }

  lemma CutOut(s: string, sub: string, from: nat, i: nat)
    requires from <= i && Occurs(s, sub, i)
    ensures s[from..] == s[from..i] + sub + s[i + |sub|..]
  {
  }

  lemma {:induction false} ReplacedIsJoined(s: string, sub: string, put: string, from: nat, left: int)
    requires sub != "" && from <= |s|
    ensures Replaced(s, sub, put, from, left) == Join(Parts(s, sub, from, left), put)
    decreases |s| - from
  {
    if Another(s, sub, from, left) {
      var i := Find(s, sub, from);
      OneMatch(s, sub, put, from, left);
      ReplacedIsJoined(s, sub, put, i + |sub|, Less(left));
      JoinMore(s[from..i], Parts(s, sub, i + |sub|, Less(left)), put);
    }
  }

  lemma {:induction false} ReplacedByItself(s: string, sub: string, from: nat, left: int)
    requires sub != "" && from <= |s|
    ensures Replaced(s, sub, sub, from, left) == s[from..]
    decreases |s| - from
  {
    if Another(s, sub, from, left) {
      var i := Find(s, sub, from);
      FindOccurs(s, sub, from);
      OneMatch(s, sub, sub, from, left);
      ReplacedByItself(s, sub, i + |sub|, Less(left));
      CutOut(s, sub, from, i);
    }
  }

  /** Joining what was split with the same separator gives the text back, whatever the limit. */
  lemma JoinSplit(s: string, sep: string, n: nat)
    ensures Join(Split(s, sep, n), sep) == s
  {
    if sep != "" {
      ReplacedIsJoined(s, sep, sep, 0, n - 1);
      ReplacedByItself(s, sep, 0, n - 1);
    }
  }

  /** Replacing n matches is splitting into n + 1 parts and joining them with the new text. */
  lemma ReplaceIsSplitJoin(s: string, sub: string, put: string, n: nat)
    requires sub != ""
    ensures Replace(s, sub, put, n) == Join(Split(s, sub, if n == 0 then 0 else n + 1), put)
  {
    ReplacedIsJoined(s, sub, put, 0, if n == 0 then -1 else n);
  }

  /** So replacing a text by itself changes nothing. */
  lemma ReplaceSame(s: string, sub: string, n: nat)
    ensures Replace(s, sub, sub, n) == s
  {
    if sub != "" {
      ReplaceIsSplitJoin(s, sub, sub, n);
      JoinSplit(s, sub, if n == 0 then 0 else n + 1);
    }
  }

  // ----- which matches are used -----

  /** Where the search for the k-th match starts. */
  function Start(sub: string, from: nat, at: seq<nat>, k: nat): nat
    requires k <= |at|
  {
    if k == 0 then from else at[k - 1] + |sub|
  }

  /** The k-th match is the first that starts at or behind the end of the one before. */
  ghost predicate Next(s: string, sub: string, from: nat, at: seq<nat>, k: nat) {
    && k < |at| && Start(sub, from, at, k) <= at[k] && Occurs(s, sub, at[k])
    && NoneBetween(s, sub, Start(sub, from, at, k), at[k])
  }

  /** The matches used: each the leftmost that does not overlap the one before; and all of them, or `left`. */
  ghost predicate Leftmost(s: string, sub: string, from: nat, at: seq<nat>, left: int) {
    && (left >= 0 ==> |at| <= left)
    && (forall k: nat {:trigger Next(s, sub, from, at, k)} :: k < |at| ==> Next(s, sub, from, at, k))
    && (|at| != left ==> NoneBetween(s, sub, Start(sub, from, at, |at|), |s| + 1))
  }

  function Positions(s: string, sub: string, from: nat, left: int): seq<nat>
    requires sub != "" && from <= |s|
    decreases |s| - from
  {
    if Another(s, sub, from, left) then
      [Find(s, sub, from)] + Positions(s, sub, Find(s, sub, from) + |sub|, Less(left))
    else []
  }

  lemma NextShifts(s: string, sub: string, from: nat, at: seq<nat>, i: nat, rest: seq<nat>, k: nat)
    requires at == [i] + rest && k <= |rest|
    ensures Start(sub, from, at, k + 1) == Start(sub, i + |sub|, rest, k)
    ensures Next(s, sub, from, at, k + 1) <==> Next(s, sub, i + |sub|, rest, k)
  {
  }

  lemma LeftmostMore(s: string, sub: string, from: nat, i: nat, rest: seq<nat>, left: int)
    requires left != 0 && from <= i && Occurs(s, sub, i) && NoneBetween(s, sub, from, i)
    requires Leftmost(s, sub, i + |sub|, rest, Less(left))
    ensures Leftmost(s, sub, from, [i] + rest, left)
  {
    var at, next := [i] + rest, i + |sub|;
    forall k: nat | k < |at| ensures Next(s, sub, from, at, k) {
      if k > 0 {
        assert Next(s, sub, next, rest, k - 1);
        NextShifts(s, sub, from, at, i, rest, k - 1);
      }
    }
    NextShifts(s, sub, from, at, i, rest, |rest|);
  }

  /** The matches used are those. */
  lemma {:induction false} PositionsLeftmost(s: string, sub: string, from: nat, left: int)
    requires sub != "" && from <= |s|
    ensures Leftmost(s, sub, from, Positions(s, sub, from, left), left)
    ensures |Positions(s, sub, from, left)| == CountMatches(s, sub, from, left)
    decreases |s| - from
  {
    if Another(s, sub, from, left) {
      PositionsLeftmost(s, sub, Find(s, sub, from) + |sub|, Less(left));
      PositionsStep(s, sub, from, left);
    } else {
      NonePosition(s, sub, from, left);
    }
  }

  lemma PositionsStep(s: string, sub: string, from: nat, left: int)
    requires sub != "" && from <= |s| && Another(s, sub, from, left)
    requires Leftmost(s, sub, Find(s, sub, from) + |sub|, Positions(s, sub, Find(s, sub, from) + |sub|, Less(left)), Less(left))
    ensures Leftmost(s, sub, from, Positions(s, sub, from, left), left)
  {
    var i := Find(s, sub, from);
    FoundFirst(s, sub, from);
    LeftmostMore(s, sub, from, i, Positions(s, sub, i + |sub|, Less(left)), left);
    PositionsMore(s, sub, from, left);
  }

  lemma FoundFirst(s: string, sub: string, from: nat)
    requires Find(s, sub, from) != -1
    ensures Occurs(s, sub, Find(s, sub, from)) && NoneBetween(s, sub, from, Find(s, sub, from))
  {
    FindFirst(s, sub, from);
  }

  lemma PositionsMore(s: string, sub: string, from: nat, left: int)
    requires sub != "" && from <= |s| && Another(s, sub, from, left)
    ensures Positions(s, sub, from, left)
      == [Find(s, sub, from)] + Positions(s, sub, Find(s, sub, from) + |sub|, Less(left))
  {
  }

  lemma NonePosition(s: string, sub: string, from: nat, left: int)
    requires sub != "" && from <= |s| && !Another(s, sub, from, left)
    ensures Leftmost(s, sub, from, Positions(s, sub, from, left), left)
  {
    FindFirst(s, sub, from);
    NoneLeftmost(s, sub, from, left);
  }

  lemma NoneLeftmost(s: string, sub: string, from: nat, left: int)
    requires left == 0 || NoneBetween(s, sub, from, |s| + 1)
    ensures Leftmost(s, sub, from, [], left)
  {
  }

  lemma LeftmostRest(s: string, sub: string, from: nat, at: seq<nat>, left: int)
    requires Leftmost(s, sub, from, at, left) && at != []
    ensures from <= at[0] && at[0] + |sub| <= |s| && Find(s, sub, from) == at[0] && left != 0
    ensures Leftmost(s, sub, at[0] + |sub|, at[1..], Less(left))
  {
    var i, rest := at[0], at[1..];
    var next := i + |sub|;
    assert at == [i] + rest && Next(s, sub, from, at, 0);
    FindUnique(s, sub, from, i);
    forall k: nat | k < |rest| ensures Next(s, sub, next, rest, k) {
      assert Next(s, sub, from, at, k + 1);
      NextShifts(s, sub, from, at, i, rest, k);
    }
    NextShifts(s, sub, from, at, i, rest, |rest|);
  }

  /** And there is only one such choice. */
  lemma {:induction false} LeftmostUnique(s: string, sub: string, from: nat, at: seq<nat>, left: int)
    requires sub != "" && from <= |s| && Leftmost(s, sub, from, at, left)
    ensures at == Positions(s, sub, from, left)
    decreases |at|
  {
    if at != [] {
      LeftmostRest(s, sub, from, at, left);
      LeftmostUnique(s, sub, at[0] + |sub|, at[1..], Less(left));
      assert at == [at[0]] + at[1..];
    } else {
      FindFirst(s, sub, from);
    }
  }

  // ----- what the parts are -----

  /** The k-th part: from where the search for the k-th match starts up to that match, or to the end of the text. */
  ghost predicate PartIs(s: string, sub: string, from: nat, at: seq<nat>, k: nat, part: string) {
    && k <= |at| && Start(sub, from, at, k) <= |s|
    && if k < |at| then Start(sub, from, at, k) <= at[k] <= |s| && part == s[Start(sub, from, at, k)..at[k]]
       else part == s[Start(sub, from, at, k)..]
  }

  lemma PartShifts(s: string, sub: string, from: nat, at: seq<nat>, i: nat, rest: seq<nat>, k: nat, part: string)
    requires at == [i] + rest && PartIs(s, sub, i + |sub|, rest, k, part)
    ensures PartIs(s, sub, from, at, k + 1, part)
  {
    NextShifts(s, sub, from, at, i, rest, k);
  }

  /** The parts are what stands between the matches used. */
  lemma {:induction false} PartsBetween(s: string, sub: string, from: nat, left: int, k: nat)
    requires sub != "" && from <= |s| && k < |Parts(s, sub, from, left)|
    ensures PartIs(s, sub, from, Positions(s, sub, from, left), k, Parts(s, sub, from, left)[k])
    decreases |s| - from
  {
    if Another(s, sub, from, left) {
      var i := Find(s, sub, from);
      var next := i + |sub|;
      OneMatch(s, sub, "", from, left);
      PositionsMore(s, sub, from, left);
      if k > 0 {
        PartsBetween(s, sub, next, Less(left), k - 1);
        PartShifts(s, sub, from, Positions(s, sub, from, left), i, Positions(s, sub, next, Less(left)), k - 1,
          Parts(s, sub, next, Less(left))[k - 1]);
      }
    }
  }

  /** Splitting uses the leftmost matches, all of them or n - 1, so that there are at most n parts; and the parts are what
      stands between them. */
  lemma SplitBetween(s: string, sep: string, n: nat, k: nat)
    requires sep != "" && k < |Split(s, sep, n)|
    ensures var at := Positions(s, sep, 0, n - 1);
      && Leftmost(s, sep, 0, at, n - 1) && |Split(s, sep, n)| == |at| + 1 && (n > 0 ==> |Split(s, sep, n)| <= n)
      && PartIs(s, sep, 0, at, k, Split(s, sep, n)[k])
  {
    PositionsLeftmost(s, sep, 0, n - 1);
    PartsCount(s, sep, 0, n - 1);
    PartsBetween(s, sep, 0, n - 1, k);
  }

  // ----- lengths -----

  /** `a->count + count * (new_len_part - old_len)` in `size_t`. */
  function FinalLen(len: nat, count: nat, put: nat, sub: nat): nat {
    (len + count * ((put - sub) % SIZE_MODULUS)) % SIZE_MODULUS
  }

  lemma {:induction false} ReplacedLength(s: string, sub: string, put: string, from: nat, left: int)
    requires sub != "" && from <= |s|
    ensures |Replaced(s, sub, put, from, left)| == |s| - from + CountMatches(s, sub, from, left) * (|put| - |sub|)
    decreases |s| - from
  {
    if Another(s, sub, from, left) {
      var next := Find(s, sub, from) + |sub|;
      OneMatch(s, sub, put, from, left);
      ReplacedLength(s, sub, put, next, Less(left));
      LengthStep(s, from, put, sub, Find(s, sub, from), CountMatches(s, sub, next, Less(left)), Replaced(s, sub, put, next, Less(left)));
    }
  }

  lemma LengthStep(s: string, from: nat, put: string, sub: string, i: nat, c: nat, rest: string)
    requires from <= i && i + |sub| <= |s| && |rest| == |s| - (i + |sub|) + c * (|put| - |sub|)
    ensures |s[from..i] + put + rest| == |s| - from + (1 + c) * (|put| - |sub|)
  {
    Plus(c, |put| - |sub|);
  }

  lemma Plus(c: int, d: int)
    ensures (1 + c) * d == d + c * d
  {
  }

  lemma ModMul(a: int, c: nat, d: int)
    ensures (a + c * (d % SIZE_MODULUS)) % SIZE_MODULUS == (a + c * d) % SIZE_MODULUS
  {
    var q, r := d / SIZE_MODULUS, d % SIZE_MODULUS;
    assert c * d == (c * q) * SIZE_MODULUS + c * r by {
      assert d == q * SIZE_MODULUS + r;
      Distributes(c, q, r);
    }
  }

  lemma Distributes(c: int, q: int, r: int)
    ensures c * (q * SIZE_MODULUS + r) == (c * q) * SIZE_MODULUS + c * r
  {
  }

  /** The length computed with a difference that wraps is the right one, whenever the right one is a `size_t`. */
  lemma FinalLenExact(s: string, sub: string, put: string, n: nat)
    requires sub != ""
    ensures var left := if n == 0 then -1 else n;
            FinalLen(|s|, CountMatches(s, sub, 0, left), |put|, |sub|) == |Replace(s, sub, put, n)| % SIZE_MODULUS
  {
    var left := if n == 0 then -1 else n;
    ReplacedLength(s, sub, put, 0, left);
    ModMul(|s|, CountMatches(s, sub, 0, left), |put| - |sub|);
  }

  lemma {:induction false} PartsCount(s: string, sub: string, from: nat, left: int)
    requires sub != "" && from <= |s|
    ensures |Parts(s, sub, from, left)| == CountMatches(s, sub, from, left) + 1
    decreases |s| - from
  {
    if Another(s, sub, from, left) { PartsCount(s, sub, Find(s, sub, from) + |sub|, Less(left)); }
  }
}
