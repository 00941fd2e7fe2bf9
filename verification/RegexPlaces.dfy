/** Where the parts of a text stand, and how the search for a closing bracket in src/string/string.c gets past them. */
module RegexPlaces {
  import opened Basics
  import opened RegexSyntax

  // ----- texts standing in texts -----

  predicate Place(k: int) {
    k >= 0
  }

  /** w stands at i. */
  ghost predicate Here(P: string, i: nat, w: string) {
    i + |w| <= |P| && forall k {:trigger Place(k)} :: Place(k) && k < |w| ==> P[i + k] == w[k]
  }

  lemma HereTwo(P: string, i: nat, a: string, b: string)
    ensures Here(P, i, a + b) <==> Here(P, i, a) && Here(P, i + |a|, b)
  {
    if Here(P, i, a + b) {
      forall k | Place(k) && k < |a| ensures P[i + k] == a[k] { }
      forall k | Place(k) && k < |b| ensures P[i + |a| + k] == b[k] { assert Place(|a| + k); }
    }
    if Here(P, i, a) && Here(P, i + |a|, b) {
      forall k | Place(k) && k < |a + b| ensures P[i + k] == (a + b)[k] { assert Place(k - |a|) <==> k >= |a|; }
    }
  }

  lemma HereAll(P: string)
    ensures Here(P, 0, P)
  {
  }

  lemma HereOne(P: string, i: nat, c: char)
    ensures Here(P, i, [c]) <==> i < |P| && P[i] == c
  {
    assert Place(0);
  }

  lemma HerePair(P: string, i: nat, a: char, c: char)
    ensures Here(P, i, [a, c]) <==> i + 1 < |P| && P[i] == a && P[i + 1] == c
  {
    assert Place(0) && Place(1);
  }

  /** The first character and the rest. */
  lemma HereNext(P: string, i: nat, w: string)
    requires Here(P, i, w) && w != ""
    ensures i < |P| && P[i] == w[0] && Here(P, i + 1, w[1..])
  {
    assert w == [w[0]] + w[1..];
    HereTwo(P, i, [w[0]], w[1..]);
    HereOne(P, i, w[0]);
  }

  lemma ThreeHere(P: string, i: nat, j: nat, k: nat, a: string, b: string, c: string)
    requires Here(P, i, a + (b + c)) && j == i + |a| && k == j + |b|
    ensures Here(P, i, a) && Here(P, j, b) && Here(P, k, c) && i + |a + (b + c)| == k + |c| <= |P|
  {
    HereTwo(P, i, a, b + c);
    HereTwo(P, j, b, c);
  }

  lemma BracketsHere(P: string, i: nat, k: nat, e: nat, open: char, a: string, b: string, close: char)
    requires Here(P, i, [open] + (a + (b + [close]))) && k == i + 1 + |a| && e == k + |b|
    ensures i < |P| && P[i] == open && Here(P, i + 1, a) && Here(P, k, b)
    ensures e < |P| && P[e] == close && i + |[open] + (a + (b + [close]))| == e + 1
  {
    HereTwo(P, i, [open], a + (b + [close]));
    HereOne(P, i, open);
    ThreeHere(P, i + 1, k, e, a, b, [close]);
    HereOne(P, e, close);
  }

  // ----- closing brackets -----

  predicate Bracket(open: char, close: char) {
    (open == '[' && close == ']') || (open == '(' && close == ')')
  }

  /** Without brackets, but for such as stand behind a backslash. */
  predicate Quiet(w: string)
    decreases |w|
  {
    || w == ""
    || (w[0] == '\\' && |w| >= 2 && Quiet(w[2..]))
    || (w[0] !in "\\[]()" && Quiet(w[1..]))
  }

  lemma {:induction false} QuietJoin(a: string, b: string)
    requires Quiet(a) && Quiet(b)
    ensures Quiet(a + b)
    decreases |a|
  {
    if a == "" {
      assert a + b == b;
    } else if a[0] == '\\' {
      assert (a + b)[2..] == a[2..] + b && (a + b)[0] == a[0];
      QuietJoin(a[2..], b);
    } else {
      assert (a + b)[1..] == a[1..] + b && (a + b)[0] == a[0];
      QuietJoin(a[1..], b);
    }
  }

  lemma QuietPair(c: char)
    ensures Quiet(['\\', c])
  {
    assert ['\\', c][2..] == "";
  }

  lemma QuietOne(c: char)
    requires c !in "\\[]()"
    ensures Quiet([c])
  {
    assert [c][1..] == "";
  }

  /** The search for a closing bracket passes over such a text. */
  lemma {:induction false} SkipQuiet(P: string, i: nat, depth: int, w: string, open: char, close: char)
    requires Here(P, i, w) && Quiet(w) && Bracket(open, close)
    ensures FindFrom(P, i, depth, false, open, close) == FindFrom(P, i + |w|, depth, false, open, close)
    decreases |w|
  {
    if w != "" {
      if w[0] == '\\' {
        SkipPair(P, i, depth, w, open, close);
        SkipQuiet(P, i + 2, depth, w[2..], open, close);
      } else {
        HereNext(P, i, w);
        SkipQuiet(P, i + 1, depth, w[1..], open, close);
      }
    }
  }

  lemma SkipPair(P: string, i: nat, depth: int, w: string, open: char, close: char)
    requires |w| >= 2 && w[0] == '\\' && Here(P, i, w) && Bracket(open, close)
    ensures Here(P, i + 2, w[2..]) && i + 2 <= |P|
    ensures FindFrom(P, i, depth, false, open, close) == FindFrom(P, i + 2, depth, false, open, close)
  {
    assert w[1..][1..] == w[2..];
    HereNext(P, i, w);
    HereNext(P, i + 1, w[1..]);
    assert FindFrom(P, i, depth, false, open, close) == FindFrom(P, i + 1, depth, true, open, close);
  }

  predicate Deep(depth: int) {
    depth > 0
  }

  /** Inside a group, the search for its `)` gets from i to j. */
  ghost predicate Passed(P: string, i: nat, j: nat) {
    forall depth {:trigger Deep(depth)} :: Deep(depth) ==> FindFrom(P, i, depth, false, '(', ')') == FindFrom(P, j, depth, false, '(', ')')
  }

  lemma PassedOn(P: string, i: nat, j: nat, k: nat)
    requires Passed(P, i, j) && Passed(P, j, k)
    ensures Passed(P, i, k)
  {
  }

  lemma PassQuiet(P: string, i: nat, j: nat, w: string)
    requires Here(P, i, w) && Quiet(w) && j == i + |w|
    ensures Passed(P, i, j)
  {
    forall depth | Deep(depth) ensures FindFrom(P, i, depth, false, '(', ')') == FindFrom(P, j, depth, false, '(', ')') {
      SkipQuiet(P, i, depth, w, '(', ')');
    }
  }

  lemma PassGroup(P: string, i: nat, p: nat, close: nat, end: nat)
    requires i < close < |P| && P[i] == '(' && P[close] == ')' && p == i + 1 && end == close + 1 && Passed(P, p, close)
    ensures Passed(P, i, end)
  {
    forall depth | Deep(depth) ensures FindFrom(P, i, depth, false, '(', ')') == FindFrom(P, end, depth, false, '(', ')') {
      assert Deep(depth + 1);
    }
  }

  lemma PassSet(P: string, i: nat, p: nat, close: nat, end: nat)
    requires i < close < |P| && P[i] == '[' && P[close] == ']' && p == i + 1 && end == close + 1 && Passed(P, p, close)
    ensures Passed(P, i, end)
  {
  }

  /** The bracket that closes a class. */
  lemma ClassClose(P: string, p: nat, close: nat, w: string)
    requires p < |P| && P[p] == '[' && Here(P, p + 1, w) && Quiet(w) && close == p + 1 + |w| < |P| && P[close] == ']'
    ensures FindMatching(P, p, '[', ']') == Some(close)
  {
    SkipQuiet(P, p + 1, 1, w, '[', ']');
  }

  /** The parenthesis that closes a group. */
  lemma GroupClose(P: string, i: nat, p: nat, close: nat)
    requires i < close < |P| && P[i] == '(' && P[close] == ')' && p == i + 1 && Passed(P, p, close)
    ensures FindMatching(P, i, '(', ')') == Some(close)
  {
    assert Deep(1);
  }
}
