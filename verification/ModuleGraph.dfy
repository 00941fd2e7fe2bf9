/** Import graphs, and which modules a module reaches. */
module ModuleGraph {

  datatype Name = Name(text: string)

  /** `imports` lists imports in source order; `system` are the modules that get no memory context; `inits` and `exits`
      define a local init or exit function; `rank` numbers modules so that imports come lower. */
  datatype Graph = Graph(imports: map<Name, seq<Name>>, system: set<Name>, inits: set<Name>, exits: set<Name>, rank: map<Name, nat>)

  ghost predicate ImportOk(g: Graph, m: Name, k: int) {
    && m in g.imports && m in g.rank
    && (0 <= k < |g.imports[m]| ==>
          g.imports[m][k] in g.imports && g.imports[m][k] in g.rank && g.rank[g.imports[m][k]] < g.rank[m])
  }

  ghost predicate Acyclic(g: Graph) {
    forall m, k {:trigger ImportOk(g, m, k)} :: m in g.imports ==> ImportOk(g, m, k)
  }

  /** The k-th import of m. */
  function Import(g: Graph, m: Name, k: nat): (i: Name)
    requires Acyclic(g) && m in g.imports && k < |g.imports[m]|
    ensures i in g.imports && i in g.rank && m in g.rank && g.rank[i] < g.rank[m] && i != m
  {
    assert ImportOk(g, m, k);
    g.imports[m][k]
  }

  function Imports(g: Graph, m: Name): (n: nat)
    requires m in g.imports
  {
    |g.imports[m]|
  }

  /** m is x or imports it, perhaps through others. */
  ghost predicate Reach(g: Graph, m: Name, x: Name)
    requires Acyclic(g) && m in g.imports
    decreases Rank(g, m)
  {
    m == x || exists k: nat :: k < Imports(g, m) && Reach(g, Import(g, m, k), x)
  }

  ghost function Rank(g: Graph, m: Name): (r: nat)
    requires Acyclic(g) && m in g.imports
    ensures m in g.rank && r == g.rank[m]
  {
    assert ImportOk(g, m, 0);
    g.rank[m]
  }

  lemma {:induction false} ReachRank(g: Graph, m: Name, x: Name)
    requires Acyclic(g) && m in g.imports && Reach(g, m, x)
    ensures x in g.imports && (x != m ==> Rank(g, x) < Rank(g, m))
    decreases Rank(g, m)
  {
    if m != x {
      var k: nat :| k < Imports(g, m) && Reach(g, Import(g, m, k), x);
      ReachRank(g, Import(g, m, k), x);
    }
  }

  lemma {:induction false} ReachTrans(g: Graph, m: Name, x: Name, y: Name)
    requires Acyclic(g) && m in g.imports && x in g.imports && Reach(g, m, x) && Reach(g, x, y)
    ensures Reach(g, m, y)
    decreases Rank(g, m)
  {
    if m != x {
      var k: nat :| k < Imports(g, m) && Reach(g, Import(g, m, k), x);
      ReachTrans(g, Import(g, m, k), x, y);
    }
  }

  lemma ReachImport(g: Graph, m: Name, k: nat, x: Name)
    requires Acyclic(g) && m in g.imports && k < Imports(g, m) && Reach(g, Import(g, m, k), x)
    ensures Reach(g, m, x) && x != m && x in g.imports
  {
    ReachRank(g, Import(g, m, k), x);
  }

  /** x is reached through one of the imports from lo up to hi. */
  ghost predicate Through(g: Graph, m: Name, lo: nat, hi: nat, x: Name)
    requires Acyclic(g) && m in g.imports && hi <= Imports(g, m)
  {
    exists k: nat :: lo <= k < hi && Reach(g, Import(g, m, k), x)
  }

  lemma ThroughAll(g: Graph, m: Name, x: Name)
    requires Acyclic(g) && m in g.imports
    ensures Through(g, m, 0, Imports(g, m), x) <==> Reach(g, m, x) && x != m
    ensures Reach(g, m, x) ==> x in g.imports
  {
    if Through(g, m, 0, Imports(g, m), x) {
      var k: nat :| k < Imports(g, m) && Reach(g, Import(g, m, k), x);
      ReachImport(g, m, k, x);
    }
    if Reach(g, m, x) && x != m {
      var k: nat :| k < Imports(g, m) && Reach(g, Import(g, m, k), x);
      ReachImport(g, m, k, x);
    }
  }

  lemma ThroughMore(g: Graph, m: Name, lo: nat, k: nat, hi: nat, x: Name)
    requires Acyclic(g) && m in g.imports && lo <= k < hi <= Imports(g, m)
    ensures Through(g, m, lo, k + 1, x) <==> Through(g, m, lo, k, x) || Reach(g, Import(g, m, k), x)
    ensures Through(g, m, k, hi, x) <==> Through(g, m, k + 1, hi, x) || Reach(g, Import(g, m, k), x)
  {
  }

  ghost predicate Distinct(s: seq<Name>) {
    forall i, j :: 0 <= i < j < |s| ==> s[i] != s[j]
  }

  /** a stands before b. */
  ghost predicate Before(s: seq<Name>, a: Name, b: Name) {
    exists i, j :: 0 <= i < j < |s| && s[i] == a && s[j] == b
  }

  lemma BeforePrefix(s: seq<Name>, t: seq<Name>, a: Name, b: Name)
    requires s <= t
    ensures Before(s, a, b) ==> Before(t, a, b)
    ensures a in s && b in t && b !in s ==> Before(t, a, b)
  {
    if Before(s, a, b) {
      var i, j :| 0 <= i < j < |s| && s[i] == a && s[j] == b;
      assert t[i] == a && t[j] == b;
    }
    if a in s && b in t && b !in s {
      assert forall k :: 0 <= k < |s| ==> t[k] == s[k] && s[k] != b;
      var i :| 0 <= i < |s| && s[i] == a;
      var j :| 0 <= j < |t| && t[j] == b;
      assert t[i] == a && i < j;
    }
  }

  lemma BeforeOneWay(s: seq<Name>, a: Name, b: Name)
    requires Distinct(s) && Before(s, a, b)
    ensures !Before(s, b, a)
  {
  }
}
