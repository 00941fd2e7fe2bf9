/** Macro aliases of src/core/parser.c: a call is replaced by the macro's body with the arguments put in for the parameters,
    on trees. */
module Macro {
  import opened Basics
  import opened ExprGrammar
  import opened ExprParsing
  import ExprC11

  datatype Kind = Identifier | Number | UnaryOp(op: Token) | BinaryOp(op: Token) | TernaryOp | Other(tag: nat)

  /** An AST node. */
  datatype Node = Node(kind: Kind, text: string, children: seq<Node>)

  /** The first of the first n parameters with a name; n where there is none. */
  function Position(params: seq<string>, n: nat, name: string): (i: nat)
    requires n <= |params|
    ensures i <= n && (i < n ==> params[i] == name) && forall j :: 0 <= j < i ==> params[j] != name
  {
    if n == 0 then 0 else
      var i := Position(params, n - 1, name);
      if i < n - 1 then i else if params[n - 1] == name then n - 1 else n
  }

  /** Parameters and arguments that have a counterpart. */
  function Paired(params: seq<string>, args: seq<Node>): (n: nat)
    ensures n <= |params| && n <= |args|
  {
    if |params| < |args| then |params| else |args|
  }

  /** `ast_clone_substitute`. */
  function Substitute(n: Node, params: seq<string>, args: seq<Node>): Node
    decreases n
  {
    var i := Position(params, Paired(params, args), n.text);
    if n.kind == Kind.Identifier && i < Paired(params, args) then args[i]
    else Node(n.kind, n.text, SubstituteAll(n.children, params, args))
  }

  function SubstituteAll(ns: seq<Node>, params: seq<string>, args: seq<Node>): (rs: seq<Node>)
    ensures |rs| == |ns|
    decreases ns
  {
    if ns == [] then [] else [Substitute(ns[0], params, args)] + SubstituteAll(ns[1..], params, args)
  }

  /** `ast_clone`. */
  method Clone(n: Node) returns (copy: Node)
    ensures copy == n
    decreases n
  {
    var children := [];
    for i := 0 to |n.children|
      invariant children == n.children[..i]
    {
      var c := Clone(n.children[i]);
      children := children + [c];
    }
    copy := Node(n.kind, n.text, children);
  }

  method CloneSubstitute(n: Node, params: seq<string>, args: seq<Node>) returns (copy: Node)
    ensures copy == Substitute(n, params, args)
    decreases n
  {
    if n.kind == Kind.Identifier {
      var i := 0;
      while i < |params| && i < |args|
        invariant 0 <= i <= Paired(params, args) && forall j :: 0 <= j < i ==> params[j] != n.text
      {
        if n.text == params[i] {
          copy := Clone(args[i]);
          return;
        }
        i := i + 1;
      }
    }
    var children := [];
    for i := 0 to |n.children|
      invariant children + SubstituteAll(n.children[i..], params, args) == SubstituteAll(n.children, params, args)
    {
      var c := CloneSubstitute(n.children[i], params, args);
      assert n.children[i..][1..] == n.children[i + 1..];
      children := children + [c];
    }
    copy := Node(n.kind, n.text, children);
  }

  /** The parser's table of macros. */
  datatype Alias = Alias(name: string, params: seq<string>, replacement: Node)

  ghost predicate First(table: seq<Alias>, a: Alias) {
    exists i :: 0 <= i < |table| && table[i] == a && (forall j :: 0 <= j < i ==> table[j].name != a.name)
  }

  /** `find_macro_alias`: the macro defined first; None where the source returns NULL. */
  method FindMacroAlias(table: seq<Alias>, name: string) returns (r: Option<Alias>)
    ensures r.None? ==> forall i :: 0 <= i < |table| ==> table[i].name != name
    ensures r.Some? ==> r.value.name == name && First(table, r.value)
  {
    for i := 0 to |table|
      invariant forall j :: 0 <= j < i ==> table[j].name != name
    {
      if table[i].name == name { return Some(table[i]); }
    }
    r := None;
  }

  // ----- meaning -----

  /** What a node means by what its children mean: any meaning of pure expressions has this shape. */
  type Meaning<!V> = (Kind, string, seq<V>) -> V

  function Eval<V>(m: Meaning<V>, env: string -> V, n: Node): V
    decreases n
  {
    if n.kind == Kind.Identifier then env(n.text) else m(n.kind, n.text, EvalAll(m, env, n.children))
  }

  function EvalAll<V>(m: Meaning<V>, env: string -> V, ns: seq<Node>): seq<V>
    decreases ns
  {
    if ns == [] then [] else [Eval(m, env, ns[0])] + EvalAll(m, env, ns[1..])
  }

  /** Each parameter stands for the value its argument has outside the macro. */
  function Bound<V>(m: Meaning<V>, env: string -> V, params: seq<string>, args: seq<Node>): string -> V {
    x =>
      var i := Position(params, Paired(params, args), x);
      if i < Paired(params, args) then Eval(m, env, args[i]) else env(x)
  }

  /** Expanding a macro means evaluating its body with the parameters bound: all at once, and without looking for
      parameters in the arguments. */
  lemma {:induction false} ExpansionMeans<V>(m: Meaning<V>, env: string -> V, n: Node, params: seq<string>, args: seq<Node>)
    ensures Eval(m, env, Substitute(n, params, args)) == Eval(m, Bound(m, env, params, args), n)
    decreases n
  {
    if n.kind != Kind.Identifier {
      ExpansionMeansAll(m, env, n.children, params, args);
    }
  }

  lemma {:induction false} ExpansionMeansAll<V>(m: Meaning<V>, env: string -> V, ns: seq<Node>, params: seq<string>, args: seq<Node>)
    ensures EvalAll(m, env, SubstituteAll(ns, params, args)) == EvalAll(m, Bound(m, env, params, args), ns)
    decreases ns
  {
    if ns != [] {
      ExpansionMeans(m, env, ns[0], params, args);
      ExpansionMeansAll(m, env, ns[1..], params, args);
    }
  }

  /** With as many arguments as parameters, all of different names, the i-th parameter is the i-th argument. */
  lemma BoundAt<V>(m: Meaning<V>, env: string -> V, params: seq<string>, args: seq<Node>, i: nat)
    requires |params| == |args| && i < |params| && forall j, k :: 0 <= j < k < |params| ==> params[j] != params[k]
    ensures Bound(m, env, params, args)(params[i]) == Eval(m, env, args[i])
  {
    var j := Position(params, |params|, params[i]);
    assert j == i;
  }

  // ----- what C makes of an expansion -----

  /** Expressions of the grammar as AST nodes. */
  function ToNode(a: Ast): Node {
    match a
    case Atom(t) => if t.Identifier? then Node(Kind.Identifier, t.text, []) else Node(Kind.Number, if t.Number? then t.text else "", [])
    case Unary(op, e) => Node(UnaryOp(op), "", [ToNode(e)])
    case Binary(op, l, r) => Node(BinaryOp(op), "", [ToNode(l), ToNode(r)])
    case Ternary(c, x, y) => Node(TernaryOp, "", [ToNode(c), ToNode(x), ToNode(y)])
  }

  function ToNodes(asts: seq<Ast>): (ns: seq<Node>)
    ensures |ns| == |asts| && forall i :: 0 <= i < |ns| ==> ns[i] == ToNode(asts[i])
  {
    if asts == [] then [] else [ToNode(asts[0])] + ToNodes(asts[1..])
  }

  /** The expansion of a body that is an expression of the grammar. */
  function Expand(a: Ast, params: seq<string>, args: seq<Ast>): Ast {
    match a
    case Atom(t) =>
      var n := Paired(params, ToNodes(args));
      if t.Identifier? && Position(params, n, t.text) < n then args[Position(params, n, t.text)] else a
    case Unary(op, e) => Unary(op, Expand(e, params, args))
    case Binary(op, l, r) => Binary(op, Expand(l, params, args), Expand(r, params, args))
    case Ternary(c, x, y) => Ternary(Expand(c, params, args), Expand(x, params, args), Expand(y, params, args))
  }

  lemma {:induction false} ExpandSubstitutes(a: Ast, params: seq<string>, args: seq<Ast>)
    ensures ToNode(Expand(a, params, args)) == Substitute(ToNode(a), params, ToNodes(args))
  {
    var ns := ToNodes(args);
    match a
    case Atom(t) =>
    case Unary(op, e) =>
      ExpandSubstitutes(e, params, args);
    case Binary(op, l, r) =>
      ExpandSubstitutes(l, params, args);
      ExpandSubstitutes(r, params, args);
      assert SubstituteAll([ToNode(l), ToNode(r)], params, ns) == [Substitute(ToNode(l), params, ns), Substitute(ToNode(r), params, ns)];
    case Ternary(c, x, y) =>
      ExpandSubstitutes(c, params, args);
      ExpandSubstitutes(x, params, args);
      ExpandSubstitutes(y, params, args);
      ThreeChildren(ToNode(c), ToNode(x), ToNode(y), params, ns);
  }

  lemma ThreeChildren(c: Node, x: Node, y: Node, params: seq<string>, args: seq<Node>)
    ensures SubstituteAll([c, x, y], params, args)
      == [Substitute(c, params, args), Substitute(x, params, args), Substitute(y, params, args)]
  {
    var rest := [x, y];
    assert [c, x, y][1..] == rest && rest[1..] == [y] && [y][1..] == [];
    assert SubstituteAll([y], params, args) == [Substitute(y, params, args)];
    assert SubstituteAll(rest, params, args) == [Substitute(x, params, args)] + SubstituteAll([y], params, args);
  }

  lemma {:induction false} ExpandBuilt(a: Ast, params: seq<string>, args: seq<Ast>)
    requires Built(Precedence, a) && forall i :: 0 <= i < |args| ==> Built(Precedence, args[i])
    ensures Built(Precedence, Expand(a, params, args))
  {
    match a
    case Atom(t) =>
    case Unary(op, e) => ExpandBuilt(e, params, args);
    case Binary(op, l, r) =>
      ExpandBuilt(l, params, args);
      ExpandBuilt(r, params, args);
    case Ternary(c, x, y) =>
      ExpandBuilt(c, params, args);
      ExpandBuilt(x, params, args);
      ExpandBuilt(y, params, args);
  }

  /** C reads the text emitted for an expansion in just one way, and what it reads means the body with its parameters bound,
      whatever operators the body and the arguments bring together. */
  lemma EmittedExpansion<V>(m: Meaning<V>, env: string -> V, body: Ast, params: seq<string>, args: seq<Ast>, read: Ast)
    requires ExprC11.OfC11(body) && forall i :: 0 <= i < |args| ==> ExprC11.OfC11(args[i])
    ensures var emitted := Print(Expand(body, params, args));
      (exists t :: ExprC11.From(ExprC11.Conditional, t) && Flat(t) == emitted && Strip(t) == read)
        <==> read == Expand(body, params, args)
    ensures Eval(m, env, ToNode(Expand(body, params, args))) == Eval(m, Bound(m, env, params, ToNodes(args)), ToNode(body))
  {
    var e := Expand(body, params, args);
    ExprC11.BuiltIsOfC11(body);
    forall i | 0 <= i < |args| ensures Built(Precedence, args[i]) { ExprC11.BuiltIsOfC11(args[i]); }
    ExpandBuilt(body, params, args);
    ExprC11.BuiltIsOfC11(e);
    ExprC11.PrintedParses(e);
    ExprC11.ParserIsC11(Print(e), read);
    ExpandSubstitutes(body, params, args);
    ExpansionMeans(m, env, ToNode(body), params, ToNodes(args));
  }
}
