/** The grammar of sections 6.5.1 to 6.5.15 of C11 for the operators that src/core/parser.c knows, by nonterminals, and
    that the precedences of the parser say the same. */
module ExprC11 {
  import opened ExprGrammar
  import opened ExprParsing

  /** The nonterminals, loosest first; the ones for operators the parser does not know are left out. */
  datatype Nonterminal =
    | Conditional | LogicalOr | LogicalAnd | Equality | Relational | Additive | Multiplicative | Operand

  /** The operand nonterminal of the next section up. */
  function Tighter(n: Nonterminal): Nonterminal {
    match n
    case Conditional => LogicalOr
    case LogicalOr => LogicalAnd
    case LogicalAnd => Equality
    case Equality => Relational
    case Relational => Additive
    case Additive => Multiplicative
    case Multiplicative => Operand
    case Operand => Operand
  }

  function Operators(n: Nonterminal): set<Token> {
    match n
    case LogicalOr => {OrOr}
    case LogicalAnd => {AndAnd}
    case Equality => {EqEq, NotEq}
    case Relational => {Lt, Gt, Le, Ge}
    case Additive => {Plus, Minus}
    case Multiplicative => {Star, Slash, Percent}
    case _ => {}
  }

  /** The binary operators of sections 6.5.5 to 6.5.14. */
  const BINARY_OPERATORS: set<Token> := {Star, Slash, Percent, Plus, Minus, Lt, Gt, Le, Ge, EqEq, NotEq, AndAnd, OrOr}

  /** Section 6.5.3 has `& * + - ~ !`, of which the parser knows these. */
  const UNARY_OPERATORS: set<Token> := {Star, Minus, Tilde, Not}

  /** Section 6.5.1: an identifier or a constant. */
  predicate PrimaryToken(t: Token) {
    match t
    case Identifier(_) => true
    case Number(_) => true
    case _ => false
  }

  /** A tree with no operators but those. */
  predicate OfC11(a: Ast) {
    match a
    case Atom(t) => PrimaryToken(t)
    case Unary(op, e) => op in UNARY_OPERATORS && OfC11(e)
    case Binary(op, l, r) => op in BINARY_OPERATORS && OfC11(l) && OfC11(r)
    case Ternary(c, t, f) => OfC11(c) && OfC11(t) && OfC11(f)
  }

  lemma OperatorsAre(t: Token)
    ensures IsUnary(t) <==> t in UNARY_OPERATORS
    ensures IsAtom(t) <==> PrimaryToken(t)
    ensures IsBinary(Precedence, t) <==> t in BINARY_OPERATORS
    ensures t in BINARY_OPERATORS <==> exists n :: t in Operators(n)
  {
    assert t in BINARY_OPERATORS ==>
        || t in Operators(Multiplicative) || t in Operators(Additive) || t in Operators(Relational)
        || t in Operators(Equality) || t in Operators(LogicalAnd) || t in Operators(LogicalOr);
  }

  /** The parser builds trees of those operators, and only those. */
  lemma {:induction false} BuiltIsOfC11(a: Ast)
    ensures Built(Precedence, a) <==> OfC11(a)
  {
    match a
    case Atom(t) => OperatorsAre(t);
    case Unary(op, e) =>
      OperatorsAre(op);
      BuiltIsOfC11(e);
    case Binary(op, l, r) =>
      OperatorsAre(op);
      BuiltIsOfC11(l);
      BuiltIsOfC11(r);
    case Ternary(c, t, f) =>
      BuiltIsOfC11(c);
      BuiltIsOfC11(t);
      BuiltIsOfC11(f);
  }

  function Height(n: Nonterminal): nat {
    match n
    case Conditional => 7
    case LogicalOr => 6
    case LogicalAnd => 5
    case Equality => 4
    case Relational => 3
    case Additive => 2
    case Multiplicative => 1
    case Operand => 0
  }

  /** t is a derivation from n: each section's `x: y | x op y`, the conditional and unary ones, and parentheses around
      an expression. */
  predicate From(n: Nonterminal, t: Tree)
    decreases t, Height(n)
  {
    match n
    case Operand =>
      (match t
       case Leaf(tok) => PrimaryToken(tok)
       case Paren(e) => From(Conditional, e)
       case Un(op, e) => op in UNARY_OPERATORS && From(Operand, e)
       case _ => false)
    case Conditional =>
      From(LogicalOr, t) || (t.Cond? && From(LogicalOr, t.c) && From(Conditional, t.a) && From(Conditional, t.b))
    case _ =>
      From(Tighter(n), t) || (t.Bin? && t.op in Operators(n) && From(n, t.l) && From(Tighter(n), t.r))
  }

  lemma OperatorsGraded(n: Nonterminal, op: Token)
    ensures op in Operators(n) ==> IsBinary(Precedence, op) && Precedence(op) == 8 - Height(n)
    ensures IsBinary(Precedence, op) && Precedence(op) == 8 - Height(n) ==> op in Operators(n)
  {
  }

  lemma SomeLevel(t: Tree)
    ensures Derives(Precedence, t) ==> Level(Precedence, t) >= 1
  {
    assert Derives(Precedence, t) == DerivesNode(Precedence, t);
  }

  /** The levels of the parser are the nonterminals of the standard. */
  lemma {:induction false} FromIsLevel(n: Nonterminal, t: Tree)
    ensures From(n, t) <==> Derives(Precedence, t) && Level(Precedence, t) >= 8 - Height(n)
    decreases t, Height(n) + 1
  {
    assert Derives(Precedence, t) == DerivesNode(Precedence, t);
    if n == Operand {
      OperandIsLevel(t);
    } else if n == Conditional {
      FromIsLevel(LogicalOr, t);
      if t.Cond? {
        FromIsLevel(LogicalOr, t.c);
        FromIsLevel(Conditional, t.a);
        FromIsLevel(Conditional, t.b);
        SomeLevel(t.a);
        SomeLevel(t.b);
      }
    } else {
      FromIsLevel(Tighter(n), t);
      if t.Bin? {
        OperatorsGraded(n, t.op);
        FromIsLevel(n, t.l);
        FromIsLevel(Tighter(n), t.r);
      }
    }
  }

  lemma {:induction false} OperandIsLevel(t: Tree)
    ensures From(Operand, t) <==> Derives(Precedence, t) && Level(Precedence, t) >= 8
    decreases t, 0
  {
    assert Derives(Precedence, t) == DerivesNode(Precedence, t);
    match t
    case Leaf(tok) => OperatorsAre(tok);
    case Paren(e) =>
      FromIsLevel(Conditional, e);
      SomeLevel(e);
    case Un(op, e) =>
      OperatorsAre(op);
      OperandIsLevel(e);
    case Bin(op, l, r) =>
    case Cond(c, a, b) =>
  }

  lemma PrecedenceIsTable()
    ensures Table(Precedence)
  {
    forall t ensures TableAt(Precedence, t) {}
  }

  /** The parser reads tokens as a exactly when the standard derives them, with a as the tree. */
  lemma ParserIsC11(ts: seq<Token>, a: Ast)
    ensures Parses(Precedence, ts, a) <==> exists t :: From(Conditional, t) && Flat(t) == ts && Strip(t) == a
    ensures Parses(Precedence, ts, a) ==> OfC11(a)
  {
    PrecedenceIsTable();
    ParsesExactly(Precedence, ts, a);
    BuiltIsOfC11(a);
    if Parses(Precedence, ts, a) {
      var t :| Derives(Precedence, t) && Flat(t) == ts && Strip(t) == a;
      StripBuilt(Precedence, t);
    }
    forall t ensures From(Conditional, t) <==> Derives(Precedence, t) {
      FromIsLevel(Conditional, t);
      SomeLevel(t);
    }
  }

  /** Parsing what code generation prints for a tree gives the tree back, and so does parsing it with the fewest
      parentheses. */
  lemma PrintedParses(a: Ast)
    requires OfC11(a)
    ensures Parses(Precedence, Print(a), a) && Parses(Precedence, Flat(Sparse(Precedence, a, 0)), a)
  {
    PrecedenceIsTable();
    BuiltIsOfC11(a);
    PrintParses(Precedence, a);
    SparseParses(Precedence, a);
  }
}
