/** Expressions of src/core/parser.c made of identifiers, numbers, unary and binary operators and the conditional: the
    grammar of sections 6.5.1 to 6.5.15 of C11 cut down to them, precedence climbing, and that both agree. */
module ExprGrammar {

  datatype Token =
    | Identifier(text: string) | Number(text: string)
    | LParen | RParen
    | Not | Tilde | Star | Minus | Plus | Slash | Percent
    | Lt | Gt | Le | Ge | EqEq | NotEq | AndAnd | OrOr
    | Question | Colon | Eof
    | Postfix(text: string) /* the tokens `.`, `[`, `++` and `--` */
    | Other(text: string)

  /** What the parser needs to know of a table of precedences. */
  ghost predicate TableAt(grade: Token -> nat, t: Token) {
    && grade(t) <= 7 && (grade(t) == 1 <==> t == Question)
    && (t == Colon || t == RParen || t == Eof || IsAtom(t) || IsPostfix(t) ==> grade(t) == 0)
  }

  /** `get_precedence`. */
  function Precedence(t: Token): (p: nat)
    ensures p <= 7
  {
    match t
    case Question => 1
    case OrOr => 2
    case AndAnd => 3
    case EqEq => 4
    case NotEq => 4
    case Lt => 5
    case Gt => 5
    case Le => 5
    case Ge => 5
    case Plus => 6
    case Minus => 6
    case Star => 7
    case Slash => 7
    case Percent => 7
    case _ => 0
  }

  ghost predicate Table(grade: Token -> nat) {
    forall t {:trigger TableAt(grade, t)} :: TableAt(grade, t)
  }

  /** The marks that end an expression bind nothing. */
  predicate Marks(grade: Token -> nat) {
    grade(Question) == 1 && grade(Colon) == 0 && grade(RParen) == 0 && grade(Eof) == 0
  }

  predicate IsUnary(t: Token) {
    t == Not || t == Tilde || t == Star || t == Minus
  }

  predicate IsBinary(grade: Token -> nat, t: Token) {
    2 <= grade(t) <= 7 && !IsPostfix(t) && t != Question
  }

  predicate IsAtom(t: Token) {
    t.Identifier? || t.Number?
  }

  /** What would continue a primary expression. */
  predicate IsPostfix(t: Token) {
    t == LParen || t.Postfix?
  }

  datatype Ast = Atom(tok: Token) | Unary(op: Token, e: Ast) | Binary(op: Token, l: Ast, r: Ast) | Ternary(c: Ast, a: Ast, b: Ast)

  /** The nodes the parser makes. */
  predicate Built(grade: Token -> nat, a: Ast) {
    match a
    case Atom(t) => IsAtom(t)
    case Unary(op, e) => IsUnary(op) && Built(grade, e)
    case Binary(op, l, r) => IsBinary(grade, op) && Built(grade, l) && Built(grade, r)
    case Ternary(c, t, f) => Built(grade, c) && Built(grade, t) && Built(grade, f)
  }

  // ----- the grammar -----

  /** A derivation; parentheses are nodes of their own. */
  datatype Tree = Leaf(tok: Token) | Paren(e: Tree) | Un(op: Token, e: Tree) | Bin(op: Token, l: Tree, r: Tree) | Cond(c: Tree, a: Tree, b: Tree)

  /** The level of the grammar a derivation belongs to: 1 conditional-expression, 2 to 7 the binary levels from
      logical-OR to multiplicative, 8 unary and primary expressions. */
  function Level(grade: Token -> nat, t: Tree): nat {
    match t
    case Bin(op, _, _) => grade(op)
    case Cond(_, _, _) => 1
    case _ => 8
  }

  /** The derivation follows the grammar: binary operators associate to the left, the conditional to the right. */
  predicate Derives(grade: Token -> nat, t: Tree)
    decreases t, 1
  {
    DerivesNode(grade, t)
  }

  /** One node of a derivation. (Here and below the recursion goes through a function of its own for the node, so that
      proofs open one node at a time.) */
  predicate DerivesNode(grade: Token -> nat, t: Tree)
    decreases t, 0
  {
    match t
    case Leaf(tok) => IsAtom(tok)
    case Paren(e) => Derives(grade, e)
    case Un(op, e) => IsUnary(op) && Derives(grade, e) && Level(grade, e) == 8
    case Bin(op, l, r) => IsBinary(grade, op) && Derives(grade, l) && Derives(grade, r) && Level(grade, l) >= grade(op) && Level(grade, r) > grade(op)
    case Cond(c, a, b) => Derives(grade, c) && Derives(grade, a) && Derives(grade, b) && Level(grade, c) >= 2
  }

  function Flat(t: Tree): seq<Token>
    decreases t, 1
  {
    FlatNode(t)
  }

  function FlatNode(t: Tree): seq<Token>
    decreases t, 0
  {
    match t
    case Leaf(tok) => [tok]
    case Paren(e) => [LParen] + Flat(e) + [RParen]
    case Un(op, e) => [op] + Flat(e)
    case Bin(op, l, r) => Flat(l) + [op] + Flat(r)
    case Cond(c, a, b) => Flat(c) + [Question] + Flat(a) + [Colon] + Flat(b)
  }

  function Strip(t: Tree): Ast
    decreases t, 1
  {
    StripNode(t)
  }

  function StripNode(t: Tree): Ast
    decreases t, 0
  {
    match t
    case Leaf(tok) => Atom(tok)
    case Paren(e) => Strip(e)
    case Un(op, e) => Unary(op, Strip(e))
    case Bin(op, l, r) => Binary(op, Strip(l), Strip(r))
    case Cond(c, a, b) => Ternary(Strip(c), Strip(a), Strip(b))
  }

  // ----- the parser -----

  /** A tree and the position after it; `Failed` when an operand is missing, an expected token is not there, or a
      postfix construct begins. */
  datatype Parsed = Failed | Ok(a: Ast, pos: nat)

  /** `current`. */
  function Peek(ts: seq<Token>, pos: nat): Token {
    if pos < |ts| then ts[pos] else Eof
  }

  /** `parse_primary`. */
  function Primary(grade: Token -> nat, ts: seq<Token>, pos: nat): (r: Parsed)
    ensures r.Ok? ==> pos < r.pos <= |ts|
    decreases |ts| - pos, 1
  {
    var t := Peek(ts, pos);
    if IsUnary(t) then
      var r := Primary(grade, ts, pos + 1);
      if r.Ok? then Ok(Unary(t, r.a), r.pos) else Failed
    else
      var r :=
        if IsAtom(t) then Ok(Atom(t), pos + 1)
        else if t == LParen then
          var inner := Expression(grade, ts, pos + 1, 0);
          if inner.Ok? && Peek(ts, inner.pos) == RParen then Ok(inner.a, inner.pos + 1) else Failed
        else Failed;
      if r.Ok? && IsPostfix(Peek(ts, r.pos)) then Failed else r
  }

  /** `parse_expression_prec`. */
  function Expression(grade: Token -> nat, ts: seq<Token>, pos: nat, min: nat): (r: Parsed)
    ensures r.Ok? ==> pos < r.pos <= |ts|
    decreases |ts| - pos, 2
  {
    var r := Primary(grade, ts, pos);
    if r.Ok? then Climb(grade, ts, r.pos, min, r.a) else Failed
  }

  /** Its loop. */
  function Climb(grade: Token -> nat, ts: seq<Token>, pos: nat, min: nat, lhs: Ast): (r: Parsed)
    requires pos <= |ts|
    ensures r.Ok? ==> pos <= r.pos <= |ts|
    decreases |ts| - pos, 0
  {
    var t := Peek(ts, pos);
    var prec := grade(t);
    if prec == 0 || prec < min then Ok(lhs, pos)
    else if t == Question then
      var a := Expression(grade, ts, pos + 1, 0);
      if a.Failed? || Peek(ts, a.pos) != Colon then Failed
      else
        var b := Expression(grade, ts, a.pos + 1, prec);
        if b.Failed? then Failed else Climb(grade, ts, b.pos, min, Ternary(lhs, a.a, b.a))
    else
      var rhs := Expression(grade, ts, pos + 1, prec + 1);
      if rhs.Failed? then Failed else Climb(grade, ts, rhs.pos, min, Binary(t, lhs, rhs.a))
  }

  // ----- everything the grammar derives is parsed as derived -----

  /** The tokens of s stand at pos. */
  ghost predicate Here(ts: seq<Token>, pos: nat, s: seq<Token>) {
    pos + |s| <= |ts| && forall k :: 0 <= k < |s| ==> ts[pos + k] == s[k]
  }

  /** How many tokens a derivation has. */
  function Len(t: Tree): (n: nat)
    ensures n > 0
    decreases t, 1
  {
    LenNode(t)
  }

  function LenNode(t: Tree): (n: nat)
    ensures n > 0
    decreases t, 0
  {
    match t
    case Leaf(_) => 1
    case Paren(e) => 2 + Len(e)
    case Un(_, e) => 1 + Len(e)
    case Bin(_, l, r) => Len(l) + 1 + Len(r)
    case Cond(c, a, b) => Len(c) + 1 + Len(a) + 1 + Len(b)
  }

  predicate TokenAt(ts: seq<Token>, pos: nat, t: Token) {
    pos < |ts| && ts[pos] == t
  }

  /** The tokens of t stand at pos, said node by node. */
  ghost predicate Stands(ts: seq<Token>, pos: nat, t: Tree)
    decreases t, 1
  {
    StandsNode(ts, pos, t)
  }

  ghost predicate StandsNode(ts: seq<Token>, pos: nat, t: Tree)
    decreases t, 0
  {
    match t
    case Leaf(tok) => TokenAt(ts, pos, tok)
    case Paren(e) => TokenAt(ts, pos, LParen) && Stands(ts, pos + 1, e) && TokenAt(ts, pos + 1 + Len(e), RParen)
    case Un(op, e) => TokenAt(ts, pos, op) && Stands(ts, pos + 1, e)
    case Bin(op, l, r) => Stands(ts, pos, l) && TokenAt(ts, pos + Len(l), op) && Stands(ts, pos + Len(l) + 1, r)
    case Cond(c, a, b) =>
      && Stands(ts, pos, c) && TokenAt(ts, pos + Len(c), Question) && Stands(ts, pos + Len(c) + 1, a)
      && TokenAt(ts, pos + Len(c) + 1 + Len(a), Colon) && Stands(ts, pos + Len(c) + 1 + Len(a) + 1, b)
  }

  /** What may follow a derivation without becoming part of it. */
  function Ceiling(grade: Token -> nat, t: Tree): nat {
    if t.Cond? then 0 else Level(grade, t)
  }

  /** Climbing from pos comes, with a as its left operand, to q. */
  ghost predicate Reaches(grade: Token -> nat, ts: seq<Token>, pos: nat, min: nat, q: nat, a: Ast) {
    q <= |ts| && Expression(grade, ts, pos, min) == Climb(grade, ts, q, min, a)
  }

  /** And this is what it finds. */
  ghost predicate Yields(grade: Token -> nat, ts: seq<Token>, pos: nat, min: nat, q: nat, a: Ast) {
    Expression(grade, ts, pos, min) == Ok(a, q)
  }

  ghost predicate Followed(grade: Token -> nat, ts: seq<Token>, pos: nat, t: Tree) {
    && Derives(grade, t) && Stands(ts, pos, t)
    && !IsPostfix(Peek(ts, pos + Len(t))) && grade(Peek(ts, pos + Len(t))) <= Ceiling(grade, t)
  }

  // ----- everything that is parsed the grammar derives so -----

  /** t is a derivation of what stands between pos and end, and what follows does not belong to it. */
  ghost predicate Derived(grade: Token -> nat, ts: seq<Token>, pos: nat, end: nat, t: Tree, a: Ast) {
    Followed(grade, ts, pos, t) && end == pos + Len(t) && Strip(t) == a
  }

  // ----- whole expressions -----

  /** The tokens, all of them, are parsed as a. */
  predicate Parses(grade: Token -> nat, ts: seq<Token>, a: Ast) {
    Expression(grade, ts, 0, 0) == Ok(a, |ts|)
  }

  // ----- printing -----

  /** What `generate_expression` of src/core/codegen.c prints, as tokens: every operation in parentheses. */
  function Print(a: Ast): seq<Token> {
    match a
    case Atom(t) => [t]
    case Unary(op, e) => [LParen, op] + Print(e) + [RParen]
    case Binary(op, l, r) => [LParen] + Print(l) + [op] + Print(r) + [RParen]
    case Ternary(c, t, f) => [LParen] + Print(c) + [Question] + Print(t) + [Colon] + Print(f) + [RParen]
  }

  /** The derivation behind it. */
  function Full(a: Ast): Tree {
    match a
    case Atom(t) => Leaf(t)
    case Unary(op, e) => Paren(Un(op, Full(e)))
    case Binary(op, l, r) => Paren(Bin(op, Full(l), Full(r)))
    case Ternary(c, t, f) => Paren(Cond(Full(c), Full(t), Full(f)))
  }

  /** With parentheses only around what is below the wanted level. */
  function Sparse(grade: Token -> nat, a: Ast, level: nat): Tree
    decreases a, 1
  {
    var t := SparseNode(grade, a);
    if Level(grade, t) < level then Paren(t) else t
  }

  function SparseNode(grade: Token -> nat, a: Ast): Tree
    decreases a, 0
  {
    match a
    case Atom(t) => Leaf(t)
    case Unary(op, e) => Un(op, Sparse(grade, e, 8))
    case Binary(op, l, r) => Bin(op, Sparse(grade, l, grade(op)), Sparse(grade, r, grade(op) + 1))
    case Ternary(c, t, f) => Cond(Sparse(grade, c, 2), Sparse(grade, t, 0), Sparse(grade, f, 0))
  }
}
