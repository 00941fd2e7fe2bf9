/** The precedence climbing parser of src/core/parser.c against the grammar: it finds every derivation, and nothing else;
    and what code generation prints it reads back. */
module ExprParsing {
  import opened ExprGrammar

  // ----- opening one node -----

  lemma Open(t: Tree)
    ensures Flat(t) == FlatNode(t) && Strip(t) == StripNode(t) && Len(t) == LenNode(t)
  {
  }

  lemma OpenDerivation(grade: Token -> nat, ts: seq<Token>, pos: nat, t: Tree)
    ensures Derives(grade, t) == DerivesNode(grade, t) && Stands(ts, pos, t) == StandsNode(ts, pos, t)
    ensures Strip(t) == StripNode(t) && Len(t) == LenNode(t)
  {
  }

  // ----- everything the grammar derives is parsed as derived -----

  lemma HereJoin(ts: seq<Token>, pos: nat, a: seq<Token>, b: seq<Token>)
    ensures Here(ts, pos, a + b) <==> Here(ts, pos, a) && Here(ts, pos + |a|, b)
  {
    var s := a + b;
    if Here(ts, pos, s) {
      forall k | 0 <= k < |a| ensures ts[pos + k] == a[k] { assert s[k] == a[k]; }
      forall k | 0 <= k < |b| ensures ts[pos + |a| + k] == b[k] { assert s[|a| + k] == b[k]; }
    }
    if Here(ts, pos, a) && Here(ts, pos + |a|, b) {
      forall k | 0 <= k < |s| ensures ts[pos + k] == s[k] {
        if k >= |a| { assert b[k - |a|] == s[k]; }
      }
    }
  }

  lemma HereOne(ts: seq<Token>, pos: nat, t: Token)
    ensures Here(ts, pos, [t]) <==> TokenAt(ts, pos, t)
  {
    assert [t][0] == t;
  }

  lemma {:induction false} LenIsFlat(t: Tree)
    ensures Len(t) == |Flat(t)|
  {
    Open(t);
    match t
    case Leaf(_) =>
    case Paren(e) => LenIsFlat(e);
    case Un(_, e) => LenIsFlat(e);
    case Bin(_, l, r) => LenIsFlat(l); LenIsFlat(r);
    case Cond(c, a, b) => LenIsFlat(c); LenIsFlat(a); LenIsFlat(b);
  }

  lemma HereThree(ts: seq<Token>, pos: nat, a: seq<Token>, t: Token, b: seq<Token>)
    ensures Here(ts, pos, a + [t] + b) <==> Here(ts, pos, a) && TokenAt(ts, pos + |a|, t) && Here(ts, pos + |a| + 1, b)
  {
    HereJoin(ts, pos, a + [t], b);
    HereJoin(ts, pos, a, [t]);
    HereOne(ts, pos + |a|, t);
  }

  lemma HereFive(ts: seq<Token>, pos: nat, a: seq<Token>, t: Token, b: seq<Token>, u: Token, c: seq<Token>)
    ensures Here(ts, pos, a + [t] + b + [u] + c) <==>
              && Here(ts, pos, a) && TokenAt(ts, pos + |a|, t) && Here(ts, pos + |a| + 1, b)
              && TokenAt(ts, pos + |a| + 1 + |b|, u) && Here(ts, pos + |a| + 1 + |b| + 1, c)
  {
    HereThree(ts, pos, a + [t] + b, u, c);
    HereThree(ts, pos, a, t, b);
  }

  lemma HereWrapped(ts: seq<Token>, pos: nat, t: Token, a: seq<Token>, u: Token)
    ensures Here(ts, pos, [t] + a) <==> TokenAt(ts, pos, t) && Here(ts, pos + 1, a)
    ensures Here(ts, pos, [t] + a + [u]) <==> TokenAt(ts, pos, t) && Here(ts, pos + 1, a) && TokenAt(ts, pos + 1 + |a|, u)
  {
    HereJoin(ts, pos, [t] + a, [u]);
    HereJoin(ts, pos, [t], a);
    HereOne(ts, pos, t);
    HereOne(ts, pos + 1 + |a|, u);
  }

  lemma {:induction false} StandsHere(ts: seq<Token>, pos: nat, t: Tree)
    ensures Stands(ts, pos, t) <==> Here(ts, pos, Flat(t))
    decreases t, 1
  {
    Open(t);
    assert Stands(ts, pos, t) == StandsNode(ts, pos, t);
    match t
    case Leaf(tok) => HereOne(ts, pos, tok);
    case Paren(e) =>
      StandsHere(ts, pos + 1, e);
      LenIsFlat(e);
      HereWrapped(ts, pos, LParen, Flat(e), RParen);
    case Un(op, e) =>
      StandsHere(ts, pos + 1, e);
      HereWrapped(ts, pos, op, Flat(e), op);
    case Bin(op, l, r) =>
      BinStandsHere(ts, pos, t);
      BinHereFlat(ts, pos, t);
    case Cond(c, a, b) =>
      CondStandsParts(ts, pos, t);
      CondPartsHere(ts, pos, t);
      CondHereFlat(ts, pos, t);
  }

  ghost predicate BinHere(ts: seq<Token>, pos: nat, t: Tree)
    requires t.Bin?
  {
    Here(ts, pos, Flat(t.l)) && TokenAt(ts, pos + Len(t.l), t.op) && Here(ts, pos + Len(t.l) + 1, Flat(t.r))
  }

  lemma BinHereFlat(ts: seq<Token>, pos: nat, t: Tree)
    requires t.Bin?
    ensures BinHere(ts, pos, t) <==> Here(ts, pos, Flat(t))
  {
    Open(t);
    LenIsFlat(t.l);
    HereThree(ts, pos, Flat(t.l), t.op, Flat(t.r));
  }

  lemma {:induction false} BinStandsHere(ts: seq<Token>, pos: nat, t: Tree)
    requires t.Bin?
    ensures Stands(ts, pos, t) <==> BinHere(ts, pos, t)
    decreases t, 0
  {
    assert Stands(ts, pos, t) == StandsNode(ts, pos, t);
    StandsHere(ts, pos, t.l);
    StandsHere(ts, pos + Len(t.l) + 1, t.r);
  }

  /** A conditional's tokens, operand by operand. */
  ghost predicate CondHere(ts: seq<Token>, pos: nat, t: Tree)
    requires t.Cond?
  {
    && Here(ts, pos, Flat(t.c)) && TokenAt(ts, pos + Len(t.c), Question) && Here(ts, pos + Len(t.c) + 1, Flat(t.a))
    && TokenAt(ts, pos + Len(t.c) + 1 + Len(t.a), Colon) && Here(ts, pos + Len(t.c) + 1 + Len(t.a) + 1, Flat(t.b))
  }

  lemma CondHereFlat(ts: seq<Token>, pos: nat, t: Tree)
    requires t.Cond?
    ensures CondHere(ts, pos, t) <==> Here(ts, pos, Flat(t))
  {
    Open(t);
    assert Stands(ts, pos, t) == StandsNode(ts, pos, t);
    LenIsFlat(t.c);
    LenIsFlat(t.a);
    HereFive(ts, pos, Flat(t.c), Question, Flat(t.a), Colon, Flat(t.b));
  }

  ghost predicate CondParts(ts: seq<Token>, pos: nat, t: Tree)
    requires t.Cond?
  {
    && Stands(ts, pos, t.c) && TokenAt(ts, pos + Len(t.c), Question) && Stands(ts, pos + Len(t.c) + 1, t.a)
    && TokenAt(ts, pos + Len(t.c) + 1 + Len(t.a), Colon) && Stands(ts, pos + Len(t.c) + 1 + Len(t.a) + 1, t.b)
  }

  lemma {:induction false} CondPartsHere(ts: seq<Token>, pos: nat, t: Tree)
    requires t.Cond?
    ensures CondParts(ts, pos, t) <==> CondHere(ts, pos, t)
    decreases t, 0
  {
    var p := pos + Len(t.c) + 1;
    var q := p + Len(t.a) + 1;
    StandsHere(ts, pos, t.c);
    StandsHere(ts, p, t.a);
    StandsHere(ts, q, t.b);
  }

  lemma CondStandsParts(ts: seq<Token>, pos: nat, t: Tree)
    requires t.Cond?
    ensures Stands(ts, pos, t) <==> CondParts(ts, pos, t)
  {
    assert Stands(ts, pos, t) == StandsNode(ts, pos, t);
  }

  // The parts of a derivation are followed by what does not belong to them either.

  lemma UnaryFollowed(grade: Token -> nat, ts: seq<Token>, pos: nat, t: Tree)
    requires Followed(grade, ts, pos, t) && t.Un?
    ensures Followed(grade, ts, pos + 1, t.e) && Level(grade, t.e) == 8 && TokenAt(ts, pos, t.op) && IsUnary(t.op)
  {
    OpenDerivation(grade, ts, pos, t);
  }

  lemma ParenFollowed(grade: Token -> nat, ts: seq<Token>, pos: nat, t: Tree)
    requires Marks(grade) && Followed(grade, ts, pos, t) && t.Paren?
    ensures Followed(grade, ts, pos + 1, t.e) && TokenAt(ts, pos, LParen) && TokenAt(ts, pos + 1 + Len(t.e), RParen)
    ensures !IsPostfix(Peek(ts, pos + Len(t.e) + 2))
  {
    OpenDerivation(grade, ts, pos, t);
  }

  lemma BinaryFollowed(grade: Token -> nat, ts: seq<Token>, pos: nat, t: Tree)
    requires Followed(grade, ts, pos, t) && t.Bin?
    ensures var p := pos + Len(t.l); var q := p + 1 + Len(t.r);
            && Followed(grade, ts, pos, t.l) && Followed(grade, ts, p + 1, t.r) && TokenAt(ts, p, t.op) && IsBinary(grade, t.op)
            && grade(t.op) <= Level(grade, t.l) && grade(t.op) < Level(grade, t.r) && grade(Peek(ts, q)) <= grade(t.op)
  {
    OpenDerivation(grade, ts, pos, t);
  }

  lemma TernaryFollowed(grade: Token -> nat, ts: seq<Token>, pos: nat, t: Tree)
    requires Marks(grade) && Followed(grade, ts, pos, t) && t.Cond?
    ensures var p := pos + Len(t.c); var q := p + 1 + Len(t.a);
            && Followed(grade, ts, pos, t.c) && Followed(grade, ts, p + 1, t.a) && Followed(grade, ts, q + 1, t.b)
            && TokenAt(ts, p, Question) && TokenAt(ts, q, Colon) && 2 <= Level(grade, t.c) && 1 <= Level(grade, t.b)
            && grade(Peek(ts, q + 1 + Len(t.b))) == 0
  {
    OpenDerivation(grade, ts, pos, t);
    assert DerivesNode(grade, t.b);
  }

  // Single steps of the parser.

  lemma ClimbStops(grade: Token -> nat, ts: seq<Token>, pos: nat, min: nat, lhs: Ast)
    requires pos <= |ts| && (grade(Peek(ts, pos)) == 0 || grade(Peek(ts, pos)) < min)
    ensures Climb(grade, ts, pos, min, lhs) == Ok(lhs, pos)
  {
  }

  lemma ClimbBinary(grade: Token -> nat, ts: seq<Token>, pos: nat, min: nat, lhs: Ast)
    requires var op := Peek(ts, pos); pos <= |ts| && op != Question && 0 < grade(op) && min <= grade(op)
    ensures var op := Peek(ts, pos);
            var r := Expression(grade, ts, pos + 1, grade(op) + 1);
            Climb(grade, ts, pos, min, lhs) == if r.Ok? then Climb(grade, ts, r.pos, min, Binary(op, lhs, r.a)) else Failed
  {
  }

  lemma ClimbTernary(grade: Token -> nat, ts: seq<Token>, pos: nat, min: nat, lhs: Ast)
    requires pos <= |ts| && Peek(ts, pos) == Question && grade(Question) == 1 && min <= 1
    ensures var a := Expression(grade, ts, pos + 1, 0);
            Climb(grade, ts, pos, min, lhs) ==
              if a.Failed? || Peek(ts, a.pos) != Colon then Failed
              else
                var b := Expression(grade, ts, a.pos + 1, 1);
                if b.Ok? then Climb(grade, ts, b.pos, min, Ternary(lhs, a.a, b.a)) else Failed
  {
  }

  lemma UnaryJoin(grade: Token -> nat, ts: seq<Token>, pos: nat, op: Token, q: nat, e: Ast)
    requires TokenAt(ts, pos, op) && IsUnary(op) && Primary(grade, ts, pos + 1) == Ok(e, q)
    ensures Primary(grade, ts, pos) == Ok(Unary(op, e), q)
  {
  }

  lemma ParenJoin(grade: Token -> nat, ts: seq<Token>, pos: nat, q: nat, e: Ast)
    requires TokenAt(ts, pos, LParen) && Yields(grade, ts, pos + 1, 0, q, e) && TokenAt(ts, q, RParen) && !IsPostfix(Peek(ts, q + 1))
    ensures Primary(grade, ts, pos) == Ok(e, q + 1)
  {
  }

  lemma BinaryJoin(grade: Token -> nat, ts: seq<Token>, pos: nat, min: nat, p: nat, q: nat, op: Token, l: Ast, r: Ast)
    requires TokenAt(ts, p, op) && IsBinary(grade, op) && min <= grade(op)
    requires Reaches(grade, ts, pos, min, p, l) && Yields(grade, ts, p + 1, grade(op) + 1, q, r)
    ensures Reaches(grade, ts, pos, min, q, Binary(op, l, r))
  {
    ClimbBinary(grade, ts, p, min, l);
  }

  lemma TernaryJoin(grade: Token -> nat, ts: seq<Token>, pos: nat, min: nat, p: nat, q: nat, end: nat, c: Ast, a: Ast, b: Ast)
    requires TokenAt(ts, p, Question) && TokenAt(ts, q, Colon) && grade(Question) == 1 && min <= 1
    requires Reaches(grade, ts, pos, min, p, c) && Yields(grade, ts, p + 1, 0, q, a) && Yields(grade, ts, q + 1, 1, end, b)
    ensures Reaches(grade, ts, pos, min, end, Ternary(c, a, b))
  {
    ClimbTernary(grade, ts, p, min, c);
  }

  lemma ReachedEnds(grade: Token -> nat, ts: seq<Token>, pos: nat, min: nat, q: nat, a: Ast)
    requires Reaches(grade, ts, pos, min, q, a) && (grade(Peek(ts, q)) == 0 || grade(Peek(ts, q)) < min)
    ensures Yields(grade, ts, pos, min, q, a)
  {
    ClimbStops(grade, ts, q, min, a);
  }

  lemma PrimaryReaches(grade: Token -> nat, ts: seq<Token>, pos: nat, min: nat, q: nat, a: Ast)
    requires Primary(grade, ts, pos) == Ok(a, q)
    ensures Reaches(grade, ts, pos, min, q, a)
  {
  }

  lemma {:induction false} PrimaryParses(grade: Token -> nat, ts: seq<Token>, pos: nat, t: Tree)
    requires Marks(grade) && Followed(grade, ts, pos, t) && Level(grade, t) == 8
    ensures Primary(grade, ts, pos) == Ok(Strip(t), pos + Len(t))
    decreases t, 1
  {
    OpenDerivation(grade, ts, pos, t);
    if t.Un? {
      UnaryFollowed(grade, ts, pos, t);
      PrimaryParses(grade, ts, pos + 1, t.e);
      UnaryJoin(grade, ts, pos, t.op, pos + Len(t), Strip(t.e));
    } else if t.Paren? {
      ParenParses(grade, ts, pos, t);
    }
  }

  lemma {:induction false} ParenParses(grade: Token -> nat, ts: seq<Token>, pos: nat, t: Tree)
    requires Marks(grade) && Followed(grade, ts, pos, t) && t.Paren?
    ensures Primary(grade, ts, pos) == Ok(Strip(t), pos + Len(t))
    decreases t, 0
  {
    OpenDerivation(grade, ts, pos, t);
    ParenFollowed(grade, ts, pos, t);
    ExpressionEnds(grade, ts, pos + 1, 0, t.e);
    ParenJoin(grade, ts, pos, pos + 1 + Len(t.e), Strip(t.e));
  }

  lemma {:induction false} RightParses(grade: Token -> nat, ts: seq<Token>, pos: nat, t: Tree)
    requires Marks(grade) && Followed(grade, ts, pos, t) && t.Bin?
    ensures Yields(grade, ts, pos + Len(t.l) + 1, grade(t.op) + 1, pos + Len(t), Strip(t.r))
    decreases t, 0
  {
    OpenDerivation(grade, ts, pos, t);
    BinaryFollowed(grade, ts, pos, t);
    ExpressionEnds(grade, ts, pos + Len(t.l) + 1, grade(t.op) + 1, t.r);
  }

  lemma {:induction false} LeftParses(grade: Token -> nat, ts: seq<Token>, pos: nat, min: nat, t: Tree)
    requires Marks(grade) && Followed(grade, ts, pos, t) && t.Bin? && min <= Level(grade, t)
    ensures Reaches(grade, ts, pos, min, pos + Len(t.l), Strip(t.l)) && TokenAt(ts, pos + Len(t.l), t.op) && IsBinary(grade, t.op)
    decreases t, 0
  {
    BinaryFollowed(grade, ts, pos, t);
    ExpressionParses(grade, ts, pos, min, t.l);
  }

  /** Precedence climbing over a derivation ends up in the loop behind it, whatever the loop then does. */
  lemma {:induction false} ExpressionParses(grade: Token -> nat, ts: seq<Token>, pos: nat, min: nat, t: Tree)
    requires Marks(grade) && Followed(grade, ts, pos, t) && min <= Level(grade, t)
    ensures Reaches(grade, ts, pos, min, pos + Len(t), Strip(t))
    decreases t, 2
  {
    if t.Bin? {
      BinaryParses(grade, ts, pos, min, t);
    } else if t.Cond? {
      TernaryParses(grade, ts, pos, min, t);
    } else {
      PrimaryParses(grade, ts, pos, t);
      PrimaryReaches(grade, ts, pos, min, pos + Len(t), Strip(t));
    }
  }

  lemma {:induction false} BinaryParses(grade: Token -> nat, ts: seq<Token>, pos: nat, min: nat, t: Tree)
    requires Marks(grade) && Followed(grade, ts, pos, t) && t.Bin? && min <= Level(grade, t)
    ensures Reaches(grade, ts, pos, min, pos + Len(t), Strip(t))
    decreases t, 1
  {
    LeftParses(grade, ts, pos, min, t);
    RightParses(grade, ts, pos, t);
    OpenDerivation(grade, ts, pos, t);
    BinaryJoin(grade, ts, pos, min, pos + Len(t.l), pos + Len(t), t.op, Strip(t.l), Strip(t.r));
  }

  /** Where nothing more belongs to the derivation, the loop stops at once. */
  lemma {:induction false} ExpressionEnds(grade: Token -> nat, ts: seq<Token>, pos: nat, min: nat, t: Tree)
    requires Marks(grade) && Followed(grade, ts, pos, t) && min <= Level(grade, t)
    requires grade(Peek(ts, pos + Len(t))) == 0 || grade(Peek(ts, pos + Len(t))) < min
    ensures Yields(grade, ts, pos, min, pos + Len(t), Strip(t))
    decreases t, 3
  {
    ExpressionParses(grade, ts, pos, min, t);
    ReachedEnds(grade, ts, pos, min, pos + Len(t), Strip(t));
  }

  lemma {:induction false} TernaryParses(grade: Token -> nat, ts: seq<Token>, pos: nat, min: nat, t: Tree)
    requires Marks(grade) && Followed(grade, ts, pos, t) && t.Cond? && min <= 1
    ensures Reaches(grade, ts, pos, min, pos + Len(t), Strip(t))
    decreases t, 0
  {
    OpenDerivation(grade, ts, pos, t);
    TernaryFollowed(grade, ts, pos, t);
    var p := pos + Len(t.c);
    var q := p + 1 + Len(t.a);
    ExpressionParses(grade, ts, pos, min, t.c);
    ExpressionEnds(grade, ts, p + 1, 0, t.a);
    ExpressionEnds(grade, ts, q + 1, 1, t.b);
    TernaryJoin(grade, ts, pos, min, p, q, pos + Len(t), Strip(t.c), Strip(t.a), Strip(t.b));
  }

  // ----- everything that is parsed the grammar derives so -----

  lemma PrimaryDerived(grade: Token -> nat, ts: seq<Token>, pos: nat, end: nat, t: Tree)
    requires Table(grade)
    requires Derives(grade, t) && Stands(ts, pos, t) && end == pos + Len(t) && Level(grade, t) == 8
    requires !IsPostfix(Peek(ts, end))
    ensures Derived(grade, ts, pos, end, t, Strip(t))
  {
    assert TableAt(grade, Peek(ts, end));
  }

  lemma BinaryDerived(grade: Token -> nat, ts: seq<Token>, start: nat, pos: nat, end: nat, l: Tree, r: Tree)
    requires Derived(grade, ts, start, pos, l, Strip(l)) && Derived(grade, ts, pos + 1, end, r, Strip(r))
    requires var op := Peek(ts, pos); pos < |ts| && IsBinary(grade, op) && Level(grade, r) > grade(op) && grade(Peek(ts, end)) <= grade(op)
    ensures Derived(grade, ts, start, end, Bin(Peek(ts, pos), l, r), Binary(Peek(ts, pos), Strip(l), Strip(r)))
  {
  }

  lemma TernaryDerived(grade: Token -> nat, ts: seq<Token>, start: nat, pos: nat, mid: nat, end: nat, l: Tree, a: Tree, b: Tree)
    requires Table(grade)
    requires Derived(grade, ts, start, pos, l, Strip(l)) && Derived(grade, ts, pos + 1, mid, a, Strip(a))
    requires Derived(grade, ts, mid + 1, end, b, Strip(b)) && grade(Peek(ts, end)) == 0
    requires pos < |ts| && mid < |ts| && ts[pos] == Question && ts[mid] == Colon
    ensures Derived(grade, ts, start, end, Cond(l, a, b), Ternary(Strip(l), Strip(a), Strip(b)))
  {
    assert TableAt(grade, Question);
    CondDerives(grade, l, a, b);
    CondStands(ts, start, l, a, b);
  }

  lemma CondDerives(grade: Token -> nat, l: Tree, a: Tree, b: Tree)
    requires Derives(grade, l) && Derives(grade, a) && Derives(grade, b) && 1 <= Ceiling(grade, l)
    ensures Derives(grade, Cond(l, a, b))
  {
  }

  lemma CondStands(ts: seq<Token>, start: nat, l: Tree, a: Tree, b: Tree)
    requires Stands(ts, start, l) && TokenAt(ts, start + Len(l), Question) && Stands(ts, start + Len(l) + 1, a)
    requires TokenAt(ts, start + Len(l) + 1 + Len(a), Colon) && Stands(ts, start + Len(l) + 1 + Len(a) + 1, b)
    ensures Stands(ts, start, Cond(l, a, b))
  {
  }

  lemma {:induction false} PrimaryDerives(grade: Token -> nat, ts: seq<Token>, pos: nat) returns (t: Tree)
    requires Table(grade)
    requires Primary(grade, ts, pos).Ok?
    ensures Derived(grade, ts, pos, Primary(grade, ts, pos).pos, t, Primary(grade, ts, pos).a) && Level(grade, t) == 8
    decreases |ts| - pos, 1
  {
    var tok, end := Peek(ts, pos), Primary(grade, ts, pos).pos;
    if IsUnary(tok) {
      var e := PrimaryDerives(grade, ts, pos + 1);
      t := Un(tok, e);
    } else if IsAtom(tok) {
      t := Leaf(tok);
      PrimaryDerived(grade, ts, pos, end, t);
    } else {
      var e := ExpressionDerives(grade, ts, pos + 1, 0);
      t := Paren(e);
      PrimaryDerived(grade, ts, pos, end, t);
    }
  }

  lemma {:induction false} ExpressionDerives(grade: Token -> nat, ts: seq<Token>, pos: nat, min: nat) returns (t: Tree)
    requires Table(grade)
    requires Expression(grade, ts, pos, min).Ok? && min <= 8
    ensures var r := Expression(grade, ts, pos, min);
            Derived(grade, ts, pos, r.pos, t, r.a) && Level(grade, t) >= min && Stopped(grade, ts, r.pos, min)
    decreases |ts| - pos, 2
  {
    var first := PrimaryDerives(grade, ts, pos);
    t := ClimbDerives(grade, ts, pos, Primary(grade, ts, pos).pos, min, first);
  }

  /** No operator of precedence min or more stands at pos. */
  predicate Stopped(grade: Token -> nat, ts: seq<Token>, pos: nat, min: nat) {
    grade(Peek(ts, pos)) == 0 || grade(Peek(ts, pos)) < min
  }

  lemma {:induction false} ClimbDerives(grade: Token -> nat, ts: seq<Token>, start: nat, pos: nat, min: nat, l: Tree) returns (t: Tree)
    requires Table(grade)
    requires start < pos <= |ts| && Derived(grade, ts, start, pos, l, Strip(l)) && Level(grade, l) >= min && min <= 8
    requires Climb(grade, ts, pos, min, Strip(l)).Ok?
    ensures var r := Climb(grade, ts, pos, min, Strip(l));
            Derived(grade, ts, start, r.pos, t, r.a) && Level(grade, t) >= min && Stopped(grade, ts, r.pos, min)
    decreases |ts| - pos, 2
  {
    var tok := Peek(ts, pos);
    assert TableAt(grade, tok);
    if Stopped(grade, ts, pos, min) {
      t := l;
    } else if tok == Question {
      t := TernaryStep(grade, ts, start, pos, min, l);
    } else {
      t := BinaryStep(grade, ts, start, pos, min, l);
    }
  }

  lemma {:induction false} BinaryStep(grade: Token -> nat, ts: seq<Token>, start: nat, pos: nat, min: nat, l: Tree) returns (t: Tree)
    requires Table(grade)
    requires start < pos < |ts| && Derived(grade, ts, start, pos, l, Strip(l)) && Level(grade, l) >= min && min <= 8
    requires Climb(grade, ts, pos, min, Strip(l)).Ok? && IsBinary(grade, ts[pos]) && grade(ts[pos]) >= min && ts[pos] != Question
    ensures var r := Climb(grade, ts, pos, min, Strip(l));
            Derived(grade, ts, start, r.pos, t, r.a) && Level(grade, t) >= min && Stopped(grade, ts, r.pos, min)
    decreases |ts| - pos, 0
  {
    var op := ts[pos];
    ClimbBinary(grade, ts, pos, min, Strip(l));
    var x := Expression(grade, ts, pos + 1, grade(op) + 1);
    var r := ExpressionDerives(grade, ts, pos + 1, grade(op) + 1);
    BinaryDerived(grade, ts, start, pos, x.pos, l, r);
    t := ClimbDerives(grade, ts, start, x.pos, min, Bin(op, l, r));
  }

  lemma {:induction false} TernaryStep(grade: Token -> nat, ts: seq<Token>, start: nat, pos: nat, min: nat, l: Tree) returns (t: Tree)
    requires Table(grade)
    requires start < pos < |ts| && Derived(grade, ts, start, pos, l, Strip(l)) && Level(grade, l) >= min && min <= 1
    requires Climb(grade, ts, pos, min, Strip(l)).Ok? && ts[pos] == Question
    ensures var r := Climb(grade, ts, pos, min, Strip(l));
            Derived(grade, ts, start, r.pos, t, r.a) && Level(grade, t) >= min && Stopped(grade, ts, r.pos, min)
    decreases |ts| - pos, 1
  {
    var r := ClimbTernaryParts(grade, ts, pos, min, Strip(l));
    var next := TernaryTree(grade, ts, start, pos, r.0, r.1, l);
    t := ClimbDerives(grade, ts, start, r.1, min, next);
  }

  lemma {:induction false} TernaryTree(grade: Token -> nat, ts: seq<Token>, start: nat, pos: nat, mid: nat, end: nat, l: Tree) returns (t: Tree)
    requires Table(grade) && start < pos < mid < end <= |ts| && Derived(grade, ts, start, pos, l, Strip(l))
    requires ts[pos] == Question && ts[mid] == Colon
    requires var a, b := Expression(grade, ts, pos + 1, 0), Expression(grade, ts, mid + 1, 1); a.Ok? && a.pos == mid && b.Ok? && b.pos == end
    ensures t.Cond? && Derived(grade, ts, start, end, t, Strip(t))
    ensures Strip(t) == Ternary(Strip(l), Expression(grade, ts, pos + 1, 0).a, Expression(grade, ts, mid + 1, 1).a)
    decreases |ts| - pos, 0
  {
    var a := ExpressionDerives(grade, ts, pos + 1, 0);
    var b := ExpressionDerives(grade, ts, mid + 1, 1);
    assert TableAt(grade, Peek(ts, end));
    TernaryDerived(grade, ts, start, pos, mid, end, l, a, b);
    t := Cond(l, a, b);
    Open(t);
  }

  /** Where the operands of a conditional that was parsed end. */
  lemma ClimbTernaryParts(grade: Token -> nat, ts: seq<Token>, pos: nat, min: nat, lhs: Ast) returns (r: (nat, nat))
    requires Table(grade)
    requires pos < |ts| && ts[pos] == Question && min <= 1 && Climb(grade, ts, pos, min, lhs).Ok?
    ensures pos < r.0 < r.1 <= |ts| && ts[r.0] == Colon
    ensures var a, b := Expression(grade, ts, pos + 1, 0), Expression(grade, ts, r.0 + 1, 1);
            && a.Ok? && a.pos == r.0 && b.Ok? && b.pos == r.1
            && Climb(grade, ts, pos, min, lhs) == Climb(grade, ts, r.1, min, Ternary(lhs, a.a, b.a))
  {
    assert TableAt(grade, Question);
    ClimbTernary(grade, ts, pos, min, lhs);
    var a := Expression(grade, ts, pos + 1, 0);
    r := (a.pos, Expression(grade, ts, a.pos + 1, 1).pos);
  }

  // ----- whole expressions -----

  lemma TableMarks(grade: Token -> nat)
    requires Table(grade)
    ensures Marks(grade)
  {
    assert TableAt(grade, Question) && TableAt(grade, Colon) && TableAt(grade, RParen) && TableAt(grade, Eof);
  }

  lemma HereSelf(s: seq<Token>)
    ensures Here(s, 0, s)
  {
  }

  lemma DerivedParses(grade: Token -> nat, t: Tree)
    requires Table(grade)
    requires Derives(grade, t)
    ensures Parses(grade, Flat(t), Strip(t))
  {
    WholeFollowed(grade, t);
    ExpressionEnds(grade, Flat(t), 0, 0, t);
  }

  lemma WholeFollowed(grade: Token -> nat, t: Tree)
    requires Table(grade) && Derives(grade, t)
    ensures Marks(grade) && Followed(grade, Flat(t), 0, t) && Len(t) == |Flat(t)| && grade(Peek(Flat(t), Len(t))) == 0
  {
    HereSelf(Flat(t));
    StandsHere(Flat(t), 0, t);
    LenIsFlat(t);
    TableMarks(grade);
  }

  /** Tokens are parsed as a exactly when the grammar derives them with a as the tree. */
  lemma ParsesExactly(grade: Token -> nat, ts: seq<Token>, a: Ast)
    requires Table(grade)
    ensures Parses(grade, ts, a) <==> exists t :: Derives(grade, t) && Flat(t) == ts && Strip(t) == a
  {
    if Parses(grade, ts, a) {
      var t := ExpressionDerives(grade, ts, 0, 0);
      StandsHere(ts, 0, t);
      LenIsFlat(t);
      assert Flat(t) == ts;
    }
    forall t | Derives(grade, t) && Flat(t) == ts && Strip(t) == a ensures Parses(grade, ts, a) {
      DerivedParses(grade, t);
    }
  }

  /** Parentheses apart, no two derivations of the same tokens differ. */
  lemma Unambiguous(grade: Token -> nat, t: Tree, u: Tree)
    requires Table(grade)
    requires Derives(grade, t) && Derives(grade, u) && Flat(t) == Flat(u)
    ensures Strip(t) == Strip(u)
  {
    DerivedParses(grade, t);
    DerivedParses(grade, u);
  }

  // ----- printing -----

  lemma OpenTree(grade: Token -> nat, t: Tree)
    ensures Derives(grade, t) == DerivesNode(grade, t) && Strip(t) == StripNode(t)
  {
  }

  lemma {:induction false} FullDerives(grade: Token -> nat, a: Ast)
    requires Built(grade, a)
    ensures Derives(grade, Full(a)) && Level(grade, Full(a)) == 8 && Strip(Full(a)) == a
  {
    OpenTree(grade, Full(a));
    if !a.Atom? { OpenTree(grade, Full(a).e); }
    match a
    case Atom(t) =>
    case Unary(op, e) => FullDerives(grade, e);
    case Binary(op, l, r) =>
      FullDerives(grade, l);
      FullDerives(grade, r);
    case Ternary(c, t, f) =>
      FullDerives(grade, c);
      FullDerives(grade, t);
      FullDerives(grade, f);
  }

  lemma {:induction false} FullPrints(a: Ast)
    ensures Flat(Full(a)) == Print(a)
  {
    Open(Full(a));
    if !a.Atom? { Open(Full(a).e); }
    match a
    case Atom(t) =>
    case Unary(op, e) =>
      FullPrints(e);
      assert [LParen, op] + Print(e) == [LParen] + ([op] + Print(e));
    case Binary(op, l, r) =>
      FullPrints(l);
      FullPrints(r);
      assert [LParen] + Print(l) + [op] + Print(r) == [LParen] + (Print(l) + [op] + Print(r));
    case Ternary(c, t, f) =>
      FullPrints(c);
      FullPrints(t);
      FullPrints(f);
      assert [LParen] + Print(c) + [Question] + Print(t) + [Colon] + Print(f)
          == [LParen] + (Print(c) + [Question] + Print(t) + [Colon] + Print(f));
  }

  /** Parsing what code generation prints gives the tree back. */
  lemma PrintParses(grade: Token -> nat, a: Ast)
    requires Table(grade)
    requires Built(grade, a)
    ensures Parses(grade, Print(a), a)
  {
    FullDerives(grade, a);
    FullPrints(a);
    DerivedParses(grade, Full(a));
  }

  lemma {:induction false} SparseDerives(grade: Token -> nat, a: Ast, level: nat)
    requires Built(grade, a) && level <= 8
    ensures Derives(grade, Sparse(grade, a, level)) && Level(grade, Sparse(grade, a, level)) >= level && Strip(Sparse(grade, a, level)) == a
    decreases a, 1
  {
    SparseNodeDerives(grade, a);
    OpenTree(grade, Sparse(grade, a, level));
  }

  lemma {:induction false} SparseNodeDerives(grade: Token -> nat, a: Ast)
    requires Built(grade, a)
    ensures Derives(grade, SparseNode(grade, a)) && Strip(SparseNode(grade, a)) == a
    decreases a, 0
  {
    OpenTree(grade, SparseNode(grade, a));
    match a
    case Atom(t) =>
    case Unary(op, e) => SparseDerives(grade, e, 8);
    case Binary(op, l, r) =>
      SparseDerives(grade, l, grade(op));
      SparseDerives(grade, r, grade(op) + 1);
    case Ternary(c, t, f) =>
      SparseDerives(grade, c, 2);
      SparseDerives(grade, t, 0);
      SparseDerives(grade, f, 0);
  }

  /** Leaving out every parenthesis that precedence and associativity make unnecessary changes nothing. */
  lemma SparseParses(grade: Token -> nat, a: Ast)
    requires Table(grade)
    requires Built(grade, a)
    ensures Parses(grade, Flat(Sparse(grade, a, 0)), a)
  {
    SparseDerives(grade, a, 0);
    DerivedParses(grade, Sparse(grade, a, 0));
  }

  /** No derivation of a tree is shorter than the sparse one, and none that is as short differs from it. */
  ghost predicate Least(grade: Token -> nat, u: Tree, a: Ast, level: nat) {
    Len(Sparse(grade, a, level)) <= Len(u) && (Len(Sparse(grade, a, level)) == Len(u) ==> u == Sparse(grade, a, level))
  }

  lemma OpenSparse(grade: Token -> nat, a: Ast, level: nat)
    ensures Sparse(grade, a, level) == if Level(grade, SparseNode(grade, a)) < level then Paren(SparseNode(grade, a)) else SparseNode(grade, a)
  {
  }

  lemma {:induction false} SparseLeast(grade: Token -> nat, u: Tree, level: nat)
    requires Derives(grade, u) && Level(grade, u) >= level && level <= 8
    ensures Least(grade, u, Strip(u), level)
  {
    Open(u);
    OpenTree(grade, u);
    OpenSparse(grade, Strip(u), level);
    Open(SparseNode(grade, Strip(u)));
    match u
    case Leaf(tok) =>
    case Paren(e) =>
      SparseLeast(grade, e, 0);
      OpenSparse(grade, Strip(e), 0);
      Open(Paren(SparseNode(grade, Strip(e))));
    case Un(op, e) =>
      SparseLeast(grade, e, 8);
    case Bin(op, l, r) =>
      SparseLeast(grade, l, grade(op));
      SparseLeast(grade, r, grade(op) + 1);
    case Cond(c, t, f) =>
      SparseLeast(grade, c, 2);
      SparseLeast(grade, t, 0);
      SparseLeast(grade, f, 0);
  }

  /** And those it leaves are needed: every text that is parsed as a is longer, or is the same. With any of its parentheses
      dropped the sparse text is not parsed as a. */
  lemma SparseShortest(grade: Token -> nat, ts: seq<Token>, a: Ast)
    requires Table(grade)
    requires Parses(grade, ts, a)
    ensures var s := Flat(Sparse(grade, a, 0)); |ts| >= |s| && (|ts| == |s| ==> ts == s)
  {
    ParsesExactly(grade, ts, a);
    var t :| Derives(grade, t) && Flat(t) == ts && Strip(t) == a;
    SparseLeast(grade, t, 0);
    LenIsFlat(t);
    LenIsFlat(Sparse(grade, a, 0));
  }

  /** The parser makes only nodes that print. */
  lemma {:induction false} StripBuilt(grade: Token -> nat, t: Tree)
    requires Derives(grade, t)
    ensures Built(grade, Strip(t))
  {
    match t
    case Leaf(tok) =>
    case Paren(e) => StripBuilt(grade, e);
    case Un(op, e) => StripBuilt(grade, e);
    case Bin(op, l, r) => StripBuilt(grade, l); StripBuilt(grade, r);
    case Cond(c, a, b) => StripBuilt(grade, c); StripBuilt(grade, a); StripBuilt(grade, b);
  }

  /** So printing what was parsed and parsing that again changes nothing. */
  lemma ReprintParses(grade: Token -> nat, ts: seq<Token>, a: Ast)
    requires Table(grade)
    requires Parses(grade, ts, a)
    ensures Parses(grade, Print(a), a)
  {
    ParsesExactly(grade, ts, a);
    var t :| Derives(grade, t) && Flat(t) == ts && Strip(t) == a;
    StripBuilt(grade, t);
    PrintParses(grade, a);
  }
}
