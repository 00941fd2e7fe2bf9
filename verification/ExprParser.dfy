/** `parse_primary` and `parse_expression_prec` of src/core/parser.c, which advance a position over the tokens. */
module ExprParser {
  import opened ExprGrammar
  import opened ExprParsing

  class Parser {
    const tokens: seq<Token>
    /** `get_precedence`. */
    const grade: Token -> nat
    var pos: nat

    constructor (tokens: seq<Token>)
      ensures this.tokens == tokens && grade == Precedence && pos == 0
    {
      this.tokens := tokens;
      grade := Precedence;
      pos := 0;
    }

    /** `parse_expression`, when it is to read all tokens. */
    method ParseAll() returns (ok: bool, a: Ast)
      requires pos == 0 && grade == Precedence
      modifies this
      ensures if ok then Parses(Precedence, tokens, a) else forall b :: !Parses(Precedence, tokens, b)
    {
      ok, a := ParseExpressionPrec(0);
      ok := ok && pos == |tokens|;
    }

    /** `current`: the lexer ends the tokens with an end-of-file token. */
    function Current(): Token
      reads this
    {
      Peek(tokens, pos)
    }

    method Advance()
      modifies this
      ensures pos == if old(pos) < |tokens| then old(pos) + 1 else old(pos)
    {
      if pos < |tokens| { pos := pos + 1; }
    }

    /** `match`. */
    method Match(t: Token) returns (b: bool)
      modifies this
      ensures b <==> Peek(tokens, old(pos)) == t
      ensures pos == if b && old(pos) < |tokens| then old(pos) + 1 else old(pos)
    {
      b := Current() == t;
      if b { Advance(); }
    }

    method ParsePrimary() returns (ok: bool, node: Ast)
      requires pos <= |tokens| && grade(Eof) == 0
      modifies this
      ensures old(pos) <= pos <= |tokens|
      ensures var r := Primary(grade, tokens, old(pos)); ok == r.Ok? && (ok ==> node == r.a && pos == r.pos)
      decreases |tokens| - pos, 1
    {
      ok, node := false, Atom(Eof);
      var t := Current();
      if t == Not || t == Tilde || t == Star || t == Minus {
        Advance();
        var opOk, operand := ParsePrimary();
        return opOk, Unary(t, operand);
      }
      if t.Identifier? || t.Number? {
        ok, node := true, Atom(t);
        Advance();
      } else if t == LParen {
        Advance();
        ok, node := ParseExpressionPrec(0);
        if !ok { return; }
        ok := Match(RParen);
      }
      if ok && (Current() == LParen || Current().Postfix?) {
        ok := false;
      }
    }

    method ParseExpressionPrec(minPrec: nat) returns (ok: bool, lhs: Ast)
      requires pos <= |tokens| && grade(Eof) == 0
      modifies this
      ensures old(pos) <= pos <= |tokens|
      ensures var r := Expression(grade, tokens, old(pos), minPrec); ok == r.Ok? && (ok ==> lhs == r.a && pos == r.pos)
      decreases |tokens| - pos, 2
    {
      ghost var start := pos;
      ok, lhs := ParsePrimary();
      if !ok { return; }
      while true
        invariant ok && start < pos <= |tokens|
        invariant Expression(grade, tokens, start, minPrec) == Climb(grade, tokens, pos, minPrec, lhs)
        decreases |tokens| - pos
      {
        var prec := grade(Current());
        if prec == 0 || prec < minPrec { break; }
        ok, lhs := ParseOperation(lhs, minPrec);
        if !ok { return; }
      }
    }

    /** One round of the loop: the operator at the current position and what it applies to. */
    method ParseOperation(lhs: Ast, ghost minPrec: nat) returns (ok: bool, node: Ast)
      requires pos < |tokens| && grade(Eof) == 0 && grade(tokens[pos]) != 0 && minPrec <= grade(tokens[pos])
      modifies this
      ensures old(pos) < pos <= |tokens|
      ensures Climb(grade, tokens, old(pos), minPrec, lhs) ==
                if ok then Climb(grade, tokens, pos, minPrec, node) else Failed
      decreases |tokens| - pos, 0
    {
      var t := Current();
      Advance();
      if t == Question {
        ok, node := ParseBranches(lhs, grade(t), minPrec);
      } else {
        ok, node := ParseOperand(lhs, t, minPrec);
      }
    }

    /** What stands behind a binary operator. */
    method ParseOperand(lhs: Ast, op: Token, ghost minPrec: nat) returns (ok: bool, node: Ast)
      requires 0 < pos <= |tokens| && grade(Eof) == 0 && tokens[pos - 1] == op != Question && grade(op) > 0 && minPrec <= grade(op)
      modifies this
      ensures old(pos) <= pos <= |tokens|
      ensures Climb(grade, tokens, old(pos) - 1, minPrec, lhs) == if ok then Climb(grade, tokens, pos, minPrec, node) else Failed
      decreases |tokens| - pos, 3
    {
      ClimbBinary(grade, tokens, pos - 1, minPrec, lhs);
      var rhs;
      ok, rhs := ParseExpressionPrec(grade(op) + 1);
      node := Binary(op, lhs, rhs);
    }

    /** What stands behind the question mark. */
    method ParseBranches(lhs: Ast, prec: nat, ghost minPrec: nat) returns (ok: bool, node: Ast)
      requires 0 < pos <= |tokens| && grade(Eof) == 0 && tokens[pos - 1] == Question && prec == grade(Question) > 0 && minPrec <= prec
      modifies this
      ensures old(pos) <= pos <= |tokens|
      ensures Climb(grade, tokens, old(pos) - 1, minPrec, lhs) ==
                if ok then Climb(grade, tokens, pos, minPrec, node) else Failed
      decreases |tokens| - pos, 3
    {
      ok, node := false, lhs;
      var aOk, a := ParseExpressionPrec(0);
      if !aOk { return; }
      var colon := Match(Colon);
      if !colon { return; }
      var bOk, b := ParseExpressionPrec(prec);
      if !bOk { return; }
      return true, Ternary(lhs, a, b);
    }
  }
}
