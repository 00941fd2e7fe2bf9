/** Patterns of the regex engine in src/string/string.c (the branch built without `regcomp`), as the engine reads them.
    Strings are sequences of bytes without NUL; reading at the end gives NUL. */
module RegexSyntax {
  import opened Basics

  function At(s: string, i: nat): char {
    if i < |s| then s[i] else '\0'
  }

  ghost predicate NoNul(s: string) {
    forall i :: 0 <= i < |s| ==> s[i] != '\0'
  }

  /** hi < 0 means no upper bound. A class is given by where its body starts and ends, a group also by where it opens.
      `Unclosed` stands for an escape, class or group that does not end, and for all that follows it: the engine gives up
      there. */
  datatype Atom = Any | Escape(c: char) | Class(from: nat, to: nat) | Group(open: nat, body: Regex) | Literal(c: char) | Unclosed
  datatype Regex = Done | Dollar | Then(atom: Atom, lo: nat, hi: int, rest: Regex)

  // ----- finding a closing bracket -----

  /** The loop of `come_find_matching` from position i. */
  function FindFrom(P: string, i: nat, depth: int, escaped: bool, open: char, close: char): (r: Option<nat>)
    ensures r.Some? ==> i <= r.value < |P| && P[r.value] == close
    decreases |P| - i
  {
    if i >= |P| then None
    else if escaped then FindFrom(P, i + 1, depth, false, open, close)
    else if P[i] == '\\' then FindFrom(P, i + 1, depth, true, open, close)
    else if P[i] == open then FindFrom(P, i + 1, depth + 1, false, open, close)
    else if P[i] == close then if depth - 1 == 0 then Some(i) else FindFrom(P, i + 1, depth - 1, false, open, close)
    else FindFrom(P, i + 1, depth, false, open, close)
  }

  function FindMatching(P: string, p: nat, open: char, close: char): (r: Option<nat>)
    ensures r.Some? ==> p <= r.value < |P| && P[r.value] == close
  {
    FindFrom(P, p, 0, false, open, close)
  }

  // ----- quantifiers -----

  predicate IsDigit(c: char) {
    '0' <= c <= '9'
  }

  /** The digits from p on, continuing the number n: its value, and where it ends. */
  function Number(P: string, p: nat, n: nat): (r: (nat, nat))
    ensures p <= r.1 && (p <= |P| ==> r.1 <= |P|)
    decreases |P| - p
  {
    if p < |P| && IsDigit(P[p]) then Number(P, p + 1, n * 10 + (P[p] as int - '0' as int)) else (n, p)
  }

  datatype Quant = Quant(lo: nat, hi: int, rest: nat)

  /** `come_regex_read_quant`. */
  function ReadQuant(P: string, q: nat): (r: Quant)
    requires q <= |P|
    ensures q <= r.rest <= |P|
    ensures r.rest == q || P[r.rest - 1] in "*+?}"
  {
    match At(P, q)
    case '*' => Quant(0, -1, q + 1)
    case '+' => Quant(1, -1, q + 1)
    case '?' => Quant(0, 1, q + 1)
    case '{' => Braces(P, q)
    case _ => Quant(1, 1, q)
  }

  function Braces(P: string, q: nat): (r: Quant)
    requires q < |P| && P[q] == '{'
    ensures q <= r.rest <= |P|
    ensures r.rest == q || P[r.rest - 1] == '}'
  {
    var (a, p) := Number(P, q + 1, 0);
    var comma := At(P, p) == ',';
    var unbounded := comma && At(P, p + 1) == '}';
    var (b, e) := if unbounded then (a, p + 1) else if comma then Number(P, p + 1, 0) else (a, p);
    if At(P, e) == '}' then Quant(a, if unbounded then -1 else b, e + 1) else Quant(1, 1, q)
  }

  // ----- the whole pattern -----

  /** A sequence of atoms ends at `stop`, or at the end of the pattern when stop is NUL. */
  predicate AtStop(P: string, p: nat, stop: char) {
    if stop == '\0' then p >= |P| else At(P, p) == stop
  }

  predicate DollarEnd(P: string, p: nat, stop: char) {
    At(P, p) == '$' && (At(P, p + 1) == '\0' || (stop != '\0' && At(P, p + 1) == stop))
  }

  datatype Decoded = Bad | Good(re: Regex, end: nat)
  datatype DecodedAtom = BadAtom | GoodAtom(atom: Atom, end: nat)

  /** What the pattern says from p to its stop. A group's body ends at the first `)` that stands for itself; what follows
      the group begins behind the parenthesis that `come_find_matching` finds. `Bad` when a body has no end: the engine then
      reads on behind the end of the pattern, as for `([)]`. */
  function Decode(P: string, p: nat, stop: char): (r: Decoded)
    requires p <= |P|
    ensures r.Good? ==> p <= r.end <= |P|
    decreases |P| - p, 1
  {
    if AtStop(P, p, stop) then Good(Done, p)
    else if DollarEnd(P, p, stop) then Good(Dollar, p + 1)
    else if p == |P| then Bad
    else
      match DecodeAtom(P, p)
      case BadAtom => Bad
      case GoodAtom(atom, q) =>
        if atom.Unclosed? then Good(Then(Unclosed, 1, 1, Done), p)
        else
          var quant := ReadQuant(P, q);
          match Decode(P, quant.rest, stop)
          case Bad => Bad
          case Good(re, end) => Good(Then(atom, quant.lo, quant.hi, re), end)
  }

  function DecodeAtom(P: string, p: nat): (r: DecodedAtom)
    requires p < |P|
    ensures r.GoodAtom? ==> p < r.end <= |P|
    decreases |P| - p, 0
  {
    match P[p]
    case '.' => GoodAtom(Any, p + 1)
    case '\\' => if p + 1 < |P| then GoodAtom(Escape(P[p + 1]), p + 2) else GoodAtom(Unclosed, p + 1)
    case '[' =>
      (match FindMatching(P, p, '[', ']')
       case None => GoodAtom(Unclosed, p + 1)
       case Some(close) => GoodAtom(Class(p + 1, close), close + 1))
    case '(' =>
      (match FindMatching(P, p, '(', ')')
       case None => GoodAtom(Unclosed, p + 1)
       case Some(close) =>
         var body := Decode(P, p + 1, ')');
         if body.Good? && Hopeless(body.re) then GoodAtom(Unclosed, p + 1)
         else if body.Good? then GoodAtom(Group(p, body.re), close + 1)
         else BadAtom)
    case c => GoodAtom(Literal(c), p + 1)
  }

  /** Every group's body ends at the parenthesis that `come_find_matching` finds. In `([)])` it does not. */
  predicate Nests(P: string, p: nat, stop: char)
    requires p <= |P|
    decreases |P| - p
  {
    if AtStop(P, p, stop) || DollarEnd(P, p, stop) || p == |P| then true
    else
      match DecodeAtom(P, p)
      case BadAtom => true
      case GoodAtom(atom, q) =>
        !atom.Unclosed? ==>
          && (atom.Group? ==> Decode(P, p + 1, ')') == Good(atom.body, q - 1) && Nests(P, p + 1, ')'))
          && Nests(P, ReadQuant(P, q).rest, stop)
  }

  /** Something in the sequence is not closed. */
  predicate Hopeless(re: Regex) {
    re.Then? && ((re.atom.Unclosed? && re.lo > 0) || Hopeless(re.rest))
  }

  predicate GroupFree(re: Regex) {
    re.Then? ==> !re.atom.Group? && (re.atom.Unclosed? ==> re.lo > 0) && GroupFree(re.rest)
  }

  // ----- numbering groups -----

  /** The scan from the start of the pattern takes the byte at p to be escaped. */
  predicate Escaped(P: string, p: nat)
    requires p <= |P|
  {
    p > 0 && P[p - 1] == '\\' && !Escaped(P, p - 1)
  }

  /** Opening parentheses before p, escaped ones not counted. */
  function Parens(P: string, p: nat): nat
    requires p <= |P|
  {
    if p == 0 then 0
    else Parens(P, p - 1) + if P[p - 1] == '(' && !Escaped(P, p - 1) then 1 else 0
  }

  /** `come_group_index`. */
  function GroupIndex(P: string, p: nat): nat
    requires p <= |P|
  {
    Parens(P, p) + 1
  }

  lemma {:induction false} ParensGrow(P: string, p: nat, q: nat)
    requires p <= q <= |P|
    ensures Parens(P, p) <= Parens(P, q)
    decreases q - p
  {
    if p < q { ParensGrow(P, p, q - 1); }
  }

  /** Reading atom by atom never gets out of step with the scan that numbers groups. */
  lemma AtomAligned(P: string, p: nat)
    requires p < |P| && !Escaped(P, p) && DecodeAtom(P, p).GoodAtom? && !DecodeAtom(P, p).atom.Unclosed?
    ensures !Escaped(P, DecodeAtom(P, p).end)
    ensures !Escaped(P, ReadQuant(P, DecodeAtom(P, p).end).rest)
  {
    var q := DecodeAtom(P, p).end;
    if P[p] == '\\' {
      assert Escaped(P, p + 1);
    } else {
      assert P[q - 1] != '\\';
    }
  }

  /** No two groups share a number. */
  lemma GroupsNumbered(P: string, p: nat, q: nat)
    requires p < q < |P| && P[p] == '(' && !Escaped(P, p)
    ensures GroupIndex(P, p) < GroupIndex(P, q)
  {
    ParensGrow(P, p + 1, q);
  }
}
