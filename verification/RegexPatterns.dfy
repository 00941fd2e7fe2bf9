/** Patterns written down, without reference to how src/string/string.c reads them: what each notation means, and how a
    pattern is written. */
module RegexPatterns {
  import opened Basics
  import opened RegexSyntax
  import opened RegexPlaces
  import opened RegexMeaning

  // ----- patterns and what they mean -----

  /** `.`, an escape, a class, a group with a `$` at its end or not, and a character that stands for itself. */
  datatype Sym = Dot | Esc(c: char) | Set(mark: Mark, items: seq<ClassItem>) | Sub(body: Pat, dollar: bool) | Plain(c: char)

  /** A class lists its members, or behind `^` or `!` what is not a member. */
  datatype Mark = Only | NotCaret | NotBang

  datatype Times = Once | ZeroOrMore | OneOrMore | Optional | Exactly(n: nat) | AtLeast(n: nat) | Between(m: nat, n: nat)

  datatype Pat = End | More(sym: Sym, times: Times, rest: Pat)

  const DIGITS := "0123456789"
  const SPACES := " \t\n\U{B}\U{C}\r"

  /** Letters, digits and the underscore. */
  predicate InWord(c: char) {
    'a' <= c <= 'z' || 'A' <= c <= 'Z' || c in DIGITS || c == '_'
  }

  /** The characters an escape stands for. */
  predicate Stands(e: char, c: char) {
    if e == 'd' then c in DIGITS
    else if e == 'D' then c !in DIGITS
    else if e == 's' then c in SPACES
    else if e == 'S' then c !in SPACES
    else if e == 'w' then InWord(c)
    else if e == 'W' then !InWord(c)
    else if e == 't' then c == '\t'
    else if e == 'n' then c == '\n'
    else if e == 'r' then c == '\r'
    else c == e
  }

  predicate InItem(item: ClassItem, c: char) {
    match item
    case Kind(e) => Stands(e, c)
    case Range(first, last) => first <= c <= last
  }

  predicate InSym(sym: Sym, c: char)
    requires !sym.Sub?
  {
    match sym
    case Dot => true
    case Esc(e) => Stands(e, c)
    case Set(mark, items) => (exists k :: 0 <= k < |items| && InItem(items[k], c)) <==> mark == Only
    case Plain(p) => c == p
  }

  /** k repetitions are as many as the notation allows. */
  predicate Allows(times: Times, k: nat) {
    match times
    case Once => k == 1
    case ZeroOrMore => true
    case OneOrMore => k >= 1
    case Optional => k <= 1
    case Exactly(n) => k == n
    case AtLeast(n) => k >= n
    case Between(m, n) => m <= k <= n
  }

  ghost predicate SymDescribes(T: string, sym: Sym, i: nat, j: nat)
    decreases sym, 1
  {
    if sym.Sub? then Describes(T, sym.body, sym.dollar, i, j) else i < |T| && j == i + 1 && InSym(sym, T[i])
  }

  ghost predicate SymRepeats(T: string, sym: Sym, i: nat, j: nat, k: nat)
    decreases sym, 2, k
  {
    if k == 0 then i == j
    else exists m: nat {:trigger SymDescribes(T, sym, m, j)} :: i <= m <= j && SymRepeats(T, sym, i, m, k - 1) && SymDescribes(T, sym, m, j)
  }

  /** The pattern describes the text from i to j, which is the end of the text if a `$` follows. */
  ghost predicate Describes(T: string, p: Pat, dollar: bool, i: nat, j: nat)
    decreases p, 0
  {
    match p
    case End => i == j <= |T| && (dollar ==> j == |T|)
    case More(sym, times, rest) =>
      exists k: nat, m: nat {:trigger SymRepeats(T, sym, i, m, k)} ::
        Allows(times, k) && SymRepeats(T, sym, i, m, k) && Describes(T, rest, dollar, m, j)
  }

  // ----- writing -----

  function Numeral(n: nat): (s: string)
    ensures |s| > 0
  {
    (if n < 10 then [] else Numeral(n / 10)) + [DIGITS[n % 10]]
  }

  function TimesText(times: Times): string {
    match times
    case Once => ""
    case ZeroOrMore => "*"
    case OneOrMore => "+"
    case Optional => "?"
    case Exactly(n) => "{" + (Numeral(n) + "}")
    case AtLeast(n) => "{" + (Numeral(n) + ",}")
    case Between(m, n) => "{" + (Numeral(m) + ("," + (Numeral(n) + "}")))
  }

  /** In a class these are written with a backslash. */
  const CLASS_SPECIAL := "\\[]()-^!"

  function CharText(c: char): (s: string)
    ensures |s| > 0
  {
    if c in CLASS_SPECIAL then ['\\', c] else [c]
  }

  function ItemText(item: ClassItem): (s: string)
    ensures |s| > 0
  {
    match item
    case Kind(e) => ['\\', e]
    case Range(first, last) => CharText(first) + if first == last then "" else "-" + CharText(last)
  }

  function ItemsText(items: seq<ClassItem>): string {
    if items == [] then "" else ItemText(items[0]) + ItemsText(items[1..])
  }

  function Caret(anchored: bool): string {
    if anchored then "^" else ""
  }

  function MarkText(mark: Mark): string {
    match mark
    case Only => ""
    case NotCaret => "^"
    case NotBang => "!"
  }

  function DollarText(dollar: bool): string {
    if dollar then "$" else ""
  }

  function SymText(sym: Sym): string
    decreases sym, 1
  {
    match sym
    case Dot => "."
    case Esc(c) => ['\\', c]
    case Set(mark, items) => "[" + (MarkText(mark) + (ItemsText(items) + "]"))
    case Sub(body, dollar) => "(" + (PatText(body) + (DollarText(dollar) + ")"))
    case Plain(c) => [c]
  }

  function PatText(p: Pat): string
    decreases p, 0
  {
    match p
    case End => ""
    case More(sym, times, rest) => SymText(sym) + (TimesText(times) + PatText(rest))
  }

  /** A whole pattern; with `^` in front it is tried at the start of the text only. */
  function Written(anchored: bool, p: Pat, dollar: bool): string {
    Caret(anchored) + (PatText(p) + DollarText(dollar))
  }

  predicate NoGroups(p: Pat) {
    p.More? ==> !p.sym.Sub? && NoGroups(p.rest)
  }

  /** Outside classes these are written with a backslash, to stand for themselves. */
  const SPECIAL := "\\.[]()*+?{"

  /** Every class escape is one. */
  predicate WritableItems(items: seq<ClassItem>) {
    forall k :: 0 <= k < |items| ==> items[k].Kind? ==> items[k].esc in "dDsSwWtnr"
  }

  /** Every character stands for itself where it is written so; a `$` does where it is not the end. */
  predicate Writable(p: Pat)
    decreases p, 0
  {
    p.More? ==>
      && WritableSym(p.sym) && Writable(p.rest)
      && (p.sym == Plain('$') ==> p.times != Once || p.rest.More?)
  }

  /** A `^` in front is the anchor. */
  predicate WritableWhole(anchored: bool, p: Pat) {
    Writable(p) && (p.More? && p.sym == Plain('^') ==> anchored)
  }

  predicate WritableSym(sym: Sym)
    decreases sym, 1
  {
    match sym
    case Set(_, items) => WritableItems(items)
    case Sub(body, _) => Writable(body)
    case Plain(c) => c !in SPECIAL && c != '\0'
    case _ => true
  }

  // ----- when what is read means what was written -----

  predicate Figures(d: string) {
    forall k :: 0 <= k < |d| ==> '0' <= d[k] <= '9'
  }

  /** The number that decimal digits are worth; 0 if there are none. */
  function Worth(d: string): nat
    requires Figures(d)
  {
    if d == "" then 0 else Worth(d[..|d| - 1]) * 10 + (d[|d| - 1] as int - '0' as int)
  }

  /** At q there is `{d}`, `{d,}` or `{d,e}`, and this is what that says. */
  ghost predicate Said(P: string, q: nat, d: string, e: string, r: Quant) {
    && Figures(d) && Figures(e)
    && ((Here(P, q, "{" + (d + "}")) && r == Quant(Worth(d), Worth(d), q + |d| + 2))
        || (Here(P, q, "{" + (d + ",}")) && r == Quant(Worth(d), -1, q + |d| + 3))
        || (e != "" && Here(P, q, "{" + (d + ("," + (e + "}")))) && r == Quant(Worth(d), Worth(e), q + |d| + |e| + 3)))
  }

  ghost predicate BracesSay(P: string, q: nat, r: Quant) {
    exists d, e :: Said(P, q, d, e, r)
  }

  /** What the notation allows is what the bounds read from it allow. */
  ghost predicate Bounds(lo: nat, hi: int, times: Times) {
    forall k: nat :: lo <= k && (hi < 0 || k <= hi) <==> Allows(times, k)
  }

  /** The atom read says what the symbol does. */
  ghost predicate AtomMeans(P: string, atom: Atom, sym: Sym)
    decreases sym, 1
  {
    match sym
    case Dot => atom == Any
    case Esc(c) => atom == Escape(c)
    case Plain(c) => atom == Literal(c)
    case Set(mark, items) =>
      && atom.Class? && atom.to <= |P| && (Negated(P, atom.from, atom.to) <==> mark != Only)
      && ClassItems(P, if mark != Only then atom.from + 1 else atom.from, atom.to) == items
    case Sub(body, dollar) => atom.Group? && Means(P, atom.body, body, dollar)
  }

  ghost predicate Means(P: string, re: Regex, p: Pat, dollar: bool)
    decreases p, 0
  {
    match p
    case End => re == if dollar then Dollar else Done
    case More(sym, times, rest) => re.Then? && Bounds(re.lo, re.hi, times) && AtomMeans(P, re.atom, sym) && Means(P, re.rest, rest, dollar)
  }

  /** A writable pattern stands from p to end, where its sequence stops. */
  ghost predicate PatAt(P: string, p: nat, stop: char, end: nat, pat: Pat, dollar: bool) {
    var e := p + |PatText(pat)|;
    && Writable(pat) && Here(P, p, PatText(pat)) && Here(P, e, DollarText(dollar)) && end == e + |DollarText(dollar)| <= |P|
    && (stop == '\0' || stop == ')') && AtStop(P, end, stop)
  }

  /** At p a sequence is read that ends at end and means the same as the pattern. */
  ghost predicate ReadAs(P: string, p: nat, stop: char, re: Regex, end: nat, pat: Pat, dollar: bool) {
    p <= |P| && Decode(P, p, stop) == Good(re, end) && Means(P, re, pat, dollar)
  }

  ghost predicate SymReadAs(P: string, p: nat, atom: Atom, end: nat, sym: Sym) {
    p < |P| && DecodeAtom(P, p) == GoodAtom(atom, end) && AtomMeans(P, atom, sym)
  }
}
