/** A written pattern is read as what was written, and the engine finds what it describes. */
module RegexText {
  import opened Basics
  import opened RegexSyntax
  import opened RegexPlaces
  import opened RegexPatterns
  import opened RegexMeaning
  import opened RegexExact

  // ----- escapes and classes mean what they say -----

  lemma DigitsAre(c: char)
    ensures c in DIGITS <==> '0' <= c <= '9'
  {
    if '0' <= c <= '9' { assert DIGITS[c as int - '0' as int] == c; }
  }

  lemma SpacesAre(c: char)
    ensures c in SPACES <==> c == ' ' || '\t' <= c <= '\r'
  {
    if '\t' <= c <= '\r' { assert SPACES[c as int - '\t' as int + 1] == c; }
    if c == ' ' { assert SPACES[0] == c; }
  }

  /** An escape stands for the characters listed. */
  lemma EscapeStands(e: char, c: char)
    ensures EscapeHas(e, c) <==> Stands(e, c)
  {
    DigitsAre(c);
    SpacesAre(c);
  }

  lemma ItemIs(item: ClassItem, c: char)
    ensures ItemHas(item, c) <==> InItem(item, c)
  {
    if item.Kind? { EscapeStands(item.esc, c); }
  }

  // ----- reading what is written -----

  // ----- classes -----

  /** One character of a class. */
  lemma CharRead(P: string, p: nat, end: nat, c: char)
    requires Here(P, p, CharText(c)) && p + |CharText(c)| <= end <= |P|
    ensures !(P[p] == '\\' && p + 1 < end && P[p + 1] in CLASS_ESCAPES) && P[p] !in "^!-"
    ensures (if P[p] == '\\' && p + 1 < end then (P[p + 1], p + 2) else (P[p], p + 1)) == (c, p + |CharText(c)|)
    ensures P[p] == '\\' <==> |CharText(c)| == 2
  {
    if c in CLASS_SPECIAL { HerePair(P, p, '\\', c); } else { HereOne(P, p, c); }
  }

  /** The first item and the rest. */
  lemma ItemsHere(P: string, i: nat, items: seq<ClassItem>)
    requires Here(P, i, ItemsText(items)) && items != []
    ensures Here(P, i, ItemText(items[0])) && Here(P, i + |ItemText(items[0])|, ItemsText(items[1..]))
    ensures |ItemsText(items)| == |ItemText(items[0])| + |ItemsText(items[1..])|
  {
    HereTwo(P, i, ItemText(items[0]), ItemsText(items[1..]));
  }

  lemma ItemsStart(P: string, p: nat, items: seq<ClassItem>)
    requires Here(P, p, ItemsText(items)) && items != []
    ensures p < |P| && P[p] !in "^!-" && |ItemsText(items)| > 0
  {
    ItemsHere(P, p, items);
    ItemStart(P, p, items[0]);
  }

  lemma ItemStart(P: string, p: nat, item: ClassItem)
    requires Here(P, p, ItemText(item))
    ensures p < |P| && P[p] !in "^!-"
  {
    match item
    case Kind(e) => HerePair(P, p, '\\', e);
    case Range(first, last) =>
      HereTwo(P, p, CharText(first), if first == last then "" else "-" + CharText(last));
      CharRead(P, p, |P|, first);
  }

  lemma {:induction false} ItemsRead(P: string, p: nat, end: nat, items: seq<ClassItem>)
    requires Here(P, p, ItemsText(items)) && end == p + |ItemsText(items)| <= |P| && WritableItems(items)
    ensures ClassItems(P, p, end) == items
    decreases |items|
  {
    if items != [] {
      var q := ItemsNext(P, p, end, items);
      ItemsRead(P, q, end, items[1..]);
      FrontAndRest(items, ClassItems(P, q, end));
    }
  }

  lemma FrontAndRest(items: seq<ClassItem>, rest: seq<ClassItem>)
    requires items != [] && rest == items[1..]
    ensures items == [items[0]] + rest
  {
  }

  lemma ItemsNext(P: string, p: nat, end: nat, items: seq<ClassItem>) returns (q: nat)
    requires Here(P, p, ItemsText(items)) && end == p + |ItemsText(items)| <= |P| && WritableItems(items) && items != []
    ensures Here(P, q, ItemsText(items[1..])) && end == q + |ItemsText(items[1..])| && WritableItems(items[1..])
    ensures ClassItems(P, p, end) == [items[0]] + ClassItems(P, q, end)
  {
    q := FirstItem(P, p, end, items);
    ItemRead(P, p, q, end, items[0]);
  }

  lemma FirstItem(P: string, p: nat, end: nat, items: seq<ClassItem>) returns (q: nat)
    requires Here(P, p, ItemsText(items)) && end == p + |ItemsText(items)| <= |P| && WritableItems(items) && items != []
    ensures Here(P, p, ItemText(items[0])) && q == p + |ItemText(items[0])| <= end && (items[0].Kind? ==> items[0].esc in "dDsSwWtnr")
    ensures Here(P, q, ItemsText(items[1..])) && WritableItems(items[1..])
    ensures end == q + |ItemsText(items[1..])| && (q < end ==> P[q] != '-')
  {
    q := p + |ItemText(items[0])|;
    ItemsHere(P, p, items);
    RestWritable(items);
    if items[1..] != [] { ItemsStart(P, q, items[1..]); }
  }

  lemma RestWritable(items: seq<ClassItem>)
    requires items != [] && WritableItems(items)
    ensures WritableItems(items[1..])
  {
  }

  lemma ItemRead(P: string, p: nat, end: nat, stop: nat, item: ClassItem)
    requires Here(P, p, ItemText(item)) && end == p + |ItemText(item)| <= stop <= |P| && (item.Kind? ==> item.esc in "dDsSwWtnr")
    requires end < stop ==> P[end] != '-'
    ensures ClassItems(P, p, stop) == [item] + ClassItems(P, end, stop)
  {
    match item
    case Kind(e) => HerePair(P, p, '\\', e);
    case Range(first, last) =>
      var q := p + |CharText(first)|;
      HereTwo(P, p, CharText(first), if first == last then "" else "-" + CharText(last));
      CharRead(P, p, stop, first);
      if first != last {
        HereTwo(P, q, "-", CharText(last));
        HereOne(P, q, '-');
        CharRead(P, q + 1, stop, last);
      }
  }

  // ----- closing brackets -----

  lemma QuietChar(c: char)
    ensures Quiet(CharText(c))
  {
    if c in CLASS_SPECIAL { QuietPair(c); } else { QuietOne(c); }
  }

  lemma QuietItem(item: ClassItem)
    ensures Quiet(ItemText(item))
  {
    match item
    case Kind(e) => QuietPair(e);
    case Range(first, last) =>
      QuietChar(first);
      QuietChar(last);
      QuietOne('-');
      QuietJoin("-", CharText(last));
      QuietJoin(CharText(first), if first == last then "" else "-" + CharText(last));
  }

  lemma {:induction false} QuietItems(items: seq<ClassItem>)
    ensures Quiet(ItemsText(items))
    decreases |items|
  {
    if items != [] {
      QuietItem(items[0]);
      QuietItems(items[1..]);
      QuietJoin(ItemText(items[0]), ItemsText(items[1..]));
    }
  }

  // ----- repetitions -----

  lemma DigitIs(k: nat)
    requires k < 10
    ensures IsDigit(DIGITS[k]) && DIGITS[k] as int - '0' as int == k
  {
  }

  lemma OneMore(d: string, k: nat)
    requires Figures(d) && k < 10
    ensures Figures(d + [DIGITS[k]]) && Worth(d + [DIGITS[k]]) == Worth(d) * 10 + k
  {
    DigitIs(k);
    assert (d + [DIGITS[k]])[..|d|] == d;
  }

  lemma {:induction false} NumeralIs(n: nat)
    ensures Figures(Numeral(n)) && Worth(Numeral(n)) == n
    decreases n
  {
    if n >= 10 {
      NumeralIs(n / 10);
      OneMore(Numeral(n / 10), n % 10);
    } else {
      OneMore("", n);
    }
  }

  /** Digits are read as the number they are worth. */
  lemma {:induction false} FiguresRead(P: string, p: nat, d: string)
    requires Here(P, p, d) && Figures(d)
    ensures Number(P, p, 0) == Number(P, p + |d|, Worth(d))
    decreases |d|
  {
    if d != "" {
      var front, c := d[..|d| - 1], d[|d| - 1];
      assert d == front + [c];
      HereTwo(P, p, front, [c]);
      HereOne(P, p + |front|, c);
      FiguresRead(P, p, front);
    }
  }

  lemma NextFigure(P: string, s: nat, p: nat)
    requires s <= p < |P| && Figures(P[s..p]) && IsDigit(P[p])
    ensures Figures(P[s..p + 1]) && Worth(P[s..p + 1]) == Worth(P[s..p]) * 10 + (P[p] as int - '0' as int)
  {
    var d := P[s..p];
    assert P[s..p + 1] == d + [P[p]];
    assert (d + [P[p]])[..|d|] == d;
  }

  /** And what is read is all the digits there are. */
  lemma {:induction false} NumberIs(P: string, s: nat, p: nat)
    requires s <= p <= |P| && Figures(P[s..p])
    ensures var (n, e) := Number(P, p, Worth(P[s..p]));
      p <= e <= |P| && Figures(P[s..e]) && Worth(P[s..e]) == n && !IsDigit(At(P, e))
    decreases |P| - p
  {
    if p < |P| && IsDigit(P[p]) {
      NextFigure(P, s, p);
      NumberIs(P, s, p + 1);
    }
  }

  lemma TimesRead(P: string, q: nat, times: Times)
    requires Here(P, q, TimesText(times)) && At(P, q + |TimesText(times)|) !in "*+?{"
    ensures var quant := ReadQuant(P, q); quant.rest == q + |TimesText(times)| && Bounds(quant.lo, quant.hi, times)
  {
    match times
    case Once =>
    case ZeroOrMore => HereOne(P, q, '*');
    case OneOrMore => HereOne(P, q, '+');
    case Optional => HereOne(P, q, '?');
    case Exactly(n) =>
      NumeralIs(n);
      ExactlyRead(P, q, Numeral(n));
    case AtLeast(n) =>
      NumeralIs(n);
      AtLeastRead(P, q, Numeral(n));
    case Between(m, n) =>
      NumeralIs(m);
      NumeralIs(n);
      BetweenRead(P, q, Numeral(m), Numeral(n));
  }

  lemma ExactlyRead(P: string, q: nat, d: string)
    requires Here(P, q, "{" + (d + "}")) && Figures(d)
    ensures q < |P| && P[q] == '{' && ReadQuant(P, q) == Quant(Worth(d), Worth(d), q + |d| + 2)
  {
    var p := BracesRead(P, q, d, "}");
    OneNumber(P, q, p, Worth(d));
  }

  lemma OneNumber(P: string, q: nat, p: nat, n: nat)
    requires q < p < |P| && P[q] == '{' && P[p] == '}' && Number(P, q + 1, 0) == (n, p)
    ensures ReadQuant(P, q) == Quant(n, n, p + 1)
  {
  }

  lemma AtLeastRead(P: string, q: nat, d: string)
    requires Here(P, q, "{" + (d + ",}")) && Figures(d)
    ensures q < |P| && P[q] == '{' && ReadQuant(P, q) == Quant(Worth(d), -1, q + |d| + 3)
  {
    var p := BracesRead(P, q, d, ",}");
    HerePair(P, p, ',', '}');
    NoUpper(P, q, p, Worth(d));
  }

  lemma NoUpper(P: string, q: nat, p: nat, n: nat)
    requires q < p && p + 1 < |P| && P[q] == '{' && P[p] == ',' && P[p + 1] == '}' && Number(P, q + 1, 0) == (n, p)
    ensures ReadQuant(P, q) == Quant(n, -1, p + 2)
  {
  }

  lemma BetweenRead(P: string, q: nat, d: string, e: string)
    requires Here(P, q, "{" + (d + ("," + (e + "}")))) && Figures(d) && Figures(e) && e != ""
    ensures q < |P| && P[q] == '{' && ReadQuant(P, q) == Quant(Worth(d), Worth(e), q + |d| + |e| + 3)
  {
    var p := BracesRead(P, q, d, "," + (e + "}"));
    var end := SecondRead(P, p, e);
    TwoNumbers(P, q, p, end, Worth(d), Worth(e));
  }

  lemma TwoNumbers(P: string, q: nat, p: nat, e: nat, m: nat, n: nat)
    requires q < p < e < |P| && P[q] == '{' && P[p] == ',' && P[p + 1] != '}' && P[e] == '}'
    requires Number(P, q + 1, 0) == (m, p) && Number(P, p + 1, 0) == (n, e)
    ensures ReadQuant(P, q) == Quant(m, n, e + 1)
  {
  }

  lemma SecondRead(P: string, p: nat, d: string) returns (e: nat)
    requires Here(P, p, "," + (d + "}")) && Figures(d) && d != ""
    ensures p < e == p + 1 + |d| < |P| && P[p] == ',' && P[p + 1] != '}' && Number(P, p + 1, 0) == (Worth(d), e) && P[e] == '}'
  {
    e := p + 1 + |d|;
    ThreeHere(P, p, p + 1, e, ",", d, "}");
    HereOne(P, p, ',');
    HereOne(P, e, '}');
    HereNext(P, p + 1, d);
    FiguresRead(P, p + 1, d);
  }

  /** The first number in braces, and what follows it. */
  lemma BracesRead(P: string, q: nat, d: string, tail: string) returns (p: nat)
    requires Here(P, q, "{" + (d + tail)) && Figures(d) && |tail| > 0 && !IsDigit(tail[0])
    ensures q < |P| && P[q] == '{' && p == q + 1 + |d| && Number(P, q + 1, 0) == (Worth(d), p)
    ensures Here(P, p, tail) && p < |P| && P[p] == tail[0]
  {
    p := q + 1 + |d|;
    ThreeHere(P, q, q + 1, p, "{", d, tail);
    HereOne(P, q, '{');
    HereNext(P, p, tail);
    FiguresRead(P, q + 1, d);
  }

  lemma SliceHere(P: string, i: nat, j: nat)
    requires i <= j <= |P|
    ensures Here(P, i, P[i..j])
  {
  }

  /** Where braces are read as a repetition, it is one of the three forms. */
  lemma BracesSaid(P: string, q: nat)
    requires q < |P| && P[q] == '{' && ReadQuant(P, q).rest != q
    ensures BracesSay(P, q, ReadQuant(P, q))
  {
    var d, p := FiguresFrom(P, q + 1);
    HereOne(P, q, '{');
    QuantIs(P, q, p, Worth(d));
    if At(P, p) == '}' {
      JoinHere(P, q, q + 1, p, "{", d, "}");
    } else if At(P, p + 1) == '}' {
      JoinHere(P, q, q + 1, p, "{", d, ",}");
    } else {
      var e, end := SecondFrom(P, p);
      JoinHere(P, q, q + 1, p, "{", d, "," + (e + "}"));
      assert Said(P, q, d, e, ReadQuant(P, q));
    }
    assert At(P, p) == '}' || At(P, p + 1) == '}' ==> Said(P, q, d, "0", ReadQuant(P, q));
  }

  lemma QuantIs(P: string, q: nat, p: nat, n: nat)
    requires q < |P| && P[q] == '{' && ReadQuant(P, q).rest != q && Number(P, q + 1, 0) == (n, p) && !IsDigit(At(P, p))
    ensures if At(P, p) == '}' then Here(P, p, "}") && ReadQuant(P, q) == Quant(n, n, p + 1)
      else if At(P, p + 1) == '}' then Here(P, p, ",}") && ReadQuant(P, q) == Quant(n, -1, p + 2)
      else
        var (m, e) := Number(P, p + 1, 0);
        Here(P, p, ",") && Here(P, e, "}") && e > p + 1 && ReadQuant(P, q) == Quant(n, m, e + 1)
  {
    HereOne(P, p, '}');
    HereOne(P, p, ',');
    HerePair(P, p, ',', '}');
    HereOne(P, Number(P, p + 1, 0).1, '}');
  }

  /** The digits from p on. */
  lemma FiguresFrom(P: string, p: nat) returns (d: string, end: nat)
    requires p <= |P|
    ensures end == p + |d| <= |P| && Here(P, p, d) && Figures(d) && Number(P, p, 0) == (Worth(d), end) && !IsDigit(At(P, end))
  {
    end := Number(P, p, 0).1;
    assert P[p..p] == "";
    NumberIs(P, p, p);
    d := P[p..end];
    SliceHere(P, p, end);
  }

  lemma SecondFrom(P: string, p: nat) returns (e: string, end: nat)
    requires Here(P, p, ",") && Here(P, Number(P, p + 1, 0).1, "}")
    ensures Figures(e) && Number(P, p + 1, 0) == (Worth(e), end) && end == p + 1 + |e| && Here(P, p, "," + (e + "}"))
  {
    e, end := FiguresFrom(P, p + 1);
    JoinHere(P, p, p + 1, end, ",", e, "}");
  }

  lemma JoinHere(P: string, i: nat, j: nat, k: nat, a: string, b: string, c: string)
    requires j == i + |a| && k == j + |b| && Here(P, i, a) && Here(P, j, b) && Here(P, k, c)
    ensures Here(P, i, a + (b + c))
  {
    HereTwo(P, j, b, c);
    HereTwo(P, i, a, b + c);
  }

  /** Braces are a repetition exactly where they have one of the three forms, and then the one they say; otherwise they are
      no repetition. */
  lemma BracesExactly(P: string, q: nat, r: Quant)
    requires q < |P| && P[q] == '{'
    ensures BracesSay(P, q, r) <==> ReadQuant(P, q) == r && r.rest != q
    ensures ReadQuant(P, q).rest == q ==> ReadQuant(P, q) == Quant(1, 1, q)
  {
    if BracesSay(P, q, r) {
      var d, e :| Said(P, q, d, e, r);
      SaidRead(P, q, d, e, r);
    }
    if ReadQuant(P, q).rest != q { BracesSaid(P, q); }
  }

  lemma SaidRead(P: string, q: nat, d: string, e: string, r: Quant)
    requires Said(P, q, d, e, r)
    ensures q < |P| && P[q] == '{' && ReadQuant(P, q) == r && r.rest != q
  {
    if Here(P, q, "{" + (d + "}")) && r == Quant(Worth(d), Worth(d), q + |d| + 2) {
      ExactlyRead(P, q, d);
    } else if Here(P, q, "{" + (d + ",}")) && r == Quant(Worth(d), -1, q + |d| + 3) {
      AtLeastRead(P, q, d);
    } else {
      BetweenRead(P, q, d, e);
    }
  }

  // ----- what is read means what was written -----

  lemma {:induction false} MeansHopes(P: string, re: Regex, p: Pat, dollar: bool)
    requires Means(P, re, p, dollar)
    ensures !Hopeless(re)
    decreases p
  {
    if p.More? { MeansHopes(P, re.rest, p.rest, dollar); }
  }

  lemma InSymIs(P: string, atom: Atom, sym: Sym, c: char)
    requires !sym.Sub? && AtomMeans(P, atom, sym)
    ensures !atom.Group? && (CharHas(P, atom, c) <==> InSym(sym, c))
  {
    match sym
    case Dot =>
    case Plain(_) =>
    case Esc(e) => EscapeStands(e, c);
    case Set(mark, items) =>
      forall k | 0 <= k < |items| ensures ItemHas(items[k], c) <==> InItem(items[k], c) { ItemIs(items[k], c); }
      assert SomeHas(items, c) <==> exists k :: 0 <= k < |items| && InItem(items[k], c);
  }

  /** A symbol describes what its atom matches. */
  lemma {:induction false} SymMatches(P: string, T: string, atom: Atom, sym: Sym, i: nat, j: nat)
    requires AtomMeans(P, atom, sym)
    ensures AtomMatches(P, T, atom, i, j) <==> SymDescribes(T, sym, i, j)
    decreases sym, 1
  {
    if sym.Sub? {
      PatMatches(P, T, atom.body, sym.body, sym.dollar, i, j);
    } else if i < |T| {
      InSymIs(P, atom, sym, T[i]);
    } else {
      InSymIs(P, atom, sym, 'a');
    }
  }

  lemma {:induction false} RepeatsMatch(P: string, T: string, atom: Atom, sym: Sym, i: nat, j: nat, k: nat)
    requires AtomMeans(P, atom, sym)
    ensures Repeats(P, T, atom, i, j, k) <==> SymRepeats(T, sym, i, j, k)
    decreases sym, 2, k
  {
    if k > 0 {
      var n := k - 1;
      forall m: nat ensures Repeats(P, T, atom, i, m, n) <==> SymRepeats(T, sym, i, m, n) { RepeatsMatch(P, T, atom, sym, i, m, n); }
      forall m: nat ensures AtomMatches(P, T, atom, m, j) <==> SymDescribes(T, sym, m, j) { SymMatches(P, T, atom, sym, m, j); }
    }
  }

  lemma MatchesParts(P: string, T: string, re: Regex, i: nat, j: nat) returns (k: nat, m: nat)
    requires re.Then? && Matches(P, T, re, i, j)
    ensures re.lo <= k && (re.hi < 0 || k <= re.hi) && Repeats(P, T, re.atom, i, m, k) && Matches(P, T, re.rest, m, j)
  {
    k, m :| re.lo <= k && (re.hi < 0 || k <= re.hi) && Repeats(P, T, re.atom, i, m, k) && Matches(P, T, re.rest, m, j);
  }

  lemma DescribedParts(T: string, p: Pat, dollar: bool, i: nat, j: nat) returns (k: nat, m: nat)
    requires p.More? && Describes(T, p, dollar, i, j)
    ensures Allows(p.times, k) && SymRepeats(T, p.sym, i, m, k) && Describes(T, p.rest, dollar, m, j)
  {
    k, m :| Allows(p.times, k) && SymRepeats(T, p.sym, i, m, k) && Describes(T, p.rest, dollar, m, j);
  }

  /** A pattern describes what is matched by what is read of it. */
  lemma {:induction false} PatMatches(P: string, T: string, re: Regex, p: Pat, dollar: bool, i: nat, j: nat)
    requires Means(P, re, p, dollar)
    ensures Matches(P, T, re, i, j) <==> Describes(T, p, dollar, i, j)
    decreases p, 0
  {
    if p.More? {
      if Matches(P, T, re, i, j) {
        var k, m := MatchesParts(P, T, re, i, j);
        RepeatsMatch(P, T, re.atom, p.sym, i, m, k);
        PatMatches(P, T, re.rest, p.rest, dollar, m, j);
        assert Allows(p.times, k);
      }
      if Describes(T, p, dollar, i, j) {
        var k, m := DescribedParts(T, p, dollar, i, j);
        RepeatsMatch(P, T, re.atom, p.sym, i, m, k);
        PatMatches(P, T, re.rest, p.rest, dollar, m, j);
      }
    }
  }

  // ----- a written pattern is read as what was written -----

  lemma {:induction false} QuietNumeral(n: nat)
    ensures Quiet(Numeral(n))
    decreases n
  {
    DigitIs(n % 10);
    QuietOne(DIGITS[n % 10]);
    if n >= 10 { QuietNumeral(n / 10); }
    QuietJoin(if n < 10 then [] else Numeral(n / 10), [DIGITS[n % 10]]);
  }

  lemma QuietTimes(times: Times)
    ensures Quiet(TimesText(times))
  {
    match times
    case Once =>
    case ZeroOrMore => QuietOne('*');
    case OneOrMore => QuietOne('+');
    case Optional => QuietOne('?');
    case Exactly(n) => QuietBraces(n, "}");
    case AtLeast(n) =>
      QuietOne(',');
      QuietOne('}');
      QuietJoin(",", "}");
      QuietBraces(n, ",}");
    case Between(m, n) =>
      QuietNumeral(n);
      QuietOne('}');
      QuietOne(',');
      QuietJoin(Numeral(n), "}");
      QuietJoin(",", Numeral(n) + "}");
      QuietBraces(m, "," + (Numeral(n) + "}"));
  }

  lemma QuietBraces(n: nat, tail: string)
    requires Quiet(tail) || tail == "}"
    ensures Quiet("{" + (Numeral(n) + tail))
  {
    if tail == "}" { QuietOne('}'); }
    QuietNumeral(n);
    QuietOne('{');
    QuietJoin(Numeral(n), tail);
    QuietJoin("{", Numeral(n) + tail);
  }

  /** The parts of a pattern. */
  lemma PatHere(P: string, i: nat, p: Pat) returns (j: nat, k: nat)
    requires p.More? && Here(P, i, PatText(p))
    ensures Here(P, i, SymText(p.sym)) && j == i + |SymText(p.sym)|
    ensures Here(P, j, TimesText(p.times)) && k == j + |TimesText(p.times)|
    ensures Here(P, k, PatText(p.rest)) && i + |PatText(p)| == k + |PatText(p.rest)| <= |P|
  {
    j := i + |SymText(p.sym)|;
    k := j + |TimesText(p.times)|;
    ThreeHere(P, i, j, k, SymText(p.sym), TimesText(p.times), PatText(p.rest));
  }

  /** The search for the `)` of a group passes over what stands in it. */
  lemma {:induction false} SkipPat(P: string, i: nat, end: nat, p: Pat)
    requires Here(P, i, PatText(p)) && Writable(p) && end == i + |PatText(p)|
    ensures Passed(P, i, end)
    decreases p, 0
  {
    if p.More? {
      var j, k := PatHere(P, i, p);
      SkipSym(P, i, j, p.sym);
      QuietTimes(p.times);
      PassQuiet(P, j, k, TimesText(p.times));
      SkipPat(P, k, end, p.rest);
      PassedOn(P, i, j, k);
      PassedOn(P, i, k, end);
    }
  }

  lemma {:induction false} SkipSym(P: string, i: nat, end: nat, sym: Sym)
    requires Here(P, i, SymText(sym)) && WritableSym(sym) && end == i + |SymText(sym)|
    ensures Passed(P, i, end)
    decreases sym, 1
  {
    match sym
    case Dot => QuietOne('.'); PassQuiet(P, i, end, ".");
    case Esc(c) => QuietPair(c); PassQuiet(P, i, end, ['\\', c]);
    case Plain(c) => QuietOne(c); PassQuiet(P, i, end, [c]);
    case Set(mark, items) =>
      var p, close := SetHere(P, i, mark, items);
      SkipItems(P, i + 1, p, close, mark, items);
      PassSet(P, i, i + 1, close, end);
    case Sub(body, dollar) =>
      var e, close := SubHere(P, i, body, dollar);
      SkipBody(P, i + 1, e, close, body, dollar);
      PassGroup(P, i, i + 1, close, end);
  }

  lemma {:induction false} SkipBody(P: string, p: nat, e: nat, close: nat, body: Pat, dollar: bool)
    requires Here(P, p, PatText(body)) && Here(P, e, DollarText(dollar)) && Writable(body)
    requires e == p + |PatText(body)| && close == e + |DollarText(dollar)|
    ensures Passed(P, p, close)
    decreases body, 2
  {
    SkipPat(P, p, e, body);
    SkipDollar(P, e, close, dollar);
    PassedOn(P, p, e, close);
  }

  lemma SkipDollar(P: string, i: nat, end: nat, dollar: bool)
    requires Here(P, i, DollarText(dollar)) && end == i + |DollarText(dollar)|
    ensures Passed(P, i, end)
  {
    if dollar { QuietOne('$'); }
    PassQuiet(P, i, end, DollarText(dollar));
  }

  /** The parts of a group. */
  lemma SubHere(P: string, i: nat, body: Pat, dollar: bool) returns (e: nat, close: nat)
    requires Here(P, i, SymText(Sub(body, dollar)))
    ensures i < |P| && P[i] == '('
    ensures Here(P, i + 1, PatText(body)) && e == i + 1 + |PatText(body)|
    ensures Here(P, e, DollarText(dollar)) && close == e + |DollarText(dollar)|
    ensures close < |P| && P[close] == ')' && i + |SymText(Sub(body, dollar))| == close + 1
  {
    e := i + 1 + |PatText(body)|;
    close := e + |DollarText(dollar)|;
    BracketsHere(P, i, e, close, '(', PatText(body), DollarText(dollar), ')');
  }

  /** The parts of a class. */
  lemma SetHere(P: string, i: nat, mark: Mark, items: seq<ClassItem>) returns (p: nat, close: nat)
    requires Here(P, i, SymText(Set(mark, items)))
    ensures i < |P| && P[i] == '['
    ensures Here(P, i + 1, MarkText(mark)) && p == i + 1 + |MarkText(mark)|
    ensures Here(P, p, ItemsText(items)) && close == p + |ItemsText(items)|
    ensures close < |P| && P[close] == ']' && i + |SymText(Set(mark, items))| == close + 1
  {
    p := i + 1 + |MarkText(mark)|;
    close := p + |ItemsText(items)|;
    BracketsHere(P, i, p, close, '[', MarkText(mark), ItemsText(items), ']');
  }

  lemma QuietMark(mark: Mark)
    ensures Quiet(MarkText(mark))
  {
    QuietOne('^');
    QuietOne('!');
  }

  lemma SkipItems(P: string, i: nat, p: nat, close: nat, mark: Mark, items: seq<ClassItem>)
    requires Here(P, i, MarkText(mark)) && p == i + |MarkText(mark)| && Here(P, p, ItemsText(items)) && close == p + |ItemsText(items)|
    ensures Passed(P, i, close)
  {
    QuietMark(mark);
    PassQuiet(P, i, p, MarkText(mark));
    QuietItems(items);
    PassQuiet(P, p, close, ItemsText(items));
    PassedOn(P, i, p, close);
  }

  /** No symbol is written with one of these in front, and one with `^` or `$` stands for that. */
  lemma SymStart(P: string, i: nat, sym: Sym)
    requires Here(P, i, SymText(sym)) && WritableSym(sym)
    ensures i < |P| && P[i] !in "*+?{)\0" && |SymText(sym)| > 0
    ensures P[i] in "^$" ==> sym == Plain(P[i])
  {
    match sym
    case Dot => HereOne(P, i, '.');
    case Esc(c) => HerePair(P, i, '\\', c);
    case Plain(c) => HereOne(P, i, c);
    case Set(mark, items) => var _, _ := SetHere(P, i, mark, items);
    case Sub(body, dollar) => var _, _ := SubHere(P, i, body, dollar);
  }

  lemma MarkRead(P: string, p: nat, close: nat, mark: Mark, items: seq<ClassItem>)
    requires Here(P, p, MarkText(mark)) && Here(P, p + |MarkText(mark)|, ItemsText(items))
    requires close == p + |MarkText(mark)| + |ItemsText(items)| < |P|
    ensures Negated(P, p, close) <==> mark != Only
  {
    if mark != Only {
      HereOne(P, p, if mark == NotCaret then '^' else '!');
    } else if items != [] {
      ItemsStart(P, p, items);
    }
  }

  lemma SetMeans(P: string, i: nat, p: nat, close: nat, mark: Mark, items: seq<ClassItem>)
    requires Here(P, i, MarkText(mark)) && p == i + |MarkText(mark)| && WritableItems(items)
    requires Here(P, p, ItemsText(items)) && close == p + |ItemsText(items)| < |P|
    ensures AtomMeans(P, Class(i, close), Set(mark, items))
  {
    MarkRead(P, i, close, mark, items);
    ItemsRead(P, p, close, items);
    ClassMeans(P, i, p, close, mark, items);
  }

  lemma ClassMeans(P: string, i: nat, p: nat, close: nat, mark: Mark, items: seq<ClassItem>)
    requires close <= |P| && p == (if mark == Only then i else i + 1)
    requires (Negated(P, i, close) <==> mark != Only) && ClassItems(P, p, close) == items
    ensures AtomMeans(P, Class(i, close), Set(mark, items))
  {
  }

  lemma SetClose(P: string, i: nat, p: nat, close: nat, mark: Mark, items: seq<ClassItem>)
    requires i < |P| && P[i] == '[' && Here(P, i + 1, MarkText(mark)) && p == i + 1 + |MarkText(mark)|
    requires Here(P, p, ItemsText(items)) && close == p + |ItemsText(items)| < |P| && P[close] == ']'
    ensures FindMatching(P, i, '[', ']') == Some(close)
  {
    var a, b := MarkText(mark), ItemsText(items);
    QuietItems(items);
    QuietMark(mark);
    QuietJoin(a, b);
    HereTwo(P, i + 1, a, b);
    ClassClose(P, i, close, a + b);
  }

  /** What stands behind a symbol and its repetitions. */
  lemma NextIs(P: string, k: nat, stop: char, end: nat, rest: Pat, dollar: bool)
    requires PatAt(P, k, stop, end, rest, dollar)
    ensures At(P, k) !in "*+?{"
  {
    if rest.More? {
      var j, l := PatHere(P, k, rest);
      SymStart(P, k, rest.sym);
    } else if dollar {
      HereOne(P, k, '$');
    }
  }

  lemma EndRead(P: string, p: nat, stop: char, end: nat, dollar: bool)
    requires PatAt(P, p, stop, end, End, dollar)
    ensures ReadAs(P, p, stop, if dollar then Dollar else Done, end, End, dollar)
  {
    if dollar { HereOne(P, p, '$'); }
  }

  /** A symbol is read as an atom that means the same. */
  lemma {:induction false} SymRead(P: string, i: nat, end: nat, sym: Sym) returns (atom: Atom)
    requires Here(P, i, SymText(sym)) && WritableSym(sym) && end == i + |SymText(sym)|
    ensures SymReadAs(P, i, atom, end, sym)
    decreases sym, 1
  {
    SymStart(P, i, sym);
    match sym
    case Dot => HereOne(P, i, '.'); atom := Any;
    case Esc(c) => HerePair(P, i, '\\', c); atom := Escape(c);
    case Plain(c) => HereOne(P, i, c); atom := Literal(c);
    case Set(mark, items) =>
      var p, close := SetHere(P, i, mark, items);
      SetClose(P, i, p, close, mark, items);
      SetMeans(P, i + 1, p, close, mark, items);
      atom := Class(i + 1, close);
    case Sub(body, dollar) =>
      var e, close := SubHere(P, i, body, dollar);
      var re := SubRead(P, i + 1, e, close, body, dollar);
      GroupClose(P, i, i + 1, close);
      atom := Group(i, re);
  }

  lemma {:induction false} SubRead(P: string, p: nat, e: nat, close: nat, body: Pat, dollar: bool) returns (re: Regex)
    requires Writable(body) && Here(P, p, PatText(body)) && e == p + |PatText(body)|
    requires Here(P, e, DollarText(dollar)) && close == e + |DollarText(dollar)| < |P| && P[close] == ')'
    ensures Passed(P, p, close) && ReadAs(P, p, ')', re, close, body, dollar) && !Hopeless(re)
    decreases body, 2
  {
    SkipBody(P, p, e, close, body, dollar);
    re := PatRead(P, p, ')', close, body, dollar);
    MeansHopes(P, re, body, dollar);
  }

  lemma ThenRead(P: string, p: nat, stop: char, q: nat, k: nat, end: nat, atom: Atom, rest: Regex, pat: Pat, dollar: bool) returns (re: Regex)
    requires p < |P| && !AtStop(P, p, stop) && !DollarEnd(P, p, stop) && pat.More? && SymReadAs(P, p, atom, q, pat.sym) && q <= |P|
    requires ReadQuant(P, q).rest == k && Bounds(ReadQuant(P, q).lo, ReadQuant(P, q).hi, pat.times)
    requires ReadAs(P, k, stop, rest, end, pat.rest, dollar)
    ensures ReadAs(P, p, stop, re, end, pat, dollar)
  {
    var quant := ReadQuant(P, q);
    re := Then(atom, quant.lo, quant.hi, rest);
  }

  lemma RestAt(P: string, p: nat, stop: char, end: nat, pat: Pat, dollar: bool) returns (q: nat, k: nat)
    requires pat.More? && PatAt(P, p, stop, end, pat, dollar)
    ensures p < |P| && !AtStop(P, p, stop) && !DollarEnd(P, p, stop)
    ensures Here(P, p, SymText(pat.sym)) && WritableSym(pat.sym) && q == p + |SymText(pat.sym)|
    ensures Here(P, q, TimesText(pat.times)) && k == q + |TimesText(pat.times)| && At(P, k) !in "*+?{"
    ensures PatAt(P, k, stop, end, pat.rest, dollar)
  {
    q, k := PatHere(P, p, pat);
    SymStart(P, p, pat.sym);
    RestIsAt(P, p, stop, end, pat, dollar, k);
    if P[p] == '$' { NoEnd(P, p, q, k, pat); }
    NextIs(P, k, stop, end, pat.rest, dollar);
  }

  /** A `$` in a pattern is not taken for its end. */
  lemma NoEnd(P: string, p: nat, q: nat, k: nat, pat: Pat)
    requires pat.More? && Writable(pat) && pat.sym == Plain('$') && q == p + 1
    requires Here(P, q, TimesText(pat.times)) && k == q + |TimesText(pat.times)| && Here(P, k, PatText(pat.rest))
    ensures At(P, p + 1) != '\0' && At(P, p + 1) != ')'
  {
    if pat.times == Once {
      var j, l := PatHere(P, k, pat.rest);
      SymStart(P, k, pat.rest.sym);
    } else {
      HereNext(P, q, TimesText(pat.times));
    }
  }

  lemma RestIsAt(P: string, p: nat, stop: char, end: nat, pat: Pat, dollar: bool, k: nat)
    requires pat.More? && PatAt(P, p, stop, end, pat, dollar)
    requires Here(P, k, PatText(pat.rest)) && p + |PatText(pat)| == k + |PatText(pat.rest)|
    ensures PatAt(P, k, stop, end, pat.rest, dollar)
  {
  }

  /** A pattern is read as one that means the same. */
  lemma {:induction false} PatRead(P: string, p: nat, stop: char, end: nat, pat: Pat, dollar: bool) returns (re: Regex)
    requires PatAt(P, p, stop, end, pat, dollar)
    ensures ReadAs(P, p, stop, re, end, pat, dollar)
    decreases pat, 0
  {
    if pat.End? {
      EndRead(P, p, stop, end, dollar);
      re := if dollar then Dollar else Done;
    } else {
      var q, k := RestAt(P, p, stop, end, pat, dollar);
      var atom := SymRead(P, p, q, pat.sym);
      TimesRead(P, q, pat.times);
      var rest := PatRead(P, k, stop, end, pat.rest, dollar);
      re := ThenRead(P, p, stop, q, k, end, atom, rest, pat, dollar);
    }
  }

  // ----- whole patterns -----

  /** A written pattern is read to its end, as one that means what was written, and `^` is read as the anchor. */
  lemma WrittenRead(anchored: bool, pat: Pat, dollar: bool) returns (re: Regex)
    requires WritableWhole(anchored, pat)
    ensures var P := Written(anchored, pat, dollar);
      && (At(P, 0) == '^' <==> anchored) && |P| >= |Caret(anchored)|
      && Decode(P, |Caret(anchored)|, '\0') == Good(re, |P|) && Means(P, re, pat, dollar)
  {
    var P := Written(anchored, pat, dollar);
    var w := PatText(pat);
    var p := |Caret(anchored)|;
    var e := p + |w|;
    HereAll(P);
    ThreeHere(P, 0, p, e, Caret(anchored), w, DollarText(dollar));
    assert PatAt(P, p, '\0', |P|, pat, dollar);
    re := PatRead(P, p, '\0', |P|, pat, dollar);
    StartIs(P, anchored, p, pat, dollar);
  }

  lemma StartIs(P: string, anchored: bool, p: nat, pat: Pat, dollar: bool)
    requires Here(P, 0, Caret(anchored)) && p == |Caret(anchored)| && PatAt(P, p, '\0', |P|, pat, dollar)
    requires WritableWhole(anchored, pat)
    ensures At(P, 0) == '^' <==> anchored
  {
    if anchored {
      HereOne(P, 0, '^');
    } else if pat.More? {
      var q, k := RestAt(P, p, '\0', |P|, pat, dollar);
      SymStart(P, p, pat.sym);
    } else if dollar {
      HereOne(P, p, '$');
    }
  }

  /** The engine finds only what the pattern written down describes. */
  lemma FoundIsDescribed(T: string, anchored: bool, pat: Pat, dollar: bool)
    requires WritableWhole(anchored, pat)
    ensures var P := Written(anchored, pat, dollar);
      && |Caret(anchored)| <= |P| && (At(P, 0) == '^' <==> anchored) && Decode(P, |Caret(anchored)|, '\0').Good?
      && match Search(P, T, Decode(P, |Caret(anchored)|, '\0').re, anchored, 0)
         case Some((s, e)) => s <= e <= |T| && (anchored ==> s == 0) && Describes(T, pat, dollar, s, e)
         case None => true
  {
    var P := Written(anchored, pat, dollar);
    var re := WrittenRead(anchored, pat, dollar);
    SearchLeftmost(P, T, re, anchored, 0);
    match Search(P, T, re, anchored, 0)
    case Some((s, e)) => PatMatches(P, T, re, pat, dollar, s, e);
    case None =>
  }

  lemma {:induction false} MeansGroupFree(P: string, re: Regex, pat: Pat, dollar: bool)
    requires Means(P, re, pat, dollar) && NoGroups(pat)
    ensures GroupFree(re)
    decreases pat
  {
    if pat.More? { MeansGroupFree(P, re.rest, pat.rest, dollar); }
  }

  /** A pattern written without groups is found where it describes at most 511 characters that end before the text does, or
      before that place. */
  lemma DescribedIsFound(T: string, anchored: bool, pat: Pat, dollar: bool, i: nat, j: nat)
    requires WritableWhole(anchored, pat) && NoGroups(pat) && Describes(T, pat, dollar, i, j)
    requires i <= (if anchored then 0 else |T|) && j < |T| && j <= i + 511
    ensures var P := Written(anchored, pat, dollar);
      && |Caret(anchored)| <= |P| && Decode(P, |Caret(anchored)|, '\0').Good?
      && var r := Search(P, T, Decode(P, |Caret(anchored)|, '\0').re, anchored, 0); r.Some? && r.value.0 <= i
  {
    var P := Written(anchored, pat, dollar);
    var re := WrittenRead(anchored, pat, dollar);
    PatMatches(P, T, re, pat, dollar, i, j);
    MeansGroupFree(P, re, pat, dollar);
    MatchesReachable(P, T, re, i, j);
    assert Alive(P, T, re, i);
    SearchExact(P, T, re, anchored);
  }
}
