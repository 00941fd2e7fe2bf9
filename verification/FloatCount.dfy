/** `(float)n` for the counts of src/map/map.c: 24 bits of a natural number, rounded to nearest. */
module FloatCount {
  /** Below this every number is a `float`. */
  const EXACT: nat := 0x100_0000

  /** The distance between the floats about n: 1, and twice as much with every bit more. */
  function Ulp(n: nat): nat {
    if n < EXACT then 1 else 2 * Ulp(n / 2)
  }

  /** The last float up to n, and whether its mantissa is odd. */
  function Low(n: nat): nat {
    if n < EXACT then n else 2 * Low(n / 2)
  }

  predicate Odd(n: nat) {
    if n < EXACT then n % 2 == 1 else Odd(n / 2)
  }

  /** The nearest float; of two as near, the one with an even mantissa. */
  function Rounded(n: nat): nat {
    var lo, u := Low(n), Ulp(n);
    if 2 * (n - lo) < u || (2 * (n - lo) == u && !Odd(n)) then lo else lo + u
  }

  lemma RoundedSmall(n: nat)
    requires n < EXACT
    ensures Rounded(n) == n
  {
  }

  /** The next float is that much further. */
  lemma {:induction false} Between(n: nat)
    ensures Low(n) <= n < Low(n) + Ulp(n)
  {
    if n >= EXACT { Between(n / 2); }
  }

  lemma {:induction false} UlpSmall(n: nat)
    ensures n >= EXACT ==> EXACT * Ulp(n) <= 2 * n && Low(n) >= EXACT
  {
    if n / 2 >= EXACT { UlpSmall(n / 2); }
  }

  /** Of two numbers in order either both have the same floats about them, or the first's come first. */
  lemma {:induction false} FloatsInOrder(a: nat, b: nat)
    requires a <= b
    ensures (Low(a) == Low(b) && Ulp(a) == Ulp(b) && (Odd(a) <==> Odd(b))) || Low(a) + Ulp(a) <= Low(b)
  {
    if a >= EXACT { FloatsInOrder(a / 2, b / 2); } else { UlpSmall(b); }
  }

  /** Rounding keeps the order. */
  lemma RoundedMonotone(a: nat, b: nat)
    requires a <= b
    ensures Rounded(a) <= Rounded(b)
  {
    FloatsInOrder(a, b);
  }

  /** Rounding changes a number by less than an eighth. */
  lemma RoundedNear(n: nat)
    ensures 7 * n <= 8 * Rounded(n) && 7 * Rounded(n) <= 8 * n
  {
    Between(n);
    UlpSmall(n);
  }

  // ----- the nearest float -----

  function Power(e: nat): nat {
    if e == 0 then 1 else 2 * Power(e - 1)
  }

  /** A natural number that a mantissa of 24 bits can hold. */
  ghost predicate IsFloat(x: nat) {
    exists m: nat, e: nat {:trigger Scaled(m, e)} :: m < EXACT && x == Scaled(m, e)
  }

  function Scaled(m: nat, e: nat): nat {
    m * Power(e)
  }

  lemma ScaledTwice(m: nat, e: nat)
    ensures Scaled(m, e + 1) == 2 * Scaled(m, e)
  {
  }

  lemma HalfIsFloat(y: nat) returns (h: nat)
    requires IsFloat(y) && y >= EXACT
    ensures IsFloat(h) && y == 2 * h
  {
    var m: nat, e: nat :| m < EXACT && y == Scaled(m, e);
    assert Scaled(m, 0) == m;
    ScaledTwice(m, e - 1);
    h := Scaled(m, e - 1);
  }

  lemma SmallIsFloat(n: nat)
    requires n < EXACT
    ensures IsFloat(n)
  {
    assert Scaled(n, 0) == n;
  }

  lemma TwiceIsFloat(y: nat)
    requires IsFloat(y)
    ensures IsFloat(2 * y)
  {
    var m: nat, e: nat :| m < EXACT && y == Scaled(m, e);
    ScaledTwice(m, e);
  }

  lemma EvenIsFloat(y: nat)
    requires y <= EXACT && y % 2 == 0
    ensures IsFloat(y)
  {
    SmallIsFloat(y / 2);
    TwiceIsFloat(y / 2);
  }

  /** The two numbers about n are floats, and none is between them. */
  lemma {:induction false} NoneBetween(n: nat, y: nat)
    requires IsFloat(y)
    ensures y <= Low(n) || Low(n) + Ulp(n) <= y
  {
    if n >= EXACT {
      UlpSmall(n);
      if y >= EXACT {
        var h := HalfIsFloat(y);
        NoneBetween(n / 2, h);
      }
    }
  }

  lemma {:induction false} BothFloats(n: nat)
    ensures IsFloat(Low(n)) && IsFloat(Low(n) + Ulp(n))
  {
    if n >= EXACT {
      BothFloats(n / 2);
      TwiceIsFloat(Low(n / 2));
      TwiceIsFloat(Low(n / 2) + Ulp(n / 2));
    } else {
      SmallIsFloat(n);
      if n + 1 < EXACT { SmallIsFloat(n + 1); } else { EvenIsFloat(n + 1); }
    }
  }

  function Distance(a: nat, b: nat): nat {
    if a <= b then b - a else a - b
  }

  /** What is rounded to is a float, and no float is nearer. */
  lemma RoundedIsNearest(n: nat, y: nat)
    requires IsFloat(y)
    ensures IsFloat(Rounded(n)) && Distance(n, Rounded(n)) <= Distance(n, y)
  {
    Between(n);
    NoneBetween(n, y);
    BothFloats(n);
  }

  /** Of two as near it is the one with an even mantissa. */
  lemma RoundedToEven(n: nat)
    requires Distance(n, Low(n)) == Distance(n, Low(n) + Ulp(n))
    ensures exists m: nat :: m % 2 == 0 && Rounded(n) == m * Ulp(n)
  {
    Between(n);
    var m := Mantissa(n);
    if Odd(n) { assert Rounded(n) == (m + 1) * Ulp(n); } else { assert Rounded(n) == m * Ulp(n); }
  }

  lemma {:induction false} Mantissa(n: nat) returns (m: nat)
    ensures Low(n) == m * Ulp(n) && (m % 2 == 1 <==> Odd(n))
  {
    if n < EXACT {
      m := n;
    } else {
      m := Mantissa(n / 2);
    }
  }

  // ----- the load test -----

  /** `(float)count / size <= 0.75`, for a size that is a power of two: the division is exact then, the conversion rounds. */
  predicate Loaded(count: nat, size: nat) {
    4 * Rounded(count) <= 3 * size
  }

  /** `(float)(count + 1) / size > 0.75`. */
  predicate Overloaded(count: nat, size: nat) {
    !Loaded(count + 1, size)
  }

  /** Below 2^24 entries the test is that a table is at most three quarters full. */
  lemma LoadedIsThreeQuarters(count: nat, size: nat)
    requires count < EXACT
    ensures Loaded(count, size) <==> 4 * count <= 3 * size
  {
  }

  lemma LoadedRoom(count: nat, size: nat)
    requires size > 0 && Loaded(count, size)
    ensures count < size
  {
    RoundedNear(count);
  }

  lemma LoadedLess(count: nat, more: nat, size: nat)
    requires count <= more && Loaded(more, size)
    ensures Loaded(count, size)
  {
    RoundedMonotone(count, more);
  }

  /** A table of twice the size takes one more. */
  lemma LoadedDouble(count: nat, size: nat)
    requires size > 0 && Loaded(count, size)
    ensures !Overloaded(count, 2 * size)
  {
    RoundedNear(count);
    RoundedNear(count + 1);
    if count + 1 < EXACT {
      RoundedSmall(count);
      RoundedSmall(count + 1);
    }
  }
}
