/** The loop of `dopr` over the chunks of a format, with `fmtstr`, `fmtint` and `dopr_outch`
    (src/external/talloc/lib/replace/snprintf.c): output into a buffer that may be too short. */
module Printf {
  import opened PrintfText

  class Output {
    const buffer: array<char>
    /** The room the caller gave, with the byte for NUL. */
    const maxlen: nat
    var currlen: nat
    /** All that was put out, also past the end. */
    ghost var text: string

    ghost predicate Valid()
      reads this, buffer
    {
      && maxlen <= buffer.Length && currlen == |text|
      && forall i :: 0 <= i < currlen && i < maxlen ==> buffer[i] == text[i]
    }

    /** Nothing past the room is written. */
    twostate predicate Inside()
      reads this, buffer
    {
      forall i :: maxlen <= i < buffer.Length ==> buffer[i] == old(buffer[i])
    }

    constructor (buffer: array<char>, maxlen: nat)
      requires maxlen <= buffer.Length
      ensures Valid() && text == "" && this.buffer == buffer && this.maxlen == maxlen
    {
      this.buffer, this.maxlen, currlen, text := buffer, maxlen, 0, "";
    }

    /** `dopr_outch`. */
    method Outch(c: char)
      requires Valid()
      modifies `currlen, `text, buffer
      ensures Valid() && Inside() && text == old(text) + [c]
    {
      if currlen < maxlen {
        buffer[currlen] := c;
      }
      currlen := currlen + 1;
      text := text + [c];
    }

    /** A loop that puts out one character again and again. */
    method Fill(c: char, n: int)
      requires Valid()
      modifies `currlen, `text, buffer
      ensures Valid() && Inside() && text == old(text) + Repeat(c, n)
    {
      var left := n;
      ghost var start := text;
      while left > 0
        invariant left <= Max(n, 0) && (left >= 0 || left == n) && Valid() && Inside()
        invariant |text| == |start| + Max(n, 0) - Max(left, 0) && text[..|start|] == start
        invariant forall i :: |start| <= i < |text| ==> text[i] == c
      {
        Outch(c);
        left := left - 1;
      }
      assert text == start + Repeat(c, n);
    }

    /** A stretch of characters, one by one. */
    method Puts(s: string, n: nat)
      requires Valid() && n <= |s|
      modifies `currlen, `text, buffer
      ensures Valid() && Inside() && text == old(text) + s[..n]
      ensures n == |s| ==> text == old(text) + s
    {
      for cnt := 0 to n
        invariant Valid() && Inside() && text == old(text) + s[..cnt]
      {
        Outch(s[cnt]);
        assert s[..cnt] + [s[cnt]] == s[..cnt + 1];
      }
      assert n == |s| ==> s[..n] == s;
    }

    /** `fmtstr`; where the precision is -1 its caller passes the length. */
    method Fmtstr(value: string, min: int, precision: int, minus: bool)
      requires Valid()
      modifies `currlen, `text, buffer
      ensures Valid() && Inside() && text == old(text) + ChunkText(Str(value, min, precision, minus))
    {
      var max := if precision == -1 then |value| else precision;
      var strln := 0;
      while strln < max && strln < |value|
        invariant 0 <= strln <= |value| && (strln <= max || strln == 0)
      {
        strln := strln + 1;
      }
      var padlen := min - strln;
      if padlen < 0 { padlen := 0; }
      if minus { padlen := -padlen; }
      ghost var start := text;
      Fill(' ', padlen);
      Puts(value, strln);
      Fill(' ', -padlen);
      Pieces3(start, Repeat(' ', padlen), value[..strln], Repeat(' ', -padlen));
      StrLayout(value, min, precision, minus, strln, padlen);
    }

    /** The `do` loop of `fmtint`: the digits, last one first, in the 23 bytes it has for them and a NUL. */
    method Convert(convert: array<char>, u: nat, base: nat, upper: bool) returns (place: nat)
      requires convert.Length == 23 && 2 <= base <= 16
      modifies convert
      ensures place == if |Digits(u, base, upper)| <= 22 then |Digits(u, base, upper)| else 22
      ensures forall i :: 0 <= i < place ==> convert[i] == Digits(u, base, upper)[|Digits(u, base, upper)| - 1 - i]
    {
      ghost var s := Digits(u, base, upper);
      assert s[..|s| - 0] == s;
      var left: nat;
      convert[0], left := NextDigit(s, 0, u, base, upper);
      place := 1;
      while left != 0 && place < 23
        invariant 1 <= place <= |s| && place <= 23 && Rest(s, place, left, base, upper)
        invariant forall i :: 0 <= i < place ==> convert[i] == s[|s| - 1 - i]
        decreases left
      {
        convert[place], left := NextDigit(s, place, left, base, upper);
        place := place + 1;
      }
      if place == 23 { place := place - 1; }
    }

    /** The loop of `fmtint` over the digits. */
    method PutDigits(convert: array<char>, count: nat, ghost s: string)
      requires Valid() && convert != buffer && count == |s| <= convert.Length
      requires forall i :: 0 <= i < count ==> convert[i] == s[count - 1 - i]
      modifies `currlen, `text, buffer
      ensures Valid() && Inside() && text == old(text) + s
    {
      var place := count;
      while place > 0
        invariant 0 <= place <= count && Valid() && Inside() && text == old(text) + s[..count - place]
      {
        place := place - 1;
        Outch(convert[place]);
        assert s[..count - place - 1] + [s[count - 1 - place]] == s[..count - place];
      }
      assert s[..count] == s;
    }

    /** `fmtint`. */
    method Fmtint(v: Long, base: nat, min: int, precision: int, f: Flags)
      requires Valid() && (base == 8 || base == 10 || base == 16)
      modifies `currlen, `text, buffer
      ensures Valid() && Inside() && text == old(text) + IntText(v, base, min, precision, f)
    {
      var convert := new char[23];
      DigitsFit(v, base, f);
      ghost var digits := Digits(Magnitude(v, f.unsigned), base, f.upper);
      var place := Convert(convert, Magnitude(v, f.unsigned), base, f.upper);
      var sign := SignOf(v, f);
      var zpadlen, spadlen := Padding(v, base, min, precision, f, place, |sign|);
      PutNumber(sign, zpadlen, spadlen, convert, place, digits);
    }

    /** What `fmtint` puts out once it knows the padding. */
    method PutNumber(sign: string, zpadlen: int, spadlen: int, convert: array<char>, place: nat, ghost digits: string)
      requires Valid() && convert != buffer && place == |digits| <= convert.Length
      requires forall i :: 0 <= i < place ==> convert[i] == digits[place - 1 - i]
      modifies `currlen, `text, buffer
      ensures Valid() && Inside()
      ensures text == old(text) + (Repeat(' ', spadlen) + sign + Repeat('0', zpadlen) + digits + Repeat(' ', -spadlen))
    {
      ghost var start := text;
      Fill(' ', spadlen);
      Puts(sign, |sign|);
      Fill('0', zpadlen);
      PutDigits(convert, place, digits);
      Fill(' ', -spadlen);
      Pieces(start, Repeat(' ', spadlen), sign, Repeat('0', zpadlen), digits, Repeat(' ', -spadlen));
    }

    /** The `memcpy` of a literal: what there is room for. */
    method Copy(s: string)
      requires Valid()
      modifies `currlen, `text, buffer
      ensures Valid() && Inside() && text == old(text) + s
    {
      if maxlen != 0 && maxlen > currlen {
        var len := if maxlen > currlen + |s| then |s| else maxlen - currlen;
        forall i | 0 <= i < len {
          buffer[currlen + i] := s[i];
        }
      }
      currlen := currlen + |s|;
      text := text + s;
    }

    /** One chunk. */
    method Print(c: Chunk)
      requires Valid() && Known(c)
      modifies `currlen, `text, buffer
      ensures Valid() && Inside() && text == old(text) + ChunkText(c)
    {
      match c
      case Literal(s) => Copy(s);
      case Integer(v, base, min, max, f) => Fmtint(v, base, min, max, f);
      case Str(s, min, max, minus) => Fmtstr(s, min, max, minus);
      case Character(ch) => Outch(ch);
      case Percent => Outch('%');
    }
  }

  /** How many zeros and spaces `fmtint` puts out; negative spaces go to the right. */
  method Padding(v: Long, base: nat, min: int, precision: int, f: Flags, place: nat, signed: nat) returns (zpadlen: int, spadlen: int)
    requires 2 <= base <= 16
    requires place == |Digits(Magnitude(v, f.unsigned), base, f.upper)| && signed == |SignOf(v, f)|
    ensures IntText(v, base, min, precision, f) ==
      Repeat(' ', spadlen) + SignOf(v, f) + Repeat('0', zpadlen) + Digits(Magnitude(v, f.unsigned), base, f.upper)
      + Repeat(' ', -spadlen)
  {
    var max := if precision < 0 then 0 else precision;
    zpadlen := max - place;
    spadlen := min - Max(max, place) - signed;
    if zpadlen < 0 { zpadlen := 0; }
    if spadlen < 0 { spadlen := 0; }
    if f.zero {
      zpadlen := Max(zpadlen, spadlen);
      spadlen := 0;
    }
    if f.minus { spadlen := -spadlen; }
  }

  lemma LastDigit(u: nat, base: nat, upper: bool)
    requires 2 <= base <= 16
    ensures Digits(u, base, upper) == (if u / base == 0 then "" else Digits(u / base, base, upper)) + [Digit(u % base, upper)]
    ensures u / base <= u && (u != 0 ==> u / base < u)
  {
    Quotient(u, base);
  }

  lemma Quotient(u: nat, base: nat)
    requires 2 <= base
    ensures u / base <= u && (u != 0 ==> u / base < u)
    ensures if u < base then u / base == 0 && u % base == u else u / base != 0
  {
    if u >= base { Smaller(u, base); }
  }

  /** The digits still to come, after some from the right. */
  ghost predicate Rest(s: string, place: nat, left: nat, base: nat, upper: bool)
    requires 2 <= base <= 16
  {
    place <= |s| && if left == 0 then place == |s| else s[..|s| - place] == Digits(left, base, upper)
  }

  /** The digit that one round converts, and what is left of the number. */
  method NextDigit(ghost s: string, ghost place: nat, u: nat, base: nat, upper: bool) returns (c: char, left: nat)
    requires 2 <= base <= 16 && place < |s| && s[..|s| - place] == Digits(u, base, upper)
    ensures c == s[|s| - 1 - place] && Rest(s, place + 1, left, base, upper) && (u != 0 ==> left < u)
  {
    LastDigit(u, base, upper);
    c := Digit(u % base, upper);
    left := u / base;
    Peel(s, place, if left == 0 then "" else Digits(left, base, upper), c);
  }

  lemma Peel(s: string, place: nat, head: string, c: char)
    requires place < |s| && s[..|s| - place] == head + [c]
    ensures s[|s| - 1 - place] == c && s[..|s| - (place + 1)] == head
  {
    var t := s[..|s| - place];
    assert s[|s| - 1 - place] == t[|t| - 1];
    assert s[..|s| - (place + 1)] == t[..|t| - 1];
  }

  lemma StrLayout(value: string, min: int, precision: int, minus: bool, shown: nat, padlen: int)
    requires shown == Shown(value, precision)
    requires padlen == (if minus then -Max(min - shown, 0) else Max(min - shown, 0))
    ensures ChunkText(Str(value, min, precision, minus)) ==
      Repeat(' ', padlen) + value[..shown] + Repeat(' ', -padlen)
  {
  }

  lemma Pieces3(s: string, a: string, b: string, c: string)
    ensures s + a + b + c == s + (a + b + c)
  {
  }

  lemma Pieces(s: string, a: string, b: string, c: string, d: string, e: string)
    ensures s + a + b + c + d + e == s + (a + b + c + d + e)
  {
  }

  /** `dopr` after parsing: whatever the room, the result is the length of the whole output, and the buffer holds as much of
      it as fits before the closing NUL. Nothing past the room is written, nor anything at all where there is none. */
  method Dopr(buffer: array<char>, maxlen: nat, chunks: seq<Chunk>) returns (ret: nat)
    requires maxlen <= buffer.Length && forall c :: c in chunks ==> Known(c)
    modifies buffer
    ensures ret == |Text(chunks)|
    ensures maxlen > 0 ==>
      var kept := if ret < maxlen then ret else maxlen - 1;
      buffer[..kept] == Text(chunks)[..kept] && buffer[kept] == '\0'
    ensures forall i :: maxlen <= i < buffer.Length ==> buffer[i] == old(buffer[i])
  {
    var out := new Output(buffer, maxlen);
    for k := 0 to |chunks|
      invariant fresh(out) && out.buffer == buffer && out.maxlen == maxlen && out.Valid() && out.text == Text(chunks[..k])
      invariant forall i :: maxlen <= i < buffer.Length ==> buffer[i] == old(buffer[i])
    {
      TextMore(chunks, k);
      out.Print(chunks[k]);
    }
    assert chunks[..|chunks|] == chunks;
    ret := out.currlen;
    if maxlen != 0 {
      if out.currlen < maxlen - 1 {
        buffer[out.currlen] := '\0';
      } else if maxlen > 0 {
        buffer[maxlen - 1] := '\0';
      }
    }
  }
}
