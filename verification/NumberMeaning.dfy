/** What is printed and what is read, said directly: every text of a number, and every text that is parsed. */
module NumberMeaning {
  import opened Numbers
  import opened NumberText

  // ---------- printing ----------

  /** Digits have no leading zero, except that of zero itself. */
  lemma {:induction false} DigitsCanonical(m: nat, base: nat)
    requires base >= 2
    ensures if m == 0 then Digits(m, base) == [0] else Digits(m, base)[0] != 0
    decreases m
  {
    if m >= base {
      QuotientLess(m, base);
      DigitsCanonical(m / base, base);
      assert m / base > 0;
    }
  }

  function Copies(c: char, n: int): (t: string)
    ensures |t| == (if n < 0 then 0 else n) && forall i :: 0 <= i < |t| ==> t[i] == c
  {
    seq(if n < 0 then 0 else n, _ => c)
  }

  lemma {:induction false} RepeatIs(c: char, n: int)
    ensures Repeat(c, n) == Copies(c, n)
  {
    if n > 0 {
      RepeatIs(c, n - 1);
      assert Copies(c, n) == [c] + Copies(c, n - 1);
    }
  }

  lemma {:induction false} ZeroChars(n: int, upper: bool)
    ensures Chars(Zeroes(n), upper) == Copies('0', n)
  {
    if n > 0 {
      ZeroChars(n - 1, upper);
      assert Chars(Zeroes(n), upper) == ['0'] + Chars(Zeroes(n - 1), upper);
    }
  }

  /** The sign that is printed; a negative number that is not printed as signed is read as 64 unsigned bits. */
  lemma SignIs(num: int, f: Flags)
    requires -0x8000_0000_0000_0000 <= num < 0x8000_0000_0000_0000
    ensures f.sign && num < 0 ==> SignText(num, f) == "-" && Magnitude(num, f) == -num
    ensures num >= 0 ==> Magnitude(num, f) == num
    ensures f.sign && num >= 0 && f.plus ==> SignText(num, f) == "+"
    ensures f.sign && num >= 0 && !f.plus && f.space ==> SignText(num, f) == " "
    ensures !f.sign || (num >= 0 && !f.plus && !f.space) ==> SignText(num, f) == ""
    ensures !f.sign && num < 0 ==> Magnitude(num, f) == num + 0x1_0000_0000_0000_0000
  {
  }

  lemma PrefixIs(base: int, f: Flags)
    ensures Prefix(base, f)
            == if f.hexPrep && base == 16 then "0x" else if f.hexPrep && base == 8 then "0" else ""
  {
  }

  /** The digits, with the zeros that zero padding and precision put in front of them. */
  lemma BodyIs(num: int, base: int, width: int, precision: int, f: Flags)
    requires -0x8000_0000_0000_0000 <= num < 0x8000_0000_0000_0000 && 2 <= base <= 36
    ensures var ds := Chars(Digits(Magnitude(num, f), base), f.uppercase);
      Chars(Body(num, base, width, precision, f), f.uppercase)
      == (if f.zeropad && !f.left then Copies('0', Padding(num, base, width, precision, f)) else "")
         + Copies('0', precision - |ds|) + ds
  {
    hide Padding, Digits, Magnitude, Chars, Zeroes;
    var m, pad := Digits(Magnitude(num, f), base), Padding(num, base, width, precision, f);
    ZeroChars(pad, f.uppercase);
    ZeroChars(precision - |m|, f.uppercase);
    CharsParts(if f.zeropad && !f.left then Zeroes(pad) else [], Zeroes(precision - |m|), m, f.uppercase);
  }

  /**
   The whole field: blanks, sign, prefix, zeros, digits, blanks.  The blanks come in front, or behind when left is
   asked for; with zero padding zeros take their place, unless left is asked for.
   */
  lemma TextIs(num: int, base: int, width: int, precision: int, f: Flags)
    requires -0x8000_0000_0000_0000 <= num < 0x8000_0000_0000_0000 && 2 <= base <= 36
    ensures var ds := Chars(Digits(Magnitude(num, f), base), f.uppercase);
      var zeros := precision - |ds|;
      var pad := width - |SignText(num, f)| - |Prefix(base, f)| - (if zeros > 0 then precision else |ds|);
      Text(num, base, width, precision, f)
      == (if f.left || f.zeropad then "" else Copies(' ', pad)) + SignText(num, f) + Prefix(base, f)
         + ((if f.zeropad && !f.left then Copies('0', pad) else "") + Copies('0', zeros) + ds)
         + (if f.left then Copies(' ', pad) else "")
  {
    hide SignText, Prefix, Digits, Magnitude, Chars, Body, Repeat;
    var ds := Chars(Digits(Magnitude(num, f), base), f.uppercase);
    var zeros := precision - |ds|;
    var pad := width - |SignText(num, f)| - |Prefix(base, f)| - (if zeros > 0 then precision else |ds|);
    BodyIs(num, base, width, precision, f);
    RepeatIs(' ', Max(0, pad));
    assert Copies(' ', Max(0, pad)) == Copies(' ', pad) && Copies('0', Max(0, pad)) == Copies('0', pad);
  }

  // ---------- parsing ----------

  predicate HexDigit(c: char, hex: bool) { '0' <= c <= '9' || (hex && 'a' <= c <= 'f') }

  /** What a suffix multiplies the number by. */
  function Factor(rest: string): int
  {
    if rest != [] && rest[0] == 'K' then 1024 else if rest != [] && rest[0] == 'M' then 1048576 else 1
  }

  lemma WrapTimes(x: int, b: int)
    ensures Wrap32(Wrap32(x) * b) == Wrap32(x * b)
  {
    var t := (x + 0x8000_0000) / 0x1_0000_0000;
    assert Wrap32(x) == x - 0x1_0000_0000 * t;
    assert (x - 0x1_0000_0000 * t) * b == x * b - 0x1_0000_0000 * (t * b);
    WrapMinus(x * b, t * b);
  }

  lemma WrapMinus(x: int, q: int)
    ensures Wrap32(x - 0x1_0000_0000 * q) == Wrap32(x)
  {
  }

  lemma WrapAdds(x: int, d: int)
    ensures Wrap32(Wrap32(x) + d) == Wrap32(x + d)
  {
  }

  /** Digits and suffix are read modulo 2^32. */
  lemma {:induction false} DigitsRead(acc: nat, ds: seq<nat>, rest: string, hex: bool)
    requires forall i :: 0 <= i < |ds| ==> ds[i] < if hex then 16 else 10
    requires rest == [] || !HexDigit(rest[0], hex)
    ensures ParseDigits(Wrap32(acc), Chars(ds, false) + rest, hex)
            == Wrap32(Eval(acc, ds, if hex then 16 else 10) * Factor(rest))
    decreases ds
  {
    hide Wrap32;
    var t, b := Chars(ds, false) + rest, if hex then 16 else 10;
    if ds == [] {
      assert t == rest;
      WrapTimes(acc, 1024);
      WrapTimes(acc, 1048576);
    } else {
      assert t[0] == DigitChar(ds[0], false) && IsDigit(t[0], hex) && DigitOf(t[0], hex) == ds[0];
      assert t[1..] == Chars(ds[1..], false) + rest;
      WrapTimes(acc, b);
      WrapAdds(acc * b, ds[0]);
      DigitsRead(acc * b + ds[0], ds[1..], rest, hex);
    }
  }

  /** A text is cut into sign, prefix, digits and the rest; the next character of the rest is not a digit. */
  predicate Cut(t: string, neg: bool, hex: bool, ds: seq<nat>, rest: string)
  {
    && (forall i :: 0 <= i < |ds| ==> ds[i] < if hex then 16 else 10)
    && t == (if neg then "-" else "") + (if hex then "0x" else "") + (Chars(ds, false) + rest)
    && (rest == [] || !HexDigit(rest[0], hex))
    && (!neg && !hex && ds == [] && rest != [] ==> rest[0] != '-')
    && (!hex && ds == [0] && rest != [] ==> rest[0] != 'x')
  }

  /** The value that is read: sign times digits times suffix, wrapped to 32 bits. */
  lemma ParseIs(t: string, neg: bool, hex: bool, ds: seq<nat>, rest: string)
    requires Cut(t, neg, hex, ds, rest)
    ensures Parse(t) == Wrap32((if neg then -1 else 1) * (Eval(0, ds, if hex then 16 else 10) * Factor(rest)))
  {
    hide Wrap32, ParseDigits, Eval, Factor;
    var u := (if hex then "0x" else "") + (Chars(ds, false) + rest);
    var x := Eval(0, ds, if hex then 16 else 10) * Factor(rest);
    assert neg ==> t[1..] == u;
    assert !neg ==> t == u;
    assert hex ==> u[2..] == Chars(ds, false) + rest;
    assert !hex ==> u == Chars(ds, false) + rest;
    WrapOfZero();
    DigitsRead(0, ds, rest, hex);
    WrapTimes(x, if neg then -1 else 1);
    UnsignedPart(u, hex, ds, rest);
    SignPart(t, u, neg, hex, ds, rest);
  }

  lemma WrapOfZero()
    ensures Wrap32(0) == 0
  {
  }

  lemma UnsignedPart(u: string, hex: bool, ds: seq<nat>, rest: string)
    requires forall i :: 0 <= i < |ds| ==> ds[i] < if hex then 16 else 10
    requires u == (if hex then "0x" else "") + (Chars(ds, false) + rest)
    requires rest == [] || !HexDigit(rest[0], hex)
    requires !hex && ds == [0] && rest != [] ==> rest[0] != 'x'
    ensures ParseUnsigned(u) == ParseDigits(0, Chars(ds, false) + rest, hex)
  {
    hide ParseDigits;
    if hex {
      assert u[2..] == Chars(ds, false) + rest;
    } else {
      assert u == Chars(ds, false) + rest;
      if |u| >= 2 && u[0] == '0' {
        assert ds != [] && ds[0] == 0;
        if |ds| >= 2 {
          assert u[1] == DigitChar(ds[1], false);
        } else {
          assert ds == [0] && u[1] == rest[0];
        }
      }
    }
  }

  lemma SignPart(t: string, u: string, neg: bool, hex: bool, ds: seq<nat>, rest: string)
    requires Cut(t, neg, hex, ds, rest) && u == (if hex then "0x" else "") + (Chars(ds, false) + rest)
    ensures Parse(t) == Wrap32(ParseUnsigned(u) * if neg then -1 else 1)
  {
    hide Wrap32, ParseUnsigned;
    if neg {
      assert t[1..] == u;
    } else {
      assert t == u;
      if hex {
        assert t[0] == '0';
      } else if ds != [] {
        assert t[0] == DigitChar(ds[0], false);
      }
    }
  }

  /** And every text can be cut in that way. */
  lemma CutExists(t: string) returns (neg: bool, hex: bool, ds: seq<nat>, rest: string)
    ensures Cut(t, neg, hex, ds, rest)
  {
    neg := t != [] && t[0] == '-';
    var u := if neg then t[1..] else t;
    hex := |u| >= 2 && u[0] == '0' && u[1] == 'x';
    var v := if hex then u[2..] else u;
    ds, rest := TakeDigits(v, hex);
    assert hex ==> u == "0x" + v;
    assert neg ==> t == "-" + u;
    if !hex && ds == [0] && rest != [] {
      assert u[1] == rest[0] && u[0] == '0';
    }
  }

  lemma {:induction false} TakeDigits(t: string, hex: bool) returns (ds: seq<nat>, rest: string)
    ensures forall i :: 0 <= i < |ds| ==> ds[i] < if hex then 16 else 10
    ensures t == Chars(ds, false) + rest && (rest == [] || !HexDigit(rest[0], hex))
  {
    if t == [] || !HexDigit(t[0], hex) {
      ds, rest := [], t;
    } else {
      ds, rest := TakeDigits(t[1..], hex);
      var d := if t[0] <= '9' then t[0] as int - '0' as int else 10 + t[0] as int - 'a' as int;
      assert t == [t[0]] + t[1..];
      assert Chars([d] + ds, false) == [t[0]] + Chars(ds, false);
      ds := [d] + ds;
    }
  }
}
