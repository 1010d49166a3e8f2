/** The text of a number, as `number` of ee_printf.c lays it out, and the value that `parseval` of core_util.c reads. */
module NumberText {
  import opened Numbers

  datatype Flags = Flags(zeropad: bool, sign: bool, plus: bool, space: bool, left: bool, hexPrep: bool, uppercase: bool)

  function Repeat(c: char, n: int): (t: seq<char>)
    ensures |t| == Max(n, 0)
  {
    if n <= 0 then [] else [c] + Repeat(c, n - 1)
  }

  // ---------- digits ----------

  /** The digits of `m`, most significant first. */
  function Digits(m: nat, base: nat): (ds: seq<nat>)
    requires base >= 2
    ensures |ds| > 0 && forall i :: 0 <= i < |ds| ==> ds[i] < base
  {
    if m < base then [m] else
      QuotientLess(m, base);
      Digits(m / base, base) + [m % base]
  }

  lemma QuotientLess(m: nat, base: nat)
    requires base >= 2 && m >= 1
    ensures m / base < m && 2 * (m / base) <= m && m / base * base + m % base == m
  {
    var q := m / base;
    assert m == q * base + m % base;
    assert q * base >= q * 2;
  }

  /** Reads digits, most significant first, on top of what has been read already. */
  function Eval(acc: nat, ds: seq<nat>, base: nat): nat
    decreases ds
  {
    if ds == [] then acc else Eval(acc * base + ds[0], ds[1..], base)
  }

  lemma {:induction false} EvalAppend(acc: nat, ds: seq<nat>, d: nat, base: nat)
    ensures Eval(acc, ds + [d], base) == Eval(acc, ds, base) * base + d
    decreases ds
  {
    if ds == [] {
      assert Eval(acc, [d], base) == Eval(acc * base + d, [], base);
    } else {
      assert (ds + [d])[1..] == ds[1..] + [d];
      EvalAppend(acc * base + ds[0], ds[1..], d, base);
    }
  }

  /** The digits of a number have its value. */
  lemma {:induction false} EvalDigits(m: nat, base: nat)
    requires base >= 2
    ensures Eval(0, Digits(m, base), base) == m
    decreases m
  {
    if m < base {
      assert Eval(0, [m], base) == Eval(0 * base + m, [], base);
    } else {
      QuotientLess(m, base);
      EvalDigits(m / base, base);
      EvalAppend(0, Digits(m / base, base), m % base, base);
    }
  }

  lemma {:induction false} EvalConcat(acc: nat, ds: seq<nat>, es: seq<nat>, base: nat)
    ensures Eval(acc, ds + es, base) == Eval(Eval(acc, ds, base), es, base)
    decreases ds
  {
    if ds == [] {
      assert ds + es == es;
    } else {
      assert (ds + es)[1..] == ds[1..] + es;
      EvalConcat(acc * base + ds[0], ds[1..], es, base);
    }
  }

  function Zeroes(n: int): (ds: seq<nat>)
    ensures |ds| == Max(n, 0) && forall i :: 0 <= i < |ds| ==> ds[i] == 0
  {
    if n <= 0 then [] else [0] + Zeroes(n - 1)
  }

  lemma {:induction false} EvalZeroes(n: int, base: nat)
    ensures Eval(0, Zeroes(n), base) == 0
  {
    if n > 0 {
      assert Eval(0, Zeroes(n), base) == Eval(0 * base + 0, Zeroes(n)[1..], base);
      EvalZeroes(n - 1, base);
    }
  }

  function DigitChar(d: nat, upper: bool): (c: char)
    requires d < 36
    ensures d < 10 ==> '0' <= c <= '9' && c as int == '0' as int + d
    ensures d >= 10 && !upper ==> 'a' <= c <= 'z' && c as int == 'a' as int + d - 10
    ensures d >= 10 && upper ==> 'A' <= c <= 'Z' && c as int == 'A' as int + d - 10
  {
    if d < 10 then '0' + d as char
    else if upper then 'A' + (d - 10) as char
    else 'a' + (d - 10) as char
  }

  function Chars(ds: seq<nat>, upper: bool): (t: seq<char>)
    requires forall i :: 0 <= i < |ds| ==> ds[i] < 36
    ensures |t| == |ds|
  {
    seq(|ds|, i requires 0 <= i < |ds| => DigitChar(ds[i], upper))
  }

  lemma CharsParts(ds: seq<nat>, es: seq<nat>, fs: seq<nat>, upper: bool)
    requires forall i :: 0 <= i < |ds| ==> ds[i] < 36
    requires forall i :: 0 <= i < |es| ==> es[i] < 36
    requires forall i :: 0 <= i < |fs| ==> fs[i] < 36
    ensures Chars(ds + es + fs, upper) == Chars(ds, upper) + Chars(es, upper) + Chars(fs, upper)
    ensures Chars([], upper) == ""
  {
  }

  // ---------- the layout ----------

  /** The magnitude that gets printed: without SIGN a negative `long` is read as unsigned. */
  function Magnitude(num: int, f: Flags): nat
    requires -0x8000_0000_0000_0000 <= num < 0x8000_0000_0000_0000
  {
    if num >= 0 then num else if f.sign then -num else num + 0x1_0000_0000_0000_0000
  }

  function SignText(num: int, f: Flags): seq<char>
  {
    if !f.sign then "" else if num < 0 then "-" else if f.plus then "+" else if f.space then " " else ""
  }

  function Prefix(base: int, f: Flags): seq<char>
  {
    if !f.hexPrep then "" else if base == 16 then "0x" else if base == 8 then "0" else ""
  }

  /** How many padding characters the field width asks for. */
  function Padding(num: int, base: int, width: int, precision: int, f: Flags): int
    requires -0x8000_0000_0000_0000 <= num < 0x8000_0000_0000_0000 && 2 <= base <= 36
  {
    Max(0, width - |SignText(num, f)| - |Prefix(base, f)| - Max(precision, |Digits(Magnitude(num, f), base)|))
  }

  /** The digits with the leading zeros that precision and zero padding ask for. */
  function Body(num: int, base: int, width: int, precision: int, f: Flags): (ds: seq<nat>)
    requires -0x8000_0000_0000_0000 <= num < 0x8000_0000_0000_0000 && 2 <= base <= 36
    ensures |ds| > 0 && forall i :: 0 <= i < |ds| ==> ds[i] < base
  {
    var ds := Digits(Magnitude(num, f), base);
    (if f.zeropad && !f.left then Zeroes(Padding(num, base, width, precision, f)) else [])
    + Zeroes(precision - |ds|) + ds
  }

  function Text(num: int, base: int, width: int, precision: int, f: Flags): seq<char>
    requires -0x8000_0000_0000_0000 <= num < 0x8000_0000_0000_0000 && 2 <= base <= 36
  {
    var pad := Padding(num, base, width, precision, f);
    (if f.zeropad || f.left then "" else Repeat(' ', pad))
    + SignText(num, f) + Prefix(base, f) + Chars(Body(num, base, width, precision, f), f.uppercase)
    + (if f.left then Repeat(' ', pad) else "")
  }

  /** The field is as wide as asked for, or as wide as sign, prefix and digits need. */
  lemma TextLength(num: int, base: int, width: int, precision: int, f: Flags)
    requires -0x8000_0000_0000_0000 <= num < 0x8000_0000_0000_0000 && 2 <= base <= 36
    ensures |Text(num, base, width, precision, f)| ==
      Max(width, |SignText(num, f)| + |Prefix(base, f)| + Max(precision, |Digits(Magnitude(num, f), base)|))
  {
  }

  /** Whatever the padding, the digits between prefix and trailing blanks have the value of the magnitude. */
  lemma BodyValue(num: int, base: int, width: int, precision: int, f: Flags)
    requires -0x8000_0000_0000_0000 <= num < 0x8000_0000_0000_0000 && 2 <= base <= 36
    ensures Eval(0, Body(num, base, width, precision, f), base) == Magnitude(num, f)
  {
    var ds := Digits(Magnitude(num, f), base);
    var pad := if f.zeropad && !f.left then Padding(num, base, width, precision, f) else 0;
    var z, y := Zeroes(pad), Zeroes(precision - |ds|);
    assert Body(num, base, width, precision, f) == z + (y + ds);
    EvalConcat(0, z, y + ds, base);
    EvalZeroes(pad, base);
    EvalConcat(0, y, ds, base);
    EvalZeroes(precision - |ds|, base);
    EvalDigits(Magnitude(num, f), base);
  }

  // ---------- the parser ----------

  function IsDigit(c: char, hex: bool): bool
  {
    '0' <= c <= '9' || (hex && 'a' <= c <= 'f')
  }

  function DigitOf(c: char, hex: bool): (d: nat)
    requires IsDigit(c, hex)
    ensures d < if hex then 16 else 10
  {
    if '0' <= c <= '9' then c as int - '0' as int else 10 + c as int - 'a' as int
  }

  /** Reads digits as long as there are any, then applies a K or M that follows. */
  function ParseDigits(acc: int, t: seq<char>, hex: bool): int
    decreases t
  {
    if t != [] && IsDigit(t[0], hex) then
      ParseDigits(Wrap32(Wrap32(acc * (if hex then 16 else 10)) + DigitOf(t[0], hex)), t[1..], hex)
    else if t != [] && t[0] == 'K' then Wrap32(acc * 1024)
    else if t != [] && t[0] == 'M' then Wrap32(acc * (1024 * 1024))
    else acc
  }

  function ParseUnsigned(t: seq<char>): int
  {
    if |t| >= 2 && t[0] == '0' && t[1] == 'x' then ParseDigits(0, t[2..], true) else ParseDigits(0, t, false)
  }

  function Parse(t: seq<char>): int
  {
    if t != [] && t[0] == '-' then Wrap32(ParseUnsigned(t[1..]) * -1) else Wrap32(ParseUnsigned(t) * 1)
  }

  // ---------- parsing undoes printing ----------

  lemma {:induction false} EvalAtLeast(acc: nat, ds: seq<nat>, base: nat)
    requires base >= 1
    ensures Eval(acc, ds, base) >= acc
    decreases ds
  {
    if ds != [] {
      assert acc * base >= acc;
      EvalAtLeast(acc * base + ds[0], ds[1..], base);
    }
  }

  function Base(hex: bool): nat { if hex then 16 else 10 }

  lemma WrapSmall(x: int)
    requires -0x8000_0000 <= x < 0x8000_0000
    ensures Wrap32(x) == x
  {
  }

  lemma ParseDigit(acc: nat, d: nat, t: seq<char>, hex: bool, upper: bool)
    requires d < Base(hex) && (hex ==> !upper)
    requires t != [] && t[0] == DigitChar(d, upper)
    requires acc * Base(hex) + d < 0x8000_0000
    ensures ParseDigits(acc, t, hex) == ParseDigits(acc * Base(hex) + d, t[1..], hex)
  {
    assert IsDigit(t[0], hex) && DigitOf(t[0], hex) == d;
    if hex {
      WrapSmall(acc * 16);
      WrapSmall(acc * 16 + d);
    } else {
      WrapSmall(acc * 10);
      WrapSmall(acc * 10 + d);
    }
  }

  lemma ParseStop(acc: int, t: seq<char>, hex: bool)
    requires t == [] || t[0] == ' ' || t[0] == '+'
    ensures ParseDigits(acc, t, hex) == acc
  {
  }

  /** A run of digits that ends the text, or is followed by a blank, is read as its value. */
  lemma {:induction false} ParseRun(acc: nat, ds: seq<nat>, rest: seq<char>, hex: bool, upper: bool)
    requires forall i :: 0 <= i < |ds| ==> ds[i] < Base(hex)
    requires hex ==> !upper
    requires rest == [] || rest[0] == ' '
    requires Eval(acc, ds, Base(hex)) < 0x8000_0000
    ensures ParseDigits(acc, Chars(ds, upper) + rest, hex) == Eval(acc, ds, Base(hex))
    decreases ds
  {
    hide ParseDigits;
    var t := Chars(ds, upper) + rest;
    if ds == [] {
      assert t == rest;
      ParseStop(acc, t, hex);
    } else {
      var next := acc * Base(hex) + ds[0];
      EvalAtLeast(next, ds[1..], Base(hex));
      ParseDigit(acc, ds[0], t, hex, upper);
      assert t[1..] == Chars(ds[1..], upper) + rest;
      ParseRun(next, ds[1..], rest, hex, upper);
    }
  }

  /** Whether the text starts with a blank or a plus sign, at which `parseval` stops at once. */
  predicate StartsUnparsed(num: int, base: int, width: int, precision: int, f: Flags)
    requires -0x8000_0000_0000_0000 <= num < 0x8000_0000_0000_0000 && 2 <= base <= 36
  {
    || (!f.zeropad && !f.left && Padding(num, base, width, precision, f) > 0)
    || (f.sign && num >= 0 && (f.plus || f.space))
  }

  lemma ParseBlank(t: seq<char>)
    requires t != [] && (t[0] == ' ' || t[0] == '+')
    ensures Parse(t) == 0
  {
    ParseStop(0, t, false);
    WrapSmall(0);
  }

  lemma NoPrefix(ds: seq<nat>, upper: bool, trail: seq<char>)
    requires ds != [] && forall i :: 0 <= i < |ds| ==> ds[i] < 10
    requires trail == [] || trail[0] == ' '
    ensures var t := Chars(ds, upper) + trail; |t| >= 2 ==> t[1] != 'x'
  {
    var t := Chars(ds, upper) + trail;
    if |ds| >= 2 {
      assert t[1] == DigitChar(ds[1], upper);
    }
  }

  lemma ParsePrefixed(t: seq<char>)
    ensures ParseUnsigned("0x" + t) == ParseDigits(0, t, true)
  {
    hide ParseDigits;
    assert ("0x" + t)[2..] == t;
  }

  lemma ParsePlain(t: seq<char>)
    requires |t| >= 2 ==> t[1] != 'x'
    ensures ParseUnsigned(t) == ParseDigits(0, t, false)
  {
    hide ParseDigits;
  }

  /** Text that follows the sign: the prefix, digits, and perhaps a blank. */
  lemma ParseAfterSign(ds: seq<nat>, upper: bool, hex: bool, trail: seq<char>)
    requires ds != [] && forall i :: 0 <= i < |ds| ==> ds[i] < Base(hex)
    requires hex ==> !upper
    requires trail == [] || trail[0] == ' '
    requires Eval(0, ds, Base(hex)) < 0x8000_0000
    ensures ParseUnsigned((if hex then "0x" else "") + Chars(ds, upper) + trail) == Eval(0, ds, Base(hex))
  {
    hide ParseDigits, ParseUnsigned, Eval, Chars;
    var t := Chars(ds, upper) + trail;
    ParseRun(0, ds, trail, hex, upper);
    if hex {
      ParsePrefixed(t);
      assert "0x" + Chars(ds, upper) + trail == "0x" + t;
    } else {
      NoPrefix(ds, upper, trail);
      ParsePlain(t);
      assert "" + Chars(ds, upper) + trail == t;
    }
  }

  /**
   Parsing what was printed, in decimal or prefixed lower-case hexadecimal, gives the number back exactly
   when no blank or plus sign comes first (or the number is zero, which `parseval` also takes such text for).
   */
  lemma RoundTripIff(num: int, base: int, width: int, precision: int, f: Flags)
    requires -0x8000_0000 < num < 0x8000_0000 && (f.sign || num >= 0)
    requires base == 10 || (base == 16 && f.hexPrep && !f.uppercase)
    ensures Parse(Text(num, base, width, precision, f)) == num
       <==> num == 0 || !StartsUnparsed(num, base, width, precision, f)
  {
    if StartsUnparsed(num, base, width, precision, f) {
      StartsBlank(num, base, width, precision, f);
      ParseBlank(Text(num, base, width, precision, f));
    } else {
      RoundTrip(num, base, width, precision, f);
    }
  }

  lemma TextParts(num: int, base: int, width: int, precision: int, f: Flags)
    requires -0x8000_0000 < num < 0x8000_0000 && 2 <= base <= 36
    requires !StartsUnparsed(num, base, width, precision, f)
    ensures var trail := if f.left then Repeat(' ', Padding(num, base, width, precision, f)) else "";
      Text(num, base, width, precision, f) ==
        SignText(num, f) + (Prefix(base, f) + Chars(Body(num, base, width, precision, f), f.uppercase) + trail)
  {
    hide Body, SignText, Prefix, Padding, Chars;
    var pad := Padding(num, base, width, precision, f);
    assert (if f.zeropad || f.left then "" else Repeat(' ', pad)) == "";
  }

  lemma RoundTrip(num: int, base: int, width: int, precision: int, f: Flags)
    requires -0x8000_0000 < num < 0x8000_0000 && (f.sign || num >= 0)
    requires base == 10 || (base == 16 && f.hexPrep && !f.uppercase)
    requires !StartsUnparsed(num, base, width, precision, f)
    ensures Parse(Text(num, base, width, precision, f)) == num
  {
    hide Parse, ParseUnsigned, Eval, Body;
    var ds := Body(num, base, width, precision, f);
    var trail := if f.left then Repeat(' ', Padding(num, base, width, precision, f)) else "";
    var rest := Prefix(base, f) + Chars(ds, f.uppercase) + trail;
    TextParts(num, base, width, precision, f);
    assert rest[0] == if base == 16 then '0' else DigitChar(ds[0], f.uppercase);
    assert Prefix(base, f) == if base == 16 then "0x" else "";
    BodyValue(num, base, width, precision, f);
    hide *;
    ParseAfterSign(ds, f.uppercase, base == 16, trail);
    SignedParse(num, f, rest, Magnitude(num, f));
  }

  lemma StartsBlank(num: int, base: int, width: int, precision: int, f: Flags)
    requires -0x8000_0000 < num < 0x8000_0000 && 2 <= base <= 36
    requires StartsUnparsed(num, base, width, precision, f)
    ensures var t := Text(num, base, width, precision, f); t != [] && (t[0] == ' ' || t[0] == '+')
  {
    var pad := Padding(num, base, width, precision, f);
    var lead := if f.zeropad || f.left then "" else Repeat(' ', pad);
    var t := Text(num, base, width, precision, f);
    if lead == [] {
      assert t[0] == SignText(num, f)[0];
    } else {
      assert t[0] == lead[0];
    }
  }

  lemma SignedParse(num: int, f: Flags, rest: seq<char>, m: nat)
    requires -0x8000_0000 < num < 0x8000_0000 && (f.sign || num >= 0)
    requires SignText(num, f) == "" || SignText(num, f) == "-"
    requires rest != [] && '0' <= rest[0] <= 'f' && ParseUnsigned(rest) == m && m == if num < 0 then -num else num
    ensures Parse(SignText(num, f) + rest) == num
  {
    var t := SignText(num, f) + rest;
    WrapSmall(num);
    if num < 0 {
      assert t[1..] == rest;
    } else {
      assert t == rest;
    }
  }
}
