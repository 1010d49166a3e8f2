/** The number printer of ee_printf.c, which writes through a buffer, and the parser of core_util.c. */
module Printer {
  import opened Numbers
  import opened BitOps
  import opened NumberText

  function Wrap64(x: int): int { (x + 0x8000_0000_0000_0000) % 0x1_0000_0000_0000_0000 - 0x8000_0000_0000_0000 }

  /** `out` has been written to the buffer that held `b`, from `start` on; the next character goes to `str`. */
  ghost predicate Written(buf: seq<char>, b: seq<char>, start: nat, str: nat, out: seq<char>)
  {
    && start + |out| == str <= |buf| == |b|
    && buf == b[..start] + out + b[str..]
  }

  lemma WriteOne(buf: seq<char>, b: seq<char>, start: nat, str: nat, out: seq<char>, c: char)
    requires Written(buf, b, start, str, out) && str < |buf|
    ensures Written(buf[str := c], b, start, str + 1, out + [c])
  {
  }

  /** `*str++ = c;` */
  method Put(buf: array<char>, str0: nat, c: char, ghost b: seq<char>, ghost start: nat, ghost out: seq<char>)
    returns (str: nat)
    requires Written(buf[..], b, start, str0, out) && str0 < buf.Length
    modifies buf
    ensures Written(buf[..], b, start, str, out + [c])
  {
    WriteOne(buf[..], b, start, str0, out, c);
    buf[str0] := c;
    str := str0 + 1;
  }

  /** `while (size-- > 0) *str++ = c;` */
  method Pad(buf: array<char>, str0: nat, c: char, size0: int,
             ghost b: seq<char>, ghost start: nat, ghost out: seq<char>)
    returns (str: nat, size: int)
    requires Written(buf[..], b, start, str0, out) && str0 + Max(size0, 0) <= buf.Length
    modifies buf
    ensures size == Min(size0, 0) - 1
    ensures Written(buf[..], b, start, str, out + Repeat(c, size0))
  {
    str, size := str0, size0;
    ghost var n := 0;
    assert out + Repeat(c, 0) == out;
    while size > 0
      invariant n == Max(size0, 0) - Max(size, 0) >= 0 && Min(size, 0) == Min(size0, 0)
      invariant Written(buf[..], b, start, str, out + Repeat(c, n))
      decreases size
    {
      RepeatAppend(c, n);
      assert out + Repeat(c, n + 1) == out + Repeat(c, n) + [c];
      str := Put(buf, str, c, b, start, out + Repeat(c, n));
      size, n := size - 1, n + 1;
    }
    size := size - 1;
    assert Repeat(c, n) == Repeat(c, size0);
  }

  /** `while (i-- > 0) *str++ = tmp[i];` */
  method CopyBack(buf: array<char>, str0: nat, tmp: array<char>, i0: nat, ghost text: seq<char>,
                  ghost b: seq<char>, ghost start: nat, ghost out: seq<char>)
    returns (str: nat)
    requires buf != tmp && i0 == |text| <= tmp.Length && forall k :: 0 <= k < i0 ==> tmp[k] == text[i0 - 1 - k]
    requires Written(buf[..], b, start, str0, out) && str0 + i0 <= buf.Length
    modifies buf
    ensures Written(buf[..], b, start, str, out + text)
  {
    str := str0;
    var i := i0;
    assert out + text[..0] == out;
    while i > 0
      invariant 0 <= i <= i0 && Written(buf[..], b, start, str, out + text[..i0 - i])
    {
      i := i - 1;
      assert out + text[..i0 - i] == out + text[..i0 - i - 1] + [tmp[i]];
      str := Put(buf, str, tmp[i], b, start, out + text[..i0 - i - 1]);
    }
    assert text[..i0] == text;
  }

  lemma {:induction false} RepeatAppend(c: char, n: nat)
    ensures Repeat(c, n + 1) == Repeat(c, n) + [c]
  {
    if n > 0 {
      RepeatAppend(c, n - 1);
      assert Repeat(c, n + 1) == [c] + Repeat(c, n);
      assert [c] + (Repeat(c, n - 1) + [c]) == ([c] + Repeat(c, n - 1)) + [c];
    }
  }

  /** The digits of `num`, least significant first, in the first `i` places of `tmp`. */
  method FillDigits(num0: nat, base: nat, upper: bool, tmp: array<char>) returns (i: nat)
    requires num0 < Pow(64) && 2 <= base <= 36 && tmp.Length == 66
    modifies tmp
    ensures i == |Digits(num0, base)| <= 64
    ensures forall k :: 0 <= k < i ==> tmp[k] == DigitChar(Digits(num0, base)[i - 1 - k], upper)
  {
    hide Digits, Pow;
    i := 0;
    var num := num0;
    DigitsOf(0, base);
    if num == 0 {
      tmp[i] := DigitChar(0, upper);
      i := 1;
      return;
    }
    ghost var low: seq<nat> := [];
    while num != 0
      invariant i == |low| <= 64 && 0 <= num < Pow(64 - i)
      invariant forall k :: 0 <= k < i ==> low[k] < base
      invariant HighDigits(num, base) + low == Digits(num0, base)
      invariant forall k :: 0 <= k < i ==> tmp[k] == DigitChar(low[i - 1 - k], upper)
      decreases num
    {
      var q, r := DivMod(num, base, 64 - i);
      tmp[i] := DigitChar(r, upper);
      assert HighDigits(num, base) + low == HighDigits(q, base) + ([r] + low);
      low := [r] + low;
      i := i + 1;
      num := q;
    }
  }

  /** `num % base` and `num / base` of a value of at most `n` bits. */
  method DivMod(num: nat, base: nat, ghost n: nat) returns (q: nat, r: nat)
    requires base >= 2 && 0 < num < Pow(n)
    ensures q < num && r < base && n > 0 && q < Pow(n - 1)
    ensures HighDigits(num, base) == HighDigits(q, base) + [r]
  {
    QuotientLess(num, base);
    DigitsOf(num, base);
    HalfBelow(num, base, n);
    q, r := num / base, num % base;
  }

  /** The digits still to be produced. */
  function HighDigits(num: nat, base: nat): seq<nat>
    requires base >= 2
  {
    if num == 0 then [] else Digits(num, base)
  }

  lemma DigitsOf(num: nat, base: nat)
    requires base >= 2
    ensures Digits(num, base) == HighDigits(num / base, base) + [num % base]
    ensures Digits(0, base) == [0]
  {
    if num >= base {
      QuotientLess(num, base);
      hide Digits;
      QuotientPositive(num, base);
      OneMoreDigit(num, base);
    } else {
      SmallQuotient(num, base);
    }
  }

  lemma OneMoreDigit(num: nat, base: nat)
    requires 2 <= base <= num
    ensures Digits(num, base) == Digits(num / base, base) + [num % base]
  {
  }

  lemma SmallQuotient(num: nat, base: nat)
    requires num < base
    ensures num / base == 0 && num % base == num
  {
  }

  lemma QuotientPositive(num: nat, base: nat)
    requires 2 <= base <= num
    ensures num / base > 0
  {
    QuotientLess(num, base);
  }

  lemma HalfBelow(num: nat, base: nat, n: nat)
    requires base >= 2 && 0 < num < Pow(n)
    ensures n > 0 && num / base < Pow(n - 1)
  {
    QuotientLess(num, base);
  }

  // ---------- printing ----------

  /**
   Writes the number to the buffer from `str0` on and returns the end of the text, or -1 for the null
   pointer that a bad base yields.
   */
  method Number(buf: array<char>, str0: nat, num0: int, base: int, size0: int, precision0: int, type0: Flags)
    returns (end: int)
    requires -0x8000_0000_0000_0000 <= num0 < 0x8000_0000_0000_0000
    requires 2 <= base <= 36 ==> str0 + |Text(num0, base, size0, precision0, type0)| <= buf.Length
    modifies buf
    ensures !(2 <= base <= 36) ==> end == -1 && buf[..] == old(buf[..])
    ensures 2 <= base <= 36 ==> end == str0 + |Text(num0, base, size0, precision0, type0)|
    ensures 2 <= base <= 36 ==>
      buf[..] == old(buf[..str0]) + Text(num0, base, size0, precision0, type0) + old(buf[end..])
  {
    hide Digits, DigitChar, Text, LaidOut, Magnitude, SignText, Prefix, Repeat, Padding, Body, Pow;
    if base < 2 || base > 36 {
      return -1;
    }
    var f, sign, unsigned, size := Header(num0, base, size0, type0);
    var tmp := new char[66];
    var i := FillDigits(unsigned, base, f.uppercase, tmp);
    var precision := if i > precision0 then i else precision0;
    size := size - precision;
    ghost var digits := Chars(Digits(unsigned, base), f.uppercase);
    LayoutIsText(num0, base, size0, precision0, type0);
    assert forall k :: 0 <= k < i ==> tmp[k] == digits[i - 1 - k];
    hide *;
    assert LaidOut(f, sign, base, digits, precision, size) == Text(num0, base, size0, precision0, type0);
    end := Layout(buf, str0, f, sign, base, tmp, i, precision, size, digits);
  }

  /** What comes before the digits and the zeros of the precision. */
  function Front(f: Flags, sign: seq<char>, base: int, size: int): seq<char>
  {
    (if f.zeropad || f.left then "" else Repeat(' ', size)) + (sign + Prefix(base, f))
    + (if f.zeropad && !f.left then Repeat('0', size) else "")
  }

  /** The text, as the loops of `number` put it together; `size` is what is left of the width, perhaps negative. */
  function LaidOut(f: Flags, sign: seq<char>, base: int, digits: seq<char>, precision: int, size: int): seq<char>
  {
    Front(f, sign, base, size)
    + Repeat('0', precision - |digits|) + digits
    + (if f.left then Repeat(' ', size) else "")
  }

  lemma CharsOfZeroes(n: int, upper: bool)
    ensures Chars(Zeroes(n), upper) == Repeat('0', n)
  {
    if n > 0 {
      CharsOfZeroes(n - 1, upper);
      assert Chars(Zeroes(n), upper) == [DigitChar(0, upper)] + Chars(Zeroes(n - 1), upper);
    }
  }

  lemma RepeatNone(c: char, n: int)
    ensures Repeat(c, n) == Repeat(c, Max(0, n))
  {
  }

  lemma BodyChars(num: int, base: int, width: int, precision: int, f: Flags)
    requires -0x8000_0000_0000_0000 <= num < 0x8000_0000_0000_0000 && 2 <= base <= 36
    ensures var ds := Digits(Magnitude(num, f), base);
      Chars(Body(num, base, width, precision, f), f.uppercase) ==
        (if f.zeropad && !f.left then Repeat('0', Padding(num, base, width, precision, f)) else "")
        + Repeat('0', precision - |ds|) + Chars(ds, f.uppercase)
  {
    hide Digits, Chars, Zeroes, Repeat, Padding, Magnitude;
    var ds := Digits(Magnitude(num, f), base);
    var pad := Padding(num, base, width, precision, f);
    var lead := if f.zeropad && !f.left then Zeroes(pad) else [];
    var fill := Zeroes(precision - |ds|);
    assert Body(num, base, width, precision, f) == lead + fill + ds;
    CharsOfZeroes(pad, f.uppercase);
    CharsOfZeroes(precision - |ds|, f.uppercase);
    CharsParts(lead, fill, ds, f.uppercase);
  }

  lemma LayoutIsText(num: int, base: int, width: int, precision: int, f: Flags)
    requires -0x8000_0000_0000_0000 <= num < 0x8000_0000_0000_0000 && 2 <= base <= 36
    ensures var ds := Digits(Magnitude(num, f), base);
      var size := width - |SignText(num, f)| - |Prefix(base, f)| - Max(precision, |ds|);
      LaidOut(if f.left then f.(zeropad := false) else f, SignText(num, f), base, Chars(ds, f.uppercase),
              Max(precision, |ds|), size)
      == Text(num, base, width, precision, f)
  {
    hide Body, Digits, Chars, Prefix, SignText, Magnitude;
    var ds := Digits(Magnitude(num, f), base);
    var size := width - |SignText(num, f)| - |Prefix(base, f)| - Max(precision, |ds|);
    var pad := Padding(num, base, width, precision, f);
    BodyChars(num, base, width, precision, f);
    RepeatNone('0', size);
    RepeatNone(' ', size);
    RepeatMax('0', precision, |ds|);
    PrefixOfLeft(base, f);
    Regroup(if f.zeropad || f.left then "" else Repeat(' ', pad), SignText(num, f), Prefix(base, f),
            if f.zeropad && !f.left then Repeat('0', pad) else "", Repeat('0', precision - |ds|),
            Chars(ds, f.uppercase), if f.left then Repeat(' ', pad) else "");
  }

  lemma RepeatMax(c: char, n: int, m: int)
    ensures Repeat(c, Max(n, m) - m) == Repeat(c, n - m)
  {
  }

  lemma Regroup<T>(a: seq<T>, b: seq<T>, c: seq<T>, z: seq<T>, f: seq<T>, d: seq<T>, t: seq<T>)
    ensures a + (b + c) + z + f + d + t == a + b + c + (z + f + d) + t
  {
  }

  lemma PrefixOfLeft(base: int, f: Flags)
    ensures Prefix(base, f.(zeropad := false)) == Prefix(base, f)
  {
  }

  /** `if (sign) *str++ = sign;` and the prefix. */
  method PutSign(buf: array<char>, str0: nat, f: Flags, sign: seq<char>, base: int,
                 ghost b: seq<char>, ghost start: nat, ghost out: seq<char>)
    returns (str: nat)
    requires |sign| <= 1 && Written(buf[..], b, start, str0, out)
    requires str0 + |sign| + |Prefix(base, f)| <= buf.Length
    modifies buf
    ensures Written(buf[..], b, start, str, out + (sign + Prefix(base, f)))
  {
    hide Written;
    str := str0;
    ghost var o := out;
    if sign != "" {
      str := Put(buf, str, sign[0], b, start, o);
      o := o + [sign[0]];
    }
    assert o == out + sign;
    WrittenLength(buf[..], b, start, str, o);
    WrittenLength(old(buf[..]), b, start, str0, out);
    if f.hexPrep {
      if base == 8 {
        str := Put(buf, str, '0', b, start, o);
        o := o + ['0'];
      } else if base == 16 {
        str := Put(buf, str, '0', b, start, o);
        WrittenLength(buf[..], b, start, str, o + ['0']);
        str := Put(buf, str, 'x', b, start, o + ['0']);
        o := o + ['0'] + ['x'];
      }
    }
    assert o == out + (sign + Prefix(base, f));
  }

  lemma WrittenLength(buf: seq<char>, b: seq<char>, start: nat, str: nat, out: seq<char>)
    requires Written(buf, b, start, str, out)
    ensures str == start + |out| && |buf| == |b|
  {
  }

  lemma WrittenAll(buf: seq<char>, b: seq<char>, start: nat, str: nat, out: seq<char>)
    requires Written(buf, b, start, str, out)
    ensures str == start + |out| <= |buf| == |b| && buf == b[..start] + out + b[str..]
  {
  }

  /** Blanks, sign and prefix, and the zeros that fill the field; of the width only that on the right is left. */
  method LayoutFront(buf: array<char>, str0: nat, f: Flags, sign: seq<char>, base: int, size0: int, ghost b: seq<char>)
    returns (str: nat, size: int)
    requires |sign| <= 1 && (f.left ==> !f.zeropad) && buf[..] == b
    requires str0 + |Front(f, sign, base, size0)| <= buf.Length
    modifies buf
    ensures Written(buf[..], b, str0, str, Front(f, sign, base, size0))
    ensures if f.left then size == size0 else size <= 0
  {
    size := size0;
    var c := if f.zeropad then '0' else ' ';
    ghost var blanks := if f.zeropad || f.left then "" else Repeat(' ', size0);
    ghost var zeros := if f.zeropad && !f.left then Repeat('0', size0) else "";
    str := str0;
    assert Written(buf[..], b, str0, str, "");
    hide Written;
    if !(f.zeropad || f.left) {
      str, size := Pad(buf, str, ' ', size, b, str0, "");
    }
    assert "" + blanks == blanks;
    WrittenLength(buf[..], b, str0, str, blanks);
    str := PutSign(buf, str, f, sign, base, b, str0, blanks);
    ghost var out := blanks + (sign + Prefix(base, f));
    WrittenLength(buf[..], b, str0, str, out);
    if !f.left {
      str, size := Pad(buf, str, c, size, b, str0, out);
    }
    assert f.left || !f.zeropad ==> out + "" == out;
  }

  /** The loops that write the field. */
  method Layout(buf: array<char>, str0: nat, f: Flags, sign: seq<char>, base: int, tmp: array<char>, i: nat,
                precision: int, size0: int, ghost digits: seq<char>)
    returns (str: nat)
    requires |sign| <= 1 && (f.left ==> !f.zeropad) && buf != tmp
    requires i == |digits| <= tmp.Length && precision >= i && forall k :: 0 <= k < i ==> tmp[k] == digits[i - 1 - k]
    requires str0 + |LaidOut(f, sign, base, digits, precision, size0)| <= buf.Length
    modifies buf
    ensures str == str0 + |LaidOut(f, sign, base, digits, precision, size0)|
    ensures buf[..] == old(buf[..str0]) + LaidOut(f, sign, base, digits, precision, size0) + old(buf[str..])
  {
    hide Written, Front;
    ghost var b := buf[..];
    ghost var out := Front(f, sign, base, size0);
    ghost var fill, trail := Repeat('0', precision - i), if f.left then Repeat(' ', size0) else "";
    ghost var n: int;
    var size;
    str, size := LayoutFront(buf, str0, f, sign, base, size0, b);
    WrittenLength(buf[..], b, str0, str, out);
    str, n := Pad(buf, str, '0', precision - i, b, str0, out);
    out := out + fill;
    WrittenLength(buf[..], b, str0, str, out);
    str := CopyBack(buf, str, tmp, i, digits, b, str0, out);
    out := out + digits;
    WrittenLength(buf[..], b, str0, str, out);
    str, size := Pad(buf, str, ' ', size, b, str0, out);
    WrittenAll(buf[..], b, str0, str, out + trail);
  }

  /** Flags, sign and prefix: what is left of the field width, and the value whose digits get printed. */
  method Header(num0: int, base: int, size0: int, type0: Flags)
    returns (f: Flags, sign: seq<char>, unsigned: nat, size: int)
    requires -0x8000_0000_0000_0000 <= num0 < 0x8000_0000_0000_0000
    ensures f == if type0.left then type0.(zeropad := false) else type0
    ensures sign == SignText(num0, type0) && |sign| <= 1 && unsigned == Magnitude(num0, type0) < Pow(64)
    ensures size == size0 - |SignText(num0, type0)| - |Prefix(base, type0)|
  {
    hide Pow;
    f := if type0.left then type0.(zeropad := false) else type0;
    sign, size := "", size0;
    var num := num0;
    if f.sign {
      if num < 0 {
        sign := "-";
        num := Wrap64(-num);
        size := size - 1;
      } else if f.plus {
        sign := "+";
        size := size - 1;
      } else if f.space {
        sign := " ";
        size := size - 1;
      }
    }
    if f.hexPrep {
      if base == 16 {
        size := size - 2;
      } else if base == 8 {
        size := size - 1;
      }
    }
    unsigned := if num < 0 then num + 0x1_0000_0000_0000_0000 else num;
    Pow2Of64();
  }

  lemma Pow2Of64()
    ensures Pow(64) == 0x1_0000_0000_0000_0000
  {
    assert Pow(8) == 0x100;
    assert Pow(16) == 0x1_0000;
    assert Pow(24) == 0x100_0000;
    assert Pow(32) == 0x1_0000_0000;
    assert Pow(40) == 0x100_0000_0000;
    assert Pow(48) == 0x1_0000_0000_0000;
    assert Pow(56) == 0x100_0000_0000_0000;
  }

  // ---------- parsing ----------

  /** The zero-terminated string `t` is stored from `at` on. */
  ghost predicate Stored(s: seq<char>, at: nat, t: seq<char>)
  {
    && at + |t| < |s|
    && s[at..at + |t|] == t
    && s[at + |t|] == '\0'
    && forall i :: 0 <= i < |t| ==> t[i] != '\0'
  }

  method ParseVal(s: array<char>, valstring0: nat, ghost t: seq<char>) returns (retval: int)
    requires Stored(s[..], valstring0, t)
    ensures retval == Parse(t)
  {
    var valstring, neg, hexmode := valstring0, 1, false;
    ghost var u := t;
    if s[valstring] == '-' {
      neg := -1;
      valstring := valstring + 1;
      u := t[1..];
    }
    ghost var v := u;
    if s[valstring] == '0' && s[valstring + 1] == 'x' {
      hexmode := true;
      valstring := valstring + 2;
      v := u[2..];
    }
    assert Stored(s[..], valstring, v);
    assert ParseUnsigned(u) == ParseDigits(0, v, hexmode);
    retval := ReadDigits(s, valstring, hexmode, v);
    retval := Wrap32(retval * neg);
  }

  /** The digits from `at` on have been read up to `at'`, with the value `acc`. */
  ghost predicate HasRead(s: seq<char>, t: seq<char>, hex: bool, at: nat, at': nat, acc: int)
  {
    && at <= at' <= at + |t| && Stored(s, at', t[at' - at..])
    && ParseDigits(acc, t[at' - at..], hex) == ParseDigits(0, t, hex)
  }

  lemma ReadsOn(s: seq<char>, t: seq<char>, hex: bool, at: nat, at': nat, acc: int)
    requires HasRead(s, t, hex, at, at', acc)
    ensures at' < |s|
    ensures IsDigit(s[at'], hex) ==>
              HasRead(s, t, hex, at, at' + 1, Wrap32(Wrap32(acc * (if hex then 16 else 10)) + DigitOf(s[at'], hex)))
  {
    hide Wrap32;
    if IsDigit(s[at'], hex) {
      assert t[at' - at] == s[at'];
      assert t[at' - at..][1..] == t[at' - at + 1..];
    }
  }

  method ReadHex(s: array<char>, valstring0: nat, ghost t: seq<char>) returns (retval: int, valstring: nat)
    requires Stored(s[..], valstring0, t)
    ensures HasRead(s[..], t, true, valstring0, valstring, retval) && !IsDigit(s[..][valstring], true)
  {
    hide Wrap32, ParseDigits;
    retval, valstring := 0, valstring0;
    ReadsOn(s[..], t, true, valstring0, valstring, retval);
    while '0' <= s[valstring] <= '9' || 'a' <= s[valstring] <= 'f'
      invariant valstring < s.Length && HasRead(s[..], t, true, valstring0, valstring, retval)
      decreases s.Length - valstring
    {
      ReadsOn(s[..], t, true, valstring0, valstring, retval);
      var digit := s[valstring] as int - '0' as int;
      if digit > 9 {
        digit := 10 + s[valstring] as int - 'a' as int;
      }
      retval := Wrap32(retval * 16);
      retval := Wrap32(retval + digit);
      valstring := valstring + 1;
      ReadsOn(s[..], t, true, valstring0, valstring, retval);
    }
  }

  method ReadDecimal(s: array<char>, valstring0: nat, ghost t: seq<char>) returns (retval: int, valstring: nat)
    requires Stored(s[..], valstring0, t)
    ensures HasRead(s[..], t, false, valstring0, valstring, retval) && !IsDigit(s[..][valstring], false)
  {
    hide Wrap32, ParseDigits;
    retval, valstring := 0, valstring0;
    ReadsOn(s[..], t, false, valstring0, valstring, retval);
    while '0' <= s[valstring] <= '9'
      invariant valstring < s.Length && HasRead(s[..], t, false, valstring0, valstring, retval)
      decreases s.Length - valstring
    {
      ReadsOn(s[..], t, false, valstring0, valstring, retval);
      var digit := s[valstring] as int - '0' as int;
      retval := Wrap32(retval * 10);
      retval := Wrap32(retval + digit);
      valstring := valstring + 1;
      ReadsOn(s[..], t, false, valstring0, valstring, retval);
    }
  }

  /** Both digit loops of `parseval`, and the suffix that may follow. */
  method ReadDigits(s: array<char>, valstring0: nat, hexmode: bool, ghost t: seq<char>) returns (retval: int)
    requires Stored(s[..], valstring0, t)
    ensures retval == ParseDigits(0, t, hexmode)
  {
    hide Wrap32, IsDigit;
    var valstring;
    if hexmode {
      retval, valstring := ReadHex(s, valstring0, t);
    } else {
      retval, valstring := ReadDecimal(s, valstring0, t);
    }
    if s[valstring] == 'K' {
      retval := Wrap32(retval * 1024);
    }
    if s[valstring] == 'M' {
      retval := Wrap32(retval * (1024 * 1024));
    }
  }
}
