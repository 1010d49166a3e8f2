/** The number-recognising automaton of core_state.c, and the languages of its states. */
module NumberAutomaton {
  import opened Numbers

  const COMMA: u8 := 44
  const DOT: u8 := 46

  predicate Digit(c: u8) { 48 <= c <= 57 }

  predicate Sign(c: u8) { c == 43 || c == 45 }

  predicate Exp(c: u8) { c == 69 || c == 101 }

  datatype State = START | INVALID | S1 | S2 | INT | FLOAT | EXPONENT | SCIENTIFIC
  {
    /** The position in the counter arrays. */
    function Index(): (i: nat)
      ensures i < 8
    {
      match this
      case START => 0 case INVALID => 1 case S1 => 2 case S2 => 3
      case INT => 4 case FLOAT => 5 case EXPONENT => 6 case SCIENTIFIC => 7
    }
  }

  function Next(s: State, c: u8): State
  {
    match s
    case START => if Digit(c) then INT else if Sign(c) then S1 else if c == DOT then FLOAT else INVALID
    case S1 => if Digit(c) then INT else if c == DOT then FLOAT else INVALID
    case INT => if c == DOT then FLOAT else if Digit(c) then INT else INVALID
    case FLOAT => if Exp(c) then S2 else if Digit(c) then FLOAT else INVALID
    case S2 => if Sign(c) then EXPONENT else INVALID
    case EXPONENT => if Digit(c) then SCIENTIFIC else INVALID
    case SCIENTIFIC => if Digit(c) then SCIENTIFIC else INVALID
    case INVALID => INVALID
  }

  /** The state after the bytes `w`. */
  function StateAfter(w: seq<u8>): State
  {
    if w == [] then START else Next(StateAfter(w[..|w| - 1]), w[|w| - 1])
  }

  // ---------- the languages, without reference to the automaton ----------

  predicate Digits(w: seq<u8>) { forall i :: 0 <= i < |w| ==> Digit(w[i]) }

  predicate OptSign(w: seq<u8>) { w == [] || (|w| == 1 && Sign(w[0])) }

  /** [+-]?d+ */
  ghost predicate IsInt(w: seq<u8>)
  {
    exists i :: IntAt(w, i)
  }

  predicate IntAt(w: seq<u8>, i: int) { 0 <= i < |w| && OptSign(w[..i]) && Digits(w[i..]) }

  /** [+-]?d*.d* */
  ghost predicate IsFloat(w: seq<u8>)
  {
    exists i, j :: FloatAt(w, i, j)
  }

  /** The sign ends at `i`, and the point is at `j`. */
  predicate FloatAt(w: seq<u8>, i: int, j: int)
  {
    0 <= i <= j < |w| && OptSign(w[..i]) && Digits(w[i..j]) && w[j] == DOT && Digits(w[j + 1..])
  }

  /** [+-]?d*.d*[eE] */
  ghost predicate IsMantissa(w: seq<u8>)
  {
    |w| > 0 && IsFloat(w[..|w| - 1]) && Exp(w[|w| - 1])
  }

  /** [+-]?d*.d*[eE][+-] */
  ghost predicate IsSignedMantissa(w: seq<u8>)
  {
    |w| > 0 && IsMantissa(w[..|w| - 1]) && Sign(w[|w| - 1])
  }

  /** [+-]?d*.d*[eE][+-]d+ */
  ghost predicate IsScientific(w: seq<u8>)
  {
    exists k :: ScientificAt(w, k)
  }

  ghost predicate ScientificAt(w: seq<u8>, k: int) { 0 <= k < |w| && IsSignedMantissa(w[..k]) && Digits(w[k..]) }

  /** `w` is in the language that the state stands for. */
  ghost predicate InLanguage(s: State, w: seq<u8>)
  {
    match s
    case START => w == []
    case S1 => |w| == 1 && Sign(w[0])
    case INT => IsInt(w)
    case FLOAT => IsFloat(w)
    case S2 => IsMantissa(w)
    case EXPONENT => IsSignedMantissa(w)
    case SCIENTIFIC => IsScientific(w)
    case INVALID => false
  }

  // One lemma per way to extend a word by a byte.

  /** Where a word ends in digits from `i` on, so does the word without its last byte, unless nothing is left. */
  lemma DigitsSnoc(v: seq<u8>, c: u8, i: nat)
    requires i <= |v|
    ensures (v + [c])[..i] == v[..i]
    ensures Digits((v + [c])[i..]) <==> Digit(c) && Digits(v[i..])
  {
    var w := v + [c];
    assert w[i..] == v[i..] + [c];
    if Digits(w[i..]) {
      assert w[i..][|v| - i] == c;
      assert forall k :: 0 <= k < |v| - i ==> w[i..][k] == v[i..][k];
    }
  }

  lemma IntSnoc(v: seq<u8>, c: u8)
    ensures IsInt(v + [c]) <==> Digit(c) && (v == [] || InLanguage(S1, v) || IsInt(v))
  {
    hide Digits;
    var w := v + [c];
    if IsInt(w) {
      var i :| IntAt(w, i);
      DigitsSnoc(v, c, i);
      if i < |v| {
        assert IntAt(v, i);
      } else {
        assert v == v[..i];
      }
    }
    if Digit(c) && (v == [] || InLanguage(S1, v)) {
      DigitsSnoc(v, c, |v|);
      NoDigits(v);
      assert v[..|v|] == v;
      assert IntAt(w, |v|);
    }
    if Digit(c) && IsInt(v) {
      var i :| IntAt(v, i);
      DigitsSnoc(v, c, i);
      assert IntAt(w, i);
    }
  }

  lemma NoDigits(v: seq<u8>)
    ensures Digits(v[|v|..])
  {
  }

  lemma FloatEndsEarlier(v: seq<u8>, c: u8, i: int, j: int)
    requires FloatAt(v + [c], i, j) && j < |v|
    ensures Digit(c) && FloatAt(v, i, j)
  {
    var w := v + [c];
    assert w[..i] == v[..i] && w[i..j] == v[i..j];
    assert w[j + 1..][|v| - j - 1] == c;
    assert v[j + 1..] == w[j + 1..][..|v| - j - 1];
  }

  lemma FloatEndsHere(v: seq<u8>, c: u8, i: int)
    requires FloatAt(v + [c], i, |v|)
    ensures c == DOT && (v == [] || InLanguage(S1, v) || IsInt(v))
  {
    var w := v + [c];
    assert w[..i] == v[..i] && w[i..|v|] == v[i..];
    if i == |v| {
      assert v == v[..i];
    } else {
      assert IntAt(v, i);
    }
  }

  lemma FloatGoesOn(v: seq<u8>, c: u8, i: int, j: int)
    requires Digit(c) && FloatAt(v, i, j)
    ensures FloatAt(v + [c], i, j)
  {
    var w := v + [c];
    assert w[..i] == v[..i] && w[i..j] == v[i..j] && w[j + 1..] == v[j + 1..] + [c];
  }

  lemma FloatByDot(v: seq<u8>, c: u8)
    requires c == DOT && (v == [] || InLanguage(S1, v) || IsInt(v))
    ensures IsFloat(v + [c])
  {
    var w := v + [c];
    var i := if v == [] || InLanguage(S1, v) then |v|
             else (var i :| 0 <= i < |v| && OptSign(v[..i]) && Digits(v[i..]); i);
    assert v[..|v|] == v;
    assert w[..i] == v[..i] && w[i..|v|] == v[i..] && w[|v| + 1..] == [];
    assert FloatAt(w, i, |v|);
  }

  lemma FloatSnoc(v: seq<u8>, c: u8)
    ensures IsFloat(v + [c]) <==> (c == DOT && (v == [] || InLanguage(S1, v) || IsInt(v))) || (Digit(c) && IsFloat(v))
  {
    hide FloatAt, IsInt, InLanguage;
    if IsFloat(v + [c]) {
      var i, j :| FloatAt(v + [c], i, j);
      FloatPoint(v + [c], i, j);
      if j == |v| {
        FloatEndsHere(v, c, i);
      } else {
        FloatEndsEarlier(v, c, i, j);
      }
    }
    if c == DOT && (v == [] || InLanguage(S1, v) || IsInt(v)) {
      FloatByDot(v, c);
    }
    if Digit(c) && IsFloat(v) {
      var i, j :| FloatAt(v, i, j);
      FloatGoesOn(v, c, i, j);
    }
  }

  lemma FloatPoint(w: seq<u8>, i: int, j: int)
    requires FloatAt(w, i, j)
    ensures j < |w|
  {
  }

  lemma ScientificSnoc(v: seq<u8>, c: u8)
    ensures IsScientific(v + [c]) <==> Digit(c) && (IsSignedMantissa(v) || IsScientific(v))
  {
    hide Digits, IsSignedMantissa;
    var w := v + [c];
    if IsScientific(w) {
      var k :| ScientificAt(w, k);
      DigitsSnoc(v, c, k);
      if k < |v| {
        assert ScientificAt(v, k);
      } else {
        assert v[..k] == v;
      }
    }
    if Digit(c) && IsSignedMantissa(v) {
      DigitsSnoc(v, c, |v|);
      NoDigits(v);
      assert v[..|v|] == v;
      assert ScientificAt(w, |v|);
    }
    if Digit(c) && IsScientific(v) {
      var k :| ScientificAt(v, k);
      DigitsSnoc(v, c, k);
      assert ScientificAt(w, k);
    }
  }

  /** Each state stands for exactly its language; so a word is invalid exactly when it is in none of them. */
  lemma {:induction false} Classifies(w: seq<u8>)
    ensures forall s :: s != INVALID ==> (StateAfter(w) == s <==> InLanguage(s, w))
    decreases |w|
  {
    if w != [] {
      var v, c := w[..|w| - 1], w[|w| - 1];
      hide IsInt, IsFloat, IsScientific;
      assert w == v + [c];
      Classifies(v);
      IntSnoc(v, c);
      FloatSnoc(v, c);
      ScientificSnoc(v, c);
      assert InLanguage(StateAfter(v), v) || StateAfter(v) == INVALID;
      forall s | s != INVALID ensures StateAfter(w) == s <==> InLanguage(s, w) {
        ClassifiesStep(v, c, s);
      }
    }
  }

  /** If every state stands for its language on `v`, it does so on `v` and one more byte. */
  lemma ClassifiesStep(v: seq<u8>, c: u8, s: State)
    requires s != INVALID && forall s :: s != INVALID ==> (StateAfter(v) == s <==> InLanguage(s, v))
    requires IsInt(v + [c]) <==> Digit(c) && (v == [] || InLanguage(S1, v) || IsInt(v))
    requires IsFloat(v + [c])
      <==> (c == DOT && (v == [] || InLanguage(S1, v) || IsInt(v))) || (Digit(c) && IsFloat(v))
    requires IsScientific(v + [c]) <==> Digit(c) && (IsSignedMantissa(v) || IsScientific(v))
    ensures StateAfter(v + [c]) == s <==> InLanguage(s, v + [c])
  {
    hide IsInt, IsFloat, IsScientific, OptSign, Digits, FloatAt;
    var w := v + [c];
    assert w[..|w| - 1] == v && w[|w| - 1] == c;
    var q := StateAfter(v);
    assert InLanguage(q, v) || q == INVALID;
    match s
    case START =>
    case S1 => assert InLanguage(START, v) <==> q == START;
    case INT =>
      assert InLanguage(START, v) <==> q == START;
      assert InLanguage(S1, v) <==> q == S1;
      assert InLanguage(INT, v) <==> q == INT;
    case FLOAT =>
      assert InLanguage(START, v) <==> q == START;
      assert InLanguage(S1, v) <==> q == S1;
      assert InLanguage(INT, v) <==> q == INT;
      assert InLanguage(FLOAT, v) <==> q == FLOAT;
    case S2 => assert InLanguage(FLOAT, v) <==> q == FLOAT;
    case EXPONENT => assert InLanguage(S2, v) <==> q == S2;
    case SCIENTIFIC =>
      assert InLanguage(EXPONENT, v) <==> q == EXPONENT;
      assert InLanguage(SCIENTIFIC, v) <==> q == SCIENTIFIC;
  }
}
