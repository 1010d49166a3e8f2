/** The scanner of core_state.c: one token at a time, with counts of transitions and of final states. */
module StateScan {
  import opened Numbers
  import opened NumberAutomaton

  // ---------- tokens ----------

  /** How many bytes of `t` the automaton takes from state `s` on, before the text, the number or validity ends. */
  function TakenFrom(t: seq<u8>, s: State): (n: nat)
    ensures n <= |t|
    decreases t
  {
    if t == [] || s == INVALID || t[0] == COMMA then 0 else 1 + TakenFrom(t[1..], Next(s, t[0]))
  }

  function StateFrom(s: State, w: seq<u8>): State
    decreases w
  {
    if w == [] then s else StateFrom(Next(s, w[0]), w[1..])
  }

  function Token(t: seq<u8>): seq<u8> { t[..TakenFrom(t, START)] }

  /** A comma that ends a token is consumed with it. */
  function Consumed(t: seq<u8>): (n: nat)
    ensures n <= |t|
  {
    var n := TakenFrom(t, START);
    if n < |t| && StateFrom(START, t[..n]) != INVALID then n + 1 else n
  }

  lemma {:induction false} StateFromAppend(s: State, w: seq<u8>, c: u8)
    ensures StateFrom(s, w + [c]) == Next(StateFrom(s, w), c)
    decreases w
  {
    if w == [] {
      assert StateFrom(s, [c]) == StateFrom(Next(s, c), []);
    } else {
      assert (w + [c])[1..] == w[1..] + [c];
      StateFromAppend(Next(s, w[0]), w[1..], c);
    }
  }

  lemma {:induction false} StateFromStart(w: seq<u8>)
    ensures StateFrom(START, w) == StateAfter(w)
    decreases |w|
  {
    if w != [] {
      var v, c := w[..|w| - 1], w[|w| - 1];
      assert w == v + [c];
      StateFromStart(v);
      StateFromAppend(START, v, c);
    }
  }

  /**
   A token contains no comma, stays valid up to its last byte at least, and is as long as possible: the
   text ends after it, or a comma follows, or it has just become invalid.
   */
  lemma {:induction false} TokenShape(t: seq<u8>, s: State)
    ensures var n := TakenFrom(t, s);
      && COMMA !in t[..n]
      && (forall k :: 0 <= k < n ==> StateFrom(s, t[..k]) != INVALID)
      && (n == |t| || t[n] == COMMA || StateFrom(s, t[..n]) == INVALID)
    decreases t
  {
    var n := TakenFrom(t, s);
    if n > 0 {
      var s' := Next(s, t[0]);
      TokenShape(t[1..], s');
      assert t[..n] == [t[0]] + t[1..][..n - 1];
      forall k | 0 <= k < n ensures StateFrom(s, t[..k]) != INVALID {
        if k > 0 {
          assert t[..k] == [t[0]] + t[1..][..k - 1];
          assert t[..k][1..] == t[1..][..k - 1];
        }
      }
      assert t[..n][1..] == t[1..][..n - 1];
    }
  }

  /** The state reported for a token is the one whose language it is in; invalid tokens are in none. */
  lemma TokenClassified(t: seq<u8>)
    ensures var w := Token(t);
      && (forall s :: s != INVALID ==> (StateFrom(START, w) == s <==> InLanguage(s, w)))
      && (StateFrom(START, w) == INVALID ==>
            |w| > 0 && StateFrom(START, w[..|w| - 1]) != INVALID && forall s :: !InLanguage(s, w))
  {
    var w := Token(t);
    StateFromStart(w);
    Classifies(w);
    if StateFrom(START, w) == INVALID {
      TokenShape(t, START);
      assert w[..|w| - 1] == t[..|w| - 1];
    }
  }

  // ---------- counters ----------

  type Counts = k: seq<nat> | |k| == 8 witness [0, 0, 0, 0, 0, 0, 0, 0]

  function Bump(k: Counts, s: State): Counts { k[s.Index() := k[s.Index()] + 1] }

  /** Which transition counters the byte `c` increments in state `s`. */
  function Count(k: Counts, s: State, c: u8): Counts
  {
    match s
    case START => Bump(if Next(s, c) == INVALID then Bump(k, INVALID) else k, START)
    case S1 => Bump(k, S1)
    case INT => if c == DOT || !Digit(c) then Bump(k, INT) else k
    case FLOAT => if Exp(c) || !Digit(c) then Bump(k, FLOAT) else k
    case S2 => Bump(k, S2)
    case EXPONENT => Bump(k, EXPONENT)
    case SCIENTIFIC => if !Digit(c) then Bump(k, INVALID) else k
    case INVALID => k
  }

  function CountAll(k: Counts, s: State, w: seq<u8>): Counts
    decreases w
  {
    if w == [] then k else CountAll(Count(k, s, w[0]), Next(s, w[0]), w[1..])
  }

  function One(b: bool): nat { if b then 1 else 0 }

  function At(k: Counts, s: State): nat { k[s.Index()] }

  /** How the counters of a token relate to each other. */
  lemma {:induction false} CountsBalance(k: Counts, s: State, w: seq<u8>)
    ensures var (k', e) := (CountAll(k, s, w), StateFrom(s, w));
      && At(k', START) + One(e == START) == At(k, START) + One(s == START)
      && At(k', EXPONENT) + One(e == EXPONENT) + At(k, S2) <= At(k, EXPONENT) + At(k', S2) + One(s == EXPONENT)
      && At(k', S2) + One(e == S2) + At(k, FLOAT) <= At(k, S2) + At(k', FLOAT) + One(s == S2)
    decreases w
  {
    if w != [] {
      CountsBalance(Count(k, s, w[0]), Next(s, w[0]), w[1..]);
    }
  }

  // ---------- the scanner ----------

  /** From `p` on the buffer holds the bytes `t`, none of them zero, and then a zero. */
  ghost predicate HasText(buf: seq<u8>, p: nat, t: seq<u8>)
  {
    && p + |t| < |buf|
    && buf[p..p + |t|] == t
    && buf[p + |t|] == 0
    && 0 !in t
  }

  /** One step of the switch statement of `core_state_transition`. */
  method Step(state0: State, c: u8, counts: array<nat>) returns (state: State)
    requires counts.Length == 8
    modifies counts
    ensures state == Next(state0, c) && counts[..] == Count(old(counts[..]), state0, c)
  {
    state := state0;
    match state0 {
      case START =>
        if Digit(c) {
          state := INT;
        } else if c == 43 || c == 45 {
          state := S1;
        } else if c == DOT {
          state := FLOAT;
        } else {
          state := INVALID;
          counts[INVALID.Index()] := counts[INVALID.Index()] + 1;
        }
        counts[START.Index()] := counts[START.Index()] + 1;
      case S1 =>
        if Digit(c) {
          state := INT;
        } else if c == DOT {
          state := FLOAT;
        } else {
          state := INVALID;
        }
        counts[S1.Index()] := counts[S1.Index()] + 1;
      case INT =>
        if c == DOT {
          state := FLOAT;
          counts[INT.Index()] := counts[INT.Index()] + 1;
        } else if !Digit(c) {
          state := INVALID;
          counts[INT.Index()] := counts[INT.Index()] + 1;
        }
      case FLOAT =>
        if c == 69 || c == 101 {
          state := S2;
          counts[FLOAT.Index()] := counts[FLOAT.Index()] + 1;
        } else if !Digit(c) {
          state := INVALID;
          counts[FLOAT.Index()] := counts[FLOAT.Index()] + 1;
        }
      case S2 =>
        if c == 43 || c == 45 {
          state := EXPONENT;
        } else {
          state := INVALID;
        }
        counts[S2.Index()] := counts[S2.Index()] + 1;
      case EXPONENT =>
        if Digit(c) {
          state := SCIENTIFIC;
        } else {
          state := INVALID;
        }
        counts[EXPONENT.Index()] := counts[EXPONENT.Index()] + 1;
      case SCIENTIFIC =>
        if !Digit(c) {
          state := INVALID;
          counts[INVALID.Index()] := counts[INVALID.Index()] + 1;
        }
      case INVALID =>
    }
  }

  lemma TextStep(buf: seq<u8>, p: nat, t: seq<u8>)
    requires HasText(buf, p, t)
    ensures p < |buf| && (buf[p] == 0 <==> t == [])
    ensures t != [] ==> buf[p] == t[0] && HasText(buf, p + 1, t[1..])
  {
    if t != [] {
      assert buf[p..p + |t|][0] == buf[p];
      assert buf[p + 1..p + 1 + |t[1..]|] == buf[p..p + |t|][1..];
    }
  }

  lemma TokenStep(k: Counts, r: seq<u8>, s: State)
    requires r != [] && s != INVALID && r[0] != COMMA
    ensures var (n, s', r') := (TakenFrom(r, s), Next(s, r[0]), r[1..]);
      && n == 1 + TakenFrom(r', s')
      && StateFrom(s, r[..n]) == StateFrom(s', r'[..n - 1])
      && CountAll(k, s, r[..n]) == CountAll(Count(k, s, r[0]), s', r'[..n - 1])
  {
    var n := TakenFrom(r, s);
    assert r[..n][1..] == r[1..][..n - 1];
  }

  lemma TokenEnd(k: Counts, r: seq<u8>, s: State)
    requires r == [] || s == INVALID || r[0] == COMMA
    ensures TakenFrom(r, s) == 0 && StateFrom(s, r[..0]) == s && CountAll(k, s, r[..0]) == k
  {
  }

  /** After `j` bytes of the token: what is left of the text, and of the counting, leads to the same end. */
  ghost predicate Progress(b: seq<u8>, p: nat, t: seq<u8>, k0: Counts, j: nat, state: State, k: Counts)
  {
    var n := TakenFrom(t, START);
    && j <= n && HasText(b, p + j, t[j..])
    && TakenFrom(t[j..], state) == n - j
    && StateFrom(state, t[j..n]) == StateFrom(START, t[..n])
    && CountAll(k, state, t[j..n]) == CountAll(k0, START, t[..n])
    && (j == 0 ==> state == START)
  }

  lemma ProgressStart(b: seq<u8>, p: nat, t: seq<u8>, k0: Counts)
    requires HasText(b, p, t)
    ensures Progress(b, p, t, k0, 0, START, k0) && p < |b|
  {
    assert t[0..] == t;
    assert t[0..TakenFrom(t, START)] == t[..TakenFrom(t, START)];
  }

  lemma ProgressStep(b: seq<u8>, p: nat, t: seq<u8>, k0: Counts, j: nat, state: State, k: Counts)
    requires Progress(b, p, t, k0, j, state, k) && p + j < |b| && b[p + j] != 0 && state != INVALID
    requires b[p + j] != COMMA
    ensures Progress(b, p, t, k0, j + 1, Next(state, b[p + j]), Count(k, state, b[p + j]))
    ensures j < |t| && p + j + 1 < |b|
  {
    var n := TakenFrom(t, START);
    TextStep(b, p + j, t[j..]);
    TokenStep(k, t[j..], state);
    assert t[j..][1..] == t[j + 1..];
    assert t[j..][..n - j] == t[j..n];
    assert t[j + 1..][..n - j - 1] == t[j + 1..n];
  }

  lemma ProgressEnd(b: seq<u8>, p: nat, t: seq<u8>, k0: Counts, j: nat, state: State, k: Counts)
    requires Progress(b, p, t, k0, j, state, k)
    requires p + j < |b| && (b[p + j] == 0 || state == INVALID || b[p + j] == COMMA)
    ensures j == TakenFrom(t, START) && state == StateFrom(START, Token(t)) && k == CountAll(k0, START, Token(t))
    ensures var c := if state != INVALID && b[p + j] == COMMA then j + 1 else j;
      c == Consumed(t) && HasText(b, p + c, t[c..]) && (t != [] ==> c > 0)
  {
    TextStep(b, p + j, t[j..]);
    TokenEnd(k, t[j..], state);
    if state != INVALID && b[p + j] == COMMA {
      assert t[j..][1..] == t[j + 1..];
    }
  }

  /** Consumes one token, and the comma that may end it. */
  method Transition(buf: array<u8>, instr: nat, counts: array<nat>, ghost t: seq<u8>) returns (str: nat, state: State)
    requires HasText(buf[..], instr, t) && counts.Length == 8
    modifies counts
    ensures str == instr + Consumed(t) && state == StateFrom(START, Token(t))
    ensures counts[..] == CountAll(old(counts[..]), START, Token(t))
    ensures HasText(buf[..], str, t[Consumed(t)..])
    ensures t != [] ==> str > instr
  {
    assert COMMA != 0;
    hide *;
    str, state := instr, START;
    ghost var b, k0 := buf[..], counts[..];
    ProgressStart(b, instr, t, k0);
    ghost var j := 0;
    while buf[str] != 0 && state != INVALID
      invariant str == instr + j < |b| && j <= |t|
      invariant Progress(b, instr, t, k0, j, state, counts[..])
      decreases |t| - j
    {
      var nextSymbol := buf[str];
      if nextSymbol == COMMA {
        str := str + 1;
        break;
      }
      ProgressStep(b, instr, t, k0, j, state, counts[..]);
      state := Step(state, nextSymbol, counts);
      str, j := str + 1, j + 1;
    }
    ProgressEnd(b, instr, t, k0, j, state, counts[..]);
  }

  // ---------- scanning a whole buffer ----------

  function Sum(k: Counts): nat { k[0] + k[1] + k[2] + k[3] + k[4] + k[5] + k[6] + k[7] }

  /** What the transition counters `k` and the final-state counters `f` have to do with each other. */
  predicate Balanced(k: Counts, f: Counts)
  {
    && At(k, START) + At(f, START) == Sum(f)
    && At(k, EXPONENT) + At(f, EXPONENT) <= At(k, S2)
    && At(k, S2) + At(f, S2) <= At(k, FLOAT)
  }

  lemma TokenBalance(k: Counts, f: Counts, w: seq<u8>)
    requires Balanced(k, f)
    ensures Balanced(CountAll(k, START, w), Bump(f, StateFrom(START, w)))
  {
    CountsBalance(k, START, w);
  }

  /** The states of the tokens that tile the text, in order. */
  function TokenStates(t: seq<u8>): seq<State>
    decreases |t|
  {
    if t == [] then [] else
      ConsumedSome(t);
      [StateFrom(START, Token(t))] + TokenStates(t[Consumed(t)..])
  }

  lemma ConsumedSome(t: seq<u8>)
    requires t != []
    ensures Consumed(t) > 0
  {
  }

  function Tally(f: Counts, states: seq<State>): Counts
    decreases states
  {
    if states == [] then f else Tally(Bump(f, states[0]), states[1..])
  }

  /** The transition counters after the tokens of the text. */
  function Tracked(k: Counts, t: seq<u8>): Counts
    decreases |t|
  {
    if t == [] then k else
      ConsumedSome(t);
      Tracked(CountAll(k, START, Token(t)), t[Consumed(t)..])
  }

  /** Scans the text up to its end, counting transitions and final states. */
  method ScanAll(buf: array<u8>, track: array<nat>, final: array<nat>, ghost t: seq<u8>)
    requires HasText(buf[..], 0, t) && track.Length == final.Length == 8 && track != final
    requires Balanced(track[..], final[..])
    modifies track, final
    ensures Balanced(track[..], final[..])
    ensures final[..] == Tally(old(final[..]), TokenStates(t)) && track[..] == Tracked(old(track[..]), t)
  {
    hide Balanced, HasText, CountAll, Consumed;
    var p := 0;
    ghost var r := t;
    TextStep(buf[..], 0, t);
    while buf[p] != 0
      invariant 0 <= p < buf.Length && HasText(buf[..], p, r) && (buf[p] == 0 <==> r == [])
      invariant Balanced(track[..], final[..])
      invariant Tally(final[..], TokenStates(r)) == Tally(old(final[..]), TokenStates(t))
      invariant Tracked(track[..], r) == Tracked(old(track[..]), t)
      decreases |r|
    {
      ghost var k, f := track[..], final[..];
      var fstate;
      ConsumedSome(r);
      p, fstate := Transition(buf, p, track, r);
      TokenBalance(k, f, Token(r));
      final[fstate.Index()] := final[fstate.Index()] + 1;
      assert final[..] == Bump(f, fstate);
      assert TokenStates(r) == [fstate] + TokenStates(r[Consumed(r)..]);
      r := r[Consumed(r)..];
      TextStep(buf[..], p, r);
    }
  }
}
