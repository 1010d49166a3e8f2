/** What the block of text, its scan and its checksum are, said directly. */
module StateMeaning {
  import opened Numbers
  import opened BitOps
  import opened Crc
  import opened NumberAutomaton
  import opened StateScan
  import opened StateBlock

  function Codes(s: string): (b: seq<int>)
    ensures |b| == |s| && forall i :: 0 <= i < |s| ==> b[i] == s[i] as int
  {
    seq(|s|, i requires 0 <= i < |s| => s[i] as int)
  }

  lemma Alphabet(c: u8)
    ensures Digit(c) <==> '0' as int <= c <= '9' as int
    ensures Sign(c) <==> c == '+' as int || c == '-' as int
    ensures Exp(c) <==> c == 'E' as int || c == 'e' as int
    ensures DOT == '.' as int && COMMA == ',' as int
  {
  }

  // ---------- transition counters ----------

  /** The byte `c` is counted for state `x` in state `s`. */
  predicate IsCounted(s: State, c: u8, x: State)
  {
    if x == INVALID then Next(s, c) == INVALID && (s == START || s == SCIENTIFIC)
    else x != SCIENTIFIC && s == x && Next(s, c) != x
  }

  /**
   Each state counts the bytes with which it is left, except that what makes START or SCIENTIFIC invalid is counted for
   INVALID, and SCIENTIFIC has no counter of its own.
   */
  lemma CountIs(k: Counts, s: State, c: u8, x: State)
    ensures At(Count(k, s, c), x) == At(k, x) + if IsCounted(s, c, x) then 1 else 0
  {
  }

  /** The places of the bytes of `w` that are counted for state `x`. */
  ghost function Counted(s: State, w: seq<u8>, x: State): set<nat>
  {
    set i: nat | i < |w| && IsCounted(StateFrom(s, w[..i]), w[i], x)
  }

  lemma CountedNext(s: State, v: seq<u8>, c: u8, x: State)
    ensures |v| !in Counted(s, v, x)
    ensures Counted(s, v + [c], x) == Counted(s, v, x) + if IsCounted(StateFrom(s, v), c, x) then {|v|} else {}
  {
    hide IsCounted, StateFrom;
    var w := v + [c];
    forall i: nat | i < |v| ensures w[..i] == v[..i] && w[i] == v[i] {
    }
    assert w[..|v|] == v && w[|v|] == c;
  }

  /** Over a token: their number. */
  lemma {:induction false} CountAllIs(k: Counts, s: State, w: seq<u8>, x: State)
    ensures At(CountAll(k, s, w), x) == At(k, x) + |Counted(s, w, x)|
    decreases |w|
  {
    hide IsCounted, Count, At, CountAll, StateFrom;
    if w == [] {
      CountNothing(k, s);
      assert Counted(s, w, x) == {};
    } else {
      hide Counted;
      var v, c := w[..|w| - 1], w[|w| - 1];
      assert w == v + [c];
      CountAllIs(k, s, v, x);
      CountAllAppend(k, s, v, c);
      CountIs(CountAll(k, s, v), StateFrom(s, v), c, x);
      CountedNext(s, v, c, x);
    }
  }

  lemma CountNothing(k: Counts, s: State)
    ensures CountAll(k, s, []) == k
  {
  }

  lemma {:induction false} CountAllAppend(k: Counts, s: State, w: seq<u8>, c: u8)
    ensures CountAll(k, s, w + [c]) == Count(CountAll(k, s, w), StateFrom(s, w), c)
    decreases |w|
  {
    hide Count;
    if w == [] {
      assert ([c])[1..] == [];
      assert w + [c] == [c];
      assert CountAll(k, s, [c]) == CountAll(Count(k, s, c), Next(s, c), []);
    } else {
      assert (w + [c])[1..] == w[1..] + [c];
      CountAllAppend(Count(k, s, w[0]), Next(s, w[0]), w[1..], c);
    }
  }

  /** The final counters count the tokens that end in each state. */
  lemma {:induction false} TallyIs(f: Counts, states: seq<State>, x: State)
    ensures At(Tally(f, states), x) == At(f, x) + multiset(states)[x]
    decreases |states|
  {
    if states != [] {
      TallyIs(Bump(f, states[0]), states[1..], x);
      assert states == [states[0]] + states[1..];
    }
  }

  /**
   The first token of a text, and what comes after it: the token has no comma and is valid up to its last byte; a comma
   ends it, or the end of the text, or its becoming invalid.
   */
  lemma FirstToken(t: seq<u8>, k: Counts) returns (w: seq<u8>, comma: bool, rest: seq<u8>)
    requires t != []
    ensures t == w + (if comma then [','  as int] else []) + rest && ',' as int !in w
    ensures forall i :: 0 <= i < |w| ==> StateFrom(START, w[..i]) != INVALID
    ensures if comma then StateFrom(START, w) != INVALID else rest == [] || StateFrom(START, w) == INVALID
    ensures TokenStates(t) == [StateFrom(START, w)] + TokenStates(rest)
    ensures Tracked(k, t) == Tracked(CountAll(k, START, w), rest)
  {
    hide CountAll;
    TokenShape(t, START);
    ConsumedSome(t);
    w, rest := Token(t), t[Consumed(t)..];
    comma := Consumed(t) > |w|;
    assert t == t[..Consumed(t)] + rest;
    forall i | 0 <= i < |w| ensures w[..i] == t[..i] {
    }
  }

  // ---------- the checksum ----------

  function StateAt(i: nat): State
    requires i < 8
  {
    [START, INVALID, S1, S2, INT, FLOAT, EXPONENT, SCIENTIFIC][i]
  }

  /** The bits of sixteen counters: for each state its final count and then its transitions. */
  ghost function CounterBits(final: Counts, track: Counts, n: nat): seq<bool>
    requires n <= 8
  {
    if n == 0 then []
    else CounterBits(final, track, n - 1)
         + (DwordBits(AsDword(At(final, StateAt(n - 1)))) + DwordBits(AsDword(At(track, StateAt(n - 1)))))
  }

  lemma {:induction false} CountsFedIs(r: Reg, final: Counts, track: Counts, n: nat)
    requires n <= 8
    ensures CountsFed(r, final, track, n) == Fold(r, CounterBits(final, track, n))
  {
    hide DwordBits, AsDword, Fold;
    if n == 0 {
      FoldNothing(r);
    } else {
      CountsFedIs(r, final, track, n - 1);
      StateIndex(n - 1);
      var f, k := DwordBits(AsDword(final[n - 1])), DwordBits(AsDword(track[n - 1]));
      FoldConcat(r, CounterBits(final, track, n - 1), f + k);
      FoldConcat(Fold(r, CounterBits(final, track, n - 1)), f, k);
    }
  }

  lemma FoldNothing(r: Reg)
    ensures Fold(r, []) == r
  {
  }

  lemma StateIndex(i: nat)
    requires i < 8
    ensures StateAt(i).Index() == i
  {
  }

  lemma DwordIs(n: nat)
    requires n < 0x1_0000_0000
    ensures AsDword(n) == n as bv32
  {
  }

  /** The checksum of the benchmark: the counters over the text of the block and then that of the corrupted block. */
  lemma ChecksumIs(r: Reg, b: seq<u8>, s: u8, step: int) returns (final: Counts, track: Counts)
    requires step > 0
    ensures BenchCrc(r, b, s, step) == Fold(r, CounterBits(final, track, 8))
    ensures var t, u := UpToZero(b), UpToZero(Corrupted(b, s, step));
      && (forall x :: At(final, x) == multiset(TokenStates(t))[x] + multiset(TokenStates(u))[x])
      && track == Tracked(Tracked([0, 0, 0, 0, 0, 0, 0, 0], t), u)
  {
    hide Fold, CountsFed, Tally, Tracked, TokenStates, Corrupted, UpToZero;
    var t, u := UpToZero(b), UpToZero(Corrupted(b, s, step));
    var f := Tally(NO_COUNTS, TokenStates(t));
    final, track := Tally(f, TokenStates(u)), Tracked(Tracked(NO_COUNTS, t), u);
    CountsFedIs(r, final, track, 8);
    forall x ensures At(final, x) == multiset(TokenStates(t))[x] + multiset(TokenStates(u))[x] {
      TallyIs(NO_COUNTS, TokenStates(t), x);
      TallyIs(f, TokenStates(u), x);
    }
  }
}
