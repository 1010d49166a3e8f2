/** What fills the block that is scanned, and what the corruption does to it. */
module BlockMeaning {
  import opened Numbers
  import opened BitOps
  import opened NumberAutomaton
  import opened StateScan
  import opened StateBlock
  import opened StateMeaning

  // ---------- the patterns ----------

  /** Bits 0 to 2 of the seed select the kind, bits 3 and 4 the pattern. */
  lemma IntPatterns(seed: s16)
    requires seed % 8 <= 2
    ensures Pattern(seed) == Codes(["5012", "1234", "-874", "+122"][seed / 8 % 4])
  {
  }

  lemma FloatPatterns(seed: s16)
    requires 3 <= seed % 8 <= 4
    ensures Pattern(seed) == Codes(["35.54400", ".1234500", "-110.700", "+0.64400"][seed / 8 % 4])
  {
  }

  lemma SciPatterns(seed: s16)
    requires 5 <= seed % 8 <= 6
    ensures Pattern(seed) == Codes(["5.500e+3", "-.123e-2", "-87e+832", "+0.6e-12"][seed / 8 % 4])
  {
  }

  lemma ErrPatterns(seed: s16)
    requires seed % 8 == 7
    ensures Pattern(seed) == Codes(["T0.3e-1F", "-T.T++Tq", "1T3.4e4z", "34.0e-T^"][seed / 8 % 4])
  {
  }

  /** The states that a word leads through. */
  lemma {:induction false} Trace(w: seq<u8>, trace: seq<State>, n: nat)
    requires |trace| == |w| + 1 && trace[0] == START && n <= |w|
    requires forall i :: 0 <= i < |w| ==> trace[i + 1] == Next(trace[i], w[i])
    ensures StateFrom(START, w[..n]) == trace[n]
  {
    hide Next;
    if n > 0 {
      Trace(w, trace, n - 1);
      StateFromAppend(START, w[..n - 1], w[n - 1]);
      assert w[..n - 1] + [w[n - 1]] == w[..n];
    }
  }

  lemma IntTrace0()
    ensures StateFrom(START, Codes("5012")) == INT
  {
    var w := Codes("5012");
    Trace(w, [START, INT, INT, INT, INT],
          |w|);
    assert w[..|w|] == w;
  }

  lemma IntTrace1()
    ensures StateFrom(START, Codes("1234")) == INT
  {
    var w := Codes("1234");
    Trace(w, [START, INT, INT, INT, INT],
          |w|);
    assert w[..|w|] == w;
  }

  lemma IntTrace2()
    ensures StateFrom(START, Codes("-874")) == INT
  {
    var w := Codes("-874");
    Trace(w, [START, S1, INT, INT, INT],
          |w|);
    assert w[..|w|] == w;
  }

  lemma IntTrace3()
    ensures StateFrom(START, Codes("+122")) == INT
  {
    var w := Codes("+122");
    Trace(w, [START, S1, INT, INT, INT],
          |w|);
    assert w[..|w|] == w;
  }

  lemma FloatTrace0()
    ensures StateFrom(START, Codes("35.54400")) == FLOAT
  {
    var w := Codes("35.54400");
    Trace(w, [START, INT, INT, FLOAT, FLOAT, FLOAT, FLOAT, FLOAT, FLOAT],
          |w|);
    assert w[..|w|] == w;
  }

  lemma FloatTrace1()
    ensures StateFrom(START, Codes(".1234500")) == FLOAT
  {
    var w := Codes(".1234500");
    Trace(w, [START, FLOAT, FLOAT, FLOAT, FLOAT, FLOAT, FLOAT, FLOAT, FLOAT],
          |w|);
    assert w[..|w|] == w;
  }

  lemma FloatTrace2()
    ensures StateFrom(START, Codes("-110.700")) == FLOAT
  {
    var w := Codes("-110.700");
    Trace(w, [START, S1, INT, INT, INT, FLOAT, FLOAT, FLOAT, FLOAT],
          |w|);
    assert w[..|w|] == w;
  }

  lemma FloatTrace3()
    ensures StateFrom(START, Codes("+0.64400")) == FLOAT
  {
    var w := Codes("+0.64400");
    Trace(w, [START, S1, INT, FLOAT, FLOAT, FLOAT, FLOAT, FLOAT, FLOAT],
          |w|);
    assert w[..|w|] == w;
  }

  lemma SciTrace0()
    ensures StateFrom(START, Codes("5.500e+3")) == SCIENTIFIC
  {
    var w := Codes("5.500e+3");
    Trace(w, [START, INT, FLOAT, FLOAT, FLOAT, FLOAT, S2, EXPONENT, SCIENTIFIC],
          |w|);
    assert w[..|w|] == w;
  }

  lemma SciTrace1()
    ensures StateFrom(START, Codes("-.123e-2")) == SCIENTIFIC
  {
    var w := Codes("-.123e-2");
    Trace(w, [START, S1, FLOAT, FLOAT, FLOAT, FLOAT, S2, EXPONENT, SCIENTIFIC],
          |w|);
    assert w[..|w|] == w;
  }

  lemma SciTrace2()
    ensures StateFrom(START, Codes("-87e+832")) == INVALID
  {
    var w := Codes("-87e+832");
    Trace(w, [START, S1, INT, INT, INVALID, INVALID, INVALID, INVALID, INVALID],
          |w|);
    assert w[..|w|] == w;
  }

  lemma SciTrace3()
    ensures StateFrom(START, Codes("+0.6e-12")) == SCIENTIFIC
  {
    var w := Codes("+0.6e-12");
    Trace(w, [START, S1, INT, FLOAT, FLOAT, S2, EXPONENT, SCIENTIFIC, SCIENTIFIC],
          |w|);
    assert w[..|w|] == w;
  }

  lemma ErrTrace0()
    ensures StateFrom(START, Codes("T0.3e-1F")) == INVALID
  {
    var w := Codes("T0.3e-1F");
    Trace(w, [START, INVALID, INVALID, INVALID, INVALID, INVALID, INVALID, INVALID, INVALID],
          |w|);
    assert w[..|w|] == w;
  }

  lemma ErrTrace1()
    ensures StateFrom(START, Codes("-T.T++Tq")) == INVALID
  {
    var w := Codes("-T.T++Tq");
    Trace(w, [START, S1, INVALID, INVALID, INVALID, INVALID, INVALID, INVALID, INVALID],
          |w|);
    assert w[..|w|] == w;
  }

  lemma ErrTrace2()
    ensures StateFrom(START, Codes("1T3.4e4z")) == INVALID
  {
    var w := Codes("1T3.4e4z");
    Trace(w, [START, INT, INVALID, INVALID, INVALID, INVALID, INVALID, INVALID, INVALID],
          |w|);
    assert w[..|w|] == w;
  }

  lemma ErrTrace3()
    ensures StateFrom(START, Codes("34.0e-T^")) == INVALID
  {
    var w := Codes("34.0e-T^");
    Trace(w, [START, INT, INT, FLOAT, FLOAT, S2, EXPONENT, INVALID, INVALID],
          |w|);
    assert w[..|w|] == w;
  }

  /**
   What the scanner makes of them: the integers and decimals are valid, and so are the scientific numbers, except for
   the third one, which has an exponent but no point; the faulty ones are all invalid.
   */
  lemma PatternStates(seed: s16)
    ensures StateFrom(START, Pattern(seed))
            == if seed % 8 <= 2 then INT else if seed % 8 <= 4 then FLOAT
               else if seed % 8 <= 6 && seed / 8 % 4 != 2 then SCIENTIFIC else INVALID
  {
    hide Pattern, StateFrom;
    if seed % 8 <= 2 {
      IntPatterns(seed); IntTrace0(); IntTrace1(); IntTrace2(); IntTrace3();
    } else if seed % 8 <= 4 {
      FloatPatterns(seed); FloatTrace0(); FloatTrace1(); FloatTrace2(); FloatTrace3();
    } else if seed % 8 <= 6 {
      SciPatterns(seed); SciTrace0(); SciTrace1(); SciTrace2(); SciTrace3();
    } else {
      ErrPatterns(seed); ErrTrace0(); ErrTrace1(); ErrTrace2(); ErrTrace3();
    }
  }

  // ---------- the block ----------

  /** The first `m` patterns after the seed, each with its comma. */
  function Joined(seed: s16, m: nat): (t: seq<u8>)
  {
    if m == 0 then [] else Joined(seed, m - 1) + Pattern(Wrap16(seed + m)) + [',' as int]
  }

  lemma SeedNumber(seed: s16, m: nat)
    ensures NextSeed(Wrap16(seed + m)) == Wrap16(seed + m + 1) && Wrap16(seed) == seed
  {
  }

  /** From the pattern with number `m + 1` on, as many patterns follow as fit below `avail`. */
  lemma {:induction false} GeneratedFrom(avail: int, seed: s16, m: nat) returns (last: nat)
    requires |Joined(seed, m)| < avail
    ensures last >= m && |Joined(seed, last)| < avail <= |Joined(seed, last + 1)|
    ensures Joined(seed, m) + Generated(avail, |Joined(seed, m)|, Pattern(Wrap16(seed + m + 1)), Wrap16(seed + m + 1))
            == Joined(seed, last)
    decreases avail - |Joined(seed, m)|
  {
    hide Pattern, Wrap16, NextSeed;
    var total, next := |Joined(seed, m)|, Pattern(Wrap16(seed + m + 1));
    SeedNumber(seed, m + 1);
    assert Joined(seed, m + 1) == Joined(seed, m) + next + [',' as int];
    if total + |next| + 1 >= avail {
      last := m;
    } else {
      last := GeneratedFrom(avail, seed, m + 1);
      var g := Generated(avail, total + |next| + 1, Pattern(Wrap16(seed + m + 2)), Wrap16(seed + m + 2));
      assert Joined(seed, m) + (next + [COMMA] + g) == Joined(seed, m + 1) + g;
    }
  }

  /** A block is the patterns after its seed, as many as leave room for a byte and the final zero, and then zeros. */
  lemma BlockIs(size: nat, seed: s16) returns (m: nat)
    requires size > 0
    ensures |Joined(seed, m)| <= size
    ensures InitialBlock(size, seed) == Joined(seed, m) + seq(size - |Joined(seed, m)|, _ => 0)
    ensures (m == 0 || |Joined(seed, m)| < size - 1) && size - 1 <= |Joined(seed, m + 1)|
  {
    hide Pattern, Wrap16, NextSeed;
    SeedNumber(seed, 0);
    assert Joined(seed, 0) == [];
    if size - 1 <= 1 {
      m := 0;
      assert |Joined(seed, 1)| >= 1;
    } else {
      m := GeneratedFrom(size - 1, seed, 0);
    }
  }

  // ---------- the corruption ----------

  /** A pass inverts the bits of the mask in every byte at a multiple of the step, except in commas. */
  lemma CorruptedAt(b: seq<u8>, s: u8, step: int, i: nat, k: nat)
    requires step > 0 && i < |b| && k < 8
    ensures i % step != 0 || b[i] == ',' as int ==> Corrupted(b, s, step)[i] == b[i]
    ensures i % step == 0 && b[i] != ',' as int ==>
              BitAt(Corrupted(b, s, step)[i], k) == (BitAt(b[i], k) + BitAt(s, k)) % 2
  {
    XorAt(b[i], s, 8, k);
  }

  /** The stride of an item: bits 3 to 6 of its data word, in both halves of the byte, but at least 0x22. */
  lemma StrideIs(data: u16)
    ensures if data / 8 % 16 <= 2 then StrideOf(data) == 0x22
            else StrideOf(data) / 16 == StrideOf(data) % 16 == data / 8 % 16
  {
  }

  /** The mask is the low byte of the seed. */
  lemma MaskIs(seed: s16)
    ensures (seed - Low8(seed)) % 256 == 0
  {
  }
}
