/** The expansion of placeholders in the arguments and paths of the runner. */
module Substitution {
  import opened NumberMeaning
  import opened NumberText
  import opened Options

  // ---------- leftmost substitution ----------

  predicate OccursAt(s: string, ph: string, i: nat)
  {
    i + |ph| <= |s| && s[i..i + |ph|] == ph
  }

  ghost predicate Occurs(s: string, ph: string)
  {
    exists i: nat :: OccursAt(s, ph, i)
  }

  /** Every occurrence that does not overlap one further to the left is replaced. */
  function Subst(s: string, ph: string, rep: string): string
    requires ph != ""
    decreases |s|
  {
    if s == "" then ""
    else if OccursAt(s, ph, 0) then rep + Subst(s[|ph|..], ph, rep)
    else [s[0]] + Subst(s[1..], ph, rep)
  }

  /** `find`: the first occurrence at or after `pos`. */
  method Find(s: string, ph: string, pos: nat) returns (r: Option<nat>)
    requires pos <= |s|
    ensures r.None? ==> forall i: nat :: pos <= i ==> !OccursAt(s, ph, i)
    ensures r.Some? ==> pos <= r.value <= |s| - |ph| && OccursAt(s, ph, r.value)
    ensures r.Some? ==> forall i :: pos <= i < r.value ==> !OccursAt(s, ph, i)
  {
    var i := pos;
    while i + |ph| <= |s|
      invariant pos <= i && forall k :: pos <= k < i ==> !OccursAt(s, ph, k)
    {
      if s[i..i + |ph|] == ph {
        return Some(i);
      }
      i := i + 1;
    }
    return None;
  }

  /** What comes before the first occurrence is kept. */
  lemma {:induction false} SubstSkips(s: string, ph: string, rep: string, n: nat)
    requires ph != "" && n <= |s| && forall i :: 0 <= i < n ==> !OccursAt(s, ph, i)
    ensures Subst(s, ph, rep) == s[..n] + Subst(s[n..], ph, rep)
  {
    if n > 0 {
      forall i | 0 <= i < n - 1 ensures !OccursAt(s[1..], ph, i) {
        assert OccursAt(s[1..], ph, i) ==> OccursAt(s, ph, i + 1);
      }
      SubstSkips(s[1..], ph, rep, n - 1);
      assert s[1..][n - 1..] == s[n..];
      assert [s[0]] + s[1..][..n - 1] == s[..n];
    }
  }

  lemma OccursInSuffix(s: string, ph: string, pos: nat, i: nat)
    requires pos <= |s|
    ensures OccursAt(s[pos..], ph, i) <==> OccursAt(s, ph, pos + i)
  {
  }

  lemma SubstFound(s: string, ph: string, rep: string, pos: nat, r: nat)
    requires ph != "" && pos <= r && OccursAt(s, ph, r) && forall i :: pos <= i < r ==> !OccursAt(s, ph, i)
    ensures Subst(s[pos..], ph, rep) == s[pos..r] + rep + Subst(s[r + |ph|..], ph, rep)
  {
    var t := s[pos..];
    forall i | 0 <= i < r - pos ensures !OccursAt(t, ph, i) {
      OccursInSuffix(s, ph, pos, i);
    }
    SubstSkips(t, ph, rep, r - pos);
    assert t[r - pos..] == s[r..];
    OccursInSuffix(s, ph, r, 0);
    assert s[r..][|ph|..] == s[r + |ph|..];
    assert t[..r - pos] == s[pos..r];
  }

  lemma SubstNone(s: string, ph: string, rep: string, pos: nat)
    requires ph != "" && pos <= |s| && forall i: nat :: pos <= i ==> !OccursAt(s, ph, i)
    ensures Subst(s[pos..], ph, rep) == s[pos..]
  {
    var t := s[pos..];
    forall i | 0 <= i < |t| ensures !OccursAt(t, ph, i) {
      OccursInSuffix(s, ph, pos, i);
    }
    SubstSkips(t, ph, rep, |t|);
    assert t[|t|..] == "";
    assert t[..|t|] + "" == t;
  }

  lemma Around(was: string, from: nat, r: nat, n: nat, rep: string)
    requires from <= r && r + n <= |was|
    ensures var s := was[..r] + rep + was[r + n..];
      s[r + |rep|..] == was[r + n..] && s[..r + |rep|] == was[..from] + (was[from..r] + rep)
  {
  }

  lemma Regroup(a: string, b: string, c: string)
    ensures a + b + c == a + (b + c)
  {
  }

  /** Find, replace, go on behind the replacement: it stops even if the replacement contains the placeholder. */
  method ReplaceAll(text: string, ph: string, rep: string) returns (s: string)
    requires ph != ""
    ensures s == Subst(text, ph, rep)
  {
    s := text;
    var pos := 0;
    assert text[0..] == text;
    while true
      invariant pos <= |s|
      invariant s[..pos] + Subst(s[pos..], ph, rep) == Subst(text, ph, rep)
      decreases |s| - pos
    {
      hide Subst;
      var found := Find(s, ph, pos);
      if found.None? {
        SubstNone(s, ph, rep, pos);
        assert s[..pos] + s[pos..] == s;
        break;
      }
      var was := s;
      SubstFound(s, ph, rep, pos, found.value);
      ghost var from := pos;
      pos := found.value;
      s := s[..pos] + rep + s[pos + |ph|..];
      pos := pos + |rep|;
      Around(was, from, found.value, |ph|, rep);
      Regroup(was[..from], was[from..found.value] + rep, Subst(s[pos..], ph, rep));
    }
  }

  // ---------- an independent description of it ----------

  function Join(pieces: seq<string>, sep: string): string
  {
    if pieces == [] then ""
    else if |pieces| == 1 then pieces[0]
    else pieces[0] + sep + Join(pieces[1..], sep)
  }

  /** Pieces between placeholders: in none of them, put before a placeholder, does an earlier occurrence begin. */
  ghost predicate Leftmost(pieces: seq<string>, ph: string)
  {
    && pieces != []
    && !Occurs(pieces[|pieces| - 1], ph)
    && forall k :: 0 <= k < |pieces| - 1 ==> forall i :: 0 <= i < |pieces[k]| ==> !OccursAt(pieces[k] + ph, ph, i)
  }

  lemma LeftmostRest(pieces: seq<string>, ph: string)
    requires Leftmost(pieces, ph) && |pieces| > 1
    ensures Leftmost(pieces[1..], ph)
  {
    var rest := pieces[1..];
    forall k | 0 <= k < |rest| - 1 ensures forall i :: 0 <= i < |rest[k]| ==> !OccursAt(rest[k] + ph, ph, i) {
      assert rest[k] == pieces[k + 1];
    }
  }

  lemma FoundBehind(first: string, ph: string, more: string)
    requires forall i :: 0 <= i < |first| ==> !OccursAt(first + ph, ph, i)
    ensures OccursAt(first + ph + more, ph, |first|)
    ensures forall i :: 0 <= i < |first| ==> !OccursAt(first + ph + more, ph, i)
  {
    var s := first + ph + more;
    assert s[|first|..|first| + |ph|] == ph;
    forall i | 0 <= i < |first| ensures !OccursAt(s, ph, i) {
      assert !OccursAt(first + ph, ph, i);
      assert (first + ph)[i..i + |ph|] == s[i..i + |ph|];
    }
  }

  /** Whenever a text is cut at its leftmost placeholders, the expansion puts the replacement in their place. */
  lemma {:induction false} SubstJoins(pieces: seq<string>, ph: string, rep: string)
    requires ph != "" && Leftmost(pieces, ph)
    ensures Subst(Join(pieces, ph), ph, rep) == Join(pieces, rep)
  {
    hide Subst, OccursAt;
    var first := pieces[0];
    assert first[0..] == first;
    if |pieces| == 1 {
      SubstNone(first, ph, rep, 0);
    } else {
      LeftmostRest(pieces, ph);
      SubstJoins(pieces[1..], ph, rep);
      JoinFound(first, ph, rep, Join(pieces[1..], ph));
    }
  }

  lemma JoinFound(first: string, ph: string, rep: string, more: string)
    requires ph != "" && forall i :: 0 <= i < |first| ==> !OccursAt(first + ph, ph, i)
    ensures Subst(first + ph + more, ph, rep) == first + rep + Subst(more, ph, rep)
  {
    hide Subst;
    var s := first + ph + more;
    FoundBehind(first, ph, more);
    assert s[0..] == s && s[0..|first|] == first && s[|first| + |ph|..] == more;
    SubstFound(s, ph, rep, 0, |first|);
  }

  /** And every text can be cut in that way. */
  lemma {:induction false} CutExists(s: string, ph: string) returns (pieces: seq<string>)
    requires ph != ""
    ensures Leftmost(pieces, ph) && Join(pieces, ph) == s
    decreases |s|
  {
    if Occurs(s, ph) {
      var r := FirstOccurrence(s, ph);
      var rest := CutExists(s[r + |ph|..], ph);
      pieces := [s[..r]] + rest;
      assert pieces[1..] == rest;
      assert s == s[..r] + ph + s[r + |ph|..];
      forall k | 0 <= k < |pieces| - 1 ensures forall i :: 0 <= i < |pieces[k]| ==> !OccursAt(pieces[k] + ph, ph, i) {
        if k == 0 {
          forall i | 0 <= i < r ensures !OccursAt(s[..r] + ph, ph, i) {
            assert s[..r] + ph == s[..r + |ph|];
            assert !OccursAt(s, ph, i);
            assert s[..r + |ph|][i..i + |ph|] == s[i..i + |ph|];
          }
        } else {
          assert pieces[k] == rest[k - 1];
        }
      }
    } else {
      pieces := [s];
    }
  }

  lemma FirstOccurrence(s: string, ph: string) returns (r: nat)
    requires Occurs(s, ph)
    ensures OccursAt(s, ph, r) && forall i :: 0 <= i < r ==> !OccursAt(s, ph, i)
  {
    r := 0;
    var last: nat :| OccursAt(s, ph, last);
    while !OccursAt(s, ph, r)
      invariant r <= last && forall i :: 0 <= i < r ==> !OccursAt(s, ph, i)
      decreases last - r
    {
      r := r + 1;
    }
  }

  // ---------- when no placeholder is left ----------

  /** The last `k` characters of `a` are the first `k` of `b`. */
  predicate Overlap(a: string, b: string, k: nat)
  {
    k <= |a| && k <= |b| && a[|a| - k..] == b[..k]
  }

  /** No end of the placeholder is also a beginning of it: two occurrences never overlap. */
  ghost predicate Unbordered(ph: string)
  {
    forall k :: 0 < k < |ph| ==> !Overlap(ph, ph, k)
  }

  /** `rep` is what lies between two positions strictly inside the placeholder. */
  ghost predicate Interior(rep: string, ph: string)
  {
    exists a: nat :: 0 < a && a + |rep| < |ph| && OccursAt(ph, rep, a)
  }

  /** A replacement that cannot be part of a new placeholder, at either of its ends, around it or inside it. */
  ghost predicate Clean(rep: string, ph: string)
  {
    && !Occurs(rep, ph)
    && !Interior(rep, ph)
    && (forall k :: 0 < k < |ph| ==> !Overlap(rep, ph, k))
    && (forall k :: 0 < k < |ph| ==> !Overlap(ph, rep, k))
  }

  /** A placeholder that begins before a clean replacement, or within it, cannot reach into it, or out of it. */
  lemma NotAcross(first: string, rep: string, more: string, ph: string, i: nat)
    requires Clean(rep, ph) && i < |first| + |rep| && |first| < i + |ph|
    ensures !OccursAt(first + rep + more, ph, i)
  {
    var t, n := first + rep + more, |first|;
    if OccursAt(t, ph, i) {
      if i < n && i + |ph| <= n + |rep| {
        EndsInside(first, rep, more, ph, i);
      } else if i < n {
        assert rep == t[n..n + |rep|] == ph[n - i..n - i + |rep|];
        assert OccursAt(ph, rep, n - i);
      } else if i + |ph| <= n + |rep| {
        assert t[i..i + |ph|] == rep[i - n..i - n + |ph|];
        assert OccursAt(rep, ph, i - n);
      } else {
        BeginsInside(first, rep, more, ph, i);
      }
    }
  }

  lemma EndsInside(first: string, rep: string, more: string, ph: string, i: nat)
    requires i < |first| < i + |ph| <= |first| + |rep| && OccursAt(first + rep + more, ph, i)
    ensures Overlap(ph, rep, i + |ph| - |first|)
  {
    var t, k := first + rep + more, i + |ph| - |first|;
    assert rep[..k] == t[|first|..i + |ph|] == ph[|ph| - k..];
  }

  lemma BeginsInside(first: string, rep: string, more: string, ph: string, i: nat)
    requires |first| <= i < |first| + |rep| < i + |ph| && OccursAt(first + rep + more, ph, i)
    ensures Overlap(rep, ph, |first| + |rep| - i)
  {
    var t, k := first + rep + more, |first| + |rep| - i;
    assert rep[|rep| - k..] == t[i..i + k] == ph[..k];
  }

  lemma {:induction false} JoinIsFree(pieces: seq<string>, ph: string, rep: string, i: nat)
    requires ph != "" && Clean(rep, ph) && forall k :: 0 <= k < |pieces| ==> !Occurs(pieces[k], ph)
    ensures !OccursAt(Join(pieces, rep), ph, i)
    decreases |pieces|
  {
    hide Clean;
    if |pieces| == 1 {
      assert !Occurs(pieces[0], ph);
    } else if |pieces| > 1 {
      var first, rest := pieces[0], pieces[1..];
      var more := Join(rest, rep);
      assert Join(pieces, rep) == first + rep + more;
      if i + |ph| <= |first| {
        assert !OccursAt(first, ph, i);
        assert (first + rep + more)[i..i + |ph|] == first[i..i + |ph|];
      } else if i < |first| + |rep| {
        NotAcross(first, rep, more, ph, i);
      } else {
        JoinIsFree(rest, ph, rep, i - |first| - |rep|);
        assert (first + rep + more)[|first| + |rep|..] == more;
        OccursInSuffix(first + rep + more, ph, |first| + |rep|, i - |first| - |rep|);
      }
    }
  }

  lemma PiecesAreFree(pieces: seq<string>, ph: string, k: nat)
    requires ph != "" && Leftmost(pieces, ph) && k < |pieces|
    ensures !Occurs(pieces[k], ph)
  {
    if k < |pieces| - 1 {
      forall i: nat ensures !OccursAt(pieces[k], ph, i) {
        if i + |ph| <= |pieces[k]| {
          assert !OccursAt(pieces[k] + ph, ph, i);
          assert (pieces[k] + ph)[i..i + |ph|] == pieces[k][i..i + |ph|];
        }
      }
    }
  }

  /** A clean replacement leaves no placeholder, whatever the text. */
  lemma NoneLeft(s: string, ph: string, rep: string)
    requires ph != "" && Clean(rep, ph)
    ensures !Occurs(Subst(s, ph, rep), ph)
  {
    hide Subst, Clean, Leftmost, OccursAt;
    var pieces := CutExists(s, ph);
    SubstJoins(pieces, ph, rep);
    forall k | 0 <= k < |pieces| ensures !Occurs(pieces[k], ph) {
      PiecesAreFree(pieces, ph, k);
    }
    forall i: nat ensures !OccursAt(Join(pieces, rep), ph, i) {
      JoinIsFree(pieces, ph, rep, i);
    }
  }

  lemma MakesBorder(x: string, ph: string, i: nat)
    requires i < |x| < |ph| && OccursAt(x + ph, ph, i)
    ensures Overlap(ph, ph, i + |ph| - |x|)
  {
    var k := i + |ph| - |x|;
    assert ph[|ph| - k..] == (x + ph)[i..i + |ph|][|x| - i..] == (x + ph)[|x|..i + |ph|] == ph[..k];
  }

  /** A text with a placeholder between two shorter strings is cut in just one place. */
  lemma CutOnce(x: string, y: string, ph: string, rep: string)
    requires ph != "" && Unbordered(ph) && |x| < |ph| && |y| < |ph|
    ensures Subst(x + ph + y, ph, rep) == x + rep + y
  {
    hide Subst;
    forall i | 0 <= i < |x| ensures !OccursAt(x + ph, ph, i) {
      if OccursAt(x + ph, ph, i) {
        MakesBorder(x, ph, i);
      }
    }
    JoinFound(x, ph, rep, y);
    assert y[0..] == y;
    SubstNone(y, ph, rep, 0);
  }

  lemma MadeAround(rep: string, ph: string, a: nat)
    requires 0 < a && a + |rep| < |ph| && OccursAt(ph, rep, a)
    ensures OccursAt(ph[..a] + rep + ph[a + |rep|..], ph, 0)
  {
    assert ph[..a] + rep + ph[a + |rep|..] == ph;
  }

  lemma MadeBehind(rep: string, ph: string, k: nat)
    requires k < |ph| && Overlap(rep, ph, k)
    ensures OccursAt("" + rep + ph[k..], ph, |rep| - k)
  {
    var t := "" + rep + ph[k..];
    assert t[|rep| - k..] == rep[|rep| - k..] + ph[k..] == ph[..k] + ph[k..] == ph;
  }

  lemma MadeBefore(rep: string, ph: string, k: nat)
    requires k < |ph| && Overlap(ph, rep, k)
    ensures OccursAt(ph[..|ph| - k] + rep + "", ph, 0)
  {
    var t := ph[..|ph| - k] + rep + "";
    assert t[..|ph|] == ph[..|ph| - k] + rep[..k] == ph;
  }

  /** Strings around the placeholder in whose midst such a replacement makes a new one. */
  lemma Surroundings(ph: string, rep: string) returns (x: string, y: string, i: nat)
    requires ph != "" && !Clean(rep, ph)
    ensures |x| < |ph| && |y| < |ph| && OccursAt(x + rep + y, ph, i)
  {
    hide OccursAt;
    x, y, i := "", "", 0;
    if Occurs(rep, ph) {
      i :| OccursAt(rep, ph, i);
      assert "" + rep + "" == rep;
    } else if Interior(rep, ph) {
      var a: nat :| 0 < a && a + |rep| < |ph| && OccursAt(ph, rep, a);
      x, y := ph[..a], ph[a + |rep|..];
      MadeAround(rep, ph, a);
    } else if k :| 0 < k < |ph| && Overlap(rep, ph, k) {
      y, i := ph[k..], |rep| - k;
      MadeBehind(rep, ph, k);
    } else {
      var k :| 0 < k < |ph| && Overlap(ph, rep, k);
      x := ph[..|ph| - k];
      MadeBefore(rep, ph, k);
    }
  }

  /** So there is a text on which the expansion makes a placeholder. */
  lemma Spoiled(ph: string, rep: string) returns (s: string)
    requires ph != "" && Unbordered(ph) && !Clean(rep, ph)
    ensures Occurs(Subst(s, ph, rep), ph)
  {
    hide Subst, Clean, OccursAt, Unbordered;
    var x, y, i := Surroundings(ph, rep);
    s := x + ph + y;
    CutOnce(x, y, ph, rep);
  }

  /** For a placeholder that cannot overlap itself this is exact: every other replacement makes one in some text. */
  lemma CleanIff(ph: string, rep: string)
    requires ph != "" && Unbordered(ph)
    ensures Clean(rep, ph) <==> forall s :: !Occurs(Subst(s, ph, rep), ph)
  {
    hide Subst, Clean, Occurs, Unbordered;
    if Clean(rep, ph) {
      forall s ensures !Occurs(Subst(s, ph, rep), ph) {
        NoneLeft(s, ph, rep);
      }
    } else {
      var s := Spoiled(ph, rep);
    }
  }

  /**
   The replacement contains neither the first nor the last character of the placeholder, and some character that does
   not occur in it at all.
   */
  ghost predicate Foreign(rep: string, ph: string)
    requires ph != ""
  {
    ph[0] !in rep && ph[|ph| - 1] !in rep && exists c :: c in rep && c !in ph
  }

  lemma SharesFirst(a: string, ph: string, i: nat)
    requires ph != "" && OccursAt(a, ph, i)
    ensures ph[0] in a
  {
    assert a[i..i + |ph|][0] == a[i];
  }

  lemma SharesEnd(rep: string, ph: string, k: nat)
    requires 0 < k < |ph|
    ensures Overlap(rep, ph, k) ==> ph[0] in rep
    ensures Overlap(ph, rep, k) ==> ph[|ph| - 1] in rep
  {
    if Overlap(rep, ph, k) {
      assert ph[..k][0] == rep[|rep| - k..][0];
    }
    if Overlap(ph, rep, k) {
      assert ph[|ph| - k..][k - 1] == rep[..k][k - 1];
    }
  }

  lemma SharesAll(rep: string, ph: string, a: nat, c: char)
    requires OccursAt(ph, rep, a) && c in rep
    ensures c in ph
  {
    assert c in ph[a..a + |rep|];
  }

  lemma ForeignIsClean(rep: string, ph: string)
    requires ph != "" && Foreign(rep, ph)
    ensures Clean(rep, ph)
  {
    hide OccursAt, Overlap;
    forall i: nat ensures !OccursAt(rep, ph, i) {
      if OccursAt(rep, ph, i) {
        SharesFirst(rep, ph, i);
      }
    }
    var c :| c in rep && c !in ph;
    forall a: nat ensures !OccursAt(ph, rep, a) {
      if OccursAt(ph, rep, a) {
        SharesAll(rep, ph, a, c);
      }
    }
    forall k | 0 < k < |ph| ensures !Overlap(rep, ph, k) && !Overlap(ph, rep, k) {
      SharesEnd(rep, ph, k);
    }
  }

  // ---------- the two expansions of the runner ----------

  const CAMPAIGN := "{campaign}"
  const RUN := "{run}"
  const BASE_PATH := "{base_path}"

  /** The decimal text of a run number. */
  function RunText(run: nat): (t: string)
    ensures t != ""
  {
    var ds := Digits(run, 10);
    Chars(ds, false)
  }

  /** It has the value of the number, and no leading zero. */
  lemma RunTextIs(run: nat) returns (ds: seq<nat>)
    ensures |RunText(run)| == |ds| && Eval(0, ds, 10) == run
    ensures forall i :: 0 <= i < |ds| ==> ds[i] < 10 && RunText(run)[i] as int == '0' as int + ds[i]
    ensures run > 0 ==> RunText(run)[0] != '0'
    ensures run == 0 ==> RunText(run) == "0"
  {
    ds := Digits(run, 10);
    EvalDigits(run, 10);
    DigitsCanonical(run, 10);
  }

  lemma RunTextForeign(run: nat)
    ensures Foreign(RunText(run), RUN)
  {
    var ds := Digits(run, 10);
    var t := RunText(run);
    assert t[0] in t && t[0] == DigitChar(ds[0], false) && t[0] !in RUN;
    assert forall i :: 0 <= i < |t| ==> t[i] == DigitChar(ds[i], false);
  }

  /** Each of them opens with its only opening brace. */
  lemma OpensOnce(ph: string)
    requires ph != "" && forall i :: 0 < i < |ph| ==> ph[i] != ph[0]
    ensures Unbordered(ph)
  {
    forall k | 0 < k < |ph| ensures !Overlap(ph, ph, k) {
      assert ph[|ph| - k..][0] == ph[|ph| - k] != ph[0] == ph[..k][0];
    }
  }

  /** So for the base path it is known exactly which ones leave no placeholder in any text. */
  lemma CleanBasePath(basePath: string)
    ensures Clean(basePath, BASE_PATH) <==> forall text :: !Occurs(Subst(text, BASE_PATH, basePath), BASE_PATH)
  {
    hide Subst, Clean, Occurs, Unbordered;
    OpensOnce(BASE_PATH);
    CleanIff(BASE_PATH, basePath);
  }

  /** A base path that is a letter of the placeholder can make a new one. */
  lemma BasePathCanRemain()
    ensures Subst("{b{base_path}se_path}", BASE_PATH, "a") == BASE_PATH
  {
    hide Subst, Unbordered;
    OpensOnce(BASE_PATH);
    CutOnce("{b", "se_path}", BASE_PATH, "a");
    assert "{b" + BASE_PATH + "se_path}" == "{b{base_path}se_path}";
    assert "{b" + "a" + "se_path}" == BASE_PATH;
  }

  /** First the campaign, then the run: whatever the template and the name of the campaign, no `{run}` is left. */
  method ExpandArgs(template: string, campaign: string, run: nat) returns (args: string)
    ensures args == Subst(Subst(template, "{campaign}", campaign), "{run}", RunText(run))
    ensures !Occurs(args, "{run}")
  {
    args := ReplaceAll(template, CAMPAIGN, campaign);
    ghost var middle := args;
    args := ReplaceAll(args, RUN, RunText(run));
    RunTextForeign(run);
    ForeignIsClean(RunText(run), RUN);
    NoneLeft(middle, RUN, RunText(run));
  }

  /** Paths and arguments of the configuration are expanded only if a base path is given. */
  method ExpandBasePath(text: string, basePath: string) returns (path: string)
    ensures path == if basePath == "" then text else Subst(text, "{base_path}", basePath)
    ensures basePath != "" && Clean(basePath, "{base_path}") ==> !Occurs(path, "{base_path}")
  {
    hide Clean;
    path := text;
    if basePath != "" {
      path := ReplaceAll(path, BASE_PATH, basePath);
      if Clean(basePath, BASE_PATH) {
        NoneLeft(text, BASE_PATH, basePath);
      }
    }
  }
}
