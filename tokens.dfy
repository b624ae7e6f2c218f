/** Whole-word relabelling of formula text.

    `re.sub(rf'\b{from}\b', to, text)` with `from` made of word characters
    replaces exactly the maximal runs of word characters that equal `from`.
    Here a text is cut into its maximal runs ("segments"), alternating
    between runs of word characters and runs of other characters, and a
    replacement step rewrites whole segments only. */
module Tokens {
  import opened Text

  /** Length of the longest prefix of `s` whose characters are all of the
      class of `s[0]` (word or non-word). */
  function RunLength(s: string): (k: nat)
    requires s != []
    ensures 1 <= k <= |s|
    ensures forall i :: 0 <= i < k ==> IsWordChar(s[i]) == IsWordChar(s[0])
    ensures k < |s| ==> IsWordChar(s[k]) != IsWordChar(s[0])
  {
    if |s| == 1 || IsWordChar(s[1]) != IsWordChar(s[0]) then 1 else 1 + RunLength(s[1..])
  }

  /** A non-empty run of characters of one class. */
  predicate Uniform(t: string) {
    t != [] && forall i :: 0 <= i < |t| ==> IsWordChar(t[i]) == IsWordChar(t[0])
  }

  /** Runs of one class each, and no two neighbours of the same class. */
  predicate Alternating(ts: seq<string>) {
    (forall i :: 0 <= i < |ts| ==> Uniform(ts[i]))
    && (forall i :: 0 < i < |ts| ==> IsWordChar(ts[i - 1][0]) != IsWordChar(ts[i][0]))
  }

  function Concat(ts: seq<string>): (joined: string) {
    if ts == [] then [] else ts[0] + Concat(ts[1..])
  }

  /** The maximal runs of `s`: word tokens and the separators between them. */
  function Segments(s: string): (ts: seq<string>)
    ensures Alternating(ts)
    ensures s != [] ==> ts != [] && ts[0][0] == s[0]
    decreases |s|
  {
    if s == [] then []
    else
      var k := RunLength(s);
      var rest := Segments(s[k..]);
      assert Uniform(s[..k]);
      [s[..k]] + rest
  }

  lemma {:induction false} ConcatSegments(s: string)
    ensures Concat(Segments(s)) == s
    decreases |s|
  {
    if s != [] {
      var k := FirstRun(s);
      ConcatSegments(s[k..]);
      ConcatCons(s[..k], Segments(s[k..]));
    }
  }

  /** The first run of a non-empty string, and the string cut after it. */
  lemma FirstRun(s: string) returns (k: nat)
    requires s != []
    ensures 1 <= k <= |s| && s == s[..k] + s[k..]
    ensures Segments(s) == [s[..k]] + Segments(s[k..])
  {
    k := RunLength(s);
  }

  lemma ConcatCons(a: string, ts: seq<string>)
    ensures Concat([a] + ts) == a + Concat(ts)
  {
    assert ([a] + ts)[1..] == ts;
  }

  lemma {:induction false} RunLengthOfUniform(a: string, b: string)
    requires Uniform(a)
    requires b != [] ==> IsWordChar(b[0]) != IsWordChar(a[0])
    ensures RunLength(a + b) == |a|
    decreases |a|
  {
    var s := a + b;
    assert s[0] == a[0];
    if |a| == 1 {
      assert |s| == 1 || s[1] == b[0];
    } else {
      assert s[1] == a[1];
      assert s[1..] == a[1..] + b;
      assert Uniform(a[1..]);
      RunLengthOfUniform(a[1..], b);
    }
  }

  /** Cutting is the only way to split a text into alternating runs. */
  lemma {:induction false} SegmentsOfConcat(ts: seq<string>)
    requires Alternating(ts)
    ensures Segments(Concat(ts)) == ts
    decreases |ts|
  {
    if ts != [] {
      var rest := Concat(ts[1..]);
      assert Alternating(ts[1..]);
      ConcatHead(ts[1..]);
      SegmentsCons(ts[0], rest);
      SegmentsOfConcat(ts[1..]);
      assert ts == [ts[0]] + ts[1..];
    }
  }

  lemma ConcatHead(ts: seq<string>)
    requires Alternating(ts)
    ensures ts != [] ==> Concat(ts) != [] && Concat(ts)[0] == ts[0][0]
  {
  }

  /** A run followed by text starting with the other class is the first
      segment. */
  lemma SegmentsCons(a: string, b: string)
    requires Uniform(a)
    requires b != [] ==> IsWordChar(b[0]) != IsWordChar(a[0])
    ensures Segments(a + b) == [a] + Segments(b)
  {
    RunLengthOfUniform(a, b);
    var s := a + b;
    assert s[..|a|] == a;
    assert s[|a|..] == b;
  }

  /** One run after a replacement step of `from` by `to`. */
  function Step(t: string, from: string, to: string): (out: string) {
    if t == from then to else t
  }

  function Substitute(ts: seq<string>, from: string, to: string): (r: seq<string>)
    ensures |r| == |ts|
  {
    seq(|ts|, i requires 0 <= i < |ts| => Step(ts[i], from, to))
  }

  /** One iteration of `relabel_variables`:
      `re.sub(rf'\b{from}\b', to, s)`, for a `from` made of word characters. */
  function ReplaceWord(s: string, from: string, to: string): (out: string)
    requires IsWord(from)
  {
    Concat(Substitute(Segments(s), from, to))
  }

  lemma SubstituteAlternating(ts: seq<string>, from: string, to: string)
    requires Alternating(ts) && IsWord(from) && IsWord(to)
    ensures Alternating(Substitute(ts, from, to))
  {
    var r := Substitute(ts, from, to);
    forall i | 0 <= i < |ts|
      ensures Uniform(r[i]) && IsWordChar(r[i][0]) == IsWordChar(ts[i][0])
    {
      if ts[i] == from { assert r[i] == to; }
    }
  }

  /** A replacement step changes exactly the word tokens equal to `from`:
      the runs of the result are the runs of `s`, each one equal to `from`
      replaced by `to` and every other one (a longer token that merely
      contains `from`, a separator) untouched. */
  lemma ReplaceWordTokens(s: string, from: string, to: string)
    requires IsWord(from) && IsWord(to)
    ensures Segments(ReplaceWord(s, from, to)) == Substitute(Segments(s), from, to)
  {
    SubstituteAlternating(Segments(s), from, to);
    SegmentsOfConcat(Substitute(Segments(s), from, to));
  }

  /** A text in which `from` is not a whole token is left as it is. */
  lemma ReplaceWordAbsent(s: string, from: string, to: string)
    requires IsWord(from) && from !in Segments(s)
    ensures ReplaceWord(s, from, to) == s
  {
    assert Substitute(Segments(s), from, to) == Segments(s);
    ConcatSegments(s);
  }

  lemma WordHasNoOther(w: string, c: char)
    requires IsWord(w) && !IsWordChar(c)
    ensures Count(w, c) == 0
    decreases |w|
  {
    if |w| > 1 { assert IsWord(w[1..]); WordHasNoOther(w[1..], c); }
  }

  lemma {:induction false} SubstituteCount(ts: seq<string>, from: string, to: string, c: char)
    requires IsWord(from) && IsWord(to) && !IsWordChar(c)
    ensures Count(Concat(Substitute(ts, from, to)), c) == Count(Concat(ts), c)
    decreases |ts|
  {
    if ts != [] {
      var r := Substitute(ts, from, to);
      assert r[1..] == Substitute(ts[1..], from, to);
      SubstituteCount(ts[1..], from, to, c);
      CountAppend(r[0], Concat(r[1..]), c);
      CountAppend(ts[0], Concat(ts[1..]), c);
      if ts[0] == from {
        WordHasNoOther(from, c);
        WordHasNoOther(to, c);
      }
    }
  }

  /** A replacement step keeps every non-word character (parentheses,
      operators, blanks): their counts do not change. */
  lemma ReplaceWordCount(s: string, from: string, to: string, c: char)
    requires IsWord(from) && IsWord(to) && !IsWordChar(c)
    ensures Count(ReplaceWord(s, from, to), c) == Count(s, c)
  {
    SubstituteCount(Segments(s), from, to, c);
    ConcatSegments(s);
  }

  /** A Python `Dict[str, str]` in insertion order. */
  type Mapping = seq<(string, string)>

  predicate WordKeys(m: Mapping) {
    forall i :: 0 <= i < |m| ==> IsWord(m[i].0)
  }

  predicate WordImages(m: Mapping) {
    forall i :: 0 <= i < |m| ==> IsWord(m[i].1)
  }

  /** Dictionary keys are distinct. */
  predicate DistinctKeys(m: Mapping) {
    forall i, j :: 0 <= i < j < |m| ==> m[i].0 != m[j].0
  }

  /** `relabel_variables`: one replacement step per entry, in insertion
      order, each step applied to the result of the previous one. */
  function Relabel(formula: string, m: Mapping): (out: string)
    requires WordKeys(m)
    decreases |m|
  {
    if m == [] then formula
    else ReplaceWord(Relabel(formula, m[..|m| - 1]), m[|m| - 1].0, m[|m| - 1].1)
  }

  /** What the successive steps of `m` make of one run. */
  function StepAll(t: string, m: Mapping): (out: string)
    decreases |m|
  {
    if m == [] then t else Step(StepAll(t, m[..|m| - 1]), m[|m| - 1].0, m[|m| - 1].1)
  }

  function StepAllTokens(ts: seq<string>, m: Mapping): (r: seq<string>)
    ensures |r| == |ts|
  {
    seq(|ts|, i requires 0 <= i < |ts| => StepAll(ts[i], m))
  }

  /** A run that no entry has as its key goes through every step unchanged. */
  lemma {:induction false} StepAllMissing(t: string, m: Mapping)
    requires forall i :: 0 <= i < |m| ==> m[i].0 != t
    ensures StepAll(t, m) == t
    decreases |m|
  {
    if m != [] { StepAllMissing(t, m[..|m| - 1]); }
  }

  /** A run that some entry has as its key ends as the image of some
      entry, though, through chains, not necessarily of its own. */
  lemma {:induction false} StepAllImage(t: string, m: Mapping) returns (e: nat)
    requires exists i :: 0 <= i < |m| && m[i].0 == t
    ensures e < |m| && StepAll(t, m) == m[e].1
    decreases |m|
  {
    var m' := m[..|m| - 1];
    if exists i :: 0 <= i < |m'| && m'[i].0 == t {
      e := StepAllImage(t, m');
      if StepAll(t, m') == m[|m| - 1].0 {
        e := |m| - 1;
      }
    } else {
      StepAllMissing(t, m');
      e := |m| - 1;
    }
  }

  /** Relabelling works run by run: each run of the formula goes through
      every step in turn, and runs never merge or split. */
  lemma {:induction false} RelabelTokens(formula: string, m: Mapping)
    requires WordKeys(m) && WordImages(m)
    ensures Segments(Relabel(formula, m)) == StepAllTokens(Segments(formula), m)
    decreases |m|
  {
    var ts := Segments(formula);
    if m == [] {
      assert StepAllTokens(ts, m) == ts;
    } else {
      var m' := m[..|m| - 1];
      RelabelTokens(formula, m');
      ReplaceWordTokens(Relabel(formula, m'), m[|m| - 1].0, m[|m| - 1].1);
    }
  }

  /** Relabelling keeps every non-word character; in particular the
      parentheses of the formula are those of the original. */
  lemma {:induction false} RelabelCount(formula: string, m: Mapping, c: char)
    requires WordKeys(m) && WordImages(m) && !IsWordChar(c)
    ensures Count(Relabel(formula, m), c) == Count(formula, c)
    decreases |m|
  {
    if m != [] {
      RelabelCount(formula, m[..|m| - 1], c);
      ReplaceWordCount(Relabel(formula, m[..|m| - 1]), m[|m| - 1].0, m[|m| - 1].1, c);
    }
  }

  /** A formula none of whose tokens is a key comes back unchanged; with
      an empty mapping this is every formula. */
  lemma {:induction false} RelabelUnmapped(formula: string, m: Mapping)
    requires WordKeys(m)
    requires forall i :: 0 <= i < |m| ==> m[i].0 !in Segments(formula)
    ensures Relabel(formula, m) == formula
    decreases |m|
  {
    if m != [] {
      RelabelUnmapped(formula, m[..|m| - 1]);
      ReplaceWordAbsent(formula, m[|m| - 1].0, m[|m| - 1].1);
    }
  }

  /** `mapping.get(t, t)` */
  function Lookup(t: string, m: Mapping): (name: string)
    decreases |m|
  {
    if m == [] then t
    else if m[|m| - 1].0 == t then m[|m| - 1].1
    else Lookup(t, m[..|m| - 1])
  }

  function LookupTokens(ts: seq<string>, m: Mapping): (r: seq<string>)
    ensures |r| == |ts|
  {
    seq(|ts|, i requires 0 <= i < |ts| => Lookup(ts[i], m))
  }

  /** The relabelling the merger evidently intends: every token that is a
      key is replaced by its own image, all at once. */
  function Rename(formula: string, m: Mapping): (out: string)
    requires WordKeys(m)
  {
    Concat(LookupTokens(Segments(formula), m))
  }

  /** Each run of the formula is renamed exactly once, by its image. */
  lemma RenameTokens(formula: string, m: Mapping)
    requires WordKeys(m) && WordImages(m)
    ensures Segments(Rename(formula, m)) == LookupTokens(Segments(formula), m)
  {
    var ts := Segments(formula);
    var r := LookupTokens(ts, m);
    forall i | 0 <= i < |ts|
      ensures Uniform(r[i]) && IsWordChar(r[i][0]) == IsWordChar(ts[i][0])
    {
      LookupWord(ts[i], m);
    }
    SegmentsOfConcat(r);
  }

  lemma {:induction false} LookupWord(t: string, m: Mapping)
    requires WordKeys(m) && WordImages(m) && Uniform(t)
    ensures Lookup(t, m) == t || (IsWord(t) && IsWord(Lookup(t, m)))
    decreases |m|
  {
    if m != [] && m[|m| - 1].0 != t { LookupWord(t, m[..|m| - 1]); }
  }

  /** No image is the key of a later entry, so no name is renamed twice. */
  predicate ChainFree(m: Mapping) {
    forall i, j :: 0 <= i < j < |m| ==> m[i].1 != m[j].0
  }

  lemma {:induction false} LookupMissing(t: string, m: Mapping)
    requires forall i :: 0 <= i < |m| ==> m[i].0 != t
    ensures Lookup(t, m) == t
    decreases |m|
  {
    if m != [] { LookupMissing(t, m[..|m| - 1]); }
  }

  lemma {:induction false} LookupImage(t: string, m: Mapping)
    ensures Lookup(t, m) == t || exists i :: 0 <= i < |m| && Lookup(t, m) == m[i].1
    decreases |m|
  {
    if m != [] && m[|m| - 1].0 != t {
      LookupImage(t, m[..|m| - 1]);
      if Lookup(t, m) != t {
        var i :| 0 <= i < |m| - 1 && Lookup(t, m[..|m| - 1]) == m[..|m| - 1][i].1;
        assert Lookup(t, m) == m[i].1;
      }
    }
  }

  lemma {:induction false} StepAllIsLookup(t: string, m: Mapping)
    requires DistinctKeys(m) && ChainFree(m)
    ensures StepAll(t, m) == Lookup(t, m)
    decreases |m|
  {
    if m != [] {
      var m' := m[..|m| - 1];
      var (from, to) := m[|m| - 1];
      StepAllIsLookup(t, m');
      if from == t {
        LookupMissing(t, m');
      } else {
        LookupImage(t, m');
        if Lookup(t, m') != t {
          var i :| 0 <= i < |m'| && Lookup(t, m') == m'[i].1;
          assert m[i].1 != m[|m| - 1].0;
        }
      }
    }
  }

  /** The sequential relabelling agrees with the simultaneous one whenever
      the mapping has no chain. */
  lemma RelabelIsRenameWhenChainFree(formula: string, m: Mapping)
    requires WordKeys(m) && WordImages(m) && DistinctKeys(m) && ChainFree(m)
    ensures Relabel(formula, m) == Rename(formula, m)
  {
    var ts := Segments(formula);
    RelabelTokens(formula, m);
    ConcatSegments(Relabel(formula, m));
    forall i | 0 <= i < |ts| ensures StepAll(ts[i], m) == Lookup(ts[i], m) {
      StepAllIsLookup(ts[i], m);
    }
    assert StepAllTokens(ts, m) == LookupTokens(ts, m);
  }

  lemma OneToken(w: string)
    requires IsWord(w)
    ensures Segments(w) == [w]
  {
    assert Uniform(w);
    RunLengthOfUniform(w, []);
    assert w + [] == w;
    assert w[|w|..] == [];
  }

  /** With a chain the two differ: the entries `p3 -> p2, p2 -> p3` (the
      input mapping the merger builds for two files with inputs `p1 p2` and
      `p3 p4`) turn the token `p3` back into `p3`, where `p2` is meant. */
  lemma RelabelChainCounterexample()
    ensures Relabel("p3", [("p3", "p2"), ("p2", "p3")]) == "p3"
    ensures Rename("p3", [("p3", "p2"), ("p2", "p3")]) == "p2"
  {
    var m: Mapping := [("p3", "p2"), ("p2", "p3")];
    assert IsWord("p3") && IsWord("p2");
    OneToken("p3");
    OneToken("p2");
    assert Substitute(["p3"], "p3", "p2") == ["p2"];
    assert ReplaceWord("p3", "p3", "p2") == "p2";
    assert m[..1] == [("p3", "p2")] && m[..1][..0] == [];
    assert Relabel("p3", m[..1]) == "p2";
    assert Substitute(["p2"], "p2", "p3") == ["p3"];
    assert Lookup("p3", m) == "p2";
    assert LookupTokens(["p3"], m) == ["p2"];
  }
}
