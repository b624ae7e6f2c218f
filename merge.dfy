/** What `LTLFMerger.merge_pairs` (merge_ltlf.py, lines 156-333) returns
    for a list of loaded pairs, and the properties of that result. */
module Merge {
  import opened Text
  import opened Order
  import opened Names
  import opened Tokens
  import opened Usage
  import opened Grouping
  import opened Naming
  import opened Numbering
  import opened Conjoin

  /** Every declared input is an identifier, so that the replacements of
      `relabel_variables` match whole words. */
  predicate WordInputs(views: seq<PairView>) {
    forall i, j :: 0 <= i < |views| && 0 <= j < |views[i].inputs| ==> IsWord(views[i].inputs[j])
  }

  /** The numbered entries of `input_mapping`, and the counter after them. */
  ghost function InputIds(views: seq<PairView>): (Ids, nat) {
    Numbered(CollectUsage(views, Inputs), 1, true)
  }

  /** The first number a role hands out: 1 for the inputs, the counter
      after the inputs for the outputs. */
  ghost function RoleStart(views: seq<PairView>, role: Role): (start: nat) {
    if role == Inputs then 1 else InputIds(views).1
  }

  /** The entries of `input_mapping` or `output_mapping`, and the counter
      after them; only inputs may share a number. */
  ghost function RoleIds(views: seq<PairView>, role: Role): (Ids, nat) {
    Numbered(CollectUsage(views, role), RoleStart(views, role), role == Inputs)
  }

  /** `input_mapping` or `output_mapping`. */
  ghost function RoleMapping(views: seq<PairView>, role: Role): (mapping: Mapping) {
    NameEntries(RoleIds(views, role).0)
  }

  /** The image under `m` of every symbol the pairs declare in `role`. */
  function Collected(views: seq<PairView>, role: Role, m: Mapping): (names: set<string>) {
    set i, j | 0 <= i < |views| && 0 <= j < |Symbols(views[i], role)| ::
      Lookup(Symbols(views[i], role)[j], m)
  }

  /** `all_inputs` or `all_outputs`: the new name of every declared symbol. */
  ghost function Images(views: seq<PairView>, role: Role): (names: set<string>) {
    Collected(views, role, RoleMapping(views, role))
  }

  /** The images of one more pair are added to those of the pairs before. */
  lemma CollectedSnoc(views: seq<PairView>, role: Role, m: Mapping)
    requires views != []
    ensures Collected(views, role, m) ==
      Collected(views[..|views| - 1], role, m) + Collected([views[|views| - 1]], role, m)
  {
    var n := |views| - 1;
    forall x | x in Collected(views, role, m)
      ensures x in Collected(views[..n], role, m) + Collected([views[n]], role, m)
    {
      var i, j :| 0 <= i < |views| && 0 <= j < |Symbols(views[i], role)| && x == Lookup(Symbols(views[i], role)[j], m);
      if i < n {
        assert views[..n][i] == views[i];
      } else {
        assert [views[n]][0] == views[i];
      }
    }
    forall x | x in Collected(views[..n], role, m) ensures x in Collected(views, role, m) {
      var i, j :| 0 <= i < n && 0 <= j < |Symbols(views[..n][i], role)| && x == Lookup(Symbols(views[..n][i], role)[j], m);
      assert views[..n][i] == views[i];
    }
    forall x | x in Collected([views[n]], role, m) ensures x in Collected(views, role, m) {
      var i, j :| 0 <= i < 1 && 0 <= j < |Symbols([views[n]][i], role)| && x == Lookup(Symbols([views[n]][i], role)[j], m);
      assert Symbols(views[n], role)[j] == Symbols([views[n]][i], role)[j];
    }
  }

  /** The mapping of a role in terms of the symbols it collects. */
  lemma RoleMappingIs(views: seq<PairView>, role: Role, files: Usage, start: nat)
    requires files == CollectUsage(views, role) && start == RoleStart(views, role)
    ensures RoleMapping(views, role) == NameEntries(Numbered(files, start, role == Inputs).0)
    ensures RoleIds(views, role).1 == Numbered(files, start, role == Inputs).1
  {
  }

  lemma RoleFacts(views: seq<PairView>, role: Role)
    ensures RoleStart(views, role) <= RoleIds(views, role).1
    ensures WellNumbered(RoleIds(views, role).0, CollectUsage(views, role).Keys, RoleStart(views, role), RoleIds(views, role).1)
  {
    NumberedWell(CollectUsage(views, role), RoleStart(views, role), role == Inputs);
  }

  /** Every symbol a pair declares is a key of the role's mapping, with a
      name numbered within the role's range. */
  lemma DeclaredName(views: seq<PairView>, role: Role, i: nat, j: nat) returns (t: nat)
    requires i < |views| && j < |Symbols(views[i], role)|
    ensures t < |RoleIds(views, role).0| && RoleIds(views, role).0[t].0 == Symbols(views[i], role)[j]
    ensures Lookup(Symbols(views[i], role)[j], RoleMapping(views, role)) == Name(RoleIds(views, role).0[t].1)
    ensures RoleStart(views, role) <= RoleIds(views, role).0[t].1 < RoleIds(views, role).1
  {
    var v := Symbols(views[i], role)[j];
    RoleFacts(views, role);
    UsageMeaning(views, role);
    assert DeclaredBy(views, role, v);
    assert HasKey(RoleIds(views, role).0, v);
    t :| 0 <= t < |RoleIds(views, role).0| && RoleIds(views, role).0[t].0 == v;
    LookupNamed(RoleIds(views, role).0, t);
  }

  /** `v in m` for a dictionary in insertion order. */
  predicate IsKey(m: Mapping, v: string) {
    exists t :: 0 <= t < |m| && m[t].0 == v
  }

  /** The named entries have the keys of the numbered ones. */
  lemma EntryKey(m: Ids, keys: set<string>, v: string)
    requires forall w :: HasKey(m, w) <==> w in keys
    ensures IsKey(NameEntries(m), v) <==> v in keys
  {
    var r := NameEntries(m);
    if IsKey(r, v) {
      var t :| 0 <= t < |r| && r[t].0 == v;
      assert HasKey(m, v);
    }
    if v in keys {
      assert HasKey(m, v);
      var t :| 0 <= t < |m| && m[t].0 == v;
      assert r[t].0 == v;
    }
  }

  lemma MappingKey(views: seq<PairView>, role: Role, v: string)
    ensures IsKey(RoleMapping(views, role), v) <==> DeclaredBy(views, role, v)
  {
    RoleFacts(views, role);
    CollectedSymbol(views, role, v);
    EntryKey(RoleIds(views, role).0, CollectUsage(views, role).Keys, v);
  }

  /** The keys of `input_mapping` (or `output_mapping`) are exactly the
      symbols the pairs declare in that role: no lookup of a declared
      symbol fails, and no other symbol is renamed. */
  lemma MappingKeys(views: seq<PairView>, role: Role)
    ensures forall v :: IsKey(RoleMapping(views, role), v) <==> DeclaredBy(views, role, v)
  {
    forall v ensures IsKey(RoleMapping(views, role), v) <==> DeclaredBy(views, role, v) {
      MappingKey(views, role, v);
    }
  }

  /** Looking every declared symbol up in the dictionary built from
      distinct entries for exactly those symbols gives the entries' names. */
  lemma CollectedNames(views: seq<PairView>, role: Role, m: Ids)
    requires DistinctEntries(m)
    requires forall v :: HasKey(m, v) <==> DeclaredBy(views, role, v)
    ensures Collected(views, role, NameEntries(m)) == NamesOf(m)
  {
    forall x | x in Collected(views, role, NameEntries(m)) ensures x in NamesOf(m) {
      var i, j :| 0 <= i < |views| && 0 <= j < |Symbols(views[i], role)| &&
        x == Lookup(Symbols(views[i], role)[j], NameEntries(m));
      assert DeclaredBy(views, role, Symbols(views[i], role)[j]);
      var t :| 0 <= t < |m| && m[t].0 == Symbols(views[i], role)[j];
      LookupNamed(m, t);
    }
    forall x | x in NamesOf(m) ensures x in Collected(views, role, NameEntries(m)) {
      var t :| 0 <= t < |m| && x == Name(m[t].1);
      assert HasKey(m, m[t].0);
      var i :| 0 <= i < |views| && m[t].0 in Symbols(views[i], role);
      var j :| 0 <= j < |Symbols(views[i], role)| && Symbols(views[i], role)[j] == m[t].0;
      LookupNamed(m, t);
    }
  }

  /** The new names of a role are those of its entries. */
  lemma ImagesAreNames(views: seq<PairView>, role: Role)
    ensures Images(views, role) == NamesOf(RoleIds(views, role).0)
  {
    RoleFacts(views, role);
    UsageMeaning(views, role);
    CollectedNames(views, role, RoleIds(views, role).0);
  }

  /** The names of a role are `p<start>` up to the role's last number. */
  lemma ImagesAreRange(views: seq<PairView>, role: Role)
    ensures Images(views, role) ==
      set k | RoleStart(views, role) <= k < RoleIds(views, role).1 :: Name(k)
  {
    ImagesAreNames(views, role);
    RoleFacts(views, role);
    NamesOfRange(RoleIds(views, role).0, CollectUsage(views, role).Keys, RoleStart(views, role), RoleIds(views, role).1);
  }

  /** The input counter ends where the output counter starts. */
  lemma CountersOrdered(views: seq<PairView>)
    ensures 1 <= InputIds(views).1 <= RoleIds(views, Outputs).1
  {
    RoleFacts(views, Inputs);
    RoleFacts(views, Outputs);
  }

  /** No merged input is also a merged output. */
  lemma MergedRolesDisjoint(views: seq<PairView>)
    ensures Images(views, Inputs) !! Images(views, Outputs)
  {
    ImagesAreRange(views, Inputs);
    ImagesAreRange(views, Outputs);
    forall x | x in Images(views, Inputs) && x in Images(views, Outputs) ensures false {
      var a :| 1 <= a < InputIds(views).1 && x == Name(a);
      var b :| InputIds(views).1 <= b < RoleIds(views, Outputs).1 && x == Name(b);
      NameInjective(a, b);
    }
  }

  /** Together the merged names are exactly `p1 ... p<k>` with no gap. */
  lemma MergedNamesContiguous(views: seq<PairView>)
    ensures Images(views, Inputs) + Images(views, Outputs) ==
      set k | 1 <= k < RoleIds(views, Outputs).1 :: Name(k)
  {
    ImagesAreRange(views, Inputs);
    ImagesAreRange(views, Outputs);
    CountersOrdered(views);
    NameRangeUnion(1, InputIds(views).1, RoleIds(views, Outputs).1);
  }

  /** Each distinct output symbol gets a name of its own. */
  lemma MergedOutputsCount(views: seq<PairView>)
    ensures |Images(views, Outputs)| == |CollectUsage(views, Outputs).Keys|
  {
    ImagesAreNames(views, Outputs);
    RoleFacts(views, Outputs);
    NumberedUnshared(CollectUsage(views, Outputs), InputIds(views).1);
    NamesOfDistinct(RoleIds(views, Outputs).0);
    EntriesCard(RoleIds(views, Outputs).0, CollectUsage(views, Outputs).Keys);
  }

  /** Merging never needs more input names than there are distinct inputs. */
  lemma MergedInputsBound(views: seq<PairView>)
    ensures |Images(views, Inputs)| <= |CollectUsage(views, Inputs).Keys|
  {
    ImagesAreNames(views, Inputs);
    RoleFacts(views, Inputs);
    NamesOfBound(RoleIds(views, Inputs).0);
    EntriesCard(RoleIds(views, Inputs).0, CollectUsage(views, Inputs).Keys);
  }

  /** Two different inputs of one pair never get the same name. */
  lemma PairInputsDistinct(views: seq<PairView>, i: nat, j1: nat, j2: nat)
    requires i < |views| && j1 < |views[i].inputs| && j2 < |views[i].inputs|
    requires views[i].inputs[j1] != views[i].inputs[j2]
    ensures Lookup(views[i].inputs[j1], RoleMapping(views, Inputs)) != Lookup(views[i].inputs[j2], RoleMapping(views, Inputs))
  {
    var v, w := views[i].inputs[j1], views[i].inputs[j2];
    var t1 := DeclaredName(views, Inputs, i, j1);
    var t2 := DeclaredName(views, Inputs, i, j2);
    var m := RoleIds(views, Inputs).0;
    if m[t1].1 == m[t2].1 {
      var files := CollectUsage(views, Inputs);
      NumberedApart(files, 1, true, m, t1, t2);
      SharedFile(views, Inputs, i, v, w);
      assert false;
    }
    NameInjective(m[t1].1, m[t2].1);
  }

  /** The keys of `input_mapping` are identifiers and its names too. */
  lemma InputMappingWords(views: seq<PairView>)
    requires WordInputs(views)
    ensures WordKeys(RoleMapping(views, Inputs)) && WordImages(RoleMapping(views, Inputs))
  {
    var r := RoleMapping(views, Inputs);
    forall t | 0 <= t < |r| ensures IsWord(r[t].0) {
      MappingKey(views, Inputs, r[t].0);
      assert IsKey(r, r[t].0);
      var i :| 0 <= i < |views| && r[t].0 in views[i].inputs;
      var j :| 0 <= j < |views[i].inputs| && views[i].inputs[j] == r[t].0;
    }
  }

  /** Every pair's formula relabelled with `m`. */
  function RelabelAll(views: seq<PairView>, m: Mapping): (fs: seq<string>)
    requires WordKeys(m)
  {
    seq(|views|, i requires 0 <= i < |views| => Relabel(views[i].formula, m))
  }

  /** `relabel_variables(input_mapping)` of every pair. */
  ghost function RelabeledFormulas(views: seq<PairView>): (fs: seq<string>)
    requires WordInputs(views)
    ensures |fs| == |views|
  {
    InputMappingWords(views);
    RelabelAll(views, RoleMapping(views, Inputs))
  }

  /** The triple `merge_pairs` returns. */
  datatype Merged = Merged(formula: string, inputs: seq<string>, outputs: seq<string>)

  /** `merge_pairs(pairs)`: the relabelled formulas joined, and the sorted
      new names of the inputs and of the outputs. */
  ghost function MergeResult(views: seq<PairView>): (result: Merged)
    requires WordInputs(views)
  {
    Merged(Conjoin.Conjoin(RelabeledFormulas(views)), SortedSet(Images(views, Inputs)), SortedSet(Images(views, Outputs)))
  }

  /** The returned names are sorted, without duplicates, and are exactly
      the new names of the declared symbols. */
  lemma MergedSorted(views: seq<PairView>)
    requires WordInputs(views)
    ensures StrictlySorted(MergeResult(views).inputs) && StrictlySorted(MergeResult(views).outputs)
    ensures forall x :: x in MergeResult(views).inputs <==> x in Images(views, Inputs)
    ensures forall x :: x in MergeResult(views).outputs <==> x in Images(views, Outputs)
  {
  }

  /** The parts `merge_pairs` computes make up the merge result. */
  lemma Assemble(views: seq<PairView>, im: Mapping, om: Mapping, formula: string,
                 allInputs: set<string>, allOutputs: set<string>, inputs: seq<string>, outputs: seq<string>)
    requires WordInputs(views)
    requires im == RoleMapping(views, Inputs) && om == RoleMapping(views, Outputs) && WordKeys(im)
    requires formula == Conjoin.Conjoin(RelabelAll(views, im))
    requires allInputs == Collected(views, Inputs, im) && allOutputs == Collected(views, Outputs, om)
    requires inputs == SortedSet(allInputs) && outputs == SortedSet(allOutputs)
    ensures Merged(formula, inputs, outputs) == MergeResult(views)
  {
  }

  /** No pairs: an empty formula and no symbols. */
  lemma MergeNothing()
    ensures MergeResult([]) == Merged([], [], [])
  {
    assert Images([], Inputs) == {};
    assert Images([], Outputs) == {};
  }

  /** One pair: its relabelled formula, without parentheses. */
  lemma MergeOne(p: PairView)
    requires WordInputs([p])
    ensures WordKeys(RoleMapping([p], Inputs))
    ensures MergeResult([p]).formula == Relabel(p.formula, RoleMapping([p], Inputs))
  {
    InputMappingWords([p]);
    ConjoinShape(RelabeledFormulas([p]));
  }

  /** Two pairs or more: one pair of parentheses around the whole and a
      ` && ` inside. */
  lemma MergeShape(views: seq<PairView>)
    requires WordInputs(views) && |views| >= 2
    ensures var f := MergeResult(views).formula;
      |f| >= 6 && f[0] == '(' && f[|f| - 1] == ')' && Contains(f, AndSep)
  {
    ConjoinShape(RelabeledFormulas(views));
  }

  function Formulas(views: seq<PairView>): (fs: seq<string>)
    ensures |fs| == |views|
  {
    seq(|views|, i requires 0 <= i < |views| => views[i].formula)
  }

  lemma {:induction false} SumBalanceSame(fs: seq<string>, gs: seq<string>)
    requires |fs| == |gs| && forall i :: 0 <= i < |fs| ==> Balance(fs[i]) == Balance(gs[i])
    ensures SumBalance(fs) == SumBalance(gs)
    decreases |fs|
  {
    if fs != [] {
      SumBalanceSame(fs[..|fs| - 1], gs[..|gs| - 1]);
    }
  }

  /** The number of `(` minus the number of `)` in the merged formula is
      the sum of that difference over the pairs' own formulas. */
  lemma MergeBalance(views: seq<PairView>)
    requires WordInputs(views)
    ensures Balance(MergeResult(views).formula) == SumBalance(Formulas(views))
  {
    var fs := RelabeledFormulas(views);
    InputMappingWords(views);
    ConjoinBalance(fs);
    forall i | 0 <= i < |fs| ensures Balance(fs[i]) == Balance(Formulas(views)[i]) {
      RelabelCount(views[i].formula, RoleMapping(views, Inputs), '(');
      RelabelCount(views[i].formula, RoleMapping(views, Inputs), ')');
    }
    SumBalanceSame(fs, Formulas(views));
  }

  /** The relabelling the merger evidently intends for every pair: each
      input symbol replaced by its own new name, all at once. */
  ghost function IntendedFormulas(views: seq<PairView>): (fs: seq<string>)
    requires WordInputs(views)
    ensures |fs| == |views|
  {
    InputMappingWords(views);
    seq(|views|, i requires 0 <= i < |views| => Rename(views[i].formula, RoleMapping(views, Inputs)))
  }

  /** In the intended relabelling, a run of a pair's formula that the pair
      declares as an input becomes the name that symbol gets in
      `input_mapping`, which is among the returned inputs. */
  lemma IntendedRenamesDeclared(views: seq<PairView>, i: nat, k: nat)
    requires WordInputs(views) && i < |views|
    requires k < |Segments(views[i].formula)| && Segments(views[i].formula)[k] in views[i].inputs
    ensures k < |Segments(IntendedFormulas(views)[i])|
    ensures Segments(IntendedFormulas(views)[i])[k] == Lookup(Segments(views[i].formula)[k], RoleMapping(views, Inputs))
    ensures Segments(IntendedFormulas(views)[i])[k] in MergeResult(views).inputs
  {
    var m := RoleMapping(views, Inputs);
    InputMappingWords(views);
    RenameTokens(views[i].formula, m);
    var t := Segments(views[i].formula)[k];
    var j :| 0 <= j < |views[i].inputs| && views[i].inputs[j] == t;
    assert Symbols(views[i], Inputs)[j] == t;
    assert Lookup(t, m) in Images(views, Inputs);
    MergedSorted(views);
  }

  /** The formula is relabelled with `input_mapping` alone. A run that
      the pair declares as an output, but that some pair declares as an
      input, therefore ends as an input name: through chains not
      necessarily its own, but always among the returned inputs and never
      among the returned outputs. */
  lemma FormulaOutputAsInput(views: seq<PairView>, i: nat, k: nat)
    requires WordInputs(views) && i < |views|
    requires k < |Segments(views[i].formula)| && Segments(views[i].formula)[k] in views[i].outputs
    requires DeclaredBy(views, Inputs, Segments(views[i].formula)[k])
    ensures k < |Segments(RelabeledFormulas(views)[i])|
    ensures Segments(RelabeledFormulas(views)[i])[k] in MergeResult(views).inputs
    ensures Segments(RelabeledFormulas(views)[i])[k] !in MergeResult(views).outputs
  {
    var m := RoleMapping(views, Inputs);
    InputMappingWords(views);
    RelabelTokens(views[i].formula, m);
    var t := Segments(views[i].formula)[k];
    MappingKey(views, Inputs, t);
    var e := StepAllImage(t, m);
    ImagesAreNames(views, Inputs);
    assert m[e].1 in NamesOf(RoleIds(views, Inputs).0);
    MergedRolesDisjoint(views);
    MergedSorted(views);
  }

  /** A run of a formula that no pair declares as an input, an output
      symbol among them, keeps its text. */
  lemma FormulaKeepsUndeclared(views: seq<PairView>, i: nat, k: nat)
    requires WordInputs(views) && i < |views|
    requires k < |Segments(views[i].formula)| && !DeclaredBy(views, Inputs, Segments(views[i].formula)[k])
    ensures k < |Segments(RelabeledFormulas(views)[i])|
    ensures Segments(RelabeledFormulas(views)[i])[k] == Segments(views[i].formula)[k]
  {
    var m := RoleMapping(views, Inputs);
    InputMappingWords(views);
    RelabelTokens(views[i].formula, m);
    var t := Segments(views[i].formula)[k];
    MappingKey(views, Inputs, t);
    StepAllMissing(t, m);
  }

  /** When no new name of `input_mapping` is also a later key, the merged
      formula is the intended one. */
  lemma IntendedWhenChainFree(views: seq<PairView>)
    requires WordInputs(views) && ChainFree(RoleMapping(views, Inputs))
    ensures MergeResult(views).formula == Conjoin.Conjoin(IntendedFormulas(views))
  {
    var m := RoleMapping(views, Inputs);
    InputMappingWords(views);
    RoleFacts(views, Inputs);
    assert DistinctKeys(m);
    forall i | 0 <= i < |views|
      ensures RelabeledFormulas(views)[i] == IntendedFormulas(views)[i]
    {
      RelabelIsRenameWhenChainFree(views[i].formula, m);
    }
    assert RelabeledFormulas(views) == IntendedFormulas(views);
  }
}
