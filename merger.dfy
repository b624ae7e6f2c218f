/** The class `LTLFMerger` of merge_ltlf.py with its method `merge_pairs`,
    which runs the stages of the other modules in turn: it collects where
    each symbol is declared, groups the symbols, numbers the groups,
    relabels and joins the formulas, and sorts the new names. */
module Merger {
  import opened Order
  import opened Tokens
  import opened Pairs
  import opened Usage
  import opened Grouping
  import opened Naming
  import opened Numbering
  import opened Conjoin
  import opened Merge

  /** The names under `m` of `vars`, added to `acc`: one of the two loops
      at the end of the loop over the pairs. */
  method AddNames(acc: set<string>, vars: seq<string>, m: Mapping) returns (r: set<string>)
    ensures r == acc + set j | 0 <= j < |vars| :: Lookup(vars[j], m)
  {
    r := acc;
    for j := 0 to |vars|
      invariant r == acc + set k | 0 <= k < j :: Lookup(vars[k], m)
    {
      r := r + {Lookup(vars[j], m)};
      assert (set k | 0 <= k < j + 1 :: Lookup(vars[k], m)) ==
        (set k | 0 <= k < j :: Lookup(vars[k], m)) + {Lookup(vars[j], m)};
    }
  }

  /** The images of the symbols of one pair. */
  lemma CollectedOne(p: PairView, role: Role, m: Mapping)
    ensures Collected([p], role, m) == set j | 0 <= j < |Symbols(p, role)| :: Lookup(Symbols(p, role)[j], m)
  {
    forall x | x in set j | 0 <= j < |Symbols(p, role)| :: Lookup(Symbols(p, role)[j], m)
      ensures x in Collected([p], role, m)
    {
      var j :| 0 <= j < |Symbols(p, role)| && x == Lookup(Symbols(p, role)[j], m);
      assert [p][0] == p;
    }
  }

  /** The images of the first `i + 1` pairs: those of the first `i` and
      those of pair `i`. */
  lemma CollectedStep(views: seq<PairView>, role: Role, m: Mapping, i: nat)
    requires i < |views|
    ensures Collected(views[..i + 1], role, m) ==
      Collected(views[..i], role, m) + set j | 0 <= j < |Symbols(views[i], role)| :: Lookup(Symbols(views[i], role)[j], m)
  {
    assert views[..i + 1][..i] == views[..i];
    assert views[..i + 1][i] == views[i];
    CollectedSnoc(views[..i + 1], role, m);
    CollectedOne(views[i], role, m);
  }

  /** Joining one more formula: the first as it is, later ones as
      `(merged && next)`. */
  lemma ConjoinSnoc(fs: seq<string>, i: nat)
    requires i < |fs|
    ensures Conjoin.Conjoin(fs[..i + 1]) ==
      if i == 0 then fs[0] else LParen + Conjoin.Conjoin(fs[..i]) + AndSep + fs[i] + RParen
  {
    assert fs[..i + 1][..i] == fs[..i];
  }

  /** What `merge_pairs` reads from each pair. */
  predicate Views(pairs: seq<LtlfPair>, views: seq<PairView>)
    reads set i | 0 <= i < |pairs| :: pairs[i]
  {
    |views| == |pairs| &&
    forall i :: 0 <= i < |pairs| ==>
      views[i] == PairView(pairs[i].ltlfPath, pairs[i].formula, pairs[i].inputs, pairs[i].outputs)
  }

  lemma ViewsOf(pairs: seq<LtlfPair>)
    ensures Views(pairs, View(pairs))
  {
  }

  /** The relabelled formula of pair `i`. */
  lemma RelabelAllAt(views: seq<PairView>, m: Mapping, i: nat)
    requires WordKeys(m) && i < |views|
    ensures i < |RelabelAll(views, m)| && RelabelAll(views, m)[i] == Relabel(views[i].formula, m)
  {
  }

  /** The loop over the pairs keeps the join of the formulas so far. */
  lemma ConjoinNext(fs: seq<string>, i: nat, before: string, after: string)
    requires i < |fs| && before == Conjoin.Conjoin(fs[..i])
    requires after == if i == 0 then fs[i] else LParen + before + AndSep + fs[i] + RParen
    ensures after == Conjoin.Conjoin(fs[..i + 1])
  {
    ConjoinSnoc(fs, i);
  }

  /** The loop over the pairs keeps the names collected so far. */
  lemma CollectedNext(views: seq<PairView>, role: Role, m: Mapping, i: nat, vars: seq<string>, before: set<string>, after: set<string>)
    requires i < |views| && vars == Symbols(views[i], role) && before == Collected(views[..i], role, m)
    requires after == before + set j | 0 <= j < |vars| :: Lookup(vars[j], m)
    ensures after == Collected(views[..i + 1], role, m)
  {
    CollectedStep(views, role, m, i);
  }

  /** Lines 210-307: the dictionaries of new names for the inputs and
      for the outputs, from where each symbol is declared. */
  method BuildMappings(ghost views: seq<PairView>, inputVars: Usage, outputVars: Usage)
    returns (inputMapping: Mapping, outputMapping: Mapping)
    requires inputVars == CollectUsage(views, Inputs) && outputVars == CollectUsage(views, Outputs)
    ensures inputMapping == RoleMapping(views, Inputs)
    ensures outputMapping == RoleMapping(views, Outputs)
  {
    var inputGroups := GroupVariables(inputVars);
    var outputGroups := GroupVariables(outputVars);
    NumberedIs(inputVars, inputGroups, 1, true);
    var counter, finalCounter;
    inputMapping, counter := MapInputGroups(inputVars, inputGroups);
    NumberedIs(outputVars, outputGroups, counter, false);
    outputMapping, finalCounter := MapOutputGroups(outputVars, outputGroups, counter);
    RoleMappingIs(views, Inputs, inputVars, 1);
    RoleMappingIs(views, Outputs, outputVars, counter);
  }

  /** Lines 317-331: one turn of the loop over the pairs. The pair's
      formula, relabelled with `inputMapping`, is joined to `formula`, the
      first one as it is; the new names of its symbols are collected. */
  method JoinOne(pair: LtlfPair, ghost view: PairView, i: nat, formula: string,
                 allInputs: set<string>, allOutputs: set<string>, inputMapping: Mapping, outputMapping: Mapping)
    returns (formula': string, allInputs': set<string>, allOutputs': set<string>)
    requires view == PairView(pair.ltlfPath, pair.formula, pair.inputs, pair.outputs)
    requires WordKeys(inputMapping) && WordImages(inputMapping)
    ensures formula' == if i == 0 then Relabel(view.formula, inputMapping)
      else LParen + formula + AndSep + Relabel(view.formula, inputMapping) + RParen
    ensures allInputs' == allInputs + set j | 0 <= j < |view.inputs| :: Lookup(view.inputs[j], inputMapping)
    ensures allOutputs' == allOutputs + set j | 0 <= j < |view.outputs| :: Lookup(view.outputs[j], outputMapping)
  {
    var relabeled := pair.RelabelVariables(inputMapping);
    if i == 0 {
      formula' := relabeled;
    } else {
      formula' := LParen + formula + AndSep + relabeled + RParen;
    }
    allInputs' := AddNames(allInputs, pair.inputs, inputMapping);
    allOutputs' := AddNames(allOutputs, pair.outputs, outputMapping);
  }

  /** Lines 309-331: the loop over the pairs, joining their relabelled
      formulas and collecting the new names of their symbols. */
  method JoinPairs(pairs: seq<LtlfPair>, ghost views: seq<PairView>, inputMapping: Mapping, outputMapping: Mapping)
    returns (formula: string, allInputs: set<string>, allOutputs: set<string>)
    requires Views(pairs, views) && WordKeys(inputMapping) && WordImages(inputMapping)
    ensures formula == Conjoin.Conjoin(RelabelAll(views, inputMapping))
    ensures allInputs == Collected(views, Inputs, inputMapping)
    ensures allOutputs == Collected(views, Outputs, outputMapping)
  {
    ghost var fs := RelabelAll(views, inputMapping);
    formula := [];
    allInputs := {};
    allOutputs := {};
    for i := 0 to |pairs|
      invariant formula == Conjoin.Conjoin(fs[..i])
      invariant allInputs == Collected(views[..i], Inputs, inputMapping)
      invariant allOutputs == Collected(views[..i], Outputs, outputMapping)
    {
      RelabelAllAt(views, inputMapping, i);
      ghost var before, inputsBefore, outputsBefore := formula, allInputs, allOutputs;
      formula, allInputs, allOutputs :=
        JoinOne(pairs[i], views[i], i, formula, allInputs, allOutputs, inputMapping, outputMapping);
      ConjoinNext(fs, i, before, formula);
      CollectedNext(views, Inputs, inputMapping, i, views[i].inputs, inputsBefore, allInputs);
      CollectedNext(views, Outputs, outputMapping, i, views[i].outputs, outputsBefore, allOutputs);
    }
    assert views[..|pairs|] == views;
    assert fs[..|pairs|] == fs;
  }

  class LtlfMerger {
    var varManager: VariableManager

    constructor ()
      ensures fresh(varManager)
      ensures varManager.nextVarId == 1 && varManager.varMapping == map[]
    {
      varManager := new VariableManager();
    }

    /** `merge_pairs` over pairs that are already loaded: the merged
        formula and the sorted new names of the inputs and of the outputs.
        The variable manager is reset, and otherwise unused. */
    method MergePairs(pairs: seq<LtlfPair>) returns (formula: string, inputs: seq<string>, outputs: seq<string>)
      requires WordInputs(View(pairs))
      modifies varManager
      ensures varManager.nextVarId == 1 && varManager.varMapping == map[]
      ensures Merged(formula, inputs, outputs) == MergeResult(View(pairs))
    {
      ghost var views := View(pairs);
      varManager.Reset();
      assert View(pairs) == views;
      var inputVars, outputVars := CollectVariables(pairs);
      assert View(pairs) == views;
      var inputMapping, outputMapping := BuildMappings(views, inputVars, outputVars);
      InputMappingWords(views);
      ViewsOf(pairs);
      var allInputs, allOutputs;
      formula, allInputs, allOutputs := JoinPairs(pairs, views, inputMapping, outputMapping);
      inputs := SortedMembers(allInputs);
      outputs := SortedMembers(allOutputs);
      Assemble(views, inputMapping, outputMapping, formula, allInputs, allOutputs, inputs, outputs);
      assert View(pairs) == views;
    }
  }
}
