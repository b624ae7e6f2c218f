/** The two classes of merge_ltlf.py that hold state: the symbol counter
    `VariableManager` and the formula/declaration pair `LTLFPair`. */
module Pairs {
  import opened Wrappers
  import opened Text
  import opened Names
  import opened Tokens
  import opened PartFormat

  /** Hands out the fresh names `p1, p2, ...`. */
  class VariableManager {
    var varMapping: map<string, string>
    var nextVarId: nat

    constructor ()
      ensures varMapping == map[] && nextVarId == 1
    {
      varMapping := map[];
      nextVarId := 1;
    }

    /** `get_new_var`: the name of the current counter value; the counter
        moves on by one. */
    method GetNewVar() returns (v: string)
      modifies this
      ensures v == Name(old(nextVarId))
      ensures nextVarId == old(nextVarId) + 1 && varMapping == old(varMapping)
    {
      v := Name(nextVarId);
      nextVarId := nextVarId + 1;
    }

    /** `reset`: no mapping, and the next name is `p1`. */
    method Reset()
      modifies this
      ensures varMapping == map[] && nextVarId == 1
    {
      varMapping := map[];
      nextVarId := 1;
    }
  }

  /** Two successive calls of `get_new_var` give different names, and
      after `reset` the first one is `p1`. */
  method NamesAfterReset(manager: VariableManager) returns (first: string, second: string)
    modifies manager
    ensures first == "p1" && second == "p2" && first != second
    ensures manager.nextVarId == 3 && manager.varMapping == map[]
  {
    manager.Reset();
    first := manager.GetNewVar();
    second := manager.GetNewVar();
    assert Decimal(1) == "1" && Decimal(2) == "2";
  }

  /** A `.ltlf` formula with the `.part` declaration of its symbols. */
  class LtlfPair {
    var ltlfPath: string
    var partPath: string
    var formula: string
    var inputs: seq<string>
    var outputs: seq<string>

    /** The field initialisation of `__init__`, before it loads the files. */
    constructor Init(ltlfPath: string, partPath: string)
      ensures this.ltlfPath == ltlfPath && this.partPath == partPath
      ensures formula == [] && inputs == [] && outputs == []
    {
      this.ltlfPath := ltlfPath;
      this.partPath := partPath;
      formula := [];
      inputs := [];
      outputs := [];
    }

    function Contents(): (c: Part)
      reads this
    {
      Part(inputs, outputs, formula)
    }

    /** `load_files`, given the lines of the `.part` file and the text of
        the `.ltlf` file (`None` for a missing file). Every field is
        assigned as soon as it is parsed, so a failure leaves the fields
        parsed before it in place. */
    method LoadFiles(partFile: Option<seq<string>>, ltlfFile: Option<string>) returns (err: Option<LoadError>)
      modifies this
      ensures ltlfPath == old(ltlfPath) && partPath == old(partPath)
      ensures err.None? <==> ParsePart(partFile, ltlfFile).Success?
      ensures err.Some? ==> err.value == ParsePart(partFile, ltlfFile).error
      ensures Contents() == AfterLoad(partFile, ltlfFile, old(Contents()))
      ensures err.None? ==> Contents() == ParsePart(partFile, ltlfFile).value
    {
      ghost var before := Contents();
      if partFile.None? {
        return Some(PartNotFound);
      }
      var lines := partFile.value;
      if |lines| < 2 {
        return Some(TooFewLines);
      }
      var ins := Declared(lines[0], InputsKeyword);
      if ins.None? {
        return Some(MissingInputs);
      }
      inputs := ins.value;
      var outs := Declared(lines[1], OutputsKeyword);
      if outs.None? {
        return Some(MissingOutputs);
      }
      outputs := outs.value;
      if ltlfFile.None? {
        return Some(LtlfNotFound);
      }
      formula := Strip(ltlfFile.value);
      if formula == [] {
        return Some(EmptyFormula);
      }
      AfterLoadSuccess(partFile, ltlfFile, before);
      return None;
    }

    /** `relabel_variables`: the formula after one whole-word replacement
        per mapping entry, in the mapping's order. The pair's own formula
        stays as it is. */
    method RelabelVariables(mapping: Mapping) returns (relabeled: string)
      requires WordKeys(mapping) && WordImages(mapping)
      ensures relabeled == Relabel(formula, mapping)
    {
      relabeled := formula;
      var i := 0;
      while i < |mapping|
        invariant 0 <= i <= |mapping|
        invariant relabeled == Relabel(formula, mapping[..i])
      {
        assert mapping[..i + 1][..i] == mapping[..i];
        relabeled := ReplaceWord(relabeled, mapping[i].0, mapping[i].1);
        i := i + 1;
      }
      assert mapping[..i] == mapping;
    }
  }

  /** `LTLFPair(ltlf_path, part_path)`: a pair whose files load, or the
      error `load_files` raises. */
  method Open(ltlfPath: string, partPath: string, partFile: Option<seq<string>>, ltlfFile: Option<string>)
    returns (r: Result<LtlfPair, LoadError>)
    ensures r.Success? <==> ParsePart(partFile, ltlfFile).Success?
    ensures r.Failure? ==> r.error == ParsePart(partFile, ltlfFile).error
    ensures r.Success? ==> (fresh(r.value) && r.value.ltlfPath == ltlfPath && r.value.partPath == partPath
      && r.value.Contents() == ParsePart(partFile, ltlfFile).value)
  {
    var pair := new LtlfPair.Init(ltlfPath, partPath);
    var err := pair.LoadFiles(partFile, ltlfFile);
    if err.Some? {
      return Failure(err.value);
    }
    return Success(pair);
  }
}
