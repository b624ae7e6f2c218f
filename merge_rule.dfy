/** The `should_merge` rule of `LTLFMerger.merge_pairs` (merge_ltlf.py):
    an input group shares one new name only when some other symbol is
    declared together with two of its members, and no two of its members
    are declared in the same file. */
module MergeRule {
  import opened Order
  import opened Usage
  import opened Grouping

  /** `any(s)` for a set of paths: some path is a non-empty string. */
  predicate AnyTruthy(s: set<string>) {
    exists f :: f in s && f != []
  }

  /** The test of lines 274-278: `x` is another symbol than `v1` and `v2`
      and is declared together with each of them. */
  predicate CommonTo(files: Usage, x: string, v1: string, v2: string)
    requires x in files && v1 in files && v2 in files
  {
    x != v1 && x != v2 && AnyTruthy(files[x] * files[v1]) && AnyTruthy(files[x] * files[v2])
  }

  /** The symbols common to some ordered pair `v1 < v2` with `v1` among
      `firsts` and `v2` among `seconds`. */
  function Common(files: Usage, firsts: set<string>, seconds: set<string>): (common: set<string>)
    requires firsts <= files.Keys && seconds <= files.Keys
  {
    set x | x in files && exists v1, v2 :: v1 in firsts && v2 in seconds && LexLess(v1, v2) && CommonTo(files, x, v1, v2)
  }

  /** `common_vars` of a group. */
  function CommonVars(files: Usage, group: set<string>): (common: set<string>)
    requires group <= files.Keys
  {
    Common(files, group, group)
  }

  /** The `all(...)` of lines 282-286: no two members share a file. */
  predicate Apart(files: Usage, group: set<string>)
    requires group <= files.Keys
  {
    forall v1, v2 :: v1 in group && v2 in group && LexLess(v1, v2) ==> files[v1] !! files[v2]
  }

  predicate ShouldMerge(files: Usage, group: set<string>)
    requires group <= files.Keys
  {
    |CommonVars(files, group)| > 0 && Apart(files, group)
  }

  /** A shared name needs two members. */
  lemma SharedGroupsAreLarge(files: Usage, group: set<string>)
    requires group <= files.Keys && ShouldMerge(files, group)
    ensures |group| >= 2
  {
    var x :| x in CommonVars(files, group);
    var v1, v2 :| v1 in group && v2 in group && LexLess(v1, v2) && CommonTo(files, x, v1, v2);
    assert v1 != v2 && v2 in group - {v1};
    assert group == (group - {v1}) + {v1};
  }

  /** The `all(...)` half of the rule holds for every group the greedy
      grouping builds, so there a group shares a name exactly when it has
      a common symbol. */
  lemma ShouldMergeOfGroups(files: Usage, groups: Groups, i: nat)
    requires Known(files, groups) && ConflictFree(files, groups) && i < |groups|
    ensures ShouldMerge(files, groups[i]) <==> CommonVars(files, groups[i]) != {}
  {
    forall v1, v2 | v1 in groups[i] && v2 in groups[i] && LexLess(v1, v2)
      ensures files[v1] !! files[v2]
    {
      assert v1 != v2;
    }
  }

  /** The innermost loop: the symbols common to `v1` and `v2`. */
  method CommonOfPair(files: Usage, v1: string, v2: string) returns (common: set<string>)
    requires v1 in files && v2 in files
    ensures common == set x | x in files && CommonTo(files, x, v1, v2)
  {
    common := {};
    var rest := files.Keys;
    while rest != {}
      invariant rest <= files.Keys
      invariant common == set x | x in files && x !in rest && CommonTo(files, x, v1, v2)
      decreases rest
    {
      var x :| x in rest;
      if x != v1 && x != v2 {
        var truthy1 := exists f :: f in files[x] * files[v1] && f != [];
        var truthy2 := exists f :: f in files[x] * files[v2] && f != [];
        if truthy1 && truthy2 {
          common := common + {x};
        }
      }
      rest := rest - {x};
    }
  }

  /** The middle loop for one `v1`: every later member `v2`. */
  method CommonOfFirst(files: Usage, group: set<string>, v1: string) returns (common: set<string>)
    requires group <= files.Keys && v1 in group
    ensures common == Common(files, {v1}, group)
  {
    common := {};
    var rest := group;
    while rest != {}
      invariant rest <= group
      invariant common == Common(files, {v1}, group - rest)
      decreases rest
    {
      var v2 :| v2 in rest;
      if LexLess(v1, v2) {
        var found := CommonOfPair(files, v1, v2);
        common := common + found;
      }
      rest := rest - {v2};
      assert group - rest == (group - (rest + {v2})) + {v2};
    }
  }

  /** Lines 266-279: `common_vars` of a group. */
  method FindCommonVars(files: Usage, group: set<string>) returns (common: set<string>)
    requires group <= files.Keys
    ensures common == CommonVars(files, group)
  {
    common := {};
    var rest := group;
    while rest != {}
      invariant rest <= group
      invariant common == Common(files, group - rest, group)
      decreases rest
    {
      var v1 :| v1 in rest;
      var found := CommonOfFirst(files, group, v1);
      common := common + found;
      rest := rest - {v1};
      assert group - rest == (group - (rest + {v1})) + {v1};
    }
  }

  /** Lines 266-286: `should_merge` for one group. */
  method DecideMerge(files: Usage, group: set<string>) returns (shouldMerge: bool)
    requires group <= files.Keys
    ensures shouldMerge == ShouldMerge(files, group)
  {
    var common := FindCommonVars(files, group);
    shouldMerge := |common| > 0 &&
      forall v1, v2 :: v1 in group && v2 in group && LexLess(v1, v2) ==> files[v1] !! files[v2];
  }
}
