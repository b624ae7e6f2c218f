/** The naming stage of `LTLFMerger.merge_pairs` (merge_ltlf.py, lines
    263-307): one counter, starting at 1, numbers the input groups and then
    the output groups. An input group for which `should_merge` holds gets a
    single number for all its members; every other symbol gets its own.
    Members of a group are numbered in sorted order. */
module Naming {
  import opened Order
  import opened Names
  import opened Tokens
  import opened Usage
  import opened Grouping
  import opened MergeRule

  /** The entries of `input_mapping` or `output_mapping` in insertion
      order, each with the counter value its new name is made from. */
  type Ids = seq<(string, nat)>

  /** The entries one group adds: all at `c` when it is shared, otherwise
      `c, c + 1, ...` in the order of `members`. */
  function GroupIds(members: seq<string>, shared: bool, c: nat): (r: Ids)
  {
    seq(|members|, i requires 0 <= i < |members| => (members[i], if shared then c else c + i))
  }

  /** Whether a group gets one shared number: never for outputs. */
  predicate Shared(files: Usage, group: set<string>, mayShare: bool)
    requires group <= files.Keys
  {
    mayShare && ShouldMerge(files, group)
  }

  /** The entries and the next counter value after numbering `groups`
      from `start`: the first pass (`mayShare`) or the second. */
  ghost function AssignIds(files: Usage, groups: Groups, start: nat, mayShare: bool): (r: (Ids, nat))
    requires Known(files, groups)
    decreases |groups|
  {
    if groups == [] then ([], start)
    else
      var (m, c) := AssignIds(files, groups[..|groups| - 1], start, mayShare);
      var g := groups[|groups| - 1];
      var shared := Shared(files, g, mayShare);
      (m + GroupIds(SortedSet(g), shared, c), if shared then c + 1 else c + |g|)
  }

  predicate HasKey(m: Ids, v: string) {
    exists i :: 0 <= i < |m| && m[i].0 == v
  }

  /** Some entry has number `k`. */
  predicate Used(m: Ids, k: nat) {
    exists i :: 0 <= i < |m| && m[i].1 == k
  }

  /** Each symbol has at most one entry. */
  predicate DistinctEntries(m: Ids) {
    forall i, j :: 0 <= i < j < |m| ==> m[i].0 != m[j].0
  }

  /** Entries with the same number belong to one group. */
  predicate SameIdSameGroup(m: Ids, groups: Groups) {
    forall i, j :: 0 <= i < |m| && 0 <= j < |m| && m[i].1 == m[j].1 ==>
      exists g :: 0 <= g < |groups| && m[i].0 in groups[g] && m[j].0 in groups[g]
  }

  predicate InSomeGroup(groups: Groups, v: string) {
    exists g :: 0 <= g < |groups| && v in groups[g]
  }

  /** The numbers lie between `start` and the next counter value. */
  lemma {:induction false} IdsInRange(files: Usage, groups: Groups, start: nat, mayShare: bool)
    requires Known(files, groups)
    ensures start <= AssignIds(files, groups, start, mayShare).1
    ensures forall i :: 0 <= i < |AssignIds(files, groups, start, mayShare).0| ==>
      start <= AssignIds(files, groups, start, mayShare).0[i].1 < AssignIds(files, groups, start, mayShare).1
    decreases |groups|
  {
    if groups != [] {
      IdsInRange(files, groups[..|groups| - 1], start, mayShare);
    }
  }

  /** No number between `start` and the next counter value is skipped. */
  lemma {:induction false} IdsContiguous(files: Usage, groups: Groups, start: nat, mayShare: bool)
    requires Known(files, groups)
    ensures forall k :: start <= k < AssignIds(files, groups, start, mayShare).1 ==>
      Used(AssignIds(files, groups, start, mayShare).0, k)
    decreases |groups|
  {
    if groups != [] {
      var init := groups[..|groups| - 1];
      IdsContiguous(files, init, start, mayShare);
      var m, c := AssignIds(files, init, start, mayShare).0, AssignIds(files, init, start, mayShare).1;
      var g := groups[|groups| - 1];
      var shared := Shared(files, g, mayShare);
      var r := m + GroupIds(SortedSet(g), shared, c);
      var next := AssignIds(files, groups, start, mayShare).1;
      forall k | start <= k < next ensures Used(r, k) {
        if k < c {
          assert Used(m, k);
          var i :| 0 <= i < |m| && m[i].1 == k;
          assert r[i] == m[i];
        } else if shared {
          SharedGroupsAreLarge(files, g);
          assert r[|m|].1 == c;
        } else {
          assert r[|m| + (k - c)].1 == k;
        }
      }
    }
  }

  /** One naming step: the entries for the groups before the last, then
      the last group's members in sorted order. */
  lemma AssignStep(files: Usage, groups: Groups, start: nat, mayShare: bool)
    returns (m: Ids, c: nat, sorted: seq<string>, shared: bool)
    requires Known(files, groups) && groups != []
    ensures Known(files, groups[..|groups| - 1])
    ensures groups == groups[..|groups| - 1] + [groups[|groups| - 1]]
    ensures (m, c) == AssignIds(files, groups[..|groups| - 1], start, mayShare)
    ensures StrictlySorted(sorted) && forall x :: x in sorted <==> x in groups[|groups| - 1]
    ensures AssignIds(files, groups, start, mayShare).0 == m + GroupIds(sorted, shared, c)
  {
    var n := |groups| - 1;
    m, c := AssignIds(files, groups[..n], start, mayShare).0, AssignIds(files, groups[..n], start, mayShare).1;
    sorted := SortedSet(groups[n]);
    shared := Shared(files, groups[n], mayShare);
  }

  /** A step keeps every key within the groups. */
  lemma KeysGroupedStep(m: Ids, init: Groups, g: set<string>, sorted: seq<string>, shared: bool, c: nat)
    requires forall v :: HasKey(m, v) ==> InSomeGroup(init, v)
    requires forall x :: x in sorted ==> x in g
    ensures forall v :: HasKey(m + GroupIds(sorted, shared, c), v) ==> InSomeGroup(init + [g], v)
  {
    var r := m + GroupIds(sorted, shared, c);
    var groups := init + [g];
    forall v | HasKey(r, v) ensures InSomeGroup(groups, v) {
      var i :| 0 <= i < |r| && r[i].0 == v;
      if i < |m| {
        assert HasKey(m, v);
        var k :| 0 <= k < |init| && v in init[k];
        assert v in groups[k];
      } else {
        assert sorted[i - |m|] == v;
        assert v in groups[|init|];
      }
    }
  }

  /** A step gives every member of the new group a key. */
  lemma KeysCoverStep(m: Ids, init: Groups, g: set<string>, sorted: seq<string>, shared: bool, c: nat)
    requires forall v :: InSomeGroup(init, v) ==> HasKey(m, v)
    requires forall x :: x in g ==> x in sorted
    ensures forall v :: InSomeGroup(init + [g], v) ==> HasKey(m + GroupIds(sorted, shared, c), v)
  {
    var r := m + GroupIds(sorted, shared, c);
    var groups := init + [g];
    forall v | InSomeGroup(groups, v) ensures HasKey(r, v) {
      var k :| 0 <= k < |groups| && v in groups[k];
      if k < |init| {
        assert v in init[k];
        assert InSomeGroup(init, v);
        var i :| 0 <= i < |m| && m[i].0 == v;
        assert r[i].0 == v;
      } else {
        var t :| 0 <= t < |sorted| && sorted[t] == v;
        assert r[|m| + t].0 == v;
      }
    }
  }

  /** A step over a group disjoint from the earlier ones keeps one entry
      per symbol. */
  lemma DistinctStep(m: Ids, init: Groups, g: set<string>, sorted: seq<string>, shared: bool, c: nat)
    requires DistinctEntries(m)
    requires forall v :: HasKey(m, v) ==> InSomeGroup(init, v)
    requires forall k, v :: 0 <= k < |init| && v in init[k] ==> v !in g
    requires StrictlySorted(sorted) && forall x :: x in sorted ==> x in g
    ensures DistinctEntries(m + GroupIds(sorted, shared, c))
  {
    var r := m + GroupIds(sorted, shared, c);
    forall i, j | 0 <= i < j < |r| ensures r[i].0 != r[j].0 {
      if j < |m| {
        assert r[i] == m[i] && r[j] == m[j];
      } else if i < |m| {
        assert r[i] == m[i];
        assert HasKey(m, r[i].0);
        var k :| 0 <= k < |init| && r[i].0 in init[k];
        assert r[j].0 == sorted[j - |m|];
        assert r[j].0 in sorted;
      } else {
        assert LexLess(sorted[i - |m|], sorted[j - |m|]);
      }
    }
  }

  /** A step whose numbers start past the earlier ones keeps entries with
      one number within one group. */
  lemma SameGroupStep(m: Ids, init: Groups, g: set<string>, sorted: seq<string>, shared: bool, c: nat)
    requires SameIdSameGroup(m, init)
    requires forall i :: 0 <= i < |m| ==> m[i].1 < c
    requires forall x :: x in sorted ==> x in g
    ensures SameIdSameGroup(m + GroupIds(sorted, shared, c), init + [g])
  {
    var r := m + GroupIds(sorted, shared, c);
    var groups := init + [g];
    forall i, j | 0 <= i < |r| && 0 <= j < |r| && r[i].1 == r[j].1
      ensures exists k :: 0 <= k < |groups| && r[i].0 in groups[k] && r[j].0 in groups[k]
    {
      if i < |m| && j < |m| {
        assert r[i] == m[i] && r[j] == m[j];
        var k :| 0 <= k < |init| && m[i].0 in init[k] && m[j].0 in init[k];
        assert init[k] == groups[k];
      } else if i >= |m| && j >= |m| {
        assert r[i].0 == sorted[i - |m|] && r[j].0 == sorted[j - |m|];
        assert r[i].0 in groups[|init|] && r[j].0 in groups[|init|];
      }
    }
  }

  /** Every entry is for a grouped symbol. */
  lemma {:induction false} IdsKeysGrouped(files: Usage, groups: Groups, start: nat, mayShare: bool)
    requires Known(files, groups)
    ensures forall v :: HasKey(AssignIds(files, groups, start, mayShare).0, v) ==> InSomeGroup(groups, v)
    decreases |groups|
  {
    if groups != [] {
      var n := |groups| - 1;
      IdsKeysGrouped(files, groups[..n], start, mayShare);
      var m, c, sorted, shared := AssignStep(files, groups, start, mayShare);
      KeysGroupedStep(m, groups[..n], groups[n], sorted, shared, c);
    }
  }

  /** Every grouped symbol has an entry. */
  lemma {:induction false} IdsKeysCover(files: Usage, groups: Groups, start: nat, mayShare: bool)
    requires Known(files, groups)
    ensures forall v :: InSomeGroup(groups, v) ==> HasKey(AssignIds(files, groups, start, mayShare).0, v)
    decreases |groups|
  {
    if groups != [] {
      var n := |groups| - 1;
      IdsKeysCover(files, groups[..n], start, mayShare);
      var m, c, sorted, shared := AssignStep(files, groups, start, mayShare);
      KeysCoverStep(m, groups[..n], groups[n], sorted, shared, c);
    }
  }

  /** The keys are exactly the grouped symbols. */
  lemma IdsKeys(files: Usage, groups: Groups, start: nat, mayShare: bool)
    requires Known(files, groups)
    ensures forall v :: HasKey(AssignIds(files, groups, start, mayShare).0, v) <==> InSomeGroup(groups, v)
  {
    IdsKeysGrouped(files, groups, start, mayShare);
    IdsKeysCover(files, groups, start, mayShare);
  }

  /** Disjoint groups give every symbol one entry. */
  lemma {:induction false} IdsDistinctKeys(files: Usage, groups: Groups, start: nat, mayShare: bool)
    requires Known(files, groups) && Disjoint(groups)
    ensures DistinctEntries(AssignIds(files, groups, start, mayShare).0)
    decreases |groups|
  {
    if groups != [] {
      var n := |groups| - 1;
      IdsDistinctKeys(files, groups[..n], start, mayShare);
      IdsKeysGrouped(files, groups[..n], start, mayShare);
      var m, c, sorted, shared := AssignStep(files, groups, start, mayShare);
      forall k, v | 0 <= k < n && v in groups[..n][k] ensures v !in groups[n] {
        assert groups[..n][k] == groups[k];
      }
      DistinctStep(m, groups[..n], groups[n], sorted, shared, c);
    }
  }

  /** Two symbols with the same number come from the same group. */
  lemma {:induction false} IdsSameGroup(files: Usage, groups: Groups, start: nat, mayShare: bool)
    requires Known(files, groups)
    ensures SameIdSameGroup(AssignIds(files, groups, start, mayShare).0, groups)
    decreases |groups|
  {
    if groups != [] {
      var n := |groups| - 1;
      IdsSameGroup(files, groups[..n], start, mayShare);
      IdsInRange(files, groups[..n], start, mayShare);
      var m, c, sorted, shared := AssignStep(files, groups, start, mayShare);
      SameGroupStep(m, groups[..n], groups[n], sorted, shared, c);
    }
  }

  /** Without sharing every symbol has its own number: the entries are
      numbered `start, start + 1, ...` in order. */
  lemma {:induction false} UnsharedIds(files: Usage, groups: Groups, start: nat)
    requires Known(files, groups)
    ensures AssignIds(files, groups, start, false).1 == start + |AssignIds(files, groups, start, false).0|
    ensures forall i :: 0 <= i < |AssignIds(files, groups, start, false).0| ==>
      AssignIds(files, groups, start, false).0[i].1 == start + i
    decreases |groups|
  {
    if groups != [] {
      UnsharedIds(files, groups[..|groups| - 1], start);
    }
  }

  /** The dictionary built from the entries: each number `k` made into the
      name `p<k>`. */
  function NameEntries(m: Ids): (r: Mapping)
  {
    seq(|m|, i requires 0 <= i < |m| => (m[i].0, Name(m[i].1)))
  }

  lemma NameEntriesAppend(m: Ids, v: string, k: nat)
    ensures NameEntries(m + [(v, k)]) == NameEntries(m) + [(v, Name(k))]
  {
    var r := NameEntries(m + [(v, k)]);
    assert forall i :: 0 <= i < |m| ==> (m + [(v, k)])[i] == m[i];
  }

  /** One group's entries: all under one name, or one name each. */
  method MapGroup(members: seq<string>, shared: bool, counter: nat, ghost ids: Ids, mapping: Mapping)
    returns (mapping': Mapping, counter': nat, ghost ids': Ids)
    requires mapping == NameEntries(ids)
    ensures ids' == ids + GroupIds(members, shared, counter)
    ensures mapping' == NameEntries(ids')
    ensures counter' == if shared then counter + 1 else counter + |members|
  {
    mapping', counter', ids' := mapping, counter, ids;
    if shared {
      var newVar := Name(counter');
      counter' := counter' + 1;
      for j := 0 to |members|
        invariant ids' == ids + GroupIds(members[..j], true, counter)
        invariant mapping' == NameEntries(ids')
      {
        NameEntriesAppend(ids', members[j], counter);
        assert GroupIds(members[..j + 1], true, counter) == GroupIds(members[..j], true, counter) + [(members[j], counter)];
        ids' := ids' + [(members[j], counter)];
        mapping' := mapping' + [(members[j], newVar)];
      }
    } else {
      for j := 0 to |members|
        invariant ids' == ids + GroupIds(members[..j], false, counter)
        invariant mapping' == NameEntries(ids')
        invariant counter' == counter + j
      {
        var newVar := Name(counter');
        NameEntriesAppend(ids', members[j], counter');
        assert GroupIds(members[..j + 1], false, counter) == GroupIds(members[..j], false, counter) + [(members[j], counter')];
        ids' := ids' + [(members[j], counter')];
        mapping' := mapping' + [(members[j], newVar)];
        counter' := counter' + 1;
      }
    }
    assert members[..|members|] == members;
  }

  /** Lines 263-299: the input groups, from `var_counter = 1`. */
  method MapInputGroups(files: Usage, groups: Groups) returns (mapping: Mapping, counter: nat)
    requires Known(files, groups)
    ensures mapping == NameEntries(AssignIds(files, groups, 1, true).0)
    ensures counter == AssignIds(files, groups, 1, true).1
  {
    mapping, counter := [], 1;
    ghost var ids: Ids := [];
    for i := 0 to |groups|
      invariant ids == AssignIds(files, groups[..i], 1, true).0
      invariant counter == AssignIds(files, groups[..i], 1, true).1
      invariant mapping == NameEntries(ids)
    {
      assert groups[..i + 1][..i] == groups[..i];
      var group := groups[i];
      var shouldMerge := DecideMerge(files, group);
      var sorted := SortedMembers(group);
      mapping, counter, ids := MapGroup(sorted, shouldMerge, counter, ids, mapping);
    }
    assert groups[..|groups|] == groups;
  }

  /** Lines 303-307: the output groups, the counter going on from the
      inputs, every symbol with a name of its own. */
  method MapOutputGroups(files: Usage, groups: Groups, start: nat) returns (mapping: Mapping, counter: nat)
    requires Known(files, groups)
    ensures mapping == NameEntries(AssignIds(files, groups, start, false).0)
    ensures counter == AssignIds(files, groups, start, false).1
  {
    mapping, counter := [], start;
    ghost var ids: Ids := [];
    for i := 0 to |groups|
      invariant ids == AssignIds(files, groups[..i], start, false).0
      invariant counter == AssignIds(files, groups[..i], start, false).1
      invariant mapping == NameEntries(ids)
    {
      assert groups[..i + 1][..i] == groups[..i];
      var sorted := SortedMembers(groups[i]);
      mapping, counter, ids := MapGroup(sorted, false, counter, ids, mapping);
    }
    assert groups[..|groups|] == groups;
  }
}
