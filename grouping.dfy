/** The second stage of `LTLFMerger.merge_pairs` (merge_ltlf.py): the
    symbols of one role, taken in sorted order, are placed greedily in the
    first group none of whose members shares a file with them. */
module Grouping {
  import opened Order
  import opened Usage

  type Groups = seq<set<string>>

  /** Every member of every group has a recorded set of files. */
  predicate Known(files: Usage, groups: Groups) {
    forall i :: 0 <= i < |groups| ==> groups[i] <= files.Keys
  }

  /** `can_merge`: no member of `group` shares a file with `v`. */
  predicate Fits(files: Usage, group: set<string>, v: string)
    requires v in files && group <= files.Keys
  {
    forall w :: w in group ==> files[v] !! files[w]
  }

  /** The index of the first group `v` fits in, or the number of groups. */
  function FirstFit(files: Usage, groups: Groups, v: string): (k: nat)
    requires v in files && Known(files, groups)
    ensures k <= |groups|
    ensures k < |groups| ==> Fits(files, groups[k], v)
    ensures forall j :: 0 <= j < k ==> !Fits(files, groups[j], v)
    decreases |groups|
  {
    if groups == [] then 0
    else if Fits(files, groups[0], v) then 0
    else 1 + FirstFit(files, groups[1..], v)
  }

  /** One step of the outer loop: `v` joins the first group it fits in,
      and a new group `{v}` is opened only when it fits in none. */
  function Place(files: Usage, groups: Groups, v: string): (placed: Groups)
    requires v in files && Known(files, groups)
  {
    Extend(groups, FirstFit(files, groups, v), v)
  }

  /** The groups after the symbols `vars` have been placed in turn. */
  function Grouping(files: Usage, vars: seq<string>): (groups: Groups)
    requires forall i :: 0 <= i < |vars| ==> vars[i] in files
    ensures Known(files, groups)
    decreases |vars|
  {
    if vars == [] then []
    else Place(files, Grouping(files, vars[..|vars| - 1]), vars[|vars| - 1])
  }

  /** `input_groups` (or `output_groups`): the symbols in sorted order. */
  ghost function GroupsOf(files: Usage): (groups: Groups) {
    Grouping(files, SortedSet(files.Keys))
  }

  /** Every group is non-empty and holds only members. */
  predicate Within(groups: Groups, members: set<string>) {
    forall i :: 0 <= i < |groups| ==> groups[i] != {} && groups[i] <= members
  }

  /** Every member is in some group. */
  predicate Covers(groups: Groups, members: set<string>) {
    forall v :: v in members ==> exists i :: 0 <= i < |groups| && v in groups[i]
  }

  /** No symbol is in two groups. */
  predicate Disjoint(groups: Groups) {
    forall i, j, v :: 0 <= i < j < |groups| && v in groups[i] ==> v !in groups[j]
  }

  /** The groups are non-empty, pairwise disjoint and together hold
      exactly `members`. */
  predicate Partition(groups: Groups, members: set<string>) {
    Within(groups, members) && Covers(groups, members) && Disjoint(groups)
  }

  /** No two members of a group share a file. */
  predicate ConflictFree(files: Usage, groups: Groups)
    requires Known(files, groups)
  {
    forall i, v, w :: 0 <= i < |groups| && v in groups[i] && w in groups[i] && v != w ==>
      files[v] !! files[w]
  }

  /** `groups[k].add(v)`, or `groups.append({v})` when `k` is past the end. */
  function Extend(groups: Groups, k: nat, v: string): (r: Groups)
    requires k <= |groups|
    ensures |r| == if k < |groups| then |groups| else |groups| + 1
    ensures forall i :: 0 <= i < |groups| && i != k ==> r[i] == groups[i]
    ensures r[k] == (if k < |groups| then groups[k] else {}) + {v}
  {
    if k < |groups| then groups[k := groups[k] + {v}] else groups + [{v}]
  }

  lemma ExtendWithin(groups: Groups, members: set<string>, k: nat, v: string)
    requires k <= |groups| && Within(groups, members)
    ensures Within(Extend(groups, k, v), members + {v})
  {
    var r := Extend(groups, k, v);
    forall i | 0 <= i < |r| ensures r[i] != {} && r[i] <= members + {v} {
      if i == k { assert v in r[i]; } else { assert r[i] == groups[i]; }
    }
  }

  lemma ExtendCovers(groups: Groups, members: set<string>, k: nat, v: string)
    requires k <= |groups| && Covers(groups, members)
    ensures Covers(Extend(groups, k, v), members + {v})
  {
    var r := Extend(groups, k, v);
    forall u | u in members + {v} ensures exists i :: 0 <= i < |r| && u in r[i] {
      if u != v {
        var i :| 0 <= i < |groups| && u in groups[i];
        assert u in r[i];
      } else {
        assert v in r[k];
      }
    }
  }

  lemma ExtendDisjoint(groups: Groups, members: set<string>, k: nat, v: string)
    requires k <= |groups| && v !in members
    requires Within(groups, members) && Disjoint(groups)
    ensures Disjoint(Extend(groups, k, v))
  {
    var r := Extend(groups, k, v);
    forall i, j, u | 0 <= i < j < |r| && u in r[i] ensures u !in r[j] {
      ExtendDisjointAt(groups, members, k, v, i, j, u);
    }
  }

  lemma ExtendDisjointAt(groups: Groups, members: set<string>, k: nat, v: string, i: nat, j: nat, u: string)
    requires k <= |groups| && v !in members
    requires Within(groups, members) && Disjoint(groups)
    requires i < j < |Extend(groups, k, v)| && u in Extend(groups, k, v)[i]
    ensures u !in Extend(groups, k, v)[j]
  {
    var r := Extend(groups, k, v);
    if i == k {
      if u == v {
        assert r[j] == groups[j];
        assert groups[j] <= members;
      } else {
        assert u in groups[i];
        if j < |groups| { assert r[j] == groups[j]; }
      }
    } else {
      assert r[i] == groups[i];
      assert groups[i] <= members;
      assert u != v;
      if j != k {
        assert r[j] == groups[j];
      } else if j < |groups| {
        assert u !in groups[j];
      }
    }
  }

  /** Placing a new symbol keeps the groups a partition. */
  lemma PlacePartition(files: Usage, groups: Groups, members: set<string>, v: string)
    requires v in files && Known(files, groups) && v !in members
    requires Partition(groups, members)
    ensures Partition(Place(files, groups, v), members + {v})
  {
    var k := FirstFit(files, groups, v);
    ExtendWithin(groups, members, k, v);
    ExtendCovers(groups, members, k, v);
    ExtendDisjoint(groups, members, k, v);
  }
  /** Placing a new symbol keeps the groups conflict-free. */
  lemma PlaceConflictFree(files: Usage, groups: Groups, v: string)
    requires v in files && Known(files, groups)
    requires ConflictFree(files, groups)
    requires forall i :: 0 <= i < |groups| ==> v !in groups[i]
    ensures Known(files, Place(files, groups, v))
    ensures ConflictFree(files, Place(files, groups, v))
  {
    var k := FirstFit(files, groups, v);
    var r := Place(files, groups, v);
    forall i, x, y | 0 <= i < |r| && x in r[i] && y in r[i] && x != y
      ensures files[x] !! files[y]
    {
      if i == k && k < |groups| {
        if x == v {
          assert y in groups[k];
        } else if y == v {
          assert x in groups[k];
        }
      }
    }
  }

  /** The symbols of a sequence, as a set. */
  function Members(vars: seq<string>): (ms: set<string>) {
    set i | 0 <= i < |vars| :: vars[i]
  }

  /** The members of a sequence of distinct symbols: those before the last
      one, and the last one, which is not among them. */
  lemma MembersSnoc(vars: seq<string>)
    requires vars != []
    requires forall i, j :: 0 <= i < j < |vars| ==> vars[i] != vars[j]
    ensures vars[|vars| - 1] !in Members(vars[..|vars| - 1])
    ensures Members(vars) == Members(vars[..|vars| - 1]) + {vars[|vars| - 1]}
  {
    var n := |vars| - 1;
    var init := vars[..n];
    forall u | u in Members(init) ensures u in Members(vars) {
      var i :| 0 <= i < n && init[i] == u;
      assert vars[i] == u;
    }
  }

  /** Grouping distinct symbols gives a conflict-free partition of them. */
  lemma {:induction false} GroupingPartition(files: Usage, vars: seq<string>)
    requires forall i :: 0 <= i < |vars| ==> vars[i] in files
    requires forall i, j :: 0 <= i < j < |vars| ==> vars[i] != vars[j]
    ensures Partition(Grouping(files, vars), Members(vars))
    ensures ConflictFree(files, Grouping(files, vars))
    decreases |vars|
  {
    if vars != [] {
      var n := |vars| - 1;
      var init := vars[..n];
      GroupingPartition(files, init);
      var members := Members(init);
      MembersSnoc(vars);
      PlacePartition(files, Grouping(files, init), members, vars[n]);
      PlaceConflictFree(files, Grouping(files, init), vars[n]);
    }
  }

  /** Every collected symbol ends up in exactly one group, and no group
      holds two symbols declared in the same file. */
  lemma GroupsPartition(files: Usage)
    ensures Known(files, GroupsOf(files))
    ensures Partition(GroupsOf(files), files.Keys)
    ensures ConflictFree(files, GroupsOf(files))
  {
    var vars := SortedSet(files.Keys);
    assert Members(vars) == files.Keys by {
      forall u | u in files.Keys ensures u in Members(vars) {
        var i :| 0 <= i < |vars| && vars[i] == u;
      }
    }
    forall i, j | 0 <= i < j < |vars| ensures vars[i] != vars[j] {
      assert LexLess(vars[i], vars[j]);
    }
    GroupingPartition(files, vars);
  }

  /** The innermost loop: whether `v` shares no file with any member. */
  method CanMerge(files: Usage, group: set<string>, v: string) returns (canMerge: bool)
    requires v in files && group <= files.Keys
    ensures canMerge == Fits(files, group, v)
  {
    canMerge := true;
    var rest := group;
    while rest != {}
      invariant rest <= group
      invariant canMerge == forall w :: w in group - rest ==> files[v] !! files[w]
      decreases rest
    {
      var w :| w in rest;
      if !(files[v] !! files[w]) {
        return false;
      }
      rest := rest - {w};
    }
  }

  /** The body of the outer loop of lines 211-229 (or 236-254): `v` is
      added to the first group it fits in, or else starts a group of its own. */
  method PlaceVariable(files: Usage, groups: Groups, v: string) returns (r: Groups)
    requires v in files && Known(files, groups)
    ensures r == Place(files, groups, v)
  {
    r := groups;
    var merged := false;
    var k := 0;
    while k < |groups|
      invariant 0 <= k <= |groups| && r == groups
      invariant forall j :: 0 <= j < k ==> !Fits(files, groups[j], v)
    {
      var canMerge := CanMerge(files, groups[k], v);
      if canMerge {
        r := groups[k := groups[k] + {v}];
        merged := true;
        break;
      }
      k := k + 1;
    }
    if !merged {
      r := groups + [{v}];
    }
    assert FirstFit(files, groups, v) == k;
  }

  /** The outer loop of lines 211-229 (or 236-254) over `vars`. */
  method GroupInOrder(files: Usage, vars: seq<string>) returns (groups: Groups)
    requires forall j :: 0 <= j < |vars| ==> vars[j] in files
    ensures groups == Grouping(files, vars)
  {
    groups := [];
    var i := 0;
    while i < |vars|
      invariant 0 <= i <= |vars|
      invariant groups == Grouping(files, vars[..i])
    {
      assert vars[..i + 1][..i] == vars[..i];
      groups := PlaceVariable(files, groups, vars[i]);
      i := i + 1;
    }
    assert vars[..i] == vars;
  }

  /** Lines 211-229 (or 236-254): the symbols in sorted order, grouped. */
  method GroupVariables(files: Usage) returns (groups: Groups)
    ensures groups == GroupsOf(files)
  {
    var sorted := SortedMembers(files.Keys);
    groups := GroupInOrder(files, sorted);
  }
}
