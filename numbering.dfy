/** The entries one naming pass of `LTLFMerger.merge_pairs` produces for
    one role, summed up: one entry per collected symbol, numbers from
    `start` up to the counter's final value with none skipped, and the
    dictionary of new names they give. */
module Numbering {
  import opened Names
  import opened Tokens
  import opened Usage
  import opened Grouping
  import opened Naming

  /** The naming pass over the greedy groups of `files`. */
  ghost function Numbered(files: Usage, start: nat, mayShare: bool): (Ids, nat) {
    GroupsPartition(files);
    AssignIds(files, GroupsOf(files), start, mayShare)
  }

  /** The pass over the groups a program has computed. */
  lemma NumberedIs(files: Usage, groups: Groups, start: nat, mayShare: bool)
    requires groups == GroupsOf(files)
    ensures Known(files, groups)
    ensures Numbered(files, start, mayShare) == AssignIds(files, groups, start, mayShare)
  {
    GroupsPartition(files);
  }

  /** One entry per key of `keys`, every number in `[start, next)` and
      every number of that range used. */
  ghost predicate WellNumbered(m: Ids, keys: set<string>, start: nat, next: nat) {
    && DistinctEntries(m)
    && (forall v :: HasKey(m, v) <==> v in keys)
    && (forall t :: 0 <= t < |m| ==> start <= m[t].1 < next)
    && (forall k :: start <= k < next ==> Used(m, k))
  }

  /** The keys of a pass over a partition of the symbols are the symbols. */
  lemma KeysOfPartition(files: Usage, groups: Groups, start: nat, mayShare: bool)
    requires Known(files, groups) && Partition(groups, files.Keys)
    ensures forall v :: HasKey(AssignIds(files, groups, start, mayShare).0, v) <==> v in files
  {
    IdsKeys(files, groups, start, mayShare);
    forall v ensures InSomeGroup(groups, v) <==> v in files {
      if v in files {
        assert InSomeGroup(groups, v);
      }
      if InSomeGroup(groups, v) {
        var g :| 0 <= g < |groups| && v in groups[g];
        assert groups[g] <= files.Keys;
      }
    }
  }

  lemma NumberedKeys(files: Usage, start: nat, mayShare: bool)
    ensures forall v :: HasKey(Numbered(files, start, mayShare).0, v) <==> v in files
  {
    var groups := GroupsOf(files);
    NumberedIs(files, groups, start, mayShare);
    GroupsPartition(files);
    KeysOfPartition(files, groups, start, mayShare);
  }

  /** A pass over a conflict-free partition of the symbols gives every
      symbol exactly one entry and numbers them from `start` without a gap. */
  lemma PassWell(files: Usage, groups: Groups, start: nat, mayShare: bool)
    requires Known(files, groups) && Partition(groups, files.Keys)
    ensures start <= AssignIds(files, groups, start, mayShare).1
    ensures WellNumbered(AssignIds(files, groups, start, mayShare).0, files.Keys, start, AssignIds(files, groups, start, mayShare).1)
  {
    IdsDistinctKeys(files, groups, start, mayShare);
    IdsInRange(files, groups, start, mayShare);
    IdsContiguous(files, groups, start, mayShare);
    KeysOfPartition(files, groups, start, mayShare);
  }

  /** The naming pass gives every collected symbol exactly one entry and
      numbers them from `start` without a gap. */
  lemma NumberedWell(files: Usage, start: nat, mayShare: bool)
    ensures start <= Numbered(files, start, mayShare).1
    ensures WellNumbered(Numbered(files, start, mayShare).0, files.Keys, start, Numbered(files, start, mayShare).1)
  {
    var groups := GroupsOf(files);
    NumberedIs(files, groups, start, mayShare);
    GroupsPartition(files);
    PassWell(files, groups, start, mayShare);
  }

  /** Without sharing, there are exactly as many numbers as symbols, and
      no two entries share one. */
  lemma NumberedUnshared(files: Usage, start: nat)
    ensures Numbered(files, start, false).1 == start + |Numbered(files, start, false).0|
    ensures forall t, u :: 0 <= t < u < |Numbered(files, start, false).0| ==>
      Numbered(files, start, false).0[t].1 != Numbered(files, start, false).0[u].1
  {
    GroupsPartition(files);
    UnsharedIds(files, GroupsOf(files), start);
  }

  /** Two entries with one number belong to one group, whose members
      never share a file. */
  lemma ApartOfConflictFree(files: Usage, groups: Groups, start: nat, mayShare: bool, t: nat, u: nat)
    requires Known(files, groups) && ConflictFree(files, groups)
    requires t < |AssignIds(files, groups, start, mayShare).0| && u < |AssignIds(files, groups, start, mayShare).0|
    requires AssignIds(files, groups, start, mayShare).0[t].0 != AssignIds(files, groups, start, mayShare).0[u].0
    requires AssignIds(files, groups, start, mayShare).0[t].1 == AssignIds(files, groups, start, mayShare).0[u].1
    ensures AssignIds(files, groups, start, mayShare).0[t].0 in files && AssignIds(files, groups, start, mayShare).0[u].0 in files
    ensures files[AssignIds(files, groups, start, mayShare).0[t].0] !! files[AssignIds(files, groups, start, mayShare).0[u].0]
  {
    var m := AssignIds(files, groups, start, mayShare).0;
    IdsSameGroup(files, groups, start, mayShare);
    var g :| 0 <= g < |groups| && m[t].0 in groups[g] && m[u].0 in groups[g];
    assert groups[g] <= files.Keys;
  }

  lemma NumberedApart(files: Usage, start: nat, mayShare: bool, m: Ids, t: nat, u: nat)
    requires m == Numbered(files, start, mayShare).0
    requires t < |m| && u < |m| && m[t].0 != m[u].0 && m[t].1 == m[u].1
    ensures m[t].0 in files && m[u].0 in files && files[m[t].0] !! files[m[u].0]
  {
    var groups := GroupsOf(files);
    NumberedIs(files, groups, start, mayShare);
    GroupsPartition(files);
    ApartOfConflictFree(files, groups, start, mayShare, t, u);
  }

  /** The lookup in the dictionary built from distinct entries finds the
      entry's own name. */
  lemma {:induction false} LookupNamed(m: Ids, t: nat)
    requires DistinctEntries(m) && t < |m|
    ensures Lookup(m[t].0, NameEntries(m)) == Name(m[t].1)
    decreases |m|
  {
    var n := |m| - 1;
    if t < n {
      assert NameEntries(m)[..n] == NameEntries(m[..n]);
      LookupNamed(m[..n], t);
    }
  }

  /** The new names a list of entries gives. */
  ghost function NamesOf(m: Ids): (names: set<string>) {
    set t | 0 <= t < |m| :: Name(m[t].1)
  }

  lemma NamesOfSnoc(m: Ids)
    requires m != []
    ensures NamesOf(m) == NamesOf(m[..|m| - 1]) + {Name(m[|m| - 1].1)}
  {
    var n := |m| - 1;
    forall x | x in NamesOf(m) ensures x in NamesOf(m[..n]) + {Name(m[n].1)} {
      var t :| 0 <= t < |m| && x == Name(m[t].1);
      if t < n { assert m[..n][t] == m[t]; }
    }
  }

  /** A list of entries gives at most one name per entry. */
  lemma {:induction false} NamesOfBound(m: Ids)
    ensures |NamesOf(m)| <= |m|
    decreases |m|
  {
    if m != [] {
      NamesOfBound(m[..|m| - 1]);
      NamesOfSnoc(m);
    }
  }

  /** Entries with distinct numbers give one name each. */
  lemma {:induction false} NamesOfDistinct(m: Ids)
    requires forall t, u :: 0 <= t < u < |m| ==> m[t].1 != m[u].1
    ensures |NamesOf(m)| == |m|
    decreases |m|
  {
    if m != [] {
      var n := |m| - 1;
      NamesOfDistinct(m[..n]);
      NamesOfSnoc(m);
      forall x | x in NamesOf(m[..n]) ensures x != Name(m[n].1) {
        var t :| 0 <= t < n && x == Name(m[..n][t].1);
        NameInjective(m[t].1, m[n].1);
      }
    }
  }

  /** Distinct entries hold as many symbols as the set of their keys. */
  lemma {:induction false} EntriesCard(m: Ids, keys: set<string>)
    requires DistinctEntries(m)
    requires forall v :: HasKey(m, v) <==> v in keys
    ensures |keys| == |m|
    decreases |m|
  {
    if m != [] {
      var n := |m| - 1;
      forall v ensures HasKey(m[..n], v) <==> v in keys - {m[n].0} {
        if HasKey(m[..n], v) {
          var t :| 0 <= t < n && m[..n][t].0 == v;
          assert m[t].0 == v;
          assert HasKey(m, v);
        }
        if v in keys - {m[n].0} {
          var t :| 0 <= t < |m| && m[t].0 == v;
          assert m[..n][t].0 == v;
        }
      }
      EntriesCard(m[..n], keys - {m[n].0});
      assert HasKey(m, m[n].0);
    }
  }

  /** The names of well-numbered entries are exactly `p<start>` up to the
      last number. */
  lemma NamesOfRange(m: Ids, keys: set<string>, start: nat, next: nat)
    requires WellNumbered(m, keys, start, next)
    ensures NamesOf(m) == set k | start <= k < next :: Name(k)
  {
    forall x | x in (set k | start <= k < next :: Name(k)) ensures x in NamesOf(m) {
      var k :| start <= k < next && x == Name(k);
      assert Used(m, k);
      var t :| 0 <= t < |m| && m[t].1 == k;
    }
  }

  /** Two adjacent ranges of names make up the range they span. */
  lemma NameRangeUnion(a: nat, b: nat, c: nat)
    requires a <= b <= c
    ensures (set k | a <= k < b :: Name(k)) + (set k | b <= k < c :: Name(k)) == set k | a <= k < c :: Name(k)
  {
    var all := set k | a <= k < c :: Name(k);
    forall x | x in all
      ensures x in (set k | a <= k < b :: Name(k)) + (set k | b <= k < c :: Name(k))
    {
      var k :| a <= k < c && x == Name(k);
      if k < b {
        assert x in (set k | a <= k < b :: Name(k));
      } else {
        assert x in (set k | b <= k < c :: Name(k));
      }
    }
  }
}
