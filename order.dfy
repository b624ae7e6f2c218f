/** Python's ordering of `str` values (code point by code point, a proper
    prefix first) and `sorted(...)` over lists and sets of strings. */
module Order {

  /** `a <= b` on Python strings. */
  predicate LexLe(a: string, b: string) {
    a == [] || (b != [] && (a[0] < b[0] || (a[0] == b[0] && LexLe(a[1..], b[1..]))))
  }

  /** `a < b` on Python strings. */
  predicate LexLess(a: string, b: string) {
    LexLe(a, b) && a != b
  }

  lemma {:induction false} LexLeRefl(a: string)
    ensures LexLe(a, a)
  {
    if a != [] { LexLeRefl(a[1..]); }
  }

  lemma {:induction false} LexLeTotal(a: string, b: string)
    ensures LexLe(a, b) || LexLe(b, a)
  {
    if a != [] && b != [] && a[0] == b[0] { LexLeTotal(a[1..], b[1..]); }
  }

  lemma {:induction false} LexLeAntisym(a: string, b: string)
    requires LexLe(a, b) && LexLe(b, a)
    ensures a == b
  {
    if a != [] && b != [] {
      LexLeAntisym(a[1..], b[1..]);
      assert a == [a[0]] + a[1..] && b == [b[0]] + b[1..];
    }
  }

  lemma {:induction false} LexLeTrans(a: string, b: string, c: string)
    requires LexLe(a, b) && LexLe(b, c)
    ensures LexLe(a, c)
  {
    if a != [] && b != [] && c != [] && a[0] == b[0] && b[0] == c[0] {
      LexLeTrans(a[1..], b[1..], c[1..]);
    }
  }

  /** The three facts above, for every string at once. */
  lemma LexOrder()
    ensures forall a, b :: LexLe(a, b) || LexLe(b, a)
    ensures forall a, b :: LexLe(a, b) && LexLe(b, a) ==> a == b
    ensures forall a, b, c :: LexLe(a, b) && LexLe(b, c) ==> LexLe(a, c)
  {
    forall a, b ensures LexLe(a, b) || LexLe(b, a) { LexLeTotal(a, b); }
    forall a, b | LexLe(a, b) && LexLe(b, a) ensures a == b { LexLeAntisym(a, b); }
    forall a, b, c | LexLe(a, b) && LexLe(b, c) ensures LexLe(a, c) { LexLeTrans(a, b, c); }
  }

  predicate Sorted(s: seq<string>) {
    forall i, j :: 0 <= i < j < |s| ==> LexLe(s[i], s[j])
  }

  /** Sorted without duplicates: what `sorted(...)` of a set yields. */
  predicate StrictlySorted(s: seq<string>) {
    forall i, j :: 0 <= i < j < |s| ==> LexLess(s[i], s[j])
  }

  function Insert(x: string, s: seq<string>): (r: seq<string>)
    requires Sorted(s)
    ensures Sorted(r) && multiset(r) == multiset(s) + multiset{x}
  {
    if s == [] then [x]
    else if LexLe(x, s[0]) then
      LeastOfSorted(x, s);
      ConsSorted(x, s);
      [x] + s
    else
      var t := Insert(x, s[1..]);
      HeadBelowInserted(x, s, t);
      ConsSorted(s[0], t);
      assert s == [s[0]] + s[1..];
      [s[0]] + t
  }

  /** Below the head of a sorted sequence is below all of it. */
  lemma LeastOfSorted(x: string, s: seq<string>)
    requires Sorted(s) && s != [] && LexLe(x, s[0])
    ensures forall j :: 0 <= j < |s| ==> LexLe(x, s[j])
  {
    forall j | 0 <= j < |s| ensures LexLe(x, s[j]) {
      if j > 0 { LexLeTrans(x, s[0], s[j]); }
    }
  }

  /** The head of a sorted sequence stays below the rest with a larger
      element inserted. */
  lemma HeadBelowInserted(x: string, s: seq<string>, t: seq<string>)
    requires Sorted(s) && s != [] && !LexLe(x, s[0])
    requires multiset(t) == multiset(s[1..]) + multiset{x}
    ensures forall j :: 0 <= j < |t| ==> LexLe(s[0], t[j])
  {
    LexLeTotal(x, s[0]);
    forall j | 0 <= j < |t| ensures LexLe(s[0], t[j]) {
      assert t[j] in multiset(t);
      if t[j] != x {
        assert t[j] in multiset(s[1..]);
        var k :| 0 <= k < |s[1..]| && s[1..][k] == t[j];
        assert s[k + 1] == t[j];
      }
    }
  }

  /** A sorted sequence stays sorted with a least element put in front. */
  lemma ConsSorted(x: string, s: seq<string>)
    requires Sorted(s) && forall j :: 0 <= j < |s| ==> LexLe(x, s[j])
    ensures Sorted([x] + s)
  {
    var r := [x] + s;
    forall i, j | 0 <= i < j < |r| ensures LexLe(r[i], r[j]) {
      if i > 0 { assert r[i] == s[i - 1] && r[j] == s[j - 1]; }
    }
  }

  /** `sorted(xs)` for a list of strings: an ordered permutation of `xs`. */
  function Sort(xs: seq<string>): (r: seq<string>)
    ensures Sorted(r) && multiset(r) == multiset(xs)
  {
    if xs == [] then []
    else
      assert xs == [xs[0]] + xs[1..];
      Insert(xs[0], Sort(xs[1..]))
  }

  /** Every non-empty finite set of strings has a least element. */
  lemma {:induction false} LeastExists(s: set<string>)
    requires s != {}
    ensures exists m :: m in s && forall y :: y in s ==> LexLe(m, y)
    decreases s
  {
    var x :| x in s;
    if s == {x} {
      LexLeRefl(x);
    } else {
      LeastExists(s - {x});
      var m :| m in s - {x} && forall y :: y in s - {x} ==> LexLe(m, y);
      LexOrder();
      if LexLe(m, x) {
        assert forall y :: y in s ==> LexLe(m, y);
      } else {
        assert forall y :: y in s ==> LexLe(x, y);
      }
    }
  }

  /** `sorted(s)` for a set of strings: its members in increasing order. */
  ghost function SortedSet(s: set<string>): (r: seq<string>)
    ensures StrictlySorted(r) && |r| == |s|
    ensures forall x :: x in r <==> x in s
    decreases s
  {
    if s == {} then []
    else
      LeastExists(s);
      var m :| m in s && forall y :: y in s ==> LexLe(m, y);
      var rest := SortedSet(s - {m});
      assert forall j :: 0 <= j < |rest| ==> LexLess(m, rest[j]) by {
        forall j | 0 <= j < |rest| ensures LexLess(m, rest[j]) {
          assert rest[j] in s - {m};
        }
      }
      [m] + rest
  }

  /** The first element of a strictly sorted sequence is below all others. */
  lemma HeadIsLeast(r: seq<string>)
    requires StrictlySorted(r) && r != []
    ensures forall x :: x in r ==> LexLe(r[0], x)
  {
    forall x | x in r ensures LexLe(r[0], x) {
      var i :| 0 <= i < |r| && r[i] == x;
      if i > 0 { assert LexLess(r[0], r[i]); } else { LexLeRefl(x); }
    }
  }

  /** Two strictly sorted sequences with the same members are equal. */
  lemma {:induction false} StrictlySortedUnique(r: seq<string>, t: seq<string>)
    requires StrictlySorted(r) && StrictlySorted(t)
    requires forall x :: x in r <==> x in t
    ensures r == t
    decreases |r|
  {
    assert t != [] ==> t[0] in r;
    if r == [] {
    } else {
      assert t != [] by { assert r[0] in t; }
      HeadIsLeast(r);
      HeadIsLeast(t);
      assert r[0] in t && t[0] in r;
      LexLeAntisym(r[0], t[0]);
      forall x ensures x in r[1..] <==> x in t[1..] {
        TailMembers(r, x);
        TailMembers(t, x);
      }
      StrictlySortedUnique(r[1..], t[1..]);
      assert r == [r[0]] + r[1..] && t == [t[0]] + t[1..];
    }
  }

  lemma TailMembers(r: seq<string>, x: string)
    requires StrictlySorted(r) && r != []
    ensures x in r[1..] <==> (x in r && x != r[0])
  {
    if x in r[1..] {
      var i :| 0 <= i < |r[1..]| && r[1..][i] == x;
      assert LexLess(r[0], r[i + 1]);
    }
    if x in r && x != r[0] {
      var i :| 0 <= i < |r| && r[i] == x;
      assert r[1..][i - 1] == x;
    }
  }

  /** A strictly sorted sequence is the only ordering of its members that
      `SortedSet` can produce. */
  lemma SortedSetUnique(r: seq<string>, s: set<string>)
    requires StrictlySorted(r)
    requires forall x :: x in r <==> x in s
    ensures r == SortedSet(s)
  {
    StrictlySortedUnique(r, SortedSet(s));
  }

  /** `sorted(s)` for a set of strings, as a program computes it: take the
      least remaining member until none is left. */
  method SortedMembers(s: set<string>) returns (r: seq<string>)
    ensures r == SortedSet(s)
  {
    r := [];
    var rest := s;
    while rest != {}
      invariant rest <= s
      invariant StrictlySorted(r)
      invariant forall x :: x in r <==> x in s - rest
      invariant forall x, y :: x in r && y in rest ==> LexLess(x, y)
      decreases rest
    {
      LeastExists(rest);
      var m :| m in rest && forall y :: y in rest ==> LexLe(m, y);
      assert forall x :: x in r ==> LexLess(x, m);
      r := r + [m];
      rest := rest - {m};
      forall x, y | x in r && y in rest ensures LexLess(x, y) {
        if x == m { assert LexLe(m, y); }
      }
    }
    SortedSetUnique(r, s);
  }
}
