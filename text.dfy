/** Python's whitespace handling on `str`, as used by `.part` parsing:
    `strip()`, `split()` without argument, `split(':')`, `startswith`,
    `" ".join(...)`, and `count(c)`. */
module Text {

  /** The characters for which Python's `str.isspace()` holds; `strip()` and
      `split()` without argument treat exactly these as whitespace. */
  predicate IsSpace(c: char) {
    c == ' ' || ('\t' <= c <= '\r') || ('\U{1C}' <= c <= '\U{1F}')
    || c == '\U{85}' || c == '\U{A0}' || c == '\U{1680}'
    || ('\U{2000}' <= c <= '\U{200A}') || c == '\U{2028}' || c == '\U{2029}'
    || c == '\U{202F}' || c == '\U{205F}' || c == '\U{3000}'
  }

  /** A character that the regular-expression class `\w` matches on ASCII
      text: a letter, a digit or the underscore. */
  predicate IsWordChar(c: char) {
    ('a' <= c <= 'z') || ('A' <= c <= 'Z') || ('0' <= c <= '9') || c == '_'
  }

  /** A non-empty run of word characters: a whole identifier token. */
  predicate IsWord(s: string) {
    s != [] && forall i :: 0 <= i < |s| ==> IsWordChar(s[i])
  }

  predicate NoSpace(s: string) {
    forall i :: 0 <= i < |s| ==> !IsSpace(s[i])
  }

  /** `s.lstrip()` */
  function TrimLeft(s: string): (r: string)
    ensures |r| <= |s|
    ensures r == [] || !IsSpace(r[0])
    ensures forall i :: 0 <= i < |s| - |r| ==> IsSpace(s[i])
  {
    if s != [] && IsSpace(s[0]) then TrimLeft(s[1..]) else s
  }

  /** `s.rstrip()` */
  function TrimRight(s: string): (r: string)
    ensures |r| <= |s|
    ensures r == [] || !IsSpace(r[|r| - 1])
    ensures forall i :: |r| <= i < |s| ==> IsSpace(s[i])
  {
    if s != [] && IsSpace(s[|s| - 1]) then TrimRight(s[..|s| - 1]) else s
  }

  /** What `lstrip` leaves is a suffix of its argument. */
  lemma {:induction false} TrimLeftSuffix(s: string)
    ensures TrimLeft(s) == s[|s| - |TrimLeft(s)|..]
    decreases |s|
  {
    if s != [] && IsSpace(s[0]) {
      TrimLeftSuffix(s[1..]);
    }
  }

  /** What `rstrip` leaves is a prefix of its argument. */
  lemma {:induction false} TrimRightPrefix(s: string)
    ensures TrimRight(s) == s[..|TrimRight(s)|]
    decreases |s|
  {
    if s != [] && IsSpace(s[|s| - 1]) {
      TrimRightPrefix(s[..|s| - 1]);
    }
  }

  /** `s.strip()`: the result has no whitespace at either end. */
  function Strip(s: string): (r: string)
    ensures r == [] || (!IsSpace(r[0]) && !IsSpace(r[|r| - 1]))
  {
    TrimRightPrefix(TrimLeft(s));
    TrimRight(TrimLeft(s))
  }

  /** Length of the longest prefix of `s` free of whitespace. */
  function NonSpaceRun(s: string): (k: nat)
    ensures k <= |s|
    ensures forall i :: 0 <= i < k ==> !IsSpace(s[i])
    ensures k < |s| ==> IsSpace(s[k])
  {
    if s == [] || IsSpace(s[0]) then 0 else 1 + NonSpaceRun(s[1..])
  }

  /** `s.split()`: the maximal whitespace-free runs of `s`, in order. */
  function Split(s: string): (r: seq<string>)
    ensures forall i :: 0 <= i < |r| ==> r[i] != [] && NoSpace(r[i])
    decreases |s|
  {
    var t := TrimLeft(s);
    if t == [] then [] else
      var k := NonSpaceRun(t);
      [t[..k]] + Split(t[k..])
  }

  /** `sep.join(xs)` */
  function Join(xs: seq<string>, sep: string): (joined: string) {
    if xs == [] then []
    else if |xs| == 1 then xs[0]
    else xs[0] + sep + Join(xs[1..], sep)
  }

  predicate StartsWith(s: string, prefix: string) {
    |prefix| <= |s| && s[..|prefix|] == prefix
  }

  /** `s.split(':')[1]`: the text between the first and the second colon
      (or the end of `s`). Python raises when `s` has no colon; callers
      establish one through a `StartsWith` check. */
  function SecondColonField(s: string): (field: string)
    requires ':' in s
  {
    if s[0] == ':' then UpToColon(s[1..]) else SecondColonField(s[1..])
  }

  function UpToColon(s: string): (r: string)
    ensures |r| <= |s| && r == s[..|r|] && ':' !in r
    ensures |r| < |s| ==> s[|r|] == ':'
  {
    if s == [] || s[0] == ':' then [] else [s[0]] + UpToColon(s[1..])
  }

  /** `s.count(c)` for a one-character `c`. */
  function Count(s: string, c: char): (n: nat) {
    if s == [] then 0 else (if s[0] == c then 1 else 0) + Count(s[1..], c)
  }

  lemma {:induction false} CountAppend(a: string, b: string, c: char)
    ensures Count(a + b, c) == Count(a, c) + Count(b, c)
  {
    if a == [] {
      assert a + b == b;
    } else {
      assert (a + b)[1..] == a[1..] + b;
      CountAppend(a[1..], b, c);
    }
  }

  /** `Split` undoes `Join` with a single space when no part is empty or
      holds whitespace. */
  lemma {:induction false} SplitJoin(xs: seq<string>)
    requires forall i :: 0 <= i < |xs| ==> xs[i] != [] && NoSpace(xs[i])
    ensures Split(Join(xs, " ")) == xs
  {
    if xs == [] {
      assert Split([]) == [];
    } else if |xs| == 1 {
      SplitWord(xs[0], []);
      assert xs[0] + [] == xs[0];
      assert Split([]) == [];
      assert [xs[0]] == xs;
    } else {
      SplitJoinStep(xs);
      SplitJoin(xs[1..]);
      assert [xs[0]] + xs[1..] == xs;
    }
  }

  lemma SplitJoinStep(xs: seq<string>)
    requires |xs| >= 2
    requires forall i :: 0 <= i < |xs| ==> xs[i] != [] && NoSpace(xs[i])
    ensures Split(Join(xs, " ")) == [xs[0]] + Split(Join(xs[1..], " "))
  {
    var rest := Join(xs[1..], " ");
    JoinStart(xs[1..]);
    assert Join(xs, " ") == xs[0] + (" " + rest);
    SplitWord(xs[0], " " + rest);
    SplitSkipsSpace(rest);
  }

  /** Splitting a whitespace-free word followed by `b` (empty or starting
      with whitespace) yields the word and then the split of `b`. */
  lemma SplitWord(a: string, b: string)
    requires a != [] && NoSpace(a)
    requires b == [] || IsSpace(b[0])
    ensures Split(a + b) == [a] + Split(b)
  {
    var s := a + b;
    assert TrimLeft(s) == s;
    NonSpaceRunOfNoSpace(a, b);
    assert s[..|a|] == a;
    assert s[|a|..] == b;
  }

  lemma NonSpaceRunOfNoSpace(a: string, b: string)
    requires NoSpace(a)
    requires b == [] || IsSpace(b[0])
    ensures NonSpaceRun(a + b) == |a|
  {
    if a != [] {
      assert (a + b)[1..] == a[1..] + b;
      NonSpaceRunOfNoSpace(a[1..], b);
    }
  }

  lemma JoinStart(xs: seq<string>)
    requires forall i :: 0 <= i < |xs| ==> xs[i] != [] && NoSpace(xs[i])
    ensures var j := Join(xs, " "); j == [] || !IsSpace(j[0])
  {
  }

  lemma SplitSkipsSpace(rest: string)
    requires rest == [] || !IsSpace(rest[0])
    ensures Split(" " + rest) == Split(rest)
  {
    assert (" " + rest)[1..] == rest;
  }
}
