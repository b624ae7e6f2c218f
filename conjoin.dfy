/** How `LTLFMerger.merge_pairs` (merge_ltlf.py, lines 313-325) joins the
    relabelled formulas: the first one as it is, each further one as
    `(acc && f)`. */
module Conjoin {
  import opened Text

  const LParen: string := "("
  const AndSep: string := " && "
  const RParen: string := ")"

  /** The merged formula of `fs`: empty for none, unwrapped for one. */
  function Conjoin(fs: seq<string>): (joined: string)
    decreases |fs|
  {
    if fs == [] then []
    else if |fs| == 1 then fs[0]
    else LParen + Conjoin(fs[..|fs| - 1]) + AndSep + fs[|fs| - 1] + RParen
  }

  /** `needle` occurs in `s` at index `i`. */
  predicate OccursAt(s: string, needle: string, i: int) {
    0 <= i && i + |needle| <= |s| && s[i..i + |needle|] == needle
  }

  /** `needle in s` */
  predicate Contains(s: string, needle: string) {
    exists i :: 0 <= i <= |s| && OccursAt(s, needle, i)
  }

  /** A single formula comes back as it is; from two on the result is
      wrapped in parentheses and holds ` && `. */
  lemma ConjoinShape(fs: seq<string>)
    ensures |fs| == 0 ==> Conjoin(fs) == []
    ensures |fs| == 1 ==> Conjoin(fs) == fs[0]
    ensures |fs| >= 2 ==> |Conjoin(fs)| >= 6 && Conjoin(fs)[0] == '(' && Conjoin(fs)[|Conjoin(fs)| - 1] == ')'
    ensures |fs| >= 2 ==> Contains(Conjoin(fs), AndSep)
  {
    if |fs| >= 2 {
      var acc := Conjoin(fs[..|fs| - 1]);
      var r := Conjoin(fs);
      assert r == LParen + acc + AndSep + fs[|fs| - 1] + RParen;
      var i := 1 + |acc|;
      assert r[i..i + 4] == AndSep;
      assert OccursAt(r, AndSep, i);
    }
  }

  /** The number of `(` minus the number of `)`. */
  function Balance(s: string): (b: int) {
    Count(s, '(') - Count(s, ')')
  }

  function SumBalance(fs: seq<string>): (total: int)
    decreases |fs|
  {
    if fs == [] then 0 else SumBalance(fs[..|fs| - 1]) + Balance(fs[|fs| - 1])
  }

  /** Joining adds as many `(` as `)`: the balance of the merged formula
      is the sum of the balances of its parts. */
  lemma {:induction false} ConjoinBalance(fs: seq<string>)
    ensures Balance(Conjoin(fs)) == SumBalance(fs)
    decreases |fs|
  {
    if |fs| == 1 {
      assert fs[..0] == [];
    } else if |fs| >= 2 {
      var init := fs[..|fs| - 1];
      var acc := Conjoin(init);
      var last := fs[|fs| - 1];
      ConjoinBalance(init);
      CountAppend(LParen + acc + AndSep + last, RParen, '(');
      CountAppend(LParen + acc + AndSep + last, RParen, ')');
      CountAppend(LParen + acc + AndSep, last, '(');
      CountAppend(LParen + acc + AndSep, last, ')');
      CountAppend(LParen + acc, AndSep, '(');
      CountAppend(LParen + acc, AndSep, ')');
      CountAppend(LParen, acc, '(');
      CountAppend(LParen, acc, ')');
      assert Count(RParen, '(') == 0 && Count(RParen, ')') == 1;
      assert Count(LParen, '(') == 1 && Count(LParen, ')') == 0;
      assert Count(AndSep, '(') == 0 && Count(AndSep, ')') == 0;
    }
  }
}
