/** The `.part` declaration format and the `.ltlf` formula text: how
    `LTLFPair.load_files` reads them and how `LTLFPair.write_files` writes
    them (merge_ltlf.py). A file's content arrives as its list of lines
    (what `readlines()` returns) or its text (what `read()` returns);
    `None` stands for a file that does not exist. */
module PartFormat {
  import opened Wrappers
  import opened Text
  import opened Order

  /** The exceptions `load_files` raises. */
  datatype LoadError =
    | PartNotFound    // FileNotFoundError for the .part file
    | TooFewLines     // ValueError: fewer than two lines
    | MissingInputs   // ValueError: first line is not an `.inputs:` line
    | MissingOutputs  // ValueError: second line is not an `.outputs:` line
    | LtlfNotFound    // FileNotFoundError for the .ltlf file
    | EmptyFormula    // ValueError: blank .ltlf file

  /** What a loaded pair holds. */
  datatype Part = Part(inputs: seq<string>, outputs: seq<string>, formula: string)

  const InputsKeyword: string := ".inputs:"
  const OutputsKeyword: string := ".outputs:"

  /** One declaration line: when the stripped line starts with `keyword`,
      the whitespace-separated symbols between its first and second colon. */
  function Declared(line: string, keyword: string): (syms: Option<seq<string>>)
    requires keyword != [] && keyword[|keyword| - 1] == ':'
  {
    var t := Strip(line);
    if StartsWith(t, keyword) then
      assert t[|keyword| - 1] == ':';
      Some(Split(Strip(SecondColonField(t))))
    else None
  }

  /** Both declaration lines of a `.part` file. */
  function ParseDeclarations(lines: seq<string>): (r: Result<(seq<string>, seq<string>), LoadError>) {
    if |lines| < 2 then Failure(TooFewLines)
    else match Declared(lines[0], InputsKeyword)
      case None => Failure(MissingInputs)
      case Some(inputs) =>
        match Declared(lines[1], OutputsKeyword)
        case None => Failure(MissingOutputs)
        case Some(outputs) => Success((inputs, outputs))
  }

  /** The formula of a `.ltlf` file: its stripped text, which must not be empty. */
  function ParseFormula(text: string): (r: Result<string, LoadError>)
    ensures r.Success? ==> r.value != [] && !IsSpace(r.value[0]) && !IsSpace(r.value[|r.value| - 1])
  {
    var f := Strip(text);
    if f == [] then Failure(EmptyFormula) else Success(f)
  }

  /** `load_files` as a whole: the .part file is read first, then the .ltlf file. */
  function ParsePart(partFile: Option<seq<string>>, ltlfFile: Option<string>): (r: Result<Part, LoadError>) {
    if partFile.None? then Failure(PartNotFound)
    else match ParseDeclarations(partFile.value)
      case Failure(e) => Failure(e)
      case Success((inputs, outputs)) =>
        if ltlfFile.None? then Failure(LtlfNotFound)
        else match ParseFormula(ltlfFile.value)
          case Failure(e) => Failure(e)
          case Success(formula) => Success(Part(inputs, outputs, formula))
  }

  /** Each way `load_files` can fail, with the exception it raises. */
  lemma ParsePartFailures(partFile: Option<seq<string>>, ltlfFile: Option<string>)
    ensures partFile.None? ==> ParsePart(partFile, ltlfFile) == Failure(PartNotFound)
    ensures partFile.Some? && |partFile.value| < 2 ==> ParsePart(partFile, ltlfFile) == Failure(TooFewLines)
    ensures partFile.Some? && |partFile.value| >= 2 && !StartsWith(Strip(partFile.value[0]), ".inputs:")
      ==> ParsePart(partFile, ltlfFile) == Failure(MissingInputs)
    ensures partFile.Some? && |partFile.value| >= 2 && StartsWith(Strip(partFile.value[0]), ".inputs:")
      && !StartsWith(Strip(partFile.value[1]), ".outputs:")
      ==> ParsePart(partFile, ltlfFile) == Failure(MissingOutputs)
    ensures partFile.Some? && |partFile.value| >= 2 && StartsWith(Strip(partFile.value[0]), ".inputs:")
      && StartsWith(Strip(partFile.value[1]), ".outputs:") && ltlfFile.None?
      ==> ParsePart(partFile, ltlfFile) == Failure(LtlfNotFound)
    ensures partFile.Some? && |partFile.value| >= 2 && StartsWith(Strip(partFile.value[0]), ".inputs:")
      && StartsWith(Strip(partFile.value[1]), ".outputs:") && ltlfFile.Some?
      && Strip(ltlfFile.value) == []
      ==> ParsePart(partFile, ltlfFile) == Failure(EmptyFormula)
    ensures ParsePart(partFile, ltlfFile).Success? <==>
      partFile.Some? && |partFile.value| >= 2 && StartsWith(Strip(partFile.value[0]), ".inputs:")
      && StartsWith(Strip(partFile.value[1]), ".outputs:")
      && ltlfFile.Some? && Strip(ltlfFile.value) != []
    ensures ParsePart(partFile, ltlfFile).Success? ==> ParsePart(partFile, ltlfFile).value.formula == Strip(ltlfFile.value)
  {
  }

  /** The fields of the pair after `load_files`, given their values
      `before`: each field is assigned as soon as its part is parsed, so a
      failure late in the sequence leaves the earlier assignments in place. */
  function AfterLoad(partFile: Option<seq<string>>, ltlfFile: Option<string>, before: Part): (after: Part) {
    if partFile.None? || |partFile.value| < 2 then before
    else match Declared(partFile.value[0], InputsKeyword)
      case None => before
      case Some(inputs) =>
        match Declared(partFile.value[1], OutputsKeyword)
        case None => before.(inputs := inputs)
        case Some(outputs) =>
          if ltlfFile.None? then Part(inputs, outputs, before.formula)
          else Part(inputs, outputs, Strip(ltlfFile.value))
  }

  /** A successful load leaves exactly the parsed values in the fields,
      whatever they held before. */
  lemma AfterLoadSuccess(partFile: Option<seq<string>>, ltlfFile: Option<string>, before: Part)
    requires ParsePart(partFile, ltlfFile).Success?
    ensures AfterLoad(partFile, ltlfFile, before) == ParsePart(partFile, ltlfFile).value
  {
  }

  /** The two lines `write_files` puts in the `.part` file. */
  function FormatPart(inputs: seq<string>, outputs: seq<string>): (lines: seq<string>)
    ensures |lines| == 2
  {
    [ InputsKeyword + " " + Join(Sort(inputs), " ") + "\n",
      OutputsKeyword + " " + Join(Sort(outputs), " ") + "\n" ]
  }

  /** `write_files`: the `.ltlf` text (the formula as it is) and the
      `.part` lines. */
  function WriteFiles(formula: string, inputs: seq<string>, outputs: seq<string>): (files: (string, seq<string>))
  {
    (formula, FormatPart(inputs, outputs))
  }

  /** A symbol that survives a write and a read: non-empty, with no
      whitespace and no colon. */
  predicate Plain(sym: string) {
    sym != [] && NoSpace(sym) && ':' !in sym
  }

  /** Reading back what `write_files` wrote gives the sorted symbol lists
      (empty ones included) and the stripped formula. */
  lemma WriteThenLoad(formula: string, inputs: seq<string>, outputs: seq<string>)
    requires forall i :: 0 <= i < |inputs| ==> Plain(inputs[i])
    requires forall i :: 0 <= i < |outputs| ==> Plain(outputs[i])
    requires Strip(formula) != []
    ensures var (ltlf, part) := WriteFiles(formula, inputs, outputs);
      ParsePart(Some(part), Some(ltlf)) == Success(Part(Sort(inputs), Sort(outputs), Strip(formula)))
  {
    FormatThenParse(inputs, outputs);
  }

  lemma FormatThenParse(inputs: seq<string>, outputs: seq<string>)
    requires forall i :: 0 <= i < |inputs| ==> Plain(inputs[i])
    requires forall i :: 0 <= i < |outputs| ==> Plain(outputs[i])
    ensures ParseDeclarations(FormatPart(inputs, outputs)) == Success((Sort(inputs), Sort(outputs)))
  {
    KeywordShape(InputsKeyword);
    KeywordShape(OutputsKeyword);
    DeclaredLine(InputsKeyword, Sort(inputs), inputs);
    DeclaredLine(OutputsKeyword, Sort(outputs), outputs);
  }

  /** Both keywords are a dot, a colon-free word and a final colon. */
  predicate KeywordLike(keyword: string) {
    |keyword| >= 2 && keyword[0] == '.' && keyword[|keyword| - 1] == ':'
    && ':' !in keyword[..|keyword| - 1]
  }

  lemma KeywordShape(keyword: string)
    requires keyword == InputsKeyword || keyword == OutputsKeyword
    ensures KeywordLike(keyword)
  {
    assert forall i :: 0 <= i < |keyword| - 1 ==> keyword[i] != ':';
  }

  lemma PlainPermutation(xs: seq<string>, ys: seq<string>)
    requires multiset(xs) == multiset(ys)
    requires forall i :: 0 <= i < |ys| ==> Plain(ys[i])
    ensures forall i :: 0 <= i < |xs| ==> Plain(xs[i])
  {
    forall i | 0 <= i < |xs| ensures Plain(xs[i]) {
      assert xs[i] in multiset(ys);
      var j :| 0 <= j < |ys| && ys[j] == xs[i];
    }
  }

  /** A written declaration line reads back as the list it was written from. */
  lemma DeclaredLine(keyword: string, xs: seq<string>, original: seq<string>)
    requires KeywordLike(keyword)
    requires multiset(xs) == multiset(original)
    requires forall i :: 0 <= i < |original| ==> Plain(original[i])
    ensures Declared(keyword + " " + Join(xs, " ") + "\n", keyword) == Some(xs)
  {
    PlainPermutation(xs, original);
    JoinPlain(xs);
    StripWrittenLine(keyword, Join(xs, " "));
    FieldOfWrittenLine(keyword, Join(xs, " "));
    SplitJoin(xs);
  }

  /** A written declaration line once stripped: the keyword, then one blank
      and the symbols if there are any. */
  function WrittenLine(keyword: string, j: string): (line: string) {
    if j == [] then keyword else keyword + " " + j
  }

  lemma StripWrittenLine(keyword: string, j: string)
    requires KeywordLike(keyword)
    requires j == [] || (!IsSpace(j[0]) && !IsSpace(j[|j| - 1]))
    ensures Strip(keyword + " " + j + "\n") == WrittenLine(keyword, j)
  {
    var line := keyword + " " + j + "\n";
    assert TrimLeft(line) == line;
    assert line == (keyword + " " + j) + ['\n'];
    TrimRightSpace(keyword + " " + j, '\n');
    if j == [] {
      assert keyword + " " + j == keyword + [' '];
      TrimRightSpace(keyword, ' ');
    }
  }

  lemma FieldOfWrittenLine(keyword: string, j: string)
    requires KeywordLike(keyword)
    requires ':' !in j
    requires j == [] || (!IsSpace(j[0]) && !IsSpace(j[|j| - 1]))
    ensures var t := WrittenLine(keyword, j);
      StartsWith(t, keyword) && ':' in t && Strip(SecondColonField(t)) == j
  {
    var word := keyword[..|keyword| - 1];
    var rest := if j == [] then [] else " " + j;
    WrittenLineShape(keyword, j);
    BlankThen(j);
    SecondColonFieldAfter(word, rest);
    UpToColonNoColon(rest);
  }

  /** A written line is the keyword's word, its colon, then the rest. */
  lemma WrittenLineShape(keyword: string, j: string)
    requires KeywordLike(keyword)
    ensures var t := WrittenLine(keyword, j);
      StartsWith(t, keyword) && ':' !in keyword[..|keyword| - 1]
      && t == keyword[..|keyword| - 1] + [':'] + (if j == [] then [] else " " + j)
  {
    var t := WrittenLine(keyword, j);
    assert keyword == keyword[..|keyword| - 1] + [':'];
    assert t[..|keyword|] == keyword;
  }

  /** The symbols after the blank that follows the colon: colon-free, and
      stripping gives them back. */
  lemma BlankThen(j: string)
    requires ':' !in j
    requires j == [] || (!IsSpace(j[0]) && !IsSpace(j[|j| - 1]))
    ensures var rest := if j == [] then [] else " " + j;
      ':' !in rest && Strip(rest) == j
  {
    if j != [] {
      assert (" " + j)[1..] == j;
      assert TrimLeft(" " + j) == TrimLeft(j) == j;
      assert TrimRight(j) == j;
    }
  }

  lemma TrimRightSpace(x: string, c: char)
    requires IsSpace(c)
    ensures TrimRight(x + [c]) == TrimRight(x)
  {
    assert (x + [c])[..|x|] == x;
  }

  lemma {:induction false} SecondColonFieldAfter(p: string, r: string)
    requires ':' !in p
    ensures ':' in p + [':'] + r
    ensures SecondColonField(p + [':'] + r) == UpToColon(r)
    decreases |p|
  {
    var s := p + [':'] + r;
    assert s[|p|] == ':';
    if p != [] {
      assert s[1..] == p[1..] + [':'] + r;
      SecondColonFieldAfter(p[1..], r);
    } else {
      assert s[1..] == r;
    }
  }

  lemma {:induction false} UpToColonNoColon(s: string)
    requires ':' !in s
    ensures UpToColon(s) == s
  {
    if s != [] {
      UpToColonNoColon(s[1..]);
      assert s == [s[0]] + s[1..];
    }
  }

  /** What `" ".join` of plain symbols looks like: no colon, and either
      empty or starting and ending with a non-blank. */
  lemma {:induction false} JoinPlain(xs: seq<string>)
    requires forall i :: 0 <= i < |xs| ==> Plain(xs[i])
    ensures var j := Join(xs, " ");
      ':' !in j && (j == [] <==> xs == []) && (j != [] ==> !IsSpace(j[0]) && !IsSpace(j[|j| - 1]))
  {
    if |xs| > 1 {
      JoinPlain(xs[1..]);
      var rest := Join(xs[1..], " ");
      assert Join(xs, " ") == xs[0] + " " + rest;
    }
  }
}
