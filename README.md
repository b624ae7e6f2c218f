# merge_ltlf: a verified model of the LTLf pair merger

`merge_ltlf.py` merges several LTLf specifications into one. Each
specification is a *pair* of files:

- a `.ltlf` file holds a temporal formula;
- a `.part` file declares which atomic propositions are inputs and which
  are outputs. Its first line is `.inputs: a b c` and its second
  `.outputs: x y`.

`LTLFMerger.merge_pairs` renames the propositions of all pairs to fresh
names `p1`, `p2`, … and joins the relabelled formulas with `&&`. It
returns the joined formula together with the sorted new input names and
the sorted new output names.

The renaming works in stages:

1. For each proposition it collects the set of files that declare it, one
   dictionary for inputs and one for outputs.
2. It groups the propositions greedily, in lexicographic order. A
   proposition joins the first group none of whose members shares a file
   with it.
3. It numbers the groups. Inputs come first, from 1. An input group gets a
   single shared name only when no two of its members share a file and,
   for some two members of the group, some input other than those two
   occurs in a file with the one and in a file with the other. Otherwise
   every member gets its own name. Every output gets its own name, numbered after the inputs.
4. For each pair it relabels the formula with the input mapping, one
   whole-word replacement per dictionary entry. It joins the results as
   `(merged && next)` and collects the new names of the declared symbols.

## Structure

| module | file | models |
|---|---|---|
| `Wrappers` | wrappers.dfy | `Option`, `Result` |
| `Text` | text.dfy | `str.strip`, `str.split()`, `' '.join`, `startswith`, `split(':')[1]`, character counts |
| `Order` | order.dfy | Python's string order, `sorted` on a list and on a set |
| `Names` | names.dfy | the fresh names `f"p{n}"` |
| `Tokens` | tokens.dfy | `re.sub(rf'\b{old}\b', new, s)` on runs of word and non-word characters, and `relabel_variables` |
| `PartFormat` | part_format.dfy | the `.part` and `.ltlf` formats: parsing with every error case, writing, the round trip |
| `Pairs` | pairs.dfy | classes `VariableManager` and `LTLFPair` |
| `Usage` | usage.dfy | the loop collecting `input_vars` and `output_vars` |
| `Grouping` | grouping.dfy | the greedy grouping loops |
| `MergeRule` | merge_rule.dfy | `common_vars` and `should_merge` |
| `Naming` | naming.dfy | the two naming passes that build `input_mapping` and `output_mapping` |
| `Numbering` | numbering.dfy | what a naming pass yields: one entry per symbol, numbers without gaps |
| `Conjoin` | conjoin.dfy | joining formulas as `(a && b)` |
| `Merge` | merge.dfy | the value `merge_pairs` returns, and its properties |
| `Merger` | merger.dfy | class `LTLFMerger` and its method `merge_pairs` |

Values and classes follow the source:

- `VariableManager`, `LTLFPair` and `LTLFMerger` are classes whose methods
  update their fields.
- The loops of `merge_pairs` are methods with loop invariants. Each method
  is proved equal to a specification function, and the properties are
  lemmas about those functions.
- A dictionary whose iteration order matters (`input_mapping`, which
  `relabel_variables` walks in order) is a sequence of entries.
- The usage dictionaries, whose keys are sorted before use, are `map`s.

File contents are parameters of type `Option`, where `None` stands for a
missing file.

Facts about the code that the model keeps as they are:

- A single pair's formula is not wrapped in parentheses (lines 322-325).
- `merge_pairs` runs no check on what it returns.
- Names are sorted as strings, so `p10` sorts before `p2` (line 333).
- A formula is relabelled with `input_mapping` alone (lines 319-320). A
  symbol in a formula that some pair declares as an input ends as an
  input name, even where this pair declares it as an output: the merged
  formula names it by one of the returned inputs, never by a returned
  output, while the returned outputs hold its output name
  (`Merge.FormulaOutputAsInput`). Because of the chained renaming
  described under "Findings", that input name need not be the symbol's
  own. A symbol that no pair declares as an input keeps its old name in
  the formula, while the returned output list holds its new name
  (`Merge.FormulaKeepsUndeclared`).
  The docstring's promise of conflict resolution between inputs and
  outputs (lines 160-161) holds for the returned lists
  (`Merge.MergedRolesDisjoint`), not for the formula.
- A group of inputs shares one name only under the rule of lines 270-286.
- tests/test_merge_ltlf.py constructs `LTLFMerger(self.test_dir)` (line
  11), while the constructor takes no argument (merge_ltlf.py:140), and
  calls `merge_pairs(pairs)` (line 56) without the `filtered_dir`
  argument that merge_ltlf.py:156 requires.

## Model

| member | source | states |
|---|---|---|
| Pairs.VariableManager.constructor | merge_ltlf.py:23-26 | a new manager has an empty mapping and next id 1 |
| Pairs.VariableManager.GetNewVar | merge_ltlf.py:28-32 | returns `p` followed by the old counter in decimal and increments the counter, mapping unchanged |
| Pairs.VariableManager.Reset | merge_ltlf.py:34-37 | clears the mapping and sets the counter back to 1 |
| Pairs.NamesAfterReset | merge_ltlf.py:28-37 | after a reset two calls of `get_new_var` yield `p1` then `p2`, distinct, and leave the counter at 3 |
| Names.Name | merge_ltlf.py:30 | a fresh name is an identifier starting with `p` |
| Names.Decimal | merge_ltlf.py:30 | the decimal text of a number is a non-empty string of digits, one digit exactly below 10 |
| Names.NameInjective | merge_ltlf.py:290-307 | two fresh names are equal exactly when their numbers are |
| Pairs.LtlfPair.Init | merge_ltlf.py:43-49 | a new pair holds its two paths, an empty formula and no symbols |
| Pairs.Open | merge_ltlf.py:43-50 | constructing a pair succeeds exactly when its files parse, and fails with the parse error otherwise; on success the new pair holds the parsed contents |
| Pairs.LtlfPair.LoadFiles | merge_ltlf.py:52-91 | reports an error exactly when parsing fails, the error being the parse error; keeps the paths; on success the fields are the parsed contents; on failure the fields assigned before the failing step keep their new values and the rest keep their old ones |
| PartFormat.ParsePartFailures | merge_ltlf.py:64-91 | missing `.part` file, fewer than two lines, a first line not starting with `.inputs:`, a second not starting with `.outputs:`, missing `.ltlf` file and empty formula each give their own error, checked in that order; success exactly when none applies, with the stripped formula |
| PartFormat.AfterLoadSuccess | merge_ltlf.py:52-91 | after a successful load the pair's fields are exactly the parsed contents, whatever they were before |
| PartFormat.ParseFormula | merge_ltlf.py:86-89 | an accepted formula is non-empty and has no white space at either end |
| Text.Strip | merge_ltlf.py:71 | the stripped text has no white space at either end |
| Text.TrimLeft | merge_ltlf.py:71 | removes exactly the leading white space |
| Text.TrimRight | merge_ltlf.py:71 | removes exactly the trailing white space |
| Text.Split | merge_ltlf.py:74 | `split()` yields non-empty fields without white space |
| Text.NonSpaceRun | merge_ltlf.py:74 | the length of the leading run of non-space characters |
| Text.UpToColon | merge_ltlf.py:74 | the prefix before the first `:`, which holds no `:` |
| Text.SplitJoin | merge_ltlf.py:74 | splitting the space-joined list of non-empty space-free fields gives the list back |
| PartFormat.FormatPart | merge_ltlf.py:133-134 | the written `.part` file has exactly two lines |
| PartFormat.WriteThenLoad | merge_ltlf.py:117-134 | loading the files `write_files` writes (`PartFormat.WriteFiles`: the formula unchanged and the two lines of `FormatPart`) gives back the stripped formula and the sorted inputs and outputs, for any non-blank formula and symbols without white space or colon |
| PartFormat.FormatThenParse | merge_ltlf.py:132-134 | the written declaration lines parse to the sorted inputs and outputs |
| PartFormat.DeclaredLine | merge_ltlf.py:71-80 | a written declaration line parses back to the symbols written on it |
| Order.LexLeTotal | merge_ltlf.py:211 | string order is total |
| Order.LexLeAntisym | merge_ltlf.py:211 | string order is antisymmetric |
| Order.LexLeTrans | merge_ltlf.py:211 | string order is transitive |
| Order.Sort | merge_ltlf.py:133 | `sorted(list)` is sorted and a permutation of its argument |
| Order.SortedSet | merge_ltlf.py:333 | `sorted(set)` is strictly sorted, as long as the set and holds exactly its members |
| Order.StrictlySortedUnique | merge_ltlf.py:333 | two strictly sorted lists with the same members are equal |
| Order.SortedMembers | merge_ltlf.py:333 | the sorted list of a set's members |
| Tokens.Segments | merge_ltlf.py:110-114 | splits a string into alternating runs of word and non-word characters |
| Tokens.ConcatSegments | merge_ltlf.py:110-114 | the runs of a string join back to the string |
| Tokens.SegmentsOfConcat | merge_ltlf.py:110-114 | joining alternating runs and splitting again gives the runs back |
| Tokens.ReplaceWordTokens | merge_ltlf.py:110-114 | one `re.sub` with word boundaries replaces exactly the runs equal to the old name and leaves every other run unchanged |
| Tokens.ReplaceWordAbsent | merge_ltlf.py:110-114 | a name that is not a whole word of the formula leaves the formula unchanged |
| Tokens.ReplaceWordCount | merge_ltlf.py:110-114 | one replacement keeps the number of every non-word character, so brackets and operators survive |
| Tokens.RelabelTokens | merge_ltlf.py:107-115 | `relabel_variables` passes every run of the formula through the replacements in insertion order |
| Tokens.RelabelCount | merge_ltlf.py:107-115 | relabelling keeps the number of every non-word character |
| Tokens.RelabelUnmapped | merge_ltlf.py:107-115 | a formula containing no key as a whole word is returned unchanged |
| Pairs.LtlfPair.RelabelVariables | merge_ltlf.py:107-115 | returns the formula relabelled by the entries in insertion order, each whole-word occurrence of a key replaced by its image, leaving the pair unchanged |
| Tokens.RelabelChainCounterexample | merge_ltlf.py:107-115 | with entries `p3 -> p2, p2 -> p3` the token `p3` comes out as `p3`, where the simultaneous renaming gives `p2` |
| Tokens.RenameTokens | merge_ltlf.py:107-115 | the corrected relabelling replaces every run by its own image, looked up once |
| Tokens.RelabelIsRenameWhenChainFree | merge_ltlf.py:107-115 | the loop as written and the corrected relabelling agree whenever keys are distinct and no image is the key of a later entry |
| Tokens.LookupWord | merge_ltlf.py:329 | looking a run up leaves it unchanged or turns one identifier into another |
| Usage.AddAll | merge_ltlf.py:188-195 | one inner loop adds the pair's path to the set of each of its symbols, a new symbol starting from the empty set |
| Usage.AddUsesKey | merge_ltlf.py:188-191 | after the inner loop a symbol is known exactly when it was before or the pair declares it |
| Usage.AddUsesFile | merge_ltlf.py:188-191 | after the inner loop a symbol's set holds its former paths, plus the pair's path when the pair declares it |
| Usage.CollectVariables | merge_ltlf.py:182-195 | reading each pair's path and symbol lists (`Usage.View`), the loop over the pairs builds `input_vars` and `output_vars` as the fold of those inner loops |
| Usage.CollectUsageStep | merge_ltlf.py:182-195 | one more pair adds its symbols to those of the pairs before it |
| Usage.CollectedSymbol | merge_ltlf.py:182-195 | a symbol is collected exactly when some pair declares it in that role |
| Usage.CollectedFile | merge_ltlf.py:182-195 | a path is recorded for a symbol exactly when a pair with that path declares it |
| Usage.UsageMeaning | merge_ltlf.py:182-195 | both of the above, for all symbols and paths |
| Usage.SharedFile | merge_ltlf.py:188-195 | two symbols declared by one pair in one role share that pair's path |
| Grouping.CanMerge | merge_ltlf.py:217-222 | `can_merge` holds exactly when no member of the group shares a file with the symbol |
| Grouping.FirstFit | merge_ltlf.py:216-226 | the index of the first group the symbol fits, every earlier group rejecting it |
| Grouping.PlaceVariable | merge_ltlf.py:212-229 | adds the symbol to the first group it fits, or appends a new group holding only it |
| Grouping.GroupInOrder | merge_ltlf.py:211-229 | the grouping loop over a list of symbols |
| Grouping.GroupVariables | merge_ltlf.py:211-229 | the grouping of the sorted keys of a usage dictionary |
| Grouping.Extend | merge_ltlf.py:224-229 | adding to one group, or appending a group, leaves every other group unchanged |
| Grouping.PlacePartition | merge_ltlf.py:212-229 | placing a new symbol keeps the groups a partition of the symbols seen, now including it |
| Grouping.PlaceConflictFree | merge_ltlf.py:216-229 | placing a symbol keeps every group free of two members that share a file |
| Grouping.GroupingPartition | merge_ltlf.py:211-229 | grouping distinct symbols partitions them into conflict-free groups |
| Grouping.GroupsPartition | merge_ltlf.py:211-254 | the groups of a usage dictionary partition its keys, and no two members of one group share a file |
| MergeRule.CommonOfPair | merge_ltlf.py:272-278 | the other symbols occurring, through a non-empty path, with both of two symbols |
| MergeRule.CommonOfFirst | merge_ltlf.py:269-278 | the inner loops for one first symbol over every larger second symbol |
| MergeRule.FindCommonVars | merge_ltlf.py:266-279 | `common_vars` of a group |
| MergeRule.DecideMerge | merge_ltlf.py:281-286 | `should_merge` holds exactly when `common_vars` is non-empty and no two members share a file |
| MergeRule.SharedGroupsAreLarge | merge_ltlf.py:281-286 | a group that shares a name has at least two members |
| MergeRule.ShouldMergeOfGroups | merge_ltlf.py:281-286 | for a conflict-free group `should_merge` reduces to `common_vars` being non-empty |
| Naming.MapGroup | merge_ltlf.py:288-307 | naming one group appends its entries (`Naming.GroupIds`: every member numbered with the current counter for a shared group, otherwise consecutive numbers in sorted order) and advances the counter by one for a shared group, by the group's size otherwise |
| Naming.MapInputGroups | merge_ltlf.py:260-299 | the first pass builds `input_mapping` from counter 1, and returns the counter after it |
| Naming.MapOutputGroups | merge_ltlf.py:301-307 | the second pass builds `output_mapping` from the counter the first left |
| Naming.IdsInRange | merge_ltlf.py:263-307 | every number handed out lies between the start and the final counter |
| Naming.IdsContiguous | merge_ltlf.py:263-307 | every number between the start and the final counter is handed out |
| Naming.IdsKeys | merge_ltlf.py:288-307 | the keys of a pass are exactly the members of the groups |
| Naming.IdsDistinctKeys | merge_ltlf.py:288-307 | over disjoint groups no symbol gets two entries |
| Naming.IdsSameGroup | merge_ltlf.py:288-299 | two entries with the same number come from the same group |
| Naming.UnsharedIds | merge_ltlf.py:301-307 | without sharing, the counter advances by one per entry and no two entries share a number |
| Numbering.NumberedIs | merge_ltlf.py:260-307 | the pass over the groups the program computes is the pass the properties below speak of |
| Numbering.NumberedKeys | merge_ltlf.py:260-307 | a naming pass gives an entry to exactly the collected symbols |
| Numbering.NumberedWell | merge_ltlf.py:260-307 | a naming pass gives every collected symbol one entry and numbers them from the start without a gap |
| Numbering.NumberedUnshared | merge_ltlf.py:301-307 | the output pass uses one number per output, all distinct |
| Numbering.NumberedApart | merge_ltlf.py:288-293 | two symbols sharing a number never occur in the same file |
| Numbering.LookupNamed | merge_ltlf.py:290-331 | looking a symbol up in the mapping built from distinct entries (`Naming.NameEntries`: each symbol paired with `p` and its number) gives the name of its own entry |
| Numbering.NamesOfBound | merge_ltlf.py:290-299 | the entries give at most one name each |
| Numbering.NamesOfDistinct | merge_ltlf.py:303-307 | entries with distinct numbers give exactly one name each |
| Numbering.EntriesCard | merge_ltlf.py:288-307 | distinct entries over a set of keys number as many as the keys |
| Numbering.NamesOfRange | merge_ltlf.py:260-307 | the names a well-numbered pass gives are exactly `p<start>` up to `p<counter - 1>` |
| Merge.RoleMappingIs | merge_ltlf.py:260-307 | the mappings built from the collected dictionaries are the role mappings of the pairs |
| Merge.RoleFacts | merge_ltlf.py:260-307 | each role's mapping has one entry per declared symbol, numbered without a gap from where the role starts |
| Merge.CountersOrdered | merge_ltlf.py:263-307 | the input numbers start at 1 and the output numbers start where the input numbers end |
| Merge.DeclaredName | merge_ltlf.py:328-331 | every declared symbol is a key of its role's mapping, with a name numbered in the role's range |
| Merge.MappingKeys | merge_ltlf.py:260-307 | the keys of a role's mapping are exactly the symbols the pairs declare in that role |
| Merge.ImagesAreNames | merge_ltlf.py:327-331 | the collected new names are exactly the names the mapping hands out |
| Merge.ImagesAreRange | merge_ltlf.py:260-331 | the collected new names of a role are exactly `p<n>` for the numbers of that role |
| Merge.MergedRolesDisjoint | merge_ltlf.py:301-333 | no new name is both an input and an output |
| Merge.MergedNamesContiguous | merge_ltlf.py:260-333 | inputs and outputs together are exactly `p1` up to the last number, with no name skipped |
| Merge.MergedOutputsCount | merge_ltlf.py:301-307 | there are exactly as many new output names as distinct declared outputs |
| Merge.MergedInputsBound | merge_ltlf.py:265-299 | there are at most as many new input names as distinct declared inputs |
| Merge.PairInputsDistinct | merge_ltlf.py:280-299 | two different inputs of one pair get different new names |
| Merge.InputMappingWords | merge_ltlf.py:319-320 | the keys and names of `input_mapping` are identifiers, so the replacements match whole words |
| Merge.MergedSorted | merge_ltlf.py:333 | the returned names are strictly sorted and are exactly the new names of the declared symbols |
| Merge.MergeNothing | merge_ltlf.py:313-333 | no pairs give an empty formula and no names |
| Merge.MergeOne | merge_ltlf.py:322-323 | one pair gives its relabelled formula, without parentheses |
| Merge.MergeShape | merge_ltlf.py:322-325 | two pairs or more give a formula in one pair of outer parentheses containing ` && ` |
| Merge.MergeBalance | merge_ltlf.py:322-325 | the merged formula's count of `(` minus `)` is the sum of the pairs' own |
| Merge.FormulaOutputAsInput | merge_ltlf.py:317-331 | in the formula as the program relabels it, a symbol that the pair declares as an output and some pair declares as an input ends as one of the returned input names, never a returned output name |
| Merge.FormulaKeepsUndeclared | merge_ltlf.py:317-320 | in the formula as the program relabels it, a symbol that no pair declares as an input keeps its text |
| Merge.IntendedRenamesDeclared | merge_ltlf.py:317-331 | in the corrected relabelling each declared input in a formula becomes the name the returned inputs list for it |
| Merge.IntendedWhenChainFree | merge_ltlf.py:317-325 | when `input_mapping` has no chain the merged formula equals the corrected one |
| Conjoin.ConjoinShape | merge_ltlf.py:322-325 | no formulas give the empty string, one gives itself, more give `(`…`)` containing ` && ` |
| Conjoin.ConjoinBalance | merge_ltlf.py:322-325 | joining adds as many `(` as `)` |
| Merger.ConjoinSnoc | merge_ltlf.py:322-325 | the first formula is kept as it is and each later one is joined as `(merged && next)` |
| Merger.AddNames | merge_ltlf.py:328-331 | adds the new name of each symbol of a pair to the collected names |
| Merger.CollectedStep | merge_ltlf.py:327-331 | the names collected after one more pair are those before plus that pair's |
| Merger.BuildMappings | merge_ltlf.py:206-307 | the two mappings built from the usage dicts, inputs numbered from 1 and outputs from where the inputs stop, are the role mappings of the pairs, so every property proved of those mappings holds for them |
| Merger.JoinOne | merge_ltlf.py:317-331 | one turn of the loop over the pairs: the pair's formula relabelled with `input_mapping` becomes the joined formula for the first pair and is joined as `(merged && next)` otherwise, and the new names of the pair's inputs and outputs are added to those collected; `Merger.ConjoinNext` and `Merger.CollectedNext` show that each turn keeps the loop's invariant |
| Merger.JoinPairs | merge_ltlf.py:312-331 | the loop over the pairs joins the formulas relabelled with `input_mapping` (`Merge.RelabelAll`) and collects the new names of their inputs and outputs |
| Merger.LtlfMerger.constructor | merge_ltlf.py:140-142 | a new merger holds a fresh variable manager in its initial state |
| Merger.LtlfMerger.MergePairs | merge_ltlf.py:156-333 | resets the variable manager and returns exactly the merge result, so every property of `Merge` holds of its output |

## Left out

- File system access (`open`, `os.listdir`, `os.path`) is left out. A
  file's contents are an `Option` parameter, where `None` means the file
  does not exist. Read and write failures other than a missing file are
  not modelled.
- `Pairs.Open` models construction followed by the loading of line 50.
  When loading fails, the program raises and no pair exists; the model
  returns the error.
- The `load_files` call inside `merge_pairs` (line 183) is not repeated.
  `MergePairs` takes pairs that are already loaded. A successful load sets
  every field to the parsed contents (`Pairs.LtlfPair.LoadFiles`), so
  loading unchanged files again changes nothing. A reload that fails would
  raise out of `merge_pairs`; that case is not modelled.
- The debug prints of `merge_pairs` and the `print` calls elsewhere are
  left out, as is `used_vars`, which is never read.
- The `filtered_dir` parameter of `merge_pairs` is never used and is left
  out.
- `var_manager` is only reset by `merge_pairs`, which keeps its own
  counter. The model resets it and proves the reset state.
- `get_file_pairs`, `random_merge`, `main` and argument parsing are left
  out. They list a directory, draw random samples and write files.
- ascending_filter.py, file_filter.py, remove_duplicates.py and the tests
  are not part of this model.
- Pairs.LtlfPair.RelabelVariables: requires every key to be an identifier
  of ASCII letters, digits and `_`. The program puts the key into a
  regular expression unescaped, so a key holding regular-expression
  syntax is not modelled. Word characters are ASCII only. Python's `\w`
  also matches other Unicode letters and digits, so the model may differ
  where such a character stands next to a symbol in a formula. It also
  requires every image to be such an identifier. `re.sub` reads its
  replacement as a template and expands backslash escapes and group
  references (`\t`, `\1`), which the model does not do. The merger's
  own images `p<n>` are identifiers (`Merge.InputMappingWords`).
  `Merge.WordInputs` carries the key requirement up to `MergePairs`.
- Merger.LtlfMerger.MergePairs: requires `Merge.WordInputs`, for the
  reason above. It assumes `input_mapping[var]` and `output_mapping[var]`
  always find their key. `Merge.MappingKeys` proves that they do, so the
  `KeyError` path cannot occur.
- Python's string order is modelled on characters by their code points,
  which is how Python compares `str`.
- `Order.SortedSet` and the `Merge` functions are ghost. They specify
  `sorted(set)` and the merge result. The methods `Order.SortedMembers`
  and `Merger.LtlfMerger.MergePairs` compute them.

## Findings

| source | as written | input that shows it | evidently intended | confidence | as-written member | corrected member |
|---|---|---|---|---|---|---|
| merge_ltlf.py:107-115 | each entry of the mapping is applied to the result of the previous replacements, so a name produced by one entry is renamed again by a later entry whose key equals it | inputs `p1 p2` in one pair and `p3 p4` in another. The input mapping is `p1 -> p1, p3 -> p2, p2 -> p3, p4 -> p4`, and the second formula's `p3` comes out as `p3`, the first pair's new name for `p2`, where `p2` is meant | every symbol replaced once by its own new name, simultaneously | not executed | Tokens.RelabelChainCounterexample | Tokens.RelabelIsRenameWhenChainFree |

About the finding:

- `Tokens.Rename` is the corrected relabelling.
- `Tokens.RenameTokens` proves that it replaces each run by its own image.
- `Merge.IntendedFormulas` lifts it to the whole merge.
- `Merge.IntendedRenamesDeclared` proves that every declared input
  occurring in a formula then becomes exactly the name the returned input
  list holds for it.
- `Merge.IntendedWhenChainFree` proves that the program's formula equals
  the intended one whenever the mapping has no chain.

`Merger.LtlfMerger.MergePairs` keeps the loop as written, since its
result is what the program returns.
