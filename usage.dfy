/** The first stage of `LTLFMerger.merge_pairs` (merge_ltlf.py): for each
    symbol, the set of files (identified by their `.ltlf` path) whose
    inputs, or whose outputs, declare it. */
module Usage {
  import opened Pairs

  /** What `merge_pairs` reads from one loaded pair. */
  datatype PairView = PairView(path: string, formula: string, inputs: seq<string>, outputs: seq<string>)

  /** The two declaration roles, each collected into its own dictionary. */
  datatype Role = Inputs | Outputs

  function Symbols(p: PairView, role: Role): (syms: seq<string>) {
    if role == Inputs then p.inputs else p.outputs
  }

  /** `Dict[str, Set[str]]`: symbol to the paths of the files declaring it. */
  type Usage = map<string, set<string>>

  /** The fields of the loaded pairs. */
  function View(pairs: seq<LtlfPair>): (views: seq<PairView>)
    reads set i | 0 <= i < |pairs| :: pairs[i]
  {
    seq(|pairs|, i reads set i | 0 <= i < |pairs| :: pairs[i] requires 0 <= i < |pairs| =>
      PairView(pairs[i].ltlfPath, pairs[i].formula, pairs[i].inputs, pairs[i].outputs))
  }

  /** The inner loop: every symbol of `vars` gets `path` added to its set,
      a new symbol starting from the empty set. */
  function AddUses(u: Usage, vars: seq<string>, path: string): (added: Usage)
    decreases |vars|
  {
    if vars == [] then u
    else
      var r := AddUses(u, vars[..|vars| - 1], path);
      var v := vars[|vars| - 1];
      r[v := (if v in r then r[v] else {}) + {path}]
  }

  /** After the inner loop a symbol is known when it was before or is
      one of `vars`. */
  lemma {:induction false} AddUsesKey(u: Usage, vars: seq<string>, path: string, v: string)
    ensures v in AddUses(u, vars, path) <==> v in u || v in vars
    decreases |vars|
  {
    if vars != [] {
      var n := |vars| - 1;
      AddUsesKey(u, vars[..n], path, v);
      assert v in vars <==> v in vars[..n] || v == vars[n] by {
        assert vars == vars[..n] + [vars[n]];
      }
    }
  }

  /** After the inner loop a symbol's set holds its former paths, and
      `path` when it is one of `vars`. */
  lemma {:induction false} AddUsesFile(u: Usage, vars: seq<string>, path: string, v: string, f: string)
    ensures (v in AddUses(u, vars, path) && f in AddUses(u, vars, path)[v]) <==>
      (v in u && f in u[v]) || (v in vars && f == path)
    decreases |vars|
  {
    if vars != [] {
      var n := |vars| - 1;
      AddUsesFile(u, vars[..n], path, v, f);
      assert v in vars <==> v in vars[..n] || v == vars[n] by {
        assert vars == vars[..n] + [vars[n]];
      }
    }
  }

  /** The outer loop over the pairs, for one role. */
  function CollectUsage(views: seq<PairView>, role: Role): (usage: Usage)
    decreases |views|
  {
    if views == [] then map[]
    else
      var last := views[|views| - 1];
      AddUses(CollectUsage(views[..|views| - 1], role), Symbols(last, role), last.path)
  }

  predicate DeclaredBy(views: seq<PairView>, role: Role, v: string) {
    exists i :: 0 <= i < |views| && v in Symbols(views[i], role)
  }

  predicate DeclaredIn(views: seq<PairView>, role: Role, v: string, f: string) {
    exists i :: 0 <= i < |views| && views[i].path == f && v in Symbols(views[i], role)
  }

  lemma {:induction false} CollectedSymbol(views: seq<PairView>, role: Role, v: string)
    ensures v in CollectUsage(views, role) <==> DeclaredBy(views, role, v)
    decreases |views|
  {
    if views != [] {
      var n := |views| - 1;
      var init := views[..n];
      CollectedSymbol(init, role, v);
      AddUsesKey(CollectUsage(init, role), Symbols(views[n], role), views[n].path, v);
      if DeclaredBy(init, role, v) {
        var i :| 0 <= i < |init| && v in Symbols(init[i], role);
        assert views[i] == init[i];
      }
      if DeclaredBy(views, role, v) && v !in Symbols(views[n], role) {
        var i :| 0 <= i < |views| && v in Symbols(views[i], role);
        assert init[i] == views[i];
      }
    }
  }

  lemma {:induction false} CollectedFile(views: seq<PairView>, role: Role, v: string, f: string)
    ensures (v in CollectUsage(views, role) && f in CollectUsage(views, role)[v]) <==> DeclaredIn(views, role, v, f)
    decreases |views|
  {
    if views != [] {
      var n := |views| - 1;
      var init := views[..n];
      CollectedFile(init, role, v, f);
      AddUsesFile(CollectUsage(init, role), Symbols(views[n], role), views[n].path, v, f);
      if DeclaredIn(init, role, v, f) {
        var i :| 0 <= i < |init| && init[i].path == f && v in Symbols(init[i], role);
        assert views[i] == init[i];
      }
      if DeclaredIn(views, role, v, f) && !(views[n].path == f && v in Symbols(views[n], role)) {
        var i :| 0 <= i < |views| && views[i].path == f && v in Symbols(views[i], role);
        assert init[i] == views[i];
      }
    }
  }

  /** A symbol is collected exactly when some pair declares it in that role,
      and a path is recorded for it exactly when a pair with that path
      declares it. */
  lemma UsageMeaning(views: seq<PairView>, role: Role)
    ensures forall v :: v in CollectUsage(views, role) <==> DeclaredBy(views, role, v)
    ensures forall v, f :: v in CollectUsage(views, role) && f in CollectUsage(views, role)[v] <==>
      DeclaredIn(views, role, v, f)
  {
    forall v ensures v in CollectUsage(views, role) <==> DeclaredBy(views, role, v) {
      CollectedSymbol(views, role, v);
    }
    forall v, f ensures v in CollectUsage(views, role) && f in CollectUsage(views, role)[v] <==>
      DeclaredIn(views, role, v, f)
    {
      CollectedFile(views, role, v, f);
    }
  }

  /** Two symbols declared by the same pair in the same role have a file
      in common. */
  lemma SharedFile(views: seq<PairView>, role: Role, i: nat, v: string, w: string)
    requires i < |views| && v in Symbols(views[i], role) && w in Symbols(views[i], role)
    ensures v in CollectUsage(views, role) && w in CollectUsage(views, role)
    ensures views[i].path in CollectUsage(views, role)[v] * CollectUsage(views, role)[w]
  {
    UsageMeaning(views, role);
  }

  /** One inner loop: `path` added to the set of every symbol of `vars`,
      a new symbol getting an empty set first. */
  method AddAll(files: Usage, vars: seq<string>, path: string) returns (r: Usage)
    ensures r == AddUses(files, vars, path)
  {
    r := files;
    var j := 0;
    while j < |vars|
      invariant 0 <= j <= |vars|
      invariant r == AddUses(files, vars[..j], path)
    {
      assert vars[..j + 1][..j] == vars[..j];
      var v := vars[j];
      if v !in r {
        r := r[v := {}];
      }
      r := r[v := r[v] + {path}];
      j := j + 1;
    }
    assert vars[..j] == vars;
  }

  /** The loop of lines 182-195: each pair's inputs and outputs in turn. */
  method CollectVariables(pairs: seq<LtlfPair>) returns (inputVars: Usage, outputVars: Usage)
    ensures inputVars == CollectUsage(View(pairs), Inputs)
    ensures outputVars == CollectUsage(View(pairs), Outputs)
  {
    inputVars := map[];
    outputVars := map[];
    ghost var views := View(pairs);
    var i := 0;
    while i < |pairs|
      invariant 0 <= i <= |pairs|
      invariant inputVars == CollectUsage(views[..i], Inputs)
      invariant outputVars == CollectUsage(views[..i], Outputs)
    {
      var pair := pairs[i];
      assert views[i] == PairView(pair.ltlfPath, pair.formula, pair.inputs, pair.outputs);
      CollectUsageStep(views, Inputs, i);
      CollectUsageStep(views, Outputs, i);
      inputVars := AddAll(inputVars, pair.inputs, pair.ltlfPath);
      outputVars := AddAll(outputVars, pair.outputs, pair.ltlfPath);
      i := i + 1;
    }
    assert views[..i] == views;
  }

  /** One more pair: its symbols added to those of the pairs before it. */
  lemma CollectUsageStep(views: seq<PairView>, role: Role, i: nat)
    requires i < |views|
    ensures CollectUsage(views[..i + 1], role) ==
      AddUses(CollectUsage(views[..i], role), Symbols(views[i], role), views[i].path)
  {
    assert views[..i + 1][..i] == views[..i];
  }
}
