/**
 Layered configuration (app/config.py): files are merged recursively, lowest priority first,
 and the file that supplies max_steps is remembered.
 */
module ConfigLayers {
  import opened Options

  /** A configuration value: a scalar, a list, or a section of named values. */
  datatype Value = Leaf(text: string) | List(items: seq<string>) | Section(entries: map<string, Value>)

  const NOTHING := Section(map[])

  // ---------------------------------------------------------------- merging

  function Merged(base: Value, overlay: Value): Value
    decreases overlay
  {
    if base.Section? && overlay.Section? then
      Section(map k | k in base.entries.Keys + overlay.entries.Keys ::
        if k !in overlay.entries then base.entries[k]
        else if k !in base.entries then overlay.entries[k]
        else Merged(base.entries[k], overlay.entries[k]))
    else overlay
  }

  method DeepMerge(base: Value, overlay: Value) returns (out: Value)
    requires base.Section? && overlay.Section?
    ensures out == Merged(base, overlay)
    decreases overlay
  {
    var entries := base.entries;
    var todo := overlay.entries.Keys;
    while todo != {}
      invariant todo <= overlay.entries.Keys
      invariant entries.Keys == base.entries.Keys + (overlay.entries.Keys - todo)
      invariant forall k :: k in entries ==>
        entries[k] == if k in overlay.entries && k !in todo then Merged(base, overlay).entries[k] else base.entries[k]
      decreases todo
    {
      var k :| k in todo;
      var v := overlay.entries[k];
      if v.Section? && k in entries && entries[k].Section? {
        var merged := DeepMerge(entries[k], v);
        entries := entries[k := merged];
      } else {
        entries := entries[k := v];
      }
      todo := todo - {k};
    }
    out := Section(entries);
    assert entries.Keys == base.entries.Keys + overlay.entries.Keys;
  }

  // ---------------------------------------------------------------- what a merge means, path by path

  /** The value at a path, unless it is missing or a section. */
  function ValueAt(v: Value, path: seq<string>): Option<Value>
    decreases |path|
  {
    if path == [] then (if v.Section? then None else Some(v))
    else if v.Section? && path[0] in v.entries then ValueAt(v.entries[path[0]], path[1..])
    else None
  }

  /** The layer has an opinion about the path: it leads somewhere, or is cut short by a value. */
  predicate Decides(v: Value, path: seq<string>)
    decreases |path|
  {
    path == [] || !v.Section? || (path[0] in v.entries && Decides(v.entries[path[0]], path[1..]))
  }

  lemma {:induction false} UndecidedIsMissing(v: Value, path: seq<string>)
    ensures !Decides(v, path) ==> ValueAt(v, path) == None
    decreases |path|
  {
    if path != [] && v.Section? && path[0] in v.entries {
      UndecidedIsMissing(v.entries[path[0]], path[1..]);
    }
  }

  /** At every path the overlay wins where it decides, and the base shows through elsewhere. */
  lemma {:induction false} MergedAt(base: Value, overlay: Value, path: seq<string>)
    ensures ValueAt(Merged(base, overlay), path)
         == if Decides(overlay, path) then ValueAt(overlay, path) else ValueAt(base, path)
    decreases |path|
  {
    UndecidedIsMissing(overlay, path);
    if path != [] && base.Section? && overlay.Section? && path[0] in base.entries && path[0] in overlay.entries {
      MergedAt(base.entries[path[0]], overlay.entries[path[0]], path[1..]);
    }
  }

  function Folded(layers: seq<Value>): Value {
    if layers == [] then NOTHING else Merged(Folded(layers[..|layers| - 1]), layers[|layers| - 1])
  }

  /** The last layer that decides the path. */
  function LastDecider(layers: seq<Value>, path: seq<string>): (i: Option<nat>)
    ensures i.None? <==> forall j :: 0 <= j < |layers| ==> !Decides(layers[j], path)
    ensures i.Some? ==> i.value < |layers| && Decides(layers[i.value], path)
    ensures i.Some? ==> forall j :: i.value < j < |layers| ==> !Decides(layers[j], path)
  {
    if layers == [] then None
    else if Decides(layers[|layers| - 1], path) then Some(|layers| - 1)
    else
      assert forall j :: 0 <= j < |layers| - 1 ==> layers[..|layers| - 1][j] == layers[j];
      LastDecider(layers[..|layers| - 1], path)
  }

  /** Each path holds the value of the last layer that decides it. */
  lemma {:induction false} FoldedAt(layers: seq<Value>, path: seq<string>)
    ensures ValueAt(Folded(layers), path) ==
      match LastDecider(layers, path) case None => None case Some(i) => ValueAt(layers[i], path)
  {
    if layers != [] {
      FoldedAt(layers[..|layers| - 1], path);
      MergedAt(Folded(layers[..|layers| - 1]), layers[|layers| - 1], path);
    }
  }

  // ---------------------------------------------------------------- algebra

  lemma MergeIdentity(v: Value)
    requires v.Section?
    ensures Merged(NOTHING, v) == v && Merged(v, NOTHING) == v
  {
    assert Merged(NOTHING, v).entries == v.entries;
    assert Merged(v, NOTHING).entries == v.entries;
  }

  /** The overlay has an entry for every entry of the base, sections within sections. */
  predicate Covers(overlay: Value, base: Value)
    decreases overlay
  {
    overlay.Section? && base.Section? ==>
      forall k :: k in base.entries ==> k in overlay.entries && Covers(overlay.entries[k], base.entries[k])
  }

  lemma {:induction false} MergeIsOverlayIff(base: Value, overlay: Value)
    ensures Merged(base, overlay) == overlay <==> Covers(overlay, base)
    decreases overlay
  {
    if base.Section? && overlay.Section? {
      var m := Merged(base, overlay);
      forall k | k in base.entries && k in overlay.entries
        ensures m.entries[k] == overlay.entries[k] <==> Covers(overlay.entries[k], base.entries[k])
      {
        MergeIsOverlayIff(base.entries[k], overlay.entries[k]);
      }
      if Covers(overlay, base) {
        assert m.entries == overlay.entries;
      }
    }
  }

  lemma {:induction false} CoversItself(v: Value)
    ensures Covers(v, v)
    decreases v
  {
    if v.Section? {
      forall k | k in v.entries ensures Covers(v.entries[k], v.entries[k]) {
        CoversItself(v.entries[k]);
      }
    }
  }

  lemma {:induction false} MergeIdempotent(v: Value)
    ensures Merged(v, v) == v
  {
    CoversItself(v);
    MergeIsOverlayIff(v, v);
  }

  /**
   Nowhere does the middle layer replace a section by a plain value between a section below it
   and one above it, unless the upper section covers the lower one anyway.
   */
  predicate Associates(a: Value, b: Value, c: Value)
    decreases c
  {
    if !a.Section? || !c.Section? then true
    else if !b.Section? then Covers(c, a)
    else forall k :: k in a.entries && k in b.entries && k in c.entries ==>
      Associates(a.entries[k], b.entries[k], c.entries[k])
  }

  /** Merging is associative exactly on such layers. */
  lemma {:induction false} MergeAssociativeIff(a: Value, b: Value, c: Value)
    ensures Merged(Merged(a, b), c) == Merged(a, Merged(b, c)) <==> Associates(a, b, c)
    decreases c
  {
    if a.Section? && c.Section? {
      if !b.Section? {
        MergeIsOverlayIff(a, c);
      } else {
        var left, right := Merged(Merged(a, b), c), Merged(a, Merged(b, c));
        assert left.entries.Keys == right.entries.Keys;
        forall k | k in left.entries
          ensures left.entries[k] == right.entries[k] <==>
            (k in a.entries && k in b.entries && k in c.entries ==>
              Associates(a.entries[k], b.entries[k], c.entries[k]))
        {
          if k in a.entries && k in b.entries && k in c.entries {
            MergeAssociativeIff(a.entries[k], b.entries[k], c.entries[k]);
          }
        }
        if Associates(a, b, c) {
          assert left.entries == right.entries;
        }
      }
    }
  }

  /** A plain value between a section and an emptier one. */
  lemma NotAlwaysAssociative()
    ensures var a, b, c := Section(map["k" := Section(map["x" := Leaf("1")])]), Section(map["k" := Leaf("2")]),
                           Section(map["k" := NOTHING]);
            Merged(Merged(a, b), c) != Merged(a, Merged(b, c))
  {
    var a, b := Section(map["k" := Section(map["x" := Leaf("1")])]), Section(map["k" := Leaf("2")]);
    var c := Section(map["k" := NOTHING]);
    assert "x" in a.entries["k"].entries && !Covers(c.entries["k"], a.entries["k"]);
    assert "k" in a.entries && "k" in b.entries && "k" in c.entries;
    MergeAssociativeIff(a, b, c);
  }

  // ---------------------------------------------------------------- loading the files

  /** A candidate file: absent, unreadable, holding no mapping, or holding a layer. */
  datatype File = Missing | Broken | NoMapping | Holds(entries: map<string, Value>)

  datatype Candidate = Candidate(path: string, file: File)

  datatype LoadResult = ConfigError(path: string) | Loaded(config: Value)

  const MAX_STEPS_KEY := "max_steps"

  /** An empty list at the top level is no opinion. */
  function Cleaned(entries: map<string, Value>): map<string, Value> {
    map k | k in entries && !(entries[k].List? && entries[k].items == []) :: entries[k]
  }

  function LayerOf(file: File): Value {
    if file.Holds? then Section(Cleaned(file.entries)) else NOTHING
  }

  function LayersOf(candidates: seq<Candidate>): seq<Value> {
    seq(|candidates|, i requires 0 <= i < |candidates| => LayerOf(candidates[i].file))
  }

  predicate DefinesSteps(c: Candidate) {
    MAX_STEPS_KEY in LayerOf(c.file).entries
  }

  /** The path of the last candidate that defines max_steps. */
  function StepsFile(candidates: seq<Candidate>): Option<string> {
    if candidates == [] then None
    else if DefinesSteps(candidates[|candidates| - 1]) then Some(candidates[|candidates| - 1].path)
    else StepsFile(candidates[..|candidates| - 1])
  }

  predicate FirstBroken(candidates: seq<Candidate>, i: nat) {
    i < |candidates| && candidates[i].file.Broken? && forall j :: 0 <= j < i ==> !candidates[j].file.Broken?
  }

  class Config {
    var maxStepsFile: Option<string>

    constructor ()
      ensures maxStepsFile == None
    {
      maxStepsFile := None;
    }

    method LoadConfigFiles(candidates: seq<Candidate>) returns (result: LoadResult)
      modifies this
      ensures result.ConfigError? <==> exists i :: 0 <= i < |candidates| && candidates[i].file.Broken?
      ensures result.ConfigError? ==> exists i: nat ::
        FirstBroken(candidates, i) && candidates[i].path == result.path
      ensures result.Loaded? ==> result.config == Folded(LayersOf(candidates))
      ensures result.Loaded? ==>
        maxStepsFile == if StepsFile(candidates).Some? then StepsFile(candidates) else old(maxStepsFile)
    {
      var merged := NOTHING;
      for i := 0 to |candidates|
        invariant merged.Section? && merged == Folded(LayersOf(candidates[..i]))
        invariant maxStepsFile ==
          if StepsFile(candidates[..i]).Some? then StepsFile(candidates[..i]) else old(maxStepsFile)
        invariant forall j :: 0 <= j < i ==> !candidates[j].file.Broken?
      {
        var c := candidates[i];
        NextLayer(candidates, i);
        if c.file.Broken? {
          assert FirstBroken(candidates, i);
          return ConfigError(c.path);
        }
        if c.file.Holds? {
          var data := Cleaned(c.file.entries);
          if data != map[] {
            merged := DeepMerge(merged, Section(data));
            if MAX_STEPS_KEY in data {
              maxStepsFile := Some(c.path);
            }
          } else {
            MergeIdentity(merged);
          }
        } else {
          MergeIdentity(merged);
        }
      }
      assert candidates[..|candidates|] == candidates;
      result := Loaded(merged);
    }
  }

  lemma NextLayer(candidates: seq<Candidate>, i: nat)
    requires i < |candidates|
    ensures Folded(LayersOf(candidates[..i + 1]))
         == Merged(Folded(LayersOf(candidates[..i])), LayerOf(candidates[i].file))
    ensures StepsFile(candidates[..i + 1])
         == if DefinesSteps(candidates[i]) then Some(candidates[i].path) else StepsFile(candidates[..i])
  {
    var longer := candidates[..i + 1];
    assert longer[..i] == candidates[..i];
    var layers := LayersOf(longer);
    assert layers[..i] == LayersOf(candidates[..i]);
  }

  /** The candidate says something of this key: an empty list does not, nor does a file that holds no mapping. */
  predicate Speaks(c: Candidate, key: string) {
    c.file.Holds? && key in c.file.entries && c.file.entries[key] != List([])
  }

  predicate LastToSpeak(candidates: seq<Candidate>, i: nat, key: string) {
    && i < |candidates| && Speaks(candidates[i], key)
    && forall j :: i < j < |candidates| ==> !Speaks(candidates[j], key)
  }

  lemma LastLayer(base: Value, c: Candidate, key: string)
    requires base.Section?
    ensures Merged(base, LayerOf(c.file)).Section?
    ensures var entries := Merged(base, LayerOf(c.file)).entries;
      && (key in entries <==> key in base.entries || Speaks(c, key))
      && (!Speaks(c, key) && key in base.entries ==> entries[key] == base.entries[key])
      && (Speaks(c, key) && !c.file.entries[key].Section? ==> entries[key] == c.file.entries[key])
  {
  }

  /**
   The value of a top-level key: missing if no file speaks of it; else, unless the last file that
   does gives a section, what that file gives.
   */
  lemma {:induction false} TopLevelIs(candidates: seq<Candidate>, key: string)
    ensures Folded(LayersOf(candidates)).Section?
    ensures var entries := Folded(LayersOf(candidates)).entries;
      && (key in entries <==> exists i :: 0 <= i < |candidates| && Speaks(candidates[i], key))
      && forall i: nat :: LastToSpeak(candidates, i, key) && !candidates[i].file.entries[key].Section? ==>
        key in entries && entries[key] == candidates[i].file.entries[key]
    decreases |candidates|
  {
    if candidates != [] {
      var n := |candidates| - 1;
      var before := candidates[..n];
      TopLevelIs(before, key);
      NextLayer(candidates, n);
      assert candidates[..n + 1] == candidates;
      forall i | 0 <= i < n ensures Speaks(before[i], key) == Speaks(candidates[i], key) {
        assert before[i] == candidates[i];
      }
      assert key in LayerOf(candidates[n].file).entries <==> Speaks(candidates[n], key);
      forall i: nat | i < n && LastToSpeak(candidates, i, key) ensures LastToSpeak(before, i, key) {
        forall j | i < j < n ensures !Speaks(before[j], key) {
          assert before[j] == candidates[j];
        }
      }
      LastLayer(Folded(LayersOf(before)), candidates[n], key);
    }
  }

  lemma {:induction false} StepsFileIsDecider(candidates: seq<Candidate>)
    ensures var d := LastDecider(LayersOf(candidates), [MAX_STEPS_KEY]);
      && (StepsFile(candidates).Some? <==> d.Some?)
      && (d.Some? ==> StepsFile(candidates) == Some(candidates[d.value].path))
  {
    if candidates != [] {
      var n := |candidates| - 1;
      var layers := LayersOf(candidates);
      assert layers[..n] == LayersOf(candidates[..n]);
      assert [MAX_STEPS_KEY][1..] == [];
      assert Decides(layers[n], [MAX_STEPS_KEY]) <==> DefinesSteps(candidates[n]);
      StepsFileIsDecider(candidates[..n]);
    }
  }

  predicate InEffect(candidates: seq<Candidate>, i: nat)
    requires i < |candidates|
  {
    ValueAt(Folded(LayersOf(candidates)), [MAX_STEPS_KEY]) == ValueAt(LayerOf(candidates[i].file), [MAX_STEPS_KEY])
  }

  /** The remembered file is the one whose max_steps is in effect. */
  lemma StepsComeFromRememberedFile(candidates: seq<Candidate>)
    ensures match StepsFile(candidates)
      case None => ValueAt(Folded(LayersOf(candidates)), [MAX_STEPS_KEY]) == None
      case Some(path) => exists i :: 0 <= i < |candidates| && candidates[i].path == path
                                     && DefinesSteps(candidates[i]) && InEffect(candidates, i)
  {
    StepsFileIsDecider(candidates);
    FoldedAt(LayersOf(candidates), [MAX_STEPS_KEY]);
    assert [MAX_STEPS_KEY][1..] == [];
  }
}
