/** How configuration layers are merged and where each value is said to come from
    (src/openhamster/config/settings.py).

    A layer is a tree of dictionaries. `Leaf` holds any value that is not a dictionary. */
module SettingsLayers {
  import opened Prelude

  datatype Node = Leaf(value: string) | Dict(children: map<string, Node>)

  type Path = seq<string>

  function Lookup(n: Node, p: Path): Option<Node>
    decreases |p|
  {
    if p == [] then Some(n)
    else if n.Dict? && p[0] in n.children then Lookup(n.children[p[0]], p[1..])
    else None
  }

  predicate HasLeaf(n: Node, p: Path) {
    Lookup(n, p).Some? && Lookup(n, p).value.Leaf?
  }

  // ----- _deep_merge -----

  function Merge(base: Node, over: Node): Node
    decreases over, 1
  {
    if base.Dict? && over.Dict? then
      Dict(map k | k in base.children.Keys + over.children.Keys ::
             if k in over.children then MergedChild(base.children, over, k) else base.children[k])
    else over
  }

  function MergedChild(base: map<string, Node>, over: Node, k: string): Node
    requires over.Dict? && k in over.children
    decreases over, 0
  {
    if k in base then Merge(base[k], over.children[k]) else over.children[k]
  }

  lemma MergeReplaces(base: map<string, Node>, over: Node, k: string)
    requires over.Dict? && k in over.children
    requires k in base ==> base[k].Leaf? || over.children[k].Leaf?
    ensures MergedChild(base, over, k) == over.children[k]
  {
  }

  lemma MergeAt(base: Node, over: Node, k: string)
    requires base.Dict? && over.Dict? && k in over.children
    ensures var merged := Merge(base, over);
            && merged.Dict? && k in merged.children
            && merged.children[k] ==
               if k in base.children && base.children[k].Dict? && over.children[k].Dict?
               then Merge(base.children[k], over.children[k]) else over.children[k]
  {
    if !(k in base.children && base.children[k].Dict? && over.children[k].Dict?) {
      MergeReplaces(base.children, over, k);
    }
  }

  /** The keys in `todo` still have to be taken over from `over`. */
  ghost predicate PartlyMerged(merged: map<string, Node>, base: Node, over: Node, todo: set<string>)
    requires base.Dict? && over.Dict?
  {
    && merged.Keys == base.children.Keys + (over.children.Keys - todo)
    && forall k | k in merged ::
         merged[k] == if k in over.children && k !in todo then Merge(base, over).children[k] else base.children[k]
  }

  lemma FullyMerged(merged: map<string, Node>, base: Node, over: Node)
    requires base.Dict? && over.Dict? && PartlyMerged(merged, base, over, {})
    ensures Dict(merged) == Merge(base, over)
  {
    assert merged == Merge(base, over).children;
  }

  lemma MergeOneKey(merged: map<string, Node>, base: Node, over: Node, todo: set<string>, k: string)
    requires base.Dict? && over.Dict? && PartlyMerged(merged, base, over, todo)
    requires k in todo && k in over.children
    ensures k in merged <==> k in base.children
    ensures k in merged ==> merged[k] == base.children[k]
    ensures PartlyMerged(merged[k := Merge(base, over).children[k]], base, over, todo - {k})
  {
  }

  method DeepMerge(base: Node, over: Node) returns (out: Node)
    requires base.Dict? && over.Dict?
    ensures out == Merge(base, over)
    decreases over
  {
    var merged := base.children;
    var todo := over.children.Keys;
    while todo != {}
      invariant todo <= over.children.Keys
      invariant PartlyMerged(merged, base, over, todo)
      decreases |todo|
    {
      assert (forall k :: k !in todo) ==> todo == {};
      var key :| key in todo;
      var value := over.children[key];
      MergeOneKey(merged, base, over, todo, key);
      MergeAt(base, over, key);
      if key in merged && merged[key].Dict? && value.Dict? {
        var sub := DeepMerge(merged[key], value);
        merged := merged[key := sub];
      } else {
        merged := merged[key := value];
      }
      todo := todo - {key};
    }
    FullyMerged(merged, base, over);
    out := Dict(merged);
  }

  /** `over` says something about `p`: it has a value there, or a dictionary, or a value on the
      way there. */
  predicate Overrides(over: Node, p: Path)
    decreases |p|
  {
    || over.Leaf?
    || p == []
    || (p[0] in over.children && Overrides(over.children[p[0]], p[1..]))
  }

  /** Merging keeps a leaf exactly when the override does not speak about its path. */
  lemma {:induction false} MergeLeaf(base: Node, over: Node, p: Path)
    ensures HasLeaf(over, p) ==> Overrides(over, p) && Lookup(Merge(base, over), p) == Lookup(over, p)
    ensures !HasLeaf(over, p) && Overrides(over, p) ==> !HasLeaf(Merge(base, over), p)
    ensures !Overrides(over, p) ==>
              && (HasLeaf(Merge(base, over), p) <==> HasLeaf(base, p))
              && (HasLeaf(base, p) ==> Lookup(Merge(base, over), p) == Lookup(base, p))
    decreases |p|
  {
    if base.Dict? && over.Dict? && p != [] && p[0] in base.children && p[0] in over.children {
      MergeLeaf(base.children[p[0]], over.children[p[0]], p[1..]);
    } else if over.Dict? && p != [] && p[0] in over.children {
      LeafOverrides(over.children[p[0]], p[1..]);
    }
  }

  lemma {:induction false} LeafOverrides(over: Node, p: Path)
    ensures HasLeaf(over, p) ==> Overrides(over, p)
    decreases |p|
  {
    if over.Dict? && p != [] && p[0] in over.children {
      LeafOverrides(over.children[p[0]], p[1..]);
    }
  }

  // ----- Dotted names -----

  predicate DotFree(key: string) {
    key != "" && forall i | 0 <= i < |key| :: key[i] != '.'
  }

  predicate DotFreePath(p: Path) {
    forall i | 0 <= i < |p| :: DotFree(p[i])
  }

  predicate DotFreeTree(n: Node) {
    n.Dict? ==> forall k | k in n.children :: DotFree(k) && DotFreeTree(n.children[k])
  }

  /** The name `_flatten` gives to a key below a prefix. */
  function Under(prefix: string, key: string): string {
    if prefix == "" then key else prefix + "." + key
  }

  function DottedFrom(prefix: string, p: Path): string
    decreases |p|
  {
    if p == [] then prefix else DottedFrom(Under(prefix, p[0]), p[1..])
  }

  function Dotted(p: Path): string {
    DottedFrom("", p)
  }

  /** Python's `split(".")`. */
  function SplitDots(s: string): seq<string>
    ensures |SplitDots(s)| >= 1
    decreases |s|
  {
    if s == "" then [""]
    else
      var last := |s| - 1;
      var front := SplitDots(s[..last]);
      if s[last] == '.' then front + [""]
      else front[..|front| - 1] + [front[|front| - 1] + [s[last]]]
  }

  lemma {:induction false} SplitKey(s: string, key: string)
    requires forall i | 0 <= i < |key| :: key[i] != '.'
    ensures SplitDots(s + "." + key) == SplitDots(s) + [key]
    decreases |key|
  {
    var t := s + "." + key;
    if key == "" {
      assert t[..|t| - 1] == s;
    } else {
      var shorter := key[..|key| - 1];
      assert t[..|t| - 1] == s + "." + shorter;
      SplitKey(s, shorter);
      assert shorter + [key[|key| - 1]] == key;
    }
  }

  lemma {:induction false} SplitDotFree(key: string)
    requires forall i | 0 <= i < |key| :: key[i] != '.'
    ensures SplitDots(key) == [key]
    decreases |key|
  {
    if key != "" {
      SplitDotFree(key[..|key| - 1]);
      assert key[..|key| - 1] + [key[|key| - 1]] == key;
    }
  }

  lemma SplitUnder(prefix: string, key: string)
    requires prefix != "" && forall i | 0 <= i < |key| :: key[i] != '.'
    ensures Under(prefix, key) != "" && SplitDots(Under(prefix, key)) == SplitDots(prefix) + [key]
  {
    SplitKey(prefix, key);
  }

  lemma MoveHead(a: Path, p: Path)
    requires p != []
    ensures (a + [p[0]]) + p[1..] == a + p
  {
  }

  lemma {:induction false} SplitDottedFrom(prefix: string, p: Path)
    requires DotFreePath(p) && prefix != ""
    ensures SplitDots(DottedFrom(prefix, p)) == SplitDots(prefix) + p
    decreases |p|
  {
    if p == [] {
      assert SplitDots(prefix) + p == SplitDots(prefix);
    } else {
      assert DotFree(p[0]);
      SplitUnder(prefix, p[0]);
      SplitDottedFrom(Under(prefix, p[0]), p[1..]);
      MoveHead(SplitDots(prefix), p);
    }
  }

  /** Splitting a dotted name gives back its path, so dot-free paths have distinct names. */
  lemma SplitDotted(p: Path)
    requires DotFreePath(p) && p != []
    ensures SplitDots(Dotted(p)) == p
  {
    SplitDotFree(p[0]);
    SplitDottedFrom(p[0], p[1..]);
    assert [p[0]] + p[1..] == p;
  }

  // ----- _flatten -----

  /** The keys of `_flatten(data, prefix)`. */
  function Flatten(n: Node, prefix: string): set<string>
    requires n.Dict?
    decreases n
  {
    set k, d | k in n.children && d in FlattenChild(n.children[k], Under(prefix, k)) :: d
  }

  function FlattenChild(n: Node, name: string): set<string>
    decreases n
  {
    if n.Dict? then set k, d | k in n.children && d in FlattenChild(n.children[k], Under(name, k)) :: d
    else {name}
  }

  lemma {:induction false} FlattenChildComplete(n: Node, name: string, p: Path)
    requires HasLeaf(n, p)
    ensures DottedFrom(name, p) in FlattenChild(n, name)
    decreases |p|
  {
    if p != [] {
      FlattenChildComplete(n.children[p[0]], Under(name, p[0]), p[1..]);
    }
  }

  lemma {:induction false} FlattenChildSound(n: Node, name: string, d: string) returns (p: Path)
    requires DotFreeTree(n) && d in FlattenChild(n, name)
    ensures HasLeaf(n, p) && DotFreePath(p) && d == DottedFrom(name, p)
    decreases n
  {
    p := [];
    if n.Dict? {
      var k :| k in n.children && d in FlattenChild(n.children[k], Under(name, k));
      var q := FlattenChildSound(n.children[k], Under(name, k), d);
      p := [k] + q;
      assert p[1..] == q;
    }
  }

  /** The flattened keys are the dotted names of the tree's leaves and no others. */
  lemma FlattenIsLeaves(n: Node, p: Path)
    requires n.Dict? && DotFreeTree(n) && DotFreePath(p) && p != []
    ensures Dotted(p) in Flatten(n, "") <==> HasLeaf(n, p)
  {
    assert Flatten(n, "") == FlattenChild(n, "");
    if HasLeaf(n, p) {
      FlattenChildComplete(n, "", p);
    }
    if Dotted(p) in Flatten(n, "") {
      var q := FlattenChildSound(n, "", Dotted(p));
      SplitDotted(p);
      SplitDotted(q);
    }
  }

  /** The source map's entries for one layer. */
  function Named(n: Node, source: string): map<string, string>
    requires n.Dict?
  {
    map d | d in Flatten(n, "") :: source
  }

  // ----- Layers, lowest precedence first -----

  datatype Layer = Layer(source: string, tree: Node)

  predicate TreeOk(n: Node) {
    n.Dict? && DotFreeTree(n)
  }

  predicate LayersOk(layers: seq<Layer>) {
    forall i | 0 <= i < |layers| :: TreeOk(layers[i].tree)
  }

  function Merged(layers: seq<Layer>): Node {
    if layers == [] then Dict(map[])
    else Merge(Merged(layers[..|layers| - 1]), layers[|layers| - 1].tree)
  }

  function SourceMap(layers: seq<Layer>): map<string, string>
    requires LayersOk(layers)
  {
    if layers == [] then map[]
    else
      var last := layers[|layers| - 1];
      SourceMap(layers[..|layers| - 1]) + Named(last.tree, last.source)
  }

  /** The highest layer with a value at `p`. */
  function Highest(layers: seq<Layer>, p: Path): (k: Option<nat>)
    ensures k.Some? ==> k.value < |layers| && HasLeaf(layers[k.value].tree, p)
    ensures k.Some? ==> forall i | k.value < i < |layers| :: !HasLeaf(layers[i].tree, p)
    ensures k.None? ==> forall i | 0 <= i < |layers| :: !HasLeaf(layers[i].tree, p)
  {
    if layers == [] then None
    else if HasLeaf(layers[|layers| - 1].tree, p) then Some(|layers| - 1)
    else Highest(layers[..|layers| - 1], p)
  }

  /** No layer above the one that supplies `p` speaks about its path. */
  predicate Undisturbed(layers: seq<Layer>, p: Path) {
    var k := Highest(layers, p);
    k.Some? && forall i | k.value < i < |layers| :: !Overrides(layers[i].tree, p)
  }

  lemma {:induction false} MergedLeaves(layers: seq<Layer>, p: Path)
    ensures HasLeaf(Merged(layers), p) <==> Undisturbed(layers, p)
    ensures HasLeaf(Merged(layers), p) ==>
              Lookup(Merged(layers), p) == Lookup(layers[Highest(layers, p).value].tree, p)
  {
    if layers != [] {
      var below, last := layers[..|layers| - 1], layers[|layers| - 1];
      MergedLeaves(below, p);
      MergeLeaf(Merged(below), last.tree, p);
      if !HasLeaf(last.tree, p) {
        var k := Highest(below, p);
        assert k == Highest(layers, p);
        assert k.Some? ==> forall i | k.value < i < |below| :: layers[i] == below[i];
        assert Undisturbed(layers, p) <==> Undisturbed(below, p) && !Overrides(last.tree, p);
      }
    }
  }

  lemma {:induction false} SourceMapNamesHighest(layers: seq<Layer>, p: Path)
    requires LayersOk(layers) && DotFreePath(p) && p != []
    ensures var k := Highest(layers, p);
            && (Dotted(p) in SourceMap(layers) <==> k.Some?)
            && (k.Some? ==> SourceMap(layers)[Dotted(p)] == layers[k.value].source)
  {
    if layers != [] {
      SourceMapNamesHighest(layers[..|layers| - 1], p);
      FlattenIsLeaves(layers[|layers| - 1].tree, p);
    }
  }

  /** Every value of the merged settings comes from the highest layer that defines its path, and
      the source map names that layer. A path of the source map still has its value in the merged
      settings exactly when no higher layer speaks about it. */
  lemma Provenance(layers: seq<Layer>, p: Path)
    requires LayersOk(layers) && DotFreePath(p) && p != []
    ensures HasLeaf(Merged(layers), p) <==> Dotted(p) in SourceMap(layers) && Undisturbed(layers, p)
    ensures HasLeaf(Merged(layers), p) ==>
              var k := Highest(layers, p).value;
              && Lookup(Merged(layers), p) == Lookup(layers[k].tree, p)
              && SourceMap(layers)[Dotted(p)] == layers[k].source
              && forall i | k < i < |layers| :: !HasLeaf(layers[i].tree, p)
  {
    MergedLeaves(layers, p);
    SourceMapNamesHighest(layers, p);
  }

  /** A stale entry: a layer replaces a dictionary by a value, and the source map keeps naming
      the layer of a value that is gone. */
  lemma SourceMapCanBeStale(key: string, inner: string)
    requires DotFree(key) && DotFree(inner)
    ensures var layers := [Layer("default", Single([key, inner], "m")), Layer("base", Single([key], "off"))];
            && LayersOk(layers)
            && !HasLeaf(Merged(layers), [key, inner])
            && Dotted([key, inner]) in SourceMap(layers)
            && SourceMap(layers)[Dotted([key, inner])] == "default"
  {
    var p := [key, inner];
    var lower, upper := Single(p, "m"), Single([key], "off");
    var layers := [Layer("default", lower), Layer("base", upper)];
    SingleDotFree(p, "m");
    SingleDotFree([key], "off");
    assert p[1..] == [inner] && [inner][1..] == [] && [key][1..] == [];
    SingleLookup(p, "m");
    SingleLookup([key], "off");
    assert Lookup(upper, [key]) == Lookup(upper.children[key], []);
    assert upper.children[key] == Leaf("off");
    assert Lookup(upper, p) == Lookup(upper.children[key], p[1..]) == None;
    assert Overrides(upper.children[key], p[1..]);
    assert !HasLeaf(upper, p) && Overrides(upper, p);
    assert layers[..1] == [layers[0]];
    assert Highest(layers, p) == Some(0);
    Provenance(layers, p);
    SourceMapNamesHighest(layers, p);
  }

  // ----- _set_path -----

  function SetPath(data: Node, keys: Path, value: string): Node
    requires data.Dict? && keys != []
    decreases |keys|
  {
    if |keys| == 1 then Dict(data.children[keys[0] := Leaf(value)])
    else
      var cursor := if keys[0] in data.children && data.children[keys[0]].Dict?
                    then data.children[keys[0]] else Dict(map[]);
      Dict(data.children[keys[0] := SetPath(cursor, keys[1..], value)])
  }

  /** The tree with one value. */
  function Single(keys: Path, value: string): (n: Node)
    ensures keys != [] ==> n.Dict?
    decreases |keys|
  {
    if keys == [] then Leaf(value) else Dict(map[keys[0] := Single(keys[1..], value)])
  }

  /** Setting a path is merging a one-value layer. */
  lemma {:induction false} SetPathIsMerge(data: Node, keys: Path, value: string)
    requires data.Dict? && keys != []
    ensures SetPath(data, keys, value) == Merge(data, Single(keys, value))
    decreases |keys|
  {
    if |keys| == 1 {
      assert Single(keys[1..], value) == Leaf(value);
      MergeReplaces(data.children, Single(keys, value), keys[0]);
    } else {
      var child := Single(keys[1..], value);
      if keys[0] in data.children && data.children[keys[0]].Dict? {
        SetPathIsMerge(data.children[keys[0]], keys[1..], value);
      } else {
        SetPathIsMerge(Dict(map[]), keys[1..], value);
        assert Merge(Dict(map[]), child).children == child.children;
        MergeReplaces(data.children, Single(keys, value), keys[0]);
      }
    }
  }

  lemma {:induction false} SingleDotFree(keys: Path, value: string)
    requires DotFreePath(keys)
    ensures DotFreeTree(Single(keys, value))
    decreases |keys|
  {
    if keys != [] {
      SingleDotFree(keys[1..], value);
    }
  }

  lemma {:induction false} SingleLookup(keys: Path, value: string)
    ensures Lookup(Single(keys, value), keys) == Some(Leaf(value))
    decreases |keys|
  {
    if keys != [] {
      SingleLookup(keys[1..], value);
    }
  }

  lemma {:induction false} SingleLeaves(keys: Path, value: string, name: string)
    ensures FlattenChild(Single(keys, value), name) == {DottedFrom(name, keys)}
    decreases |keys|
  {
    if keys != [] {
      SingleLeaves(keys[1..], value, Under(name, keys[0]));
      var n := Single(keys, value);
      assert FlattenChild(n, name) == FlattenChild(n.children[keys[0]], Under(name, keys[0]));
    }
  }

  // ----- load_app_settings -----

  /** The table `ENV_MAPPING`: which variables are read and the path each one sets. */
  type Mapping = m: seq<(string, Path)> |
    forall i | 0 <= i < |m| :: m[i].1 != [] && DotFreePath(m[i].1) witness []

  function PathFor(mapping: Mapping, name: string): (p: Option<Path>)
    ensures p.Some? ==> p.value != [] && DotFreePath(p.value)
  {
    if mapping == [] then None
    else if mapping[0].0 == name then Some(mapping[0].1)
    else PathFor(mapping[1..], name)
  }

  /** The one-value layer of a variable, if it is read and set at all. */
  function OneLayer(source: string, path: Option<Path>, value: string): (layers: seq<Layer>)
    requires path.Some? ==> path.value != [] && DotFreePath(path.value)
    ensures LayersOk(layers)
  {
    if path.None? then []
    else SingleDotFree(path.value, value); [Layer(source, Single(path.value, value))]
  }

  /** The layers of the variables of the environment files, in file order. */
  function FileLayers(mapping: Mapping, pairs: seq<(string, string)>): (layers: seq<Layer>)
    ensures LayersOk(layers)
  {
    if pairs == [] then []
    else
      var last := pairs[|pairs| - 1];
      FileLayers(mapping, pairs[..|pairs| - 1]) + OneLayer("env_file", PathFor(mapping, last.0), last.1)
  }

  /** The layers of the process environment, in the order of the mapping. */
  function EnvLayers(mapping: Mapping, environ: map<string, string>): (layers: seq<Layer>)
    ensures LayersOk(layers)
  {
    if mapping == [] then []
    else
      var last := mapping[|mapping| - 1];
      EnvLayers(mapping[..|mapping| - 1], environ)
      + if last.0 in environ then OneLayer("env", Some(last.1), environ[last.0]) else []
  }

  lemma FileLayersStep(mapping: Mapping, pairs: seq<(string, string)>, i: nat)
    requires i < |pairs|
    ensures FileLayers(mapping, pairs[..i + 1])
         == FileLayers(mapping, pairs[..i]) + OneLayer("env_file", PathFor(mapping, pairs[i].0), pairs[i].1)
  {
    assert pairs[..i + 1][..i] == pairs[..i];
  }

  lemma EnvLayersStep(mapping: Mapping, environ: map<string, string>, i: nat)
    requires i < |mapping|
    ensures EnvLayers(mapping[..i + 1], environ)
         == EnvLayers(mapping[..i], environ)
            + if mapping[i].0 in environ then OneLayer("env", Some(mapping[i].1), environ[mapping[i].0]) else []
  {
    assert mapping[..i + 1][..i] == mapping[..i];
  }

  lemma AppendAssociates(a: seq<Layer>, b: seq<Layer>, c: seq<Layer>)
    ensures a + (b + c) == (a + b) + c
    ensures a + [] == a
  {
  }

  function TreeLayers(defaults: Node, base: Node, local: Node): seq<Layer> {
    [Layer("default", defaults), Layer("base", base), Layer("local", local)]
  }

  function AllLayers(mapping: Mapping, defaults: Node, base: Node, local: Node,
                     envFile: seq<(string, string)>, environ: map<string, string>): (layers: seq<Layer>)
    requires TreeOk(defaults) && TreeOk(base) && TreeOk(local)
    ensures LayersOk(layers)
  {
    TreeLayers(defaults, base, local) + FileLayers(mapping, envFile) + EnvLayers(mapping, environ)
  }

  lemma PushLayer(layers: seq<Layer>, keys: Path, source: string, value: string)
    requires LayersOk(layers) && keys != [] && DotFreePath(keys)
    ensures var more := layers + OneLayer(source, Some(keys), value);
            && LayersOk(more) && Merged(layers).Dict?
            && Merged(more) == SetPath(Merged(layers), keys, value)
            && SourceMap(more) == SourceMap(layers)[Dotted(keys) := source]
  {
    var more := layers + OneLayer(source, Some(keys), value);
    assert more[..|more| - 1] == layers;
    SingleDotFree(keys, value);
    MergedIsDict(layers);
    SetPathIsMerge(Merged(layers), keys, value);
    SingleLeaves(keys, value, "");
    assert Flatten(Single(keys, value), "") == {Dotted(keys)};
  }

  lemma MergedIsDict(layers: seq<Layer>)
    requires LayersOk(layers)
    ensures Merged(layers).Dict?
  {
  }

  /** The default values and the two files. */
  method LoadTrees(defaults: Node, base: Node, local: Node)
    returns (merged: Node, sourceMap: map<string, string>)
    requires TreeOk(defaults) && TreeOk(base) && TreeOk(local)
    ensures LayersOk(TreeLayers(defaults, base, local))
    ensures merged == Merged(TreeLayers(defaults, base, local))
    ensures sourceMap == SourceMap(TreeLayers(defaults, base, local))
  {
    sourceMap := Named(defaults, "default");
    NothingNamed(sourceMap, base, "base");
    if base.children != map[] {
      sourceMap := sourceMap + Named(base, "base");
    }
    NothingNamed(sourceMap, local, "local");
    if local.children != map[] {
      sourceMap := sourceMap + Named(local, "local");
    }
    merged := DeepMerge(defaults, base);
    merged := DeepMerge(merged, local);
    MergeTrees(defaults, base, local);
    SourceTrees(defaults, base, local);
  }

  lemma NothingNamed(m: map<string, string>, n: Node, source: string)
    requires n.Dict?
    ensures n.children == map[] ==> m + Named(n, source) == m
  {
  }

  lemma FrontOfThree(a: Layer, b: Layer, c: Layer)
    ensures [a, b, c][..2] == [a, b] && [a, b][..1] == [a] && [a][..0] == []
  {
  }

  lemma MergeTrees(defaults: Node, base: Node, local: Node)
    requires defaults.Dict?
    ensures Merged(TreeLayers(defaults, base, local)) == Merge(Merge(defaults, base), local)
  {
    FrontOfThree(Layer("default", defaults), Layer("base", base), Layer("local", local));
    assert Merge(Dict(map[]), defaults).children == defaults.children;
    assert Merged([Layer("default", defaults)]) == defaults;
  }

  lemma SourceTrees(defaults: Node, base: Node, local: Node)
    requires TreeOk(defaults) && TreeOk(base) && TreeOk(local)
    ensures LayersOk(TreeLayers(defaults, base, local))
    ensures SourceMap(TreeLayers(defaults, base, local))
         == Named(defaults, "default")
            + Named(base, "base")
            + Named(local, "local")
  {
    FrontOfThree(Layer("default", defaults), Layer("base", base), Layer("local", local));
    assert SourceMap([Layer("default", defaults)]) == Named(defaults, "default");
  }

  /** The loop over the environment files. */
  method OverlayFile(mapping: Mapping, ghost layers: seq<Layer>, envFile: seq<(string, string)>,
                     merged0: Node, sourceMap0: map<string, string>)
    returns (merged: Node, sourceMap: map<string, string>)
    requires LayersOk(layers) && merged0 == Merged(layers) && sourceMap0 == SourceMap(layers)
    ensures LayersOk(layers + FileLayers(mapping, envFile))
    ensures merged == Merged(layers + FileLayers(mapping, envFile))
    ensures sourceMap == SourceMap(layers + FileLayers(mapping, envFile))
  {
    merged, sourceMap := merged0, sourceMap0;
    ghost var all := layers;
    AppendAssociates(layers, [], []);
    for i := 0 to |envFile|
      invariant all == layers + FileLayers(mapping, envFile[..i]) && LayersOk(all)
      invariant merged == Merged(all) && sourceMap == SourceMap(all)
    {
      var name, value := envFile[i].0, envFile[i].1;
      var path := PathFor(mapping, name);
      FileLayersStep(mapping, envFile, i);
      AppendAssociates(layers, FileLayers(mapping, envFile[..i]), OneLayer("env_file", path, value));
      AppendAssociates(all, [], []);
      if path.Some? {
        PushLayer(all, path.value, "env_file", value);
        merged := SetPath(merged, path.value, value);
        sourceMap := sourceMap[Dotted(path.value) := "env_file"];
      }
      all := all + OneLayer("env_file", path, value);
    }
    assert envFile[..|envFile|] == envFile;
  }

  /** The loop over the process environment. */
  method OverlayEnvironment(mapping: Mapping, ghost layers: seq<Layer>, environ: map<string, string>,
                            merged0: Node, sourceMap0: map<string, string>)
    returns (merged: Node, sourceMap: map<string, string>)
    requires LayersOk(layers) && merged0 == Merged(layers) && sourceMap0 == SourceMap(layers)
    ensures LayersOk(layers + EnvLayers(mapping, environ))
    ensures merged == Merged(layers + EnvLayers(mapping, environ))
    ensures sourceMap == SourceMap(layers + EnvLayers(mapping, environ))
  {
    merged, sourceMap := merged0, sourceMap0;
    ghost var all := layers;
    AppendAssociates(layers, [], []);
    for i := 0 to |mapping|
      invariant all == layers + EnvLayers(mapping[..i], environ) && LayersOk(all)
      invariant merged == Merged(all) && sourceMap == SourceMap(all)
    {
      var name, path := mapping[i].0, mapping[i].1;
      EnvLayersStep(mapping, environ, i);
      AppendAssociates(all, [], []);
      if name in environ {
        AppendAssociates(layers, EnvLayers(mapping[..i], environ), OneLayer("env", Some(path), environ[name]));
        PushLayer(all, path, "env", environ[name]);
        merged := SetPath(merged, path, environ[name]);
        sourceMap := sourceMap[Dotted(path) := "env"];
        all := all + OneLayer("env", Some(path), environ[name]);
      } else {
        AppendAssociates(EnvLayers(mapping[..i], environ), [], []);
      }
    }
    assert mapping[..|mapping|] == mapping;
  }

  /** `envFile` holds the pairs of `.env` followed by those of `.env.local`. */
  method LoadAppSettings(mapping: Mapping, defaults: Node, base: Node, local: Node,
                         envFile: seq<(string, string)>, environ: map<string, string>)
    returns (merged: Node, sourceMap: map<string, string>)
    requires TreeOk(defaults) && TreeOk(base) && TreeOk(local)
    ensures merged == Merged(AllLayers(mapping, defaults, base, local, envFile, environ))
    ensures sourceMap == SourceMap(AllLayers(mapping, defaults, base, local, envFile, environ))
  {
    ghost var layers := TreeLayers(defaults, base, local);
    merged, sourceMap := LoadTrees(defaults, base, local);
    merged, sourceMap := OverlayFile(mapping, layers, envFile, merged, sourceMap);
    merged, sourceMap :=
      OverlayEnvironment(mapping, layers + FileLayers(mapping, envFile), environ, merged, sourceMap);
  }
}
