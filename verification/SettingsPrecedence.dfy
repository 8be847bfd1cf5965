/** Which of the sources gives each setting its value: the process environment before the environment
    files, those before the local, base and default trees (src/openhamster/config/settings.py). */
module SettingsPrecedence {
  import opened Prelude
  import opened SettingsLayers

  /** Neither path leads through the other. */
  predicate Apart(p: Path, q: Path) {
    !(p <= q) && !(q <= p)
  }

  /** No variable is listed twice, and no two set paths that lead through each other. */
  predicate Unambiguous(mapping: Mapping) {
    forall i, j | 0 <= i < |mapping| && 0 <= j < |mapping| && i != j ::
      mapping[i].0 != mapping[j].0 && Apart(mapping[i].1, mapping[j].1)
  }

  /** The loaded settings have `value` at `p`, and the source map says it comes from `source`. */
  predicate Gives(merged: Node, sourceMap: map<string, string>, p: Path, value: Node, source: string) {
    Lookup(merged, p) == Some(value) && Dotted(p) in sourceMap && sourceMap[Dotted(p)] == source
  }

  /** The keys of a path are joined by dots. */
  lemma {:induction false} DottedFromJoins(prefix: string, p: Path, key: string)
    requires prefix != "" || p != []
    requires DotFreePath(p)
    ensures DottedFrom(prefix, p + [key]) == DottedFrom(prefix, p) + "." + key && DottedFrom(prefix, p) != ""
    decreases |p|
  {
    if p == [] {
      assert (p + [key])[1..] == [];
    } else {
      assert (p + [key])[1..] == p[1..] + [key];
      assert DotFree(p[0]);
      DottedFromJoins(Under(prefix, p[0]), p[1..], key);
    }
  }

  lemma DottedJoins(p: Path, key: string)
    requires DotFreePath(p)
    ensures Dotted(p + [key]) == if p == [] then key else Dotted(p) + "." + key
  {
    if p != [] {
      DottedFromJoins("", p, key);
    } else {
      assert (p + [key])[1..] == [] && Under("", key) == key;
      assert DottedFrom(key, []) == key;
    }
  }

  // ----- One layer speaks for a path -----

  /** Layer `h` has a value at `p` and no layer above speaks about it. */
  predicate HasLastWord(layers: seq<Layer>, p: Path, h: nat)
    requires h < |layers|
  {
    HasLeaf(layers[h].tree, p) && forall i | h < i < |layers| :: !Overrides(layers[i].tree, p)
  }

  predicate Silent(layers: seq<Layer>, p: Path) {
    forall i | 0 <= i < |layers| :: !Overrides(layers[i].tree, p)
  }

  lemma LastWordGives(layers: seq<Layer>, p: Path, h: nat)
    requires LayersOk(layers) && DotFreePath(p) && p != [] && h < |layers| && HasLastWord(layers, p, h)
    ensures Gives(Merged(layers), SourceMap(layers), p, Lookup(layers[h].tree, p).value, layers[h].source)
  {
    forall i | h < i < |layers|
      ensures !HasLeaf(layers[i].tree, p)
    {
      LeafOverrides(layers[i].tree, p);
    }
    assert Highest(layers, p) == Some(h);
    MergedLeaves(layers, p);
    SourceMapNamesHighest(layers, p);
  }

  lemma SilentAbove(below: seq<Layer>, above: seq<Layer>, p: Path, h: nat)
    requires h < |below| && HasLastWord(below, p, h) && Silent(above, p)
    ensures HasLastWord(below + above, p, h)
  {
  }

  lemma LastWordAbove(below: seq<Layer>, above: seq<Layer>, p: Path, h: nat)
    requires h < |above| && HasLastWord(above, p, h)
    ensures HasLastWord(below + above, p, |below| + h) && (below + above)[|below| + h] == above[h]
  {
    forall i | |below| + h < i < |below + above|
      ensures !Overrides((below + above)[i].tree, p)
    {
      assert (below + above)[i] == above[i - |below|];
    }
  }

  lemma SilentBoth(below: seq<Layer>, above: seq<Layer>, p: Path)
    requires Silent(below, p) && Silent(above, p)
    ensures Silent(below + above, p)
  {
  }

  /** A one-value layer is silent about every path apart from its own. */
  lemma {:induction false} SingleIsSilent(q: Path, value: string, p: Path)
    requires Apart(p, q)
    ensures !Overrides(Single(q, value), p)
    decreases |q|
  {
    assert p != [] && q != [];
    if p[0] == q[0] {
      assert Apart(p[1..], q[1..]) by {
        assert p == [p[0]] + p[1..] && q == [q[0]] + q[1..];
      }
      SingleIsSilent(q[1..], value, p[1..]);
    }
  }

  lemma OneLayerIsSilent(source: string, q: Path, value: string, p: Path)
    requires q != [] && DotFreePath(q) && Apart(p, q)
    ensures Silent(OneLayer(source, Some(q), value), p)
  {
    SingleIsSilent(q, value, p);
  }

  lemma OneLayerHasLastWord(source: string, q: Path, value: string)
    requires q != [] && DotFreePath(q)
    ensures var layers := OneLayer(source, Some(q), value);
            && |layers| == 1 && HasLastWord(layers, q, 0)
            && layers[0].source == source && Lookup(layers[0].tree, q) == Some(Leaf(value))
  {
    SingleLookup(q, value);
  }

  // ----- The process environment -----

  lemma {:induction false} EnvironmentIsSilent(mapping: Mapping, environ: map<string, string>, p: Path)
    requires forall i | 0 <= i < |mapping| && mapping[i].0 in environ :: Apart(p, mapping[i].1)
    ensures Silent(EnvLayers(mapping, environ), p)
  {
    if mapping != [] {
      var front, last := mapping[..|mapping| - 1], mapping[|mapping| - 1];
      EnvironmentIsSilent(front, environ, p);
      if last.0 in environ {
        OneLayerIsSilent("env", last.1, environ[last.0], p);
        SilentBoth(EnvLayers(front, environ), OneLayer("env", Some(last.1), environ[last.0]), p);
      }
    }
  }

  /** A variable set in the environment has the last word among its layers. */
  lemma {:induction false} EnvironmentSpeaks(mapping: Mapping, environ: map<string, string>, k: nat) returns (h: nat)
    requires Unambiguous(mapping) && k < |mapping| && mapping[k].0 in environ
    ensures var layers := EnvLayers(mapping, environ);
            && h < |layers| && HasLastWord(layers, mapping[k].1, h) && layers[h].source == "env"
            && Lookup(layers[h].tree, mapping[k].1) == Some(Leaf(environ[mapping[k].0]))
  {
    var front, last := mapping[..|mapping| - 1], mapping[|mapping| - 1];
    var below := EnvLayers(front, environ);
    if k == |mapping| - 1 {
      OneLayerHasLastWord("env", last.1, environ[last.0]);
      LastWordAbove(below, OneLayer("env", Some(last.1), environ[last.0]), last.1, 0);
      h := |below|;
    } else {
      h := EnvironmentSpeaks(front, environ, k);
      if last.0 in environ {
        OneLayerIsSilent("env", last.1, environ[last.0], mapping[k].1);
        SilentAbove(below, OneLayer("env", Some(last.1), environ[last.0]), mapping[k].1, h);
      }
    }
  }

  // ----- The environment files -----

  lemma {:induction false} PathIsListed(mapping: Mapping, name: string)
    ensures PathFor(mapping, name).Some? ==>
              exists i | 0 <= i < |mapping| :: mapping[i] == (name, PathFor(mapping, name).value)
  {
    if mapping != [] && mapping[0].0 != name {
      PathIsListed(mapping[1..], name);
      if PathFor(mapping, name).Some? {
        var i :| 0 <= i < |mapping[1..]| && mapping[1..][i] == (name, PathFor(mapping, name).value);
        assert mapping[i + 1] == mapping[1..][i];
      }
    } else if mapping != [] {
      assert mapping[0] == (name, mapping[0].1);
    }
  }

  lemma {:induction false} ListedPath(mapping: Mapping, k: nat)
    requires Unambiguous(mapping) && k < |mapping|
    ensures PathFor(mapping, mapping[k].0) == Some(mapping[k].1)
  {
    if k > 0 {
      assert mapping[1..][k - 1] == mapping[k];
      ListedPath(mapping[1..], k - 1);
    }
  }

  /** `p` is apart from the path of every variable of the files. */
  predicate FilesApart(mapping: Mapping, pairs: seq<(string, string)>, p: Path) {
    forall i, j | 0 <= i < |mapping| && 0 <= j < |pairs| && mapping[i].0 == pairs[j].0 :: Apart(p, mapping[i].1)
  }

  lemma PairIsSilent(mapping: Mapping, name: string, value: string, p: Path)
    requires forall i | 0 <= i < |mapping| && mapping[i].0 == name :: Apart(p, mapping[i].1)
    ensures Silent(OneLayer("env_file", PathFor(mapping, name), value), p)
  {
    PathIsListed(mapping, name);
    if PathFor(mapping, name).Some? {
      OneLayerIsSilent("env_file", PathFor(mapping, name).value, value, p);
    }
  }

  lemma {:induction false} FilesAreSilent(mapping: Mapping, pairs: seq<(string, string)>, p: Path)
    requires FilesApart(mapping, pairs, p)
    ensures Silent(FileLayers(mapping, pairs), p)
  {
    if pairs != [] {
      var front, last := pairs[..|pairs| - 1], pairs[|pairs| - 1];
      FilesAreSilent(mapping, front, p);
      PairIsSilent(mapping, last.0, last.1, p);
      SilentBoth(FileLayers(mapping, front), OneLayer("env_file", PathFor(mapping, last.0), last.1), p);
    }
  }

  /** The last pair of a variable has the last word among the layers of the files. */
  lemma {:induction false} FilesSpeak(mapping: Mapping, pairs: seq<(string, string)>, k: nat, j: nat) returns (h: nat)
    requires Unambiguous(mapping) && k < |mapping| && j < |pairs| && pairs[j].0 == mapping[k].0
    requires forall i | j < i < |pairs| :: pairs[i].0 != mapping[k].0
    ensures var layers := FileLayers(mapping, pairs);
            && h < |layers| && HasLastWord(layers, mapping[k].1, h) && layers[h].source == "env_file"
            && Lookup(layers[h].tree, mapping[k].1) == Some(Leaf(pairs[j].1))
  {
    var front, last := pairs[..|pairs| - 1], pairs[|pairs| - 1];
    var below, p := FileLayers(mapping, front), mapping[k].1;
    if j == |pairs| - 1 {
      ListedPath(mapping, k);
      OneLayerHasLastWord("env_file", p, last.1);
      LastWordAbove(below, OneLayer("env_file", Some(p), last.1), p, 0);
      h := |below|;
    } else {
      h := FilesSpeak(mapping, front, k, j);
      PairIsSilent(mapping, last.0, last.1, p);
      SilentAbove(below, OneLayer("env_file", PathFor(mapping, last.0), last.1), p, h);
    }
  }

  // ----- The loaded settings -----

  /** A variable set in the environment gives its value. */
  lemma EnvironmentComesFirst(mapping: Mapping, defaults: Node, base: Node, local: Node,
                              envFile: seq<(string, string)>, environ: map<string, string>, k: nat)
    requires TreeOk(defaults) && TreeOk(base) && TreeOk(local)
    requires Unambiguous(mapping) && k < |mapping| && mapping[k].0 in environ
    ensures var layers := AllLayers(mapping, defaults, base, local, envFile, environ);
            Gives(Merged(layers), SourceMap(layers), mapping[k].1, Leaf(environ[mapping[k].0]), "env")
  {
    var below := TreeLayers(defaults, base, local) + FileLayers(mapping, envFile);
    var h := EnvironmentSpeaks(mapping, environ, k);
    LastWordAbove(below, EnvLayers(mapping, environ), mapping[k].1, h);
    LastWordGives(AllLayers(mapping, defaults, base, local, envFile, environ), mapping[k].1, |below| + h);
  }

  /** Otherwise the last pair of the environment files with its name gives its value. */
  lemma FilesComeSecond(mapping: Mapping, defaults: Node, base: Node, local: Node,
                        envFile: seq<(string, string)>, environ: map<string, string>, k: nat, j: nat)
    requires TreeOk(defaults) && TreeOk(base) && TreeOk(local)
    requires Unambiguous(mapping) && k < |mapping| && mapping[k].0 !in environ
    requires j < |envFile| && envFile[j].0 == mapping[k].0
    requires forall i | j < i < |envFile| :: envFile[i].0 != mapping[k].0
    ensures var layers := AllLayers(mapping, defaults, base, local, envFile, environ);
            Gives(Merged(layers), SourceMap(layers), mapping[k].1, Leaf(envFile[j].1), "env_file")
  {
    var trees, files, p := TreeLayers(defaults, base, local), FileLayers(mapping, envFile), mapping[k].1;
    var h := FilesSpeak(mapping, envFile, k, j);
    LastWordAbove(trees, files, p, h);
    EnvironmentIsSilent(mapping, environ, p);
    SilentAbove(trees + files, EnvLayers(mapping, environ), p, |trees| + h);
    LastWordGives(AllLayers(mapping, defaults, base, local, envFile, environ), p, |trees| + h);
  }

  /** A tree that has the last word among the three has it among all layers if no set variable's path
      leads through `p` or on from it. */
  lemma TreeSpeaks(mapping: Mapping, defaults: Node, base: Node, local: Node,
                   envFile: seq<(string, string)>, environ: map<string, string>, p: Path, h: nat)
    requires TreeOk(defaults) && TreeOk(base) && TreeOk(local) && DotFreePath(p) && p != []
    requires FilesApart(mapping, envFile, p)
    requires forall i | 0 <= i < |mapping| && mapping[i].0 in environ :: Apart(p, mapping[i].1)
    requires h < 3 && HasLastWord(TreeLayers(defaults, base, local), p, h)
    ensures var layers, tree := AllLayers(mapping, defaults, base, local, envFile, environ),
                                TreeLayers(defaults, base, local)[h];
            Gives(Merged(layers), SourceMap(layers), p, Lookup(tree.tree, p).value, tree.source)
  {
    var trees, files := TreeLayers(defaults, base, local), FileLayers(mapping, envFile);
    FilesAreSilent(mapping, envFile, p);
    EnvironmentIsSilent(mapping, environ, p);
    SilentAbove(trees, files, p, h);
    SilentAbove(trees + files, EnvLayers(mapping, environ), p, h);
    LastWordGives(AllLayers(mapping, defaults, base, local, envFile, environ), p, h);
  }

  /** A path apart from those of all set variables has its value from the local tree, or else from the
      base tree, or else from the defaults; a tree is passed over when it has nothing at the path and no
      value on the way there. */
  lemma TreesComeLast(mapping: Mapping, defaults: Node, base: Node, local: Node,
                      envFile: seq<(string, string)>, environ: map<string, string>,
                      p: Path, value: Node, source: string)
    requires TreeOk(defaults) && TreeOk(base) && TreeOk(local) && DotFreePath(p) && p != []
    requires FilesApart(mapping, envFile, p)
    requires forall i | 0 <= i < |mapping| && mapping[i].0 in environ :: Apart(p, mapping[i].1)
    requires if HasLeaf(local, p) then (value, source) == (Lookup(local, p).value, "local")
             else if Overrides(local, p) then false
             else if HasLeaf(base, p) then (value, source) == (Lookup(base, p).value, "base")
             else && !Overrides(base, p) && HasLeaf(defaults, p)
                  && (value, source) == (Lookup(defaults, p).value, "default")
    ensures var layers := AllLayers(mapping, defaults, base, local, envFile, environ);
            Gives(Merged(layers), SourceMap(layers), p, value, source)
  {
    TreeSpeaks(mapping, defaults, base, local, envFile, environ, p,
               if HasLeaf(local, p) then 2 else if HasLeaf(base, p) then 1 else 0);
  }
}
