/**
 * The class and configuration trees the hook derives from the layer tree:
 * the class options offered to the user (layers whose name says CLASS), the
 * cascader entries built from them, the random walk that picks one class per
 * level, the IGNORE/CLASS filter that decides which part paths a
 * configuration holds, and the tree of part names shown for a configuration.
 */
module ClassTree {
  import opened Wrappers
  import opened Strings
  import opened Layers
  import Catalog

  /** `{name, children}` as built by `getBaseClassesRecursively`. */
  datatype ClassOption = ClassOption(name: string, children: seq<ClassOption>)

  /** A class option and everything below it is named as a class. */
  predicate ClassNamed(c: ClassOption)
    decreases c
  {
    Contains(c.name, "CLASS") && forall k :: 0 <= k < |c.children| ==> ClassNamed(c.children[k])
  }

  function Names(options: seq<ClassOption>): (r: seq<string>)
    ensures |r| == |options| && forall k :: 0 <= k < |options| ==> r[k] == options[k].name
  {
    seq(|options|, k requires 0 <= k < |options| => options[k].name)
  }

  /** The names of the children of `l` from index `i` on that contain CLASS, in order. */
  function ClassChildNames(l: Layer, i: nat): seq<string>
    requires i <= |l.children|
    decreases |l.children| - i
  {
    if i == |l.children| then []
    else if Contains(l.children[i].name, "CLASS") then [l.children[i].name] + ClassChildNames(l, i + 1)
    else ClassChildNames(l, i + 1)
  }

  /**
   * The loop of `getBaseClassesRecursively(obj)` over the children from index
   * `i` on; None where a CLASS-named leaf has no children to iterate and the
   * source throws.
   */
  function BaseClassesFrom(l: Layer, i: nat): (r: Option<seq<ClassOption>>)
    requires l.Valid() && i <= |l.children|
    ensures r.Some? ==> Names(r.value) == ClassChildNames(l, i)
    ensures r.Some? ==> forall k :: 0 <= k < |r.value| ==> ClassNamed(r.value[k])
    ensures (exists k :: i <= k < |l.children| && Contains(l.children[k].name, "CLASS") && !l.children[k].isGroup) ==> r.None?
    ensures r.None? ==> exists k :: i <= k < |l.children| && Contains(l.children[k].name, "CLASS")
    decreases l.depth, |l.children| - i
  {
    if i == |l.children| then Some([])
    else
      var c := l.children[i];
      if !Contains(c.name, "CLASS") then BaseClassesFrom(l, i + 1)
      else if !c.isGroup then None
      else
        match BaseClassesFrom(c, 0)
        case None => None
        case Some(sub) =>
          match BaseClassesFrom(l, i + 1)
          case None => None
          case Some(rest) =>
            assert Names([ClassOption(c.name, sub)] + rest) == [c.name] + Names(rest);
            Some([ClassOption(c.name, sub)] + rest)
  }

  /** `getBaseClassesRecursively(obj)`. */
  function GetBaseClassesRecursively(obj: Layer): (r: Option<seq<ClassOption>>)
    requires obj.Valid()
    ensures r.Some? ==> Names(r.value) == ClassChildNames(obj, 0)
    ensures r.Some? ==> forall k :: 0 <= k < |r.value| ==> ClassNamed(r.value[k])
  {
    BaseClassesFrom(obj, 0)
  }

  /** A cascader entry `{value, label, children}` (`labelText` is `label`). */
  datatype CascaderOption = CascaderOption(value: string, labelText: string, children: Level)
  /** The `children` of an entry: null on the last level, otherwise an array of entries. */
  datatype Level = Null | Options(entries: seq<CascaderOption>)

  /** The entry built for one class option and, through `refreshClassOptionsRecursively`, its children. */
  function ToCascader(c: ClassOption): CascaderOption
    decreases c
  {
    CascaderOption(c.name, c.name,
      if |c.children| == 0 then Null
      else Options(seq(|c.children|, k requires 0 <= k < |c.children| => ToCascader(c.children[k]))))
  }

  /** `refreshClassOptionsRecursively(childArray)`: null for an empty level. */
  function RefreshClassOptionsRecursively(childArray: seq<ClassOption>): (r: Level)
    ensures r.Null? <==> |childArray| == 0
    ensures r.Options? ==>
              |r.entries| == |childArray| &&
              forall k :: 0 <= k < |childArray| ==> r.entries[k].value == r.entries[k].labelText == childArray[k].name
  {
    if |childArray| == 0 then Null
    else Options(seq(|childArray|, k requires 0 <= k < |childArray| => ToCascader(childArray[k])))
  }

  /** `refreshClassOptions(classArray)`: the top level, which is an array even when empty. */
  function RefreshClassOptions(classArray: seq<ClassOption>): (r: seq<CascaderOption>)
    ensures |r| == |classArray|
    ensures forall k :: 0 <= k < |r| ==> WellFormed(r[k]) && FromCascader(r[k]) == classArray[k]
  {
    forall k | 0 <= k < |classArray| {
      CascaderRoundTrip(classArray[k]);
    }
    seq(|classArray|, k requires 0 <= k < |classArray| => ToCascader(classArray[k]))
  }

  /** The entries the cascader builders produce: label equals value, and no level is empty. */
  predicate WellFormed(o: CascaderOption)
    decreases o
  {
    && o.labelText == o.value
    && (o.children.Options? ==> |o.children.entries| > 0)
    && (o.children.Options? ==> forall k :: 0 <= k < |o.children.entries| ==> WellFormed(o.children.entries[k]))
  }

  /** The class option a cascader entry was built from. */
  function FromCascader(o: CascaderOption): ClassOption
    decreases o
  {
    match o.children
    case Null => ClassOption(o.value, [])
    case Options(cs) => ClassOption(o.value, seq(|cs|, k requires 0 <= k < |cs| => FromCascader(cs[k])))
  }

  /** Building the cascader entry loses nothing, and gives a well-formed entry. */
  lemma {:induction false} CascaderRoundTrip(c: ClassOption)
    ensures WellFormed(ToCascader(c))
    ensures FromCascader(ToCascader(c)) == c
    decreases c
  {
    forall k | 0 <= k < |c.children| {
      CascaderRoundTrip(c.children[k]);
    }
    if |c.children| > 0 {
      var cs := ToCascader(c).children.entries;
      assert seq(|cs|, k requires 0 <= k < |cs| => FromCascader(cs[k])) == c.children;
    }
  }

  /** Every well-formed entry is the one built from its class option. */
  lemma {:induction false} CascaderRoundTripBack(o: CascaderOption)
    requires WellFormed(o)
    ensures ToCascader(FromCascader(o)) == o
    decreases o
  {
    match o.children
    case Null =>
    case Options(cs) =>
      forall k | 0 <= k < |cs| {
        CascaderRoundTripBack(cs[k]);
      }
      var back := FromCascader(o).children;
      assert seq(|back|, k requires 0 <= k < |back| => ToCascader(back[k])) == cs;
  }

  /** The names `getRandomClasses` collects from entry `c` down, with draw `j` for the next level. */
  function WalkFrom(c: CascaderOption, draws: nat -> nat, j: nat): (r: seq<string>)
    requires WellFormed(c)
    ensures |r| > 0 && r[0] == c.value
    decreases c
  {
    match c.children
    case Null => [c.value]
    case Options(cs) => [c.value] + WalkFrom(cs[draws(j) % |cs|], draws, j + 1)
  }

  /** The classes `getRandomClasses` picks; draw `j` stands for the `j`-th `Math.random()`. */
  function RandomClasses(classOptions: seq<CascaderOption>, draws: nat -> nat): seq<string>
    requires forall k :: 0 <= k < |classOptions| ==> WellFormed(classOptions[k])
  {
    if |classOptions| == 0 then [] else WalkFrom(classOptions[draws(0) % |classOptions|], draws, 1)
  }

  /** `getRandomClasses()`: one entry per level, from a top-level class down to a last level. */
  method GetRandomClasses(classOptions: seq<CascaderOption>, draws: nat -> nat) returns (returnArray: seq<string>)
    requires forall k :: 0 <= k < |classOptions| ==> WellFormed(classOptions[k])
    ensures returnArray == RandomClasses(classOptions, draws)
  {
    returnArray := [];
    if |classOptions| > 0 {
      var index := draws(0) % |classOptions|;
      var selectedClass := classOptions[index];
      returnArray := returnArray + [selectedClass.value];
      var j := 1;
      while selectedClass.children.Options?
        invariant WellFormed(selectedClass)
        invariant returnArray + WalkFrom(selectedClass, draws, j)[1..] == RandomClasses(classOptions, draws)
        decreases selectedClass
      {
        var cs := selectedClass.children.entries;
        index := draws(j) % |cs|;
        assert WalkFrom(selectedClass, draws, j)[1..] == WalkFrom(cs[index], draws, j + 1);
        returnArray := returnArray + [cs[index].value];
        selectedClass := cs[index];
        j := j + 1;
      }
    }
  }

  /** `path` names an entry of `options` on each level and ends on a last level. */
  predicate PathIn(options: seq<CascaderOption>, path: seq<string>)
    decreases |path|
  {
    && |path| > 0
    && exists k :: 0 <= k < |options| && options[k].value == path[0] &&
         match options[k].children
         case Null => |path| == 1
         case Options(cs) => PathIn(cs, path[1..])
  }

  lemma {:induction false} WalkIsPath(options: seq<CascaderOption>, k: nat, draws: nat -> nat, j: nat)
    requires k < |options| && WellFormed(options[k])
    ensures PathIn(options, WalkFrom(options[k], draws, j))
    decreases options[k]
  {
    var c := options[k];
    match c.children
    case Null =>
    case Options(cs) =>
      var index := draws(j) % |cs|;
      WalkIsPath(cs, index, draws, j + 1);
      assert WalkFrom(c, draws, j)[1..] == WalkFrom(cs[index], draws, j + 1);
  }

  /** With any class offered, the classes picked run from a top-level class to a last level. */
  lemma RandomClassesIsPath(classOptions: seq<CascaderOption>, draws: nat -> nat)
    requires forall k :: 0 <= k < |classOptions| ==> WellFormed(classOptions[k])
    ensures |classOptions| > 0 <==> RandomClasses(classOptions, draws) != []
    ensures |classOptions| > 0 ==> PathIn(classOptions, RandomClasses(classOptions, draws))
  {
    if |classOptions| > 0 {
      WalkIsPath(classOptions, draws(0) % |classOptions|, draws, 1);
    }
  }

  /** The filter of `recurseOverChildren`: IGNORE is skipped, and a CLASS layer only when chosen. */
  predicate Accepted(name: string, forcedClass: Option<seq<string>>, selectedClass: seq<string>)
  {
    && name != "IGNORE"
    && (Contains(name, "CLASS") ==>
          match forcedClass
          case Some(forced) => name in forced
          case None => name in selectedClass)
  }

  /** Each path with `name` put in front. */
  function Prefixed(name: string, paths: seq<seq<string>>): (r: seq<seq<string>>)
    ensures |r| == |paths| && forall k :: 0 <= k < |paths| ==> r[k] == [name] + paths[k]
  {
    seq(|paths|, k requires 0 <= k < |paths| => [name] + paths[k])
  }

  /**
   * The names, below `obj`, of the leaves `recurseOverChildren` reaches from
   * child `i` on, one list per leaf in visiting order.
   */
  function NamePathsFrom(obj: Layer, i: nat, forcedClass: Option<seq<string>>, selectedClass: seq<string>): (r: seq<seq<string>>)
    requires obj.Valid() && i <= |obj.children|
    ensures forall k :: 0 <= k < |r| ==> |r[k]| > 0
    ensures forall k, m :: 0 <= k < |r| && 0 <= m < |r[k]| ==> Accepted(r[k][m], forcedClass, selectedClass)
    decreases obj.depth, |obj.children| - i
  {
    if i == |obj.children| then []
    else
      var child := obj.children[i];
      var here :=
        if !Accepted(child.name, forcedClass, selectedClass) then []
        else if child.isGroup then Prefixed(child.name, NamePathsFrom(child, 0, forcedClass, selectedClass))
        else [[child.name]];
      here + NamePathsFrom(obj, i + 1, forcedClass, selectedClass)
  }

  /** `parent` followed by each name, each after a dot. */
  function DottedFrom(parent: string, names: seq<string>): string
    decreases |names|
  {
    if names == [] then parent else DottedFrom(parent + "." + names[0], names[1..])
  }

  /** Each name list written out after `parent`. */
  function Dotted(parent: string, paths: seq<seq<string>>): (r: seq<string>)
    ensures |r| == |paths| && forall k :: 0 <= k < |paths| ==> r[k] == DottedFrom(parent, paths[k])
  {
    seq(|paths|, k requires 0 <= k < |paths| => DottedFrom(parent, paths[k]))
  }

  /** The part strings `recurseOverChildren(obj, parent, forcedClass)` hands on, from child `i` on. */
  function ConfigPathsFrom(obj: Layer, parent: string, i: nat, forcedClass: Option<seq<string>>, selectedClass: seq<string>): seq<string>
    requires obj.Valid() && i <= |obj.children|
  {
    Dotted(parent, NamePathsFrom(obj, i, forcedClass, selectedClass))
  }

  lemma DottedConcat(parent: string, a: seq<seq<string>>, b: seq<seq<string>>)
    ensures Dotted(parent, a + b) == Dotted(parent, a) + Dotted(parent, b)
  {
    assert forall k :: 0 <= k < |a + b| ==> Dotted(parent, a + b)[k] == (Dotted(parent, a) + Dotted(parent, b))[k];
  }

  lemma DottedPrefixed(parent: string, name: string, sub: seq<seq<string>>)
    ensures Dotted(parent, Prefixed(name, sub)) == Dotted(parent + "." + name, sub)
  {
    assert forall k :: 0 <= k < |sub| ==> ([name] + sub[k])[1..] == sub[k];
  }

  /**
   * The part strings reached from child `i` are those of child `i` (none when
   * it is filtered out, its own when it is a leaf, those of its subtree
   * otherwise) followed by those of the later children.
   */
  lemma ConfigPathsStep(obj: Layer, parent: string, i: nat, forcedClass: Option<seq<string>>, selectedClass: seq<string>)
    requires obj.Valid() && i < |obj.children|
    ensures var child := obj.children[i];
            ConfigPathsFrom(obj, parent, i, forcedClass, selectedClass) ==
              (if !Accepted(child.name, forcedClass, selectedClass) then []
               else if child.isGroup then ConfigPathsFrom(child, parent + "." + child.name, 0, forcedClass, selectedClass)
               else [parent + "." + child.name])
              + ConfigPathsFrom(obj, parent, i + 1, forcedClass, selectedClass)
  {
    var child := obj.children[i];
    ChildFacts(obj, i);
    var here :=
      if !Accepted(child.name, forcedClass, selectedClass) then []
      else if child.isGroup then Prefixed(child.name, NamePathsFrom(child, 0, forcedClass, selectedClass))
      else [[child.name]];
    var rest := NamePathsFrom(obj, i + 1, forcedClass, selectedClass);
    assert NamePathsFrom(obj, i, forcedClass, selectedClass) == here + rest;
    DottedConcat(parent, here, rest);
    if Accepted(child.name, forcedClass, selectedClass) && child.isGroup {
      DottedPrefixed(parent, child.name, NamePathsFrom(child, 0, forcedClass, selectedClass));
    } else if Accepted(child.name, forcedClass, selectedClass) {
      assert [child.name][1..] == [];
      assert DottedFrom(parent, [child.name]) == parent + "." + child.name;
      assert Dotted(parent, here) == [parent + "." + child.name];
    }
  }

  /** A node of `currentTreeConfig`; its `title` always equals its `key`. */
  datatype ConfigNode = ConfigNode(key: Option<string>, children: seq<ConfigNode>)

  /** What `recursivelyCreateTreeNode` builds: a leaf `{key, title}` or a node with one child. */
  datatype TreeChain = Tip(key: Option<string>) | Link(name: string, next: TreeChain)

  /** The keys of a chain from its root down; an undefined key is None. */
  function ChainKeys(c: TreeChain): (r: seq<Option<string>>)
    ensures |r| > 0
  {
    match c
    case Tip(key) => [key]
    case Link(name, next) => [Some(name)] + ChainKeys(next)
  }

  /** `recursivelyCreateTreeNode(nodeArray)`: pops names from the end, root first. */
  function RecursivelyCreateTreeNode(nodeArray: seq<string>): TreeChain
    decreases |nodeArray|
  {
    if |nodeArray| <= 1 then Tip(if |nodeArray| == 0 then None else Some(nodeArray[0]))
    else Link(nodeArray[|nodeArray| - 1], RecursivelyCreateTreeNode(nodeArray[..|nodeArray| - 1]))
  }

  function AllSome(s: seq<string>): (r: seq<Option<string>>)
    ensures |r| == |s| && forall k :: 0 <= k < |s| ==> r[k] == Some(s[k])
  {
    seq(|s|, k requires 0 <= k < |s| => Some(s[k]))
  }

  /** Applied to reversed names, the chain runs through the names in their first order. */
  lemma {:induction false} CreateTreeNodeRoundTrip(names: seq<string>)
    requires |names| > 0
    ensures ChainKeys(RecursivelyCreateTreeNode(Catalog.Reversed(names))) == AllSome(names)
  {
    var rev := Catalog.Reversed(names);
    if |names| > 1 {
      assert rev[..|rev| - 1] == Catalog.Reversed(names[1..]);
      CreateTreeNodeRoundTrip(names[1..]);
    }
  }

  /** The chain `addToTreeConfig(partString)` adds: the dotted names without the first. */
  function TreeChainOf(partString: string): TreeChain
  {
    var nodeArray := Catalog.Reversed(Split(partString, '.'));
    RecursivelyCreateTreeNode(nodeArray[..|nodeArray| - 1])
  }

  /** The chain added for a part string with a dot holds the names after the first one. */
  lemma TreeChainKeys(partString: string)
    requires '.' in partString
    ensures ChainKeys(TreeChainOf(partString)) == AllSome(Split(partString, '.')[1..])
  {
    var segs := Split(partString, '.');
    assert Catalog.Reversed(segs)[..|segs| - 1] == Catalog.Reversed(segs[1..]);
    CreateTreeNodeRoundTrip(segs[1..]);
  }

  /** The first node of a level with the given key. */
  function FirstKey(level: seq<ConfigNode>, key: Option<string>): (r: Option<nat>)
    ensures r.Some? ==> r.value < |level| && level[r.value].key == key &&
                        forall k :: 0 <= k < r.value ==> level[k].key != key
    ensures r.None? ==> forall k :: 0 <= k < |level| ==> level[k].key != key
  {
    if level == [] then None
    else if level[0].key == key then Some(0)
    else match FirstKey(level[1..], key)
      case None => None
      case Some(k) => Some(k + 1)
  }

  /**
   * The forest after inserting a chain of keys: each key goes to the first
   * node with that key on its level, or to a new node added at the end.
   */
  function InsertPath(level: seq<ConfigNode>, keys: seq<Option<string>>): seq<ConfigNode>
    decreases |keys|
  {
    if keys == [] then level
    else match FirstKey(level, keys[0])
      case None => level + [ConfigNode(keys[0], InsertPath([], keys[1..]))]
      case Some(i) => level[i := ConfigNode(keys[0], InsertPath(level[i].children, keys[1..]))]
  }

  /** The keys can be followed from `level` down, level by level. */
  predicate PathPresent(level: seq<ConfigNode>, keys: seq<Option<string>>)
    decreases |keys|
  {
    keys == [] ||
    exists i :: 0 <= i < |level| && level[i].key == keys[0] && PathPresent(level[i].children, keys[1..])
  }

  /** After inserting a chain, its keys can be followed from the root level. */
  lemma {:induction false} InsertPathPresent(level: seq<ConfigNode>, keys: seq<Option<string>>)
    ensures PathPresent(InsertPath(level, keys), keys)
    decreases |keys|
  {
    if keys != [] {
      var out := InsertPath(level, keys);
      match FirstKey(level, keys[0])
      case None =>
        InsertPathPresent([], keys[1..]);
        assert out[|level|].key == keys[0] && PathPresent(out[|level|].children, keys[1..]);
      case Some(i) =>
        InsertPathPresent(level[i].children, keys[1..]);
        assert out[i].key == keys[0] && PathPresent(out[i].children, keys[1..]);
    }
  }

  /** Inserting a chain keeps every existing node of the level in place, with its key. */
  lemma InsertPathKeepsLevel(level: seq<ConfigNode>, keys: seq<Option<string>>)
    requires keys != []
    ensures var out := InsertPath(level, keys);
            && (|out| == |level| || (|out| == |level| + 1 && out[|level|].key == keys[0]))
            && (forall k :: 0 <= k < |level| ==> out[k].key == level[k].key)
            && (forall k :: 0 <= k < |level| && out[k] != level[k] ==> level[k].key == keys[0])
  {
  }

  /** Inserting the same chain twice gives the forest of inserting it once. */
  lemma {:induction false} InsertPathIdempotent(level: seq<ConfigNode>, keys: seq<Option<string>>)
    ensures InsertPath(InsertPath(level, keys), keys) == InsertPath(level, keys)
    decreases |keys|
  {
    if keys != [] {
      var once := InsertPath(level, keys);
      match FirstKey(level, keys[0])
      case None =>
        InsertPathKeepsLevel(level, keys);
        assert FirstKey(once, keys[0]) == Some(|level|);
        InsertPathIdempotent([], keys[1..]);
      case Some(i) =>
        InsertPathKeepsLevel(level, keys);
        assert FirstKey(once, keys[0]) == Some(i);
        InsertPathIdempotent(level[i].children, keys[1..]);
    }
  }

  /** No two nodes of one level share a key. */
  predicate DistinctLevel(level: seq<ConfigNode>)
  {
    forall i, j :: 0 <= i < j < |level| ==> level[i].key != level[j].key
  }

  /** The tree below a node merges by key on every level. */
  predicate MergedNode(n: ConfigNode)
    decreases n
  {
    DistinctLevel(n.children) && forall k :: 0 <= k < |n.children| ==> MergedNode(n.children[k])
  }

  predicate Merged(level: seq<ConfigNode>)
  {
    DistinctLevel(level) && forall k :: 0 <= k < |level| ==> MergedNode(level[k])
  }

  /** Inserting a chain into a forest that merges by key keeps it merged by key. */
  lemma {:induction false} InsertPathKeepsMerged(level: seq<ConfigNode>, keys: seq<Option<string>>)
    requires Merged(level)
    ensures Merged(InsertPath(level, keys))
    decreases |keys|
  {
    if keys != [] {
      var out := InsertPath(level, keys);
      match FirstKey(level, keys[0])
      case None =>
        InsertPathKeepsMerged([], keys[1..]);
        assert MergedNode(out[|level|]);
      case Some(i) =>
        InsertPathKeepsMerged(level[i].children, keys[1..]);
        assert MergedNode(out[i]);
    }
  }

  /** The key of a chain's root. */
  function KeyOf(c: TreeChain): (r: Option<string>)
    ensures ChainKeys(c)[0] == r
  {
    match c
    case Tip(key) => key
    case Link(name, _) => Some(name)
  }

  /*
   * `addObjectToTree` walks `currentTreeConfig` through a reference
   * `childArray` to a nested array and pushes into it. Here that reference is
   * the path of indices from the root level to the level it denotes.
   */

  /** `path` leads from `level` through existing nodes. */
  predicate ValidPath(level: seq<ConfigNode>, path: seq<nat>)
    decreases |path|
  {
    path == [] || (path[0] < |level| && ValidPath(level[path[0]].children, path[1..]))
  }

  /** The level `path` leads to. */
  function At(level: seq<ConfigNode>, path: seq<nat>): seq<ConfigNode>
    requires ValidPath(level, path)
    decreases |path|
  {
    if path == [] then level else At(level[path[0]].children, path[1..])
  }

  /** The forest with the level at `path` replaced by `g`. */
  function Replace(level: seq<ConfigNode>, path: seq<nat>, g: seq<ConfigNode>): seq<ConfigNode>
    requires ValidPath(level, path)
    decreases |path|
  {
    if path == [] then g
    else level[path[0] := ConfigNode(level[path[0]].key, Replace(level[path[0]].children, path[1..], g))]
  }

  lemma {:induction false} AtReplace(level: seq<ConfigNode>, path: seq<nat>, g: seq<ConfigNode>)
    requires ValidPath(level, path)
    ensures ValidPath(Replace(level, path, g), path) && At(Replace(level, path, g), path) == g
    decreases |path|
  {
    if path != [] {
      AtReplace(level[path[0]].children, path[1..], g);
    }
  }

  lemma {:induction false} ReplaceAt(level: seq<ConfigNode>, path: seq<nat>)
    requires ValidPath(level, path)
    ensures Replace(level, path, At(level, path)) == level
    decreases |path|
  {
    if path != [] {
      ReplaceAt(level[path[0]].children, path[1..]);
    }
  }

  lemma {:induction false} ReplaceTwice(level: seq<ConfigNode>, path: seq<nat>, g: seq<ConfigNode>, h: seq<ConfigNode>)
    requires ValidPath(level, path)
    ensures ValidPath(Replace(level, path, g), path)
    ensures Replace(Replace(level, path, g), path, h) == Replace(level, path, h)
    decreases |path|
  {
    AtReplace(level, path, g);
    if path != [] {
      ReplaceTwice(level[path[0]].children, path[1..], g, h);
    }
  }

  lemma {:induction false} ReplaceExtend(level: seq<ConfigNode>, path: seq<nat>, i: nat, x: seq<ConfigNode>)
    requires ValidPath(level, path) && i < |At(level, path)|
    ensures ValidPath(level, path + [i])
    ensures At(level, path + [i]) == At(level, path)[i].children
    ensures Replace(level, path + [i], x) == Replace(level, path, At(level, path)[i := ConfigNode(At(level, path)[i].key, x)])
    decreases |path|
  {
    if path == [] {
      assert ([] + [i])[1..] == [];
    } else {
      assert (path + [i])[1..] == path[1..] + [i];
      ReplaceExtend(level[path[0]].children, path[1..], i, x);
    }
  }

  /** One round of the walk when the level has no node with the chain's key: a new node is pushed. */
  lemma StepNotFound(level: seq<ConfigNode>, path: seq<nat>, name: Option<string>, rest: seq<Option<string>>)
    requires ValidPath(level, path) && FirstKey(At(level, path), name).None?
    ensures var f := At(level, path);
            var pushed := Replace(level, path, f + [ConfigNode(name, [])]);
            && ValidPath(pushed, path + [|f|])
            && At(pushed, path + [|f|]) == []
            && Replace(level, path, InsertPath(f, [name] + rest)) == Replace(pushed, path + [|f|], InsertPath([], rest))
  {
    var f := At(level, path);
    var g := f + [ConfigNode(name, [])];
    var pushed := Replace(level, path, g);
    AtReplace(level, path, g);
    ReplaceExtend(pushed, path, |f|, InsertPath([], rest));
    ReplaceTwice(level, path, g, g[|f| := ConfigNode(name, InsertPath([], rest))]);
    assert ([name] + rest)[1..] == rest;
    assert g[|f| := ConfigNode(name, InsertPath([], rest))] == f + [ConfigNode(name, InsertPath([], rest))];
  }

  /** One round of the walk when node `i` of the level has the chain's key: the walk moves into it. */
  lemma StepFound(level: seq<ConfigNode>, path: seq<nat>, name: Option<string>, rest: seq<Option<string>>, i: nat)
    requires ValidPath(level, path) && FirstKey(At(level, path), name) == Some(i)
    ensures ValidPath(level, path + [i]) && At(level, path + [i]) == At(level, path)[i].children
    ensures Replace(level, path, InsertPath(At(level, path), [name] + rest)) ==
            Replace(level, path + [i], InsertPath(At(level, path)[i].children, rest))
  {
    ReplaceExtend(level, path, i, InsertPath(At(level, path)[i].children, rest));
    assert ([name] + rest)[1..] == rest;
  }

  /** The part strings handed to `addToTreeConfig`, added one after the other. */
  function AddAllToTree(level: seq<ConfigNode>, partStrings: seq<string>): seq<ConfigNode>
    decreases |partStrings|
  {
    if partStrings == [] then level
    else AddAllToTree(InsertPath(level, ChainKeys(TreeChainOf(partStrings[0]))), partStrings[1..])
  }

  lemma {:induction false} AddAllToTreeConcat(level: seq<ConfigNode>, a: seq<string>, b: seq<string>)
    ensures AddAllToTree(level, a + b) == AddAllToTree(AddAllToTree(level, a), b)
    decreases |a|
  {
    if a != [] {
      var next := InsertPath(level, ChainKeys(TreeChainOf(a[0])));
      assert (a + b)[0] == a[0] && (a + b)[1..] == a[1..] + b;
      assert AddAllToTree(level, a + b) == AddAllToTree(next, a[1..] + b);
      AddAllToTreeConcat(next, a[1..], b);
    } else {
      assert a + b == b;
    }
  }

  /** Adding part strings to a forest that merges by key keeps it merged by key. */
  lemma {:induction false} AddAllToTreeKeepsMerged(level: seq<ConfigNode>, partStrings: seq<string>)
    requires Merged(level)
    ensures Merged(AddAllToTree(level, partStrings))
    decreases |partStrings|
  {
    if partStrings != [] {
      InsertPathKeepsMerged(level, ChainKeys(TreeChainOf(partStrings[0])));
      AddAllToTreeKeepsMerged(InsertPath(level, ChainKeys(TreeChainOf(partStrings[0]))), partStrings[1..]);
    }
  }

  /** A child the filter rejects adds no part string. */
  lemma SkipStep(obj: Layer, parent: string, i: nat, forcedClass: Option<seq<string>>, selectedClass: seq<string>)
    requires obj.Valid() && i < |obj.children| && !Accepted(obj.children[i].name, forcedClass, selectedClass)
    ensures ConfigPathsFrom(obj, parent, i, forcedClass, selectedClass) == ConfigPathsFrom(obj, parent, i + 1, forcedClass, selectedClass)
  {
    ConfigPathsStep(obj, parent, i, forcedClass, selectedClass);
  }

  /** An accepted group child adds the part strings of its subtree, then the later children follow. */
  lemma GroupTreeStep(obj: Layer, parent: string, i: nat, forcedClass: Option<seq<string>>, selectedClass: seq<string>,
                      before: seq<ConfigNode>, after: seq<ConfigNode>)
    requires obj.Valid() && i < |obj.children|
    requires Accepted(obj.children[i].name, forcedClass, selectedClass) && obj.children[i].isGroup
    requires obj.children[i].Valid()
    requires after == AddAllToTree(before, ConfigPathsFrom(obj.children[i], parent + "." + obj.children[i].name, 0, forcedClass, selectedClass))
    ensures AddAllToTree(after, ConfigPathsFrom(obj, parent, i + 1, forcedClass, selectedClass)) ==
            AddAllToTree(before, ConfigPathsFrom(obj, parent, i, forcedClass, selectedClass))
  {
    var child := obj.children[i];
    ConfigPathsStep(obj, parent, i, forcedClass, selectedClass);
    AddAllToTreeConcat(before, ConfigPathsFrom(child, parent + "." + child.name, 0, forcedClass, selectedClass),
                       ConfigPathsFrom(obj, parent, i + 1, forcedClass, selectedClass));
  }

  /** An accepted leaf child adds its own part string, then the later children follow. */
  lemma LeafTreeStep(obj: Layer, parent: string, i: nat, forcedClass: Option<seq<string>>, selectedClass: seq<string>,
                     before: seq<ConfigNode>, after: seq<ConfigNode>)
    requires obj.Valid() && i < |obj.children|
    requires Accepted(obj.children[i].name, forcedClass, selectedClass) && !obj.children[i].isGroup
    requires after == InsertPath(before, ChainKeys(TreeChainOf(parent + "." + obj.children[i].name)))
    ensures AddAllToTree(after, ConfigPathsFrom(obj, parent, i + 1, forcedClass, selectedClass)) ==
            AddAllToTree(before, ConfigPathsFrom(obj, parent, i, forcedClass, selectedClass))
  {
    var child := obj.children[i];
    ConfigPathsStep(obj, parent, i, forcedClass, selectedClass);
    var later := ConfigPathsFrom(obj, parent, i + 1, forcedClass, selectedClass);
    AddAllToTreeConcat(before, [parent + "." + child.name], later);
    assert [parent + "." + child.name][1..] == [];
  }

  /** The tree of part names shown for a configuration (`currentTreeConfig`). */
  class TreeConfig {
    var treeConfig: seq<ConfigNode>

    constructor()
      ensures treeConfig == []
    {
      treeConfig := [];
    }

    /** `addObjectToTree(objectToAdd)`: follows the chain down, reusing nodes by key and pushing new ones. */
    method AddObjectToTree(objectToAdd: TreeChain)
      modifies this
      ensures treeConfig == InsertPath(old(treeConfig), ChainKeys(objectToAdd))
    {
      ghost var goal := InsertPath(treeConfig, ChainKeys(objectToAdd));
      var childArray: seq<nat> := [];
      var nodeToAdd := objectToAdd;
      var finished := false;
      while !finished
        invariant ValidPath(treeConfig, childArray)
        invariant finished ==> treeConfig == goal
        invariant !finished ==> goal == Replace(treeConfig, childArray, InsertPath(At(treeConfig, childArray), ChainKeys(nodeToAdd)))
        decreases if finished then 0 else 1, nodeToAdd
      {
        var level := At(treeConfig, childArray);
        var nodeName := KeyOf(nodeToAdd);
        ghost var rest := ChainKeys(nodeToAdd)[1..];
        assert ChainKeys(nodeToAdd) == [nodeName] + rest;
        var selectedNode: Option<nat> := None;
        var k := 0;
        while k < |level| && selectedNode.None?
          invariant 0 <= k <= |level|
          invariant selectedNode.None? ==> forall m :: 0 <= m < k ==> level[m].key != nodeName
          invariant selectedNode.Some? ==> selectedNode == FirstKey(level, nodeName)
        {
          if level[k].key == nodeName {
            selectedNode := Some(k);
          }
          k := k + 1;
        }
        if selectedNode.None? {
          StepNotFound(treeConfig, childArray, nodeName, rest);
          treeConfig := Replace(treeConfig, childArray, level + [ConfigNode(nodeName, [])]);
          childArray := childArray + [|level|];
        } else {
          StepFound(treeConfig, childArray, nodeName, rest, selectedNode.value);
          childArray := childArray + [selectedNode.value];
        }
        match nodeToAdd
        case Tip(_) =>
          ReplaceAt(treeConfig, childArray);
          finished := true;
        case Link(_, next) =>
          nodeToAdd := next;
      }
    }

    /** `addToTreeConfig(partString)`: the chain of the names after the first, added to the tree. */
    method AddToTreeConfig(partString: string)
      modifies this
      ensures treeConfig == InsertPath(old(treeConfig), ChainKeys(TreeChainOf(partString)))
    {
      var nodeArray := Catalog.Reversed(Split(partString, '.'));
      nodeArray := nodeArray[..|nodeArray| - 1];
      var objectToAdd := RecursivelyCreateTreeNode(nodeArray);
      AddObjectToTree(objectToAdd);
    }

    /**
     * `recurseOverChildren(obj, parent, forcedClass)` as far as the tree is
     * concerned: every part string that passes the filter is added, in order.
     */
    method RecurseOverChildren(obj: Layer, parent: string, forcedClass: Option<seq<string>>, selectedClass: seq<string>)
      requires obj.Valid()
      modifies this
      ensures treeConfig == AddAllToTree(old(treeConfig), ConfigPathsFrom(obj, parent, 0, forcedClass, selectedClass))
      decreases obj.depth
    {
      for i := 0 to |obj.children|
        invariant AddAllToTree(treeConfig, ConfigPathsFrom(obj, parent, i, forcedClass, selectedClass)) ==
                  AddAllToTree(old(treeConfig), ConfigPathsFrom(obj, parent, 0, forcedClass, selectedClass))
      {
        var child := obj.children[i];
        if child.name == "IGNORE" {
          SkipStep(obj, parent, i, forcedClass, selectedClass);
          continue;
        }
        if forcedClass.Some? {
          if Contains(child.name, "CLASS") && child.name !in forcedClass.value {
            SkipStep(obj, parent, i, forcedClass, selectedClass);
            continue;
          }
        } else if Contains(child.name, "CLASS") && child.name !in selectedClass {
          SkipStep(obj, parent, i, forcedClass, selectedClass);
          continue;
        }
        ghost var before := treeConfig;
        if child.isGroup {
          ChildFacts(obj, i);
          RecurseOverChildren(child, parent + "." + child.name, forcedClass, selectedClass);
          GroupTreeStep(obj, parent, i, forcedClass, selectedClass, before, treeConfig);
        } else {
          AddToTreeConfig(parent + "." + child.name);
          LeafTreeStep(obj, parent, i, forcedClass, selectedClass, before, treeConfig);
        }
      }
    }
  }
}
