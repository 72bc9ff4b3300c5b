/**
 * The parts catalog `tempPartsList`: a JSON object whose nested keys are the
 * layer path of each trait category and whose leaves are arrays of parts
 * `{name, weight}`. Key order matters (it becomes attribute order), so an
 * object is an ordered list of entries.
 */
module Catalog {
  import opened Wrappers
  import opened Strings
  import opened Parts
  import opened Rarity
  import opened Layers

  /** A catalog value: an array of parts, or an object of further entries. */
  datatype Node = List(parts: seq<Part>) | Group(entries: seq<Entry>)
  datatype Entry = Entry(key: string, node: Node)

  /** The position of key `k` in an object, if it has one. */
  function IndexOf(es: seq<Entry>, k: string): (r: Option<nat>)
    ensures r.Some? ==> r.value < |es| && es[r.value].key == k
    ensures r.Some? ==> forall j :: 0 <= j < r.value ==> es[j].key != k
    ensures r.None? ==> forall j :: 0 <= j < |es| ==> es[j].key != k
  {
    if es == [] then None
    else if es[0].key == k then Some(0)
    else match IndexOf(es[1..], k)
      case None => None
      case Some(j) => Some(j + 1)
  }

  /** `_.get(catalog, path)`: None (undefined) when a key is missing or an array is reached early. */
  function Get(n: Node, path: seq<string>): Option<Node>
    decreases |path|
  {
    if path == [] then Some(n)
    else match n
      case List(_) => None
      case Group(es) =>
        match IndexOf(es, path[0])
        case None => None
        case Some(i) => Get(es[i].node, path[1..])
  }

  /** Nested objects along `path` ending in `leaf`: what `_.merge` adds for a missing path. */
  function Chain(path: seq<string>, leaf: Node): (r: Node)
    ensures Get(r, path) == Some(leaf)
    decreases |path|
  {
    if path == [] then leaf else Group([Entry(path[0], Chain(path[1..], leaf))])
  }

  /** Some proper prefix of `path` leads to an array, so `_.get` stops there. */
  predicate Blocked(n: Node, path: seq<string>)
    decreases |path|
  {
    && path != []
    && match n
       case List(_) => true
       case Group(es) =>
         match IndexOf(es, path[0])
         case None => false
         case Some(i) => Blocked(es[i].node, path[1..])
  }

  /**
   * The catalog after adding `part` under category `path`: appended to an
   * existing array; created with its missing objects when the path is
   * undefined; unchanged when the path holds an object. A path running
   * through an array is unchanged too: lodash stores the part as a named
   * property of that array, which JSON serialisation of the catalog drops.
   */
  function Insert(n: Node, path: seq<string>, part: Part): Node
    decreases |path|
  {
    match n
    case List(ps) => if path == [] then List(ps + [part]) else n
    case Group(es) =>
      if path == [] then n
      else match IndexOf(es, path[0])
        case None => Group(es + [Entry(path[0], Chain(path[1..], List([part])))])
        case Some(i) => Group(es[i := Entry(path[0], Insert(es[i].node, path[1..], part))])
  }

  lemma IndexOfAppended(es: seq<Entry>, e: Entry, k: string)
    requires IndexOf(es, e.key).None?
    ensures IndexOf(es + [e], k) == if k == e.key then Some(|es|) else IndexOf(es, k)
  {
    var r := IndexOf(es + [e], k);
    if k != e.key {
      match IndexOf(es, k)
      case None =>
        assert forall j :: 0 <= j < |es| + 1 ==> (es + [e])[j].key != k by {
          forall j | 0 <= j < |es| + 1 ensures (es + [e])[j].key != k {
            if j < |es| { assert (es + [e])[j] == es[j]; }
          }
        }
      case Some(i) =>
        assert (es + [e])[i] == es[i];
        assert forall j :: 0 <= j < i ==> (es + [e])[j] == es[j];
    } else {
      assert (es + [e])[|es|] == e;
      assert forall j :: 0 <= j < |es| ==> (es + [e])[j] == es[j];
    }
  }

  lemma IndexOfReplaced(es: seq<Entry>, i: nat, e: Entry, k: string)
    requires i < |es| && e.key == es[i].key
    ensures IndexOf(es[i := e], k) == IndexOf(es, k)
  {
    var es' := es[i := e];
    assert forall j :: 0 <= j < |es| ==> es'[j].key == es[j].key;
    match IndexOf(es, k)
    case None =>
    case Some(m) =>
  }

  /** Looking up the category just written. */
  lemma {:induction false} InsertLookup(n: Node, path: seq<string>, part: Part)
    ensures Get(Insert(n, path, part), path) ==
              match Get(n, path)
              case Some(List(ps)) => Some(List(ps + [part]))
              case Some(Group(es)) => Some(Group(es))
              case None => if Blocked(n, path) then None else Some(List([part]))
    decreases |path|
  {
    match n
    case List(ps) =>
    case Group(es) =>
      if path != [] {
        match IndexOf(es, path[0])
        case None =>
          var e := Entry(path[0], Chain(path[1..], List([part])));
          IndexOfAppended(es, e, path[0]);
          assert (es + [e])[|es|] == e;
        case Some(i) =>
          var e := Entry(path[0], Insert(es[i].node, path[1..], part));
          IndexOfReplaced(es, i, e, path[0]);
          InsertLookup(es[i].node, path[1..], part);
      }
  }

  /** A category holding an object, or a path through an array, is left as it was. */
  lemma {:induction false} InsertNoList(n: Node, path: seq<string>, part: Part)
    requires Blocked(n, path) || (Get(n, path).Some? && Get(n, path).value.Group?)
    ensures Insert(n, path, part) == n
    decreases |path|
  {
    match n
    case List(ps) =>
    case Group(es) =>
      if path != [] {
        var i := IndexOf(es, path[0]).value;
        InsertNoList(es[i].node, path[1..], part);
        assert es[i := Entry(path[0], es[i].node)] == es;
      }
  }

  /** Every other category's array is kept, contents and order. */
  lemma {:induction false} InsertKeepsOthers(n: Node, path: seq<string>, part: Part, q: seq<string>, ps: seq<Part>)
    requires q != path && Get(n, q) == Some(List(ps))
    ensures Get(Insert(n, path, part), q) == Some(List(ps))
    decreases |path|
  {
    match n
    case List(_) =>
    case Group(es) =>
      if path != [] {
        assert q != [];
        match IndexOf(es, path[0])
        case None =>
          var e := Entry(path[0], Chain(path[1..], List([part])));
          IndexOfAppended(es, e, q[0]);
          var j := IndexOf(es, q[0]).value;
          assert (es + [e])[j] == es[j];
        case Some(i) =>
          var e := Entry(path[0], Insert(es[i].node, path[1..], part));
          IndexOfReplaced(es, i, e, q[0]);
          if q[0] == path[0] {
            InsertKeepsOthers(es[i].node, path[1..], part, q[1..], ps);
          }
      }
  }

  /** Every object of the catalog has distinct keys. */
  predicate Keyed(n: Node)
  {
    match n
    case List(_) => true
    case Group(es) =>
      (forall i, j :: 0 <= i < j < |es| ==> es[i].key != es[j].key) &&
      (forall i :: 0 <= i < |es| ==> Keyed(es[i].node))
  }

  lemma {:induction false} ChainKeyed(path: seq<string>, leaf: Node)
    requires Keyed(leaf)
    ensures Keyed(Chain(path, leaf))
    decreases |path|
  {
    if path != [] {
      ChainKeyed(path[1..], leaf);
    }
  }

  /** Adding a part never creates a duplicate key. */
  lemma {:induction false} InsertKeepsKeyed(n: Node, path: seq<string>, part: Part)
    requires Keyed(n)
    ensures Keyed(Insert(n, path, part))
    decreases |path|
  {
    match n
    case List(_) =>
    case Group(es) =>
      if path != [] {
        match IndexOf(es, path[0])
        case None =>
          ChainKeyed(path[1..], List([part]));
          var es' := es + [Entry(path[0], Chain(path[1..], List([part])))];
          assert forall j :: 0 <= j < |es| ==> es'[j] == es[j];
        case Some(i) =>
          InsertKeepsKeyed(es[i].node, path[1..], part);
      }
  }

  /** The dotted category of a part string: all segments but the last. */
  function Category(partString: string): (r: seq<string>)
    requires '.' in partString
    ensures |r| >= 1 && r + [LastSegment(partString)] == Split(partString, '.')
  {
    var segs := Split(partString, '.');
    assert segs == segs[..|segs| - 1] + [segs[|segs| - 1]];
    segs[..|segs| - 1]
  }

  function LastSegment(partString: string): string
  {
    var segs := Split(partString, '.');
    segs[|segs| - 1]
  }

  /** The catalog after `addToPartsList(partString)` with rarity table `rarities`. */
  function Added(catalog: Node, rarities: RarityTable, partString: string): Node
    requires '.' in partString
  {
    Insert(catalog, Category(partString), Part(LastSegment(partString), PartWeight(rarities, Split(partString, '.'))))
  }

  /** The part strings `recurseOverParts` visits below `obj.children[i..]`, in order. */
  function LeafStrings(obj: Layer, parent: string, i: nat): (r: seq<string>)
    requires obj.Valid() && i <= |obj.children|
    ensures forall k :: 0 <= k < |r| ==> '.' in r[k]
    decreases obj.depth, |obj.children| - i
  {
    if i == |obj.children| then []
    else
      var child := obj.children[i];
      var fullName := parent + "." + child.name;
      assert fullName[|parent|] == '.';
      (if child.isGroup then LeafStrings(child, fullName, 0) else [fullName]) + LeafStrings(obj, parent, i + 1)
  }

  /** The catalog after adding the leaves below `obj.children[i..]`. */
  function AddedBelow(catalog: Node, rarities: RarityTable, obj: Layer, parent: string, i: nat): Node
    requires obj.Valid() && i <= |obj.children|
  {
    AddedAll(catalog, rarities, LeafStrings(obj, parent, i))
  }

  lemma GroupStep(catalog: Node, rarities: RarityTable, obj: Layer, parent: string, i: nat)
    requires obj.Valid() && i < |obj.children| && obj.children[i].isGroup
    ensures AddedBelow(catalog, rarities, obj, parent, i) ==
            AddedBelow(AddedBelow(catalog, rarities, obj.children[i], parent + "." + obj.children[i].name, 0), rarities, obj, parent, i + 1)
  {
    var child := obj.children[i];
    var fullName := parent + "." + child.name;
    assert LeafStrings(obj, parent, i) == LeafStrings(child, fullName, 0) + LeafStrings(obj, parent, i + 1);
    AddedAllConcat(catalog, rarities, LeafStrings(child, fullName, 0), LeafStrings(obj, parent, i + 1));
  }

  lemma LeafStep(catalog: Node, rarities: RarityTable, obj: Layer, parent: string, i: nat)
    requires obj.Valid() && i < |obj.children| && !obj.children[i].isGroup
    ensures '.' in parent + "." + obj.children[i].name
    ensures AddedBelow(catalog, rarities, obj, parent, i) ==
            AddedBelow(Added(catalog, rarities, parent + "." + obj.children[i].name), rarities, obj, parent, i + 1)
  {
    var fullName := parent + "." + obj.children[i].name;
    var rest := LeafStrings(obj, parent, i + 1);
    assert fullName[|parent|] == '.';
    assert LeafStrings(obj, parent, i) == [fullName] + rest;
    AddedAllSingle(catalog, rarities, fullName);
    assert forall k :: 0 <= k < |[fullName]| ==> '.' in [fullName][k];
    AddedAllConcat(catalog, rarities, [fullName], rest);
  }

  /** The catalog after adding each of `partStrings` in turn. */
  function AddedAll(catalog: Node, rarities: RarityTable, partStrings: seq<string>): Node
    requires forall k :: 0 <= k < |partStrings| ==> '.' in partStrings[k]
    decreases |partStrings|
  {
    if partStrings == [] then catalog
    else AddedAll(Added(catalog, rarities, partStrings[0]), rarities, partStrings[1..])
  }

  lemma {:induction false} AddedAllConcat(catalog: Node, rarities: RarityTable, a: seq<string>, b: seq<string>)
    requires forall k :: 0 <= k < |a| ==> '.' in a[k]
    requires forall k :: 0 <= k < |b| ==> '.' in b[k]
    ensures forall k :: 0 <= k < |a + b| ==> '.' in (a + b)[k]
    ensures AddedAll(catalog, rarities, a + b) == AddedAll(AddedAll(catalog, rarities, a), rarities, b)
    decreases |a|
  {
    assert forall k :: 0 <= k < |a + b| ==> (a + b)[k] == if k < |a| then a[k] else b[k - |a|];
    if a != [] {
      assert (a + b)[1..] == a[1..] + b;
      AddedAllConcat(Added(catalog, rarities, a[0]), rarities, a[1..], b);
    } else {
      assert a + b == b;
    }
  }

  lemma AddedAllSingle(catalog: Node, rarities: RarityTable, partString: string)
    requires '.' in partString
    ensures AddedAll(catalog, rarities, [partString]) == Added(catalog, rarities, partString)
  {
    assert [partString][1..] == [];
  }

  /** Adding parts keeps every object's keys distinct. */
  lemma {:induction false} AddedAllKeepsKeyed(catalog: Node, rarities: RarityTable, partStrings: seq<string>)
    requires forall k :: 0 <= k < |partStrings| ==> '.' in partStrings[k]
    requires Keyed(catalog)
    ensures Keyed(AddedAll(catalog, rarities, partStrings))
    decreases |partStrings|
  {
    if partStrings != [] {
      var s := partStrings[0];
      InsertKeepsKeyed(catalog, Category(s), Part(LastSegment(s), PartWeight(rarities, Split(s, '.'))));
      AddedAllKeepsKeyed(Added(catalog, rarities, s), rarities, partStrings[1..]);
    }
  }

  /** The value `recursivelyCreateNodes` builds: a chain of one-key objects ending in a string. */
  datatype Nested = Leaf(value: Option<string>) | Node(key: string, child: Nested)

  /**
   * `recursivelyCreateNodes(partArray)`: the last element becomes the
   * outermost key (it pops from the end); a single element is the leaf value,
   * and an empty array gives undefined.
   */
  function RecursivelyCreateNodes(partArray: seq<string>): Nested
    decreases |partArray|
  {
    if |partArray| <= 1 then Leaf(if |partArray| == 1 then Some(partArray[0]) else None)
    else Node(partArray[|partArray| - 1], RecursivelyCreateNodes(partArray[..|partArray| - 1]))
  }

  /** The keys along a nested chain followed by its leaf value. */
  function Flatten(n: Nested): seq<string>
  {
    match n
    case Leaf(v) => if v.Some? then [v.value] else []
    case Node(k, c) => [k] + Flatten(c)
  }

  function Reversed(s: seq<string>): (r: seq<string>)
    ensures |r| == |s|
    ensures forall i :: 0 <= i < |s| ==> r[i] == s[|s| - 1 - i]
  {
    if s == [] then [] else Reversed(s[1..]) + [s[0]]
  }

  /**
   * Applied to the reversed segments of a dotted path, as its callers do,
   * `recursivelyCreateNodes` nests the segments in path order: reading the
   * chain back gives the segments.
   */
  lemma {:induction false} CreateNodesRoundTrip(segs: seq<string>)
    ensures Flatten(RecursivelyCreateNodes(Reversed(segs))) == segs
    decreases |segs|
  {
    var r := Reversed(segs);
    if |segs| == 1 {
      assert r == [segs[0]];
    } else if |segs| > 1 {
      assert r[..|r| - 1] == Reversed(segs[1..]);
      CreateNodesRoundTrip(segs[1..]);
      assert [segs[0]] + segs[1..] == segs;
    }
  }

  /** The parts-catalog accumulator of the hook. */
  class PartsListBuilder {
    var tempPartsList: Node

    constructor ()
      ensures tempPartsList == Group([Entry("PartsList", Group([]))])
    {
      tempPartsList := Group([Entry("PartsList", Group([]))]);
    }

    /**
     * `addToPartsList(partString)`: weigh the part by the leaf-most tier in
     * its class's rarity table and add it to its category.
     */
    method AddToPartsList(rarities: RarityTable, partString: string)
      requires '.' in partString
      modifies this
      ensures tempPartsList == Added(old(tempPartsList), rarities, partString)
    {
      var partStringArray := Split(partString, '.');
      var className := partStringArray[1];
      var name := partStringArray[|partStringArray| - 1];
      var weight := TierWeight(Common);

      if className in rarities {
        var rarity := Common;
        var i := |partStringArray|;
        while i > 0
          invariant 0 <= i <= |partStringArray|
          invariant LeafmostTier(rarities[className], partStringArray, |partStringArray|) == LeafmostTier(rarities[className], partStringArray, i)
          invariant rarity == Common
          decreases i
        {
          if HasTier(rarities[className], partStringArray[i - 1]) {
            rarity := rarities[className][partStringArray[i - 1]].value;
            break;
          }
          i := i - 1;
        }
        weight := TierWeight(rarity);
      }

      var partToAdd := Part(name, weight);
      var partCategory := Category(partString);
      var currentPartSet := Get(tempPartsList, partCategory);
      InsertLookup(tempPartsList, partCategory, partToAdd);
      if currentPartSet.None? {
        tempPartsList := Insert(tempPartsList, partCategory, partToAdd);
      } else if currentPartSet.value.List? {
        tempPartsList := Insert(tempPartsList, partCategory, partToAdd);
      } else {
        InsertNoList(tempPartsList, partCategory, partToAdd);
      }
    }

    /** `recurseOverParts(obj, parent)`: add every leaf layer below `obj`, in pre-order. */
    method RecurseOverParts(obj: Layer, parent: string, rarities: RarityTable)
      requires obj.Valid()
      modifies this
      ensures tempPartsList == AddedAll(old(tempPartsList), rarities, LeafStrings(obj, parent, 0))
      decreases obj.depth
    {
      var i := 0;
      while i < |obj.children|
        invariant 0 <= i <= |obj.children|
        invariant AddedBelow(tempPartsList, rarities, obj, parent, i) == AddedBelow(old(tempPartsList), rarities, obj, parent, 0)
      {
        var child := obj.children[i];
        var fullName := parent + "." + child.name;
        ghost var before := tempPartsList;
        if child.isGroup {
          RecurseOverParts(child, fullName, rarities);
          GroupStep(before, rarities, obj, parent, i);
        } else {
          assert fullName[|parent|] == '.';
          AddToPartsList(rarities, fullName);
          LeafStep(before, rarities, obj, parent, i);
        }
        i := i + 1;
      }
    }

    /**
     * The extra pet "None" of weight 322, appended to the loaded pets; `thrown`
     * where `PartsList.Pets` is no array and `push` throws, leaving the catalog as it was.
     */
    method AddNonePet() returns (thrown: bool)
      modifies this
      ensures thrown <==> !(old(Get(tempPartsList, ["PartsList", "Pets"])).Some? &&
                            old(Get(tempPartsList, ["PartsList", "Pets"])).value.List?)
      ensures thrown ==> tempPartsList == old(tempPartsList)
      ensures !thrown ==> tempPartsList == Insert(old(tempPartsList), ["PartsList", "Pets"], Part("None", Some(322)))
      ensures !thrown ==>
                Get(tempPartsList, ["PartsList", "Pets"]) ==
                Some(List(old(Get(tempPartsList, ["PartsList", "Pets"])).value.parts + [Part("None", Some(322))]))
      ensures forall q, ps :: q != ["PartsList", "Pets"] && old(Get(tempPartsList, q)) == Some(List(ps)) ==>
                Get(tempPartsList, q) == Some(List(ps))
    {
      var pets := ["PartsList", "Pets"];
      var found := Get(tempPartsList, pets);
      if !(found.Some? && found.value.List?) {
        // `PartsList` or `Pets` is missing, or `Pets` is not an array: `push` throws.
        return true;
      }
      InsertLookup(tempPartsList, pets, Part("None", Some(322)));
      forall q, ps | q != pets && Get(tempPartsList, q) == Some(List(ps))
        ensures Get(Insert(tempPartsList, pets, Part("None", Some(322))), q) == Some(List(ps))
      {
        InsertKeepsOthers(tempPartsList, pets, Part("None", Some(322)), q, ps);
      }
      tempPartsList := Insert(tempPartsList, pets, Part("None", Some(322)));
      thrown := false;
    }
  }
}
