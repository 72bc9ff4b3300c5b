/**
 * The layered-image tree the viewer shows and hides parts of. A layer has a
 * name, is either a group (with an array of child layers) or a leaf, and
 * carries the mutable `hidden` flag that the randomiser sets. The tree's
 * shape never changes here; only `hidden` does.
 */
module Layers {
  import opened Wrappers
  import opened Strings

  class Layer {
    const name: string
    /** Whether the layer has a `children` array (a group) or not (a leaf). */
    const isGroup: bool
    const children: seq<Layer>
    var hidden: bool
    /** This layer and all layers below it. */
    ghost const Repr: set<Layer>
    ghost const depth: nat

    /** A proper tree: leaves have no children, subtrees are disjoint and shallower. */
    ghost predicate Valid()
      decreases depth
    {
      && this in Repr
      && (!isGroup ==> children == [])
      && (forall i :: 0 <= i < |children| ==> children[i].depth < depth && children[i].Valid())
      && (forall i :: 0 <= i < |children| ==> children[i] in Repr && this !in children[i].Repr && children[i].Repr <= Repr)
      && (forall i, j :: 0 <= i < j < |children| ==> children[i].Repr !! children[j].Repr)
      && Repr == {this} + ChildrenRepr(children)
    }
  }

  /** The layers of a list of subtrees. */
  ghost function ChildrenRepr(cs: seq<Layer>): set<Layer>
  {
    if cs == [] then {} else ChildrenRepr(cs[..|cs| - 1]) + cs[|cs| - 1].Repr
  }

  /** What a valid group knows about its child `i` without unfolding further. */
  lemma ChildFacts(obj: Layer, i: nat)
    requires obj.Valid() && i < |obj.children|
    ensures obj.children[i].Valid()
    ensures obj.children[i].Repr == {obj.children[i]} + ChildrenRepr(obj.children[i].children)
    ensures !obj.children[i].isGroup ==> obj.children[i].Repr == {obj.children[i]}
    ensures obj.children[i].Repr <= obj.Repr && obj !in obj.children[i].Repr
  {
    var c := obj.children[i];
    assert c.Valid();
  }

  lemma {:induction false} InChildrenRepr(cs: seq<Layer>, n: Layer)
    requires n in ChildrenRepr(cs)
    ensures exists k :: 0 <= k < |cs| && n in cs[k].Repr
  {
    if n !in cs[|cs| - 1].Repr {
      InChildrenRepr(cs[..|cs| - 1], n);
    }
  }

  /** Children of a valid group are distinct layers. */
  lemma ChildrenDistinct(l: Layer)
    requires l.Valid()
    ensures forall i, j :: 0 <= i < j < |l.children| ==> l.children[i] != l.children[j]
  {
    forall i, j | 0 <= i < j < |l.children|
      ensures l.children[i] != l.children[j]
    {
      ChildFacts(l, i);
      ChildFacts(l, j);
    }
  }

  /** Layers whose name contains UNIVERSAL stay visible when everything else is hidden. */
  predicate HiddenByDefault(name: string)
  {
    !Contains(name, "UNIVERSAL")
  }

  /** `hideLayersRecursively`: every layer below `obj` is hidden unless its name says UNIVERSAL. */
  method HideLayersRecursively(obj: Layer, parent: string)
    requires obj.Valid()
    modifies obj.Repr - {obj}
    ensures forall n :: n in obj.Repr && n != obj ==> n.hidden == HiddenByDefault(n.name)
    decreases obj.depth
  {
    var i := 0;
    while i < |obj.children|
      invariant 0 <= i <= |obj.children|
      invariant forall k, n :: 0 <= k < i && n in obj.children[k].Repr ==> n.hidden == HiddenByDefault(n.name)
    {
      var child := obj.children[i];
      ChildFacts(obj, i);
      child.hidden := HiddenByDefault(child.name);
      if child.isGroup {
        HideLayersRecursively(child, parent + "." + child.name);
      }
      i := i + 1;
    }
    forall n | n in obj.Repr && n != obj
      ensures n.hidden == HiddenByDefault(n.name)
    {
      InChildrenRepr(obj.children, n);
    }
  }

  /** A token's metadata: the part name chosen for each dotted layer path. */
  type TokenMetadata = map<seq<string>, string>

  /** `_.get(metadata, parent) == name`. */
  predicate ChosenIn(metadata: TokenMetadata, parent: string, name: string)
  {
    var path := Split(parent, '.');
    path in metadata && metadata[path] == name
  }

  /** Every leaf below `obj` is shown exactly when the metadata names it for its parent's path. */
  ghost predicate ShownPerMetadata(obj: Layer, parent: string, metadata: TokenMetadata)
    requires obj.Valid()
    reads obj.Repr
    decreases obj.depth
  {
    forall i :: 0 <= i < |obj.children| ==>
      if obj.children[i].isGroup then ShownPerMetadata(obj.children[i], parent + "." + obj.children[i].name, metadata)
      else obj.children[i].hidden == !ChosenIn(metadata, parent, obj.children[i].name)
  }

  /**
   * `recurseOverMetadata`: each leaf is unhidden exactly when the metadata
   * names it for its parent's path; group layers keep their flag.
   */
  method RecurseOverMetadata(obj: Layer, parent: string, metadata: TokenMetadata)
    requires obj.Valid()
    modifies obj.Repr - {obj}
    ensures ShownPerMetadata(obj, parent, metadata)
    ensures forall n :: n in obj.Repr && n.isGroup ==> n.hidden == old(n.hidden)
    decreases obj.depth
  {
    var i := 0;
    while i < |obj.children|
      invariant 0 <= i <= |obj.children|
      invariant forall k :: 0 <= k < i ==>
        if obj.children[k].isGroup then ShownPerMetadata(obj.children[k], parent + "." + obj.children[k].name, metadata)
        else obj.children[k].hidden == !ChosenIn(metadata, parent, obj.children[k].name)
      invariant forall n :: n in obj.Repr && n.isGroup ==> n.hidden == old(n.hidden)
    {
      var child := obj.children[i];
      ChildFacts(obj, i);
      var fullName := parent + "." + child.name;
      if child.isGroup {
        RecurseOverMetadata(child, fullName, metadata);
      } else {
        child.hidden := !ChosenIn(metadata, parent, child.name);
      }
      i := i + 1;
    }
  }

  /** The layers below `l`'s children from index `i` on, in pre-order. */
  function PreOrderFrom(l: Layer, i: nat): (r: seq<Layer>)
    requires l.Valid() && i <= |l.children|
    ensures forall n :: n in r ==> n in l.Repr && n != l
    decreases l.depth, |l.children| - i
  {
    if i == |l.children| then []
    else
      var c := l.children[i];
      [c] + (if c.isGroup then PreOrderFrom(c, 0) else []) + PreOrderFrom(l, i + 1)
  }

  /** The first layer of `s` with the given name. */
  function FirstNamed(s: seq<Layer>, partName: string): (r: Option<Layer>)
    ensures r.Some? ==> r.value in s && r.value.name == partName
    ensures r.None? ==> forall k :: 0 <= k < |s| ==> s[k].name != partName
  {
    if s == [] then None
    else if s[0].name == partName then Some(s[0])
    else FirstNamed(s[1..], partName)
  }

  lemma {:induction false} FirstNamedAppend(a: seq<Layer>, b: seq<Layer>, partName: string)
    ensures FirstNamed(a + b, partName) == if FirstNamed(a, partName).Some? then FirstNamed(a, partName) else FirstNamed(b, partName)
  {
    if a != [] {
      assert (a + b)[1..] == a[1..] + b;
      FirstNamedAppend(a[1..], b, partName);
    } else {
      assert a + b == b;
    }
  }

  /** The loop of `recursivelyFindPart` from child `i` on. */
  function FindFrom(l: Layer, partName: string, i: nat): Option<Layer>
    requires l.Valid() && i <= |l.children|
    decreases l.depth, |l.children| - i
  {
    if i == |l.children| then None
    else
      var c := l.children[i];
      if c.name == partName then Some(c)
      else if c.isGroup then
        var found := FindFrom(c, partName, 0);
        if found.Some? then found else FindFrom(l, partName, i + 1)
      else FindFrom(l, partName, i + 1)
  }

  /** A child of a valid group is valid and shallower. */
  lemma ChildValid(l: Layer, i: nat)
    requires l.Valid() && i < |l.children|
    ensures l.children[i].Valid() && l.children[i].depth < l.depth
  {
  }

  lemma FirstNamedCons(c: Layer, xs: seq<Layer>, partName: string)
    ensures FirstNamed([c] + xs, partName) == if c.name == partName then Some(c) else FirstNamed(xs, partName)
  {
    assert ([c] + xs)[1..] == xs;
  }

  /** One step of the pre-order walk: child `i`, its subtree, then its later siblings. */
  lemma PreOrderStep(l: Layer, i: nat)
    requires l.Valid() && i < |l.children|
    ensures l.children[i].Valid()
    ensures PreOrderFrom(l, i) ==
      [l.children[i]] + ((if l.children[i].isGroup then PreOrderFrom(l.children[i], 0) else []) + PreOrderFrom(l, i + 1))
  {
    ChildValid(l, i);
  }

  /** One step of the search loop at child `i`. */
  lemma FindFromStep(l: Layer, partName: string, i: nat)
    requires l.Valid() && i < |l.children|
    ensures l.children[i].Valid()
    ensures FindFrom(l, partName, i) ==
      if l.children[i].name == partName then Some(l.children[i])
      else if l.children[i].isGroup && FindFrom(l.children[i], partName, 0).Some? then FindFrom(l.children[i], partName, 0)
      else FindFrom(l, partName, i + 1)
  {
    ChildValid(l, i);
  }

  lemma {:induction false} FindFromIsFirstInPreOrder(l: Layer, partName: string, i: nat)
    requires l.Valid() && i <= |l.children|
    ensures FindFrom(l, partName, i) == FirstNamed(PreOrderFrom(l, i), partName)
    decreases l.depth, |l.children| - i
  {
    if i < |l.children| {
      ChildValid(l, i);
      PreOrderStep(l, i);
      FindFromStep(l, partName, i);
      var c := l.children[i];
      var below := if c.isGroup then PreOrderFrom(c, 0) else [];
      var rest := PreOrderFrom(l, i + 1);
      FirstNamedCons(c, below + rest, partName);
      FindFromIsFirstInPreOrder(l, partName, i + 1);
      if c.isGroup {
        FindFromIsFirstInPreOrder(c, partName, 0);
      }
      FirstNamedAppend(below, rest, partName);
    }
  }

  /**
   * `recursivelyFindPart`: the first layer below `obj`, in pre-order, whose
   * name is `partName`; a group that matches is returned before its children.
   */
  function RecursivelyFindPart(obj: Layer, parent: string, partName: string): (r: Option<Layer>)
    requires obj.Valid()
    ensures r == FirstNamed(PreOrderFrom(obj, 0), partName)
    ensures r.Some? ==> r.value in obj.Repr && r.value != obj && r.value.name == partName
  {
    FindFromIsFirstInPreOrder(obj, partName, 0);
    FindFrom(obj, partName, 0)
  }

  /** The names `checkRequiredParts` records for the tokens from index `i` on. */
  function RequiredFrom(tokens: seq<string>, i: nat): seq<Option<string>>
    decreases |tokens| - i
  {
    if i >= |tokens| then []
    else if tokens[i] == "REQUIRES" then
      [if i + 1 < |tokens| then Some(tokens[i + 1]) else None] + RequiredFrom(tokens, i + 2)
    else RequiredFrom(tokens, i + 1)
  }

  /**
   * The part names a space-separated part name requires: the single token
   * after each "REQUIRES" (None, JavaScript's undefined, when it is the last
   * token); the token after a "REQUIRES" is never itself read as a keyword.
   */
  function RequiredParts(tokens: seq<string>): seq<Option<string>>
  {
    RequiredFrom(tokens, 0)
  }

  lemma {:induction false} NoKeywordNothingRequiredFrom(tokens: seq<string>, i: nat)
    requires forall k :: i <= k < |tokens| ==> tokens[k] != "REQUIRES"
    ensures RequiredFrom(tokens, i) == []
    decreases |tokens| - i
  {
    if i < |tokens| {
      NoKeywordNothingRequiredFrom(tokens, i + 1);
    }
  }

  /** A name without the keyword requires nothing. */
  lemma NoKeywordNothingRequired(tokens: seq<string>)
    requires "REQUIRES" !in tokens
    ensures RequiredParts(tokens) == []
  {
    NoKeywordNothingRequiredFrom(tokens, 0);
  }

  lemma {:induction false} RequiredFromShift(a: seq<string>, c: seq<string>, j: nat)
    ensures RequiredFrom(a + c, |a| + j) == RequiredFrom(c, j)
    decreases |c| - j
  {
    if j < |c| {
      assert (a + c)[|a| + j] == c[j];
      if c[j] == "REQUIRES" {
        if j + 1 < |c| {
          assert (a + c)[|a| + j + 1] == c[j + 1];
        }
        RequiredFromShift(a, c, j + 2);
      } else {
        RequiredFromShift(a, c, j + 1);
      }
    }
  }

  lemma {:induction false} SkipPlainTokens(a: seq<string>, c: seq<string>, i: nat)
    requires i <= |a|
    requires forall k :: i <= k < |a| ==> a[k] != "REQUIRES"
    ensures RequiredFrom(a + c, i) == RequiredFrom(c, 0)
    decreases |a| - i
  {
    if i < |a| {
      assert (a + c)[i] == a[i];
      SkipPlainTokens(a, c, i + 1);
    } else {
      RequiredFromShift(a, c, 0);
    }
  }

  /**
   * Each "REQUIRES" contributes exactly the one token after it, and scanning
   * resumes after that token.
   */
  lemma RequiresTakesNextToken(a: seq<string>, x: string, b: seq<string>)
    requires "REQUIRES" !in a
    ensures RequiredParts(a + ["REQUIRES", x] + b) == [Some(x)] + RequiredParts(b)
  {
    var c := ["REQUIRES", x] + b;
    assert a + ["REQUIRES", x] + b == a + c;
    SkipPlainTokens(a, c, 0);
    assert c[2..] == b;
    RequiredFromShift(["REQUIRES", x], b, 0);
  }

  /**
   * In a part name "A... REQUIRES X B..." whose leading words are not the
   * keyword, the recorded requirement is the single word X, whatever follows.
   */
  lemma RequiresInName(a: seq<string>, x: string, b: seq<string>)
    requires "REQUIRES" !in a
    requires ' ' !in x && forall k :: 0 <= k < |a| ==> ' ' !in a[k]
    requires forall k :: 0 <= k < |b| ==> ' ' !in b[k]
    ensures RequiredParts(Split(Join(a + ["REQUIRES", x] + b, ' '), ' ')) == [Some(x)] + RequiredParts(b)
  {
    var words := a + ["REQUIRES", x] + b;
    forall k | 0 <= k < |words|
      ensures ' ' !in words[k]
    {
      if k < |a| { assert words[k] == a[k]; }
      else if k == |a| { assert words[k] == "REQUIRES"; }
      else if k == |a| + 1 { assert words[k] == x; }
      else { assert words[k] == b[k - |a| - 2]; }
    }
    SplitJoin(words, ' ');
    RequiresTakesNextToken(a, x, b);
  }

  /** The first child whose name is in the required list, from index `i` on. */
  function FirstRequiredFrom(cs: seq<Layer>, required: seq<Option<string>>, i: nat): (r: Option<nat>)
    requires i <= |cs|
    ensures r.Some? ==> i <= r.value < |cs| && Some(cs[r.value].name) in required
    ensures r.Some? ==> forall k :: i <= k < r.value ==> Some(cs[k].name) !in required
    ensures r.None? ==> forall k :: i <= k < |cs| ==> Some(cs[k].name) !in required
    decreases |cs| - i
  {
    if i == |cs| then None
    else if Some(cs[i].name) in required then Some(i)
    else FirstRequiredFrom(cs, required, i + 1)
  }

  /**
   * The child `randomizePart` leaves visible: the first child named in the
   * required list if there is one; otherwise none when `hideAll` applies to a
   * layer that is not UNIVERSAL, and the drawn child otherwise.
   */
  function ShownChild(cs: seq<Layer>, required: seq<Option<string>>, partString: string, hideAll: bool, draw: nat): (r: Option<nat>)
    ensures r.Some? ==> r.value < |cs|
    ensures FirstRequiredFrom(cs, required, 0).Some? ==> r == FirstRequiredFrom(cs, required, 0)
    ensures FirstRequiredFrom(cs, required, 0).None? && hideAll && HiddenByDefault(partString) ==> r.None?
    ensures FirstRequiredFrom(cs, required, 0).None? && !(hideAll && HiddenByDefault(partString)) && |cs| > 0 ==>
              r == Some(draw % |cs|)
  {
    match FirstRequiredFrom(cs, required, 0)
    case Some(i) => Some(i)
    case None =>
      if hideAll && HiddenByDefault(partString) then None
      else if |cs| == 0 then None
      else Some(draw % |cs|)
  }

  /** The hook state the viewer's randomiser keeps between calls. */
  class Viewer {
    /** Names required by parts shown so far; None stands for a pushed `undefined`. */
    var requiredPartsList: seq<Option<string>>

    constructor ()
      ensures requiredPartsList == []
    {
      requiredPartsList := [];
    }

    /** `checkRequiredParts`: record the token after each "REQUIRES" in the part's name. */
    method CheckRequiredParts(partString: string)
      modifies this
      ensures requiredPartsList == old(requiredPartsList) + RequiredParts(Split(partString, ' '))
    {
      var splitStringArray := Split(partString, ' ');
      var i := 0;
      while i < |splitStringArray|
        invariant 0 <= i <= |splitStringArray| + 1
        invariant requiredPartsList + RequiredFrom(splitStringArray, i) == old(requiredPartsList) + RequiredParts(splitStringArray)
        decreases |splitStringArray| - i
      {
        if splitStringArray[i] == "REQUIRES" {
          var requiredPart := if i + 1 < |splitStringArray| then Some(splitStringArray[i + 1]) else None;
          requiredPartsList := requiredPartsList + [requiredPart];
          i := i + 1;
        }
        i := i + 1;
      }
    }

    /**
     * The visibility logic of `randomizePart` for the group `layer`: all its
     * children are hidden, then at most one is shown (see ShownChild); a
     * randomly shown child's requirements are recorded. `draw` is the raw
     * outcome of the random draw, reduced modulo the number of children.
     */
    method RandomizePart(layer: Layer, partString: string, hideAll: bool, draw: nat)
      requires layer.Valid()
      modifies this, set k | 0 <= k < |layer.children| :: layer.children[k]
      ensures forall i :: 0 <= i < |layer.children| ==>
                layer.children[i].hidden == (ShownChild(layer.children, old(requiredPartsList), partString, hideAll, draw) != Some(i))
      ensures forall i, j :: 0 <= i < j < |layer.children| ==> layer.children[i].hidden || layer.children[j].hidden
      ensures requiredPartsList ==
                if FirstRequiredFrom(layer.children, old(requiredPartsList), 0).None? && ShownChild(layer.children, old(requiredPartsList), partString, hideAll, draw).Some?
                then old(requiredPartsList) + RequiredParts(Split(layer.children[draw % |layer.children|].name, ' '))
                else old(requiredPartsList)
    {
      var children := layer.children;
      var totalOptions := |children|;
      var randomPartIndex := if totalOptions == 0 then 0 else draw % totalOptions;
      ChildrenDistinct(layer);

      HideAll(children);

      var i := 0;
      while i < totalOptions && Some(children[i].name) !in requiredPartsList
        invariant 0 <= i <= totalOptions
        invariant forall k :: 0 <= k < i ==> Some(children[k].name) !in requiredPartsList
      {
        i := i + 1;
      }
      if i < totalOptions {
        assert FirstRequiredFrom(children, requiredPartsList, 0) == Some(i);
        children[i].hidden := false;
        return;
      }
      assert FirstRequiredFrom(children, requiredPartsList, 0).None?;

      if hideAll && HiddenByDefault(partString) {
        return;
      }

      if randomPartIndex != totalOptions {
        children[randomPartIndex].hidden := false;
        CheckRequiredParts(children[randomPartIndex].name);
      }
    }
  }

  /** The first loop of `randomizePart`: every given layer is hidden. */
  method HideAll(cs: seq<Layer>)
    modifies set k | 0 <= k < |cs| :: cs[k]
    ensures forall k :: 0 <= k < |cs| ==> cs[k].hidden
  {
    var i := 0;
    while i < |cs|
      invariant 0 <= i <= |cs|
      invariant forall k :: 0 <= k < i ==> cs[k].hidden
    {
      cs[i].hidden := true;
      i := i + 1;
    }
  }
}
