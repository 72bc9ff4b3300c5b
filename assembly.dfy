/**
 * Avatars and their metadata records: `randomizePartsForClass` zips one
 * sampled column per trait category into avatars, `printReport` tallies them,
 * and `generateMetadataJson` adds backgrounds, pets and the metadata record of
 * every avatar. An avatar is a JSON object, kept as its ordered fields.
 */
module Assembly {
  import opened Wrappers
  import opened Strings
  import opened Parts
  import opened Catalog
  import opened Sampler

  /** A record's `{trait_type, value}`; a None value is JavaScript's undefined. */
  datatype Attribute = Attribute(traitType: string, value: Option<string>)

  datatype Metadata = Metadata(attributes: seq<Attribute>, description: string, image: string)

  /** What an avatar field holds: a drawn part (Missing is undefined), its metadata, or a string. */
  datatype Value = Trait(drawn: Drawn) | Meta(metadata: Metadata) | Text(text: string)

  datatype Field = Field(key: string, value: Value)

  type Avatar = seq<Field>

  predicate UniqueKeys(a: Avatar)
  {
    forall i, j :: 0 <= i < j < |a| ==> a[i].key != a[j].key
  }

  /** The position of `key` in an avatar. */
  function FieldIndex(a: Avatar, key: string): (r: Option<nat>)
    ensures r.Some? ==> r.value < |a| && a[r.value].key == key
    ensures r.None? ==> forall i :: 0 <= i < |a| ==> a[i].key != key
  {
    if a == [] then None
    else if a[|a| - 1].key == key then Some(|a| - 1)
    else FieldIndex(a[..|a| - 1], key)
  }

  /** `avatar[key]`. */
  function Lookup(a: Avatar, key: string): Option<Value>
  {
    match FieldIndex(a, key)
    case None => None
    case Some(i) => Some(a[i].value)
  }

  /**
   * `avatar[key] = v`: an existing key keeps its position, a new key goes last;
   * nothing else changes.
   */
  function SetField(a: Avatar, key: string, v: Value): (r: Avatar)
    requires UniqueKeys(a)
    ensures UniqueKeys(r)
    ensures Lookup(r, key) == Some(v)
    ensures forall k :: k != key ==> Lookup(r, k) == Lookup(a, k)
    ensures |r| == if Lookup(a, key).Some? then |a| else |a| + 1
    ensures forall i :: 0 <= i < |a| ==> r[i].key == a[i].key
  {
    match FieldIndex(a, key)
    case Some(i) =>
      var r := a[i := Field(key, v)];
      assert forall k :: k != key ==> FieldIndex(r, k) == FieldIndex(a, k) by {
        forall k | k != key ensures FieldIndex(r, k) == FieldIndex(a, k) {
          FieldIndexUnique(r, k);
          FieldIndexUnique(a, k);
        }
      }
      FieldIndexUnique(r, key);
      r
    case None =>
      var r := a + [Field(key, v)];
      assert forall k :: k != key ==> FieldIndex(r, k) == FieldIndex(a, k) by {
        forall k | k != key ensures FieldIndex(r, k) == FieldIndex(a, k) {
          assert r[..|r| - 1] == a;
        }
      }
      r
  }

  /** With distinct keys a key's position is the only one holding it. */
  lemma FieldIndexUnique(a: Avatar, key: string)
    requires UniqueKeys(a)
    ensures forall i :: 0 <= i < |a| && a[i].key == key ==> FieldIndex(a, key) == Some(i)
  {
  }

  /** The categories of a class object whose values are all non-empty part arrays. */
  predicate PartArrays(classObject: seq<Entry>)
  {
    forall k :: 0 <= k < |classObject| ==> classObject[k].node.List? && |classObject[k].node.parts| > 0
  }

  predicate DistinctKeys(es: seq<Entry>)
  {
    forall i, j :: 0 <= i < j < |es| ==> es[i].key != es[j].key
  }

  /** The column `prepareWeightedArray` draws for category `k` of a class object. */
  function Column(classObject: seq<Entry>, k: nat, avatarsCount: nat, draws: string -> Draws): (r: seq<Drawn>)
    requires k < |classObject| && classObject[k].node.List?
    ensures |r| >= avatarsCount
  {
    SampleLength(classObject[k].node.parts, avatarsCount, draws(classObject[k].key));
    Sample(classObject[k].node.parts, avatarsCount, draws(classObject[k].key))
  }

  /** Avatar `i`: each category's key with element `i` of its column. */
  function ZippedAvatar(classObject: seq<Entry>, avatarsCount: nat, draws: string -> Draws, i: nat): Avatar
    requires i < avatarsCount
    requires forall k :: 0 <= k < |classObject| ==> classObject[k].node.List?
  {
    seq(|classObject|, k requires 0 <= k < |classObject| => Field(classObject[k].key, Trait(Column(classObject, k, avatarsCount, draws)[i])))
  }

  /** The avatars `randomizePartsForClass` returns. */
  function ClassAvatars(classObject: seq<Entry>, avatarsCount: nat, draws: string -> Draws): seq<Avatar>
    requires forall k :: 0 <= k < |classObject| ==> classObject[k].node.List?
  {
    seq(avatarsCount, i requires 0 <= i < avatarsCount => ZippedAvatar(classObject, avatarsCount, draws, i))
  }

  /**
   * `randomizePartsForClass(className, classObject, avatarsCount)`: one
   * column per category, then avatar `i` takes element `i` of every column,
   * in the class object's key order. `draws(key)` are the random draws of
   * that category's column.
   */
  method RandomizePartsForClass(className: string, classObject: seq<Entry>, avatarsCount: nat, draws: string -> Draws)
    returns (ret: seq<Avatar>)
    requires DistinctKeys(classObject)
    requires avatarsCount > 0 ==> PartArrays(classObject)
    ensures |ret| == avatarsCount
    ensures forall i :: 0 <= i < avatarsCount ==> |ret[i]| == |classObject| && UniqueKeys(ret[i])
    ensures forall i, k :: 0 <= i < avatarsCount && 0 <= k < |classObject| ==>
              ret[i][k].key == classObject[k].key &&
              ret[i][k].value == Trait(Column(classObject, k, avatarsCount, draws)[i])
    ensures avatarsCount > 0 ==> ret == ClassAvatars(classObject, avatarsCount, draws)
  {
    if avatarsCount == 0 {
      return [];
    }
    var allparts: seq<seq<Drawn>> := [];
    for k := 0 to |classObject|
      invariant |allparts| == k
      invariant forall j :: 0 <= j < k ==> allparts[j] == Column(classObject, j, avatarsCount, draws)
    {
      var val := classObject[k].node.parts;
      var column := PrepareWeightedArray(val, avatarsCount, draws(classObject[k].key));
      allparts := allparts + [column];
    }
    ret := [];
    for i := 0 to avatarsCount
      invariant |ret| == i
      invariant forall j :: 0 <= j < i ==> ret[j] == ZippedAvatar(classObject, avatarsCount, draws, j)
    {
      var newAvatar: Avatar := [];
      for k := 0 to |classObject|
        invariant newAvatar == ZippedAvatar(classObject, avatarsCount, draws, i)[..k]
      {
        newAvatar := newAvatar + [Field(classObject[k].key, Trait(allparts[k][i]))];
      }
      ret := ret + [newAvatar];
    }
    assert ret == ClassAvatars(classObject, avatarsCount, draws);
    ClassAvatarsShape(classObject, avatarsCount, draws);
    var counts := ReportCounts(ret);
  }

  lemma ClassAvatarsShape(classObject: seq<Entry>, avatarsCount: nat, draws: string -> Draws)
    requires DistinctKeys(classObject)
    requires forall k :: 0 <= k < |classObject| ==> classObject[k].node.List?
    ensures |ClassAvatars(classObject, avatarsCount, draws)| == avatarsCount
    ensures forall i :: 0 <= i < avatarsCount ==>
              |ClassAvatars(classObject, avatarsCount, draws)[i]| == |classObject| &&
              UniqueKeys(ClassAvatars(classObject, avatarsCount, draws)[i])
    ensures PartArrays(classObject) ==> AllDrawn(ClassAvatars(classObject, avatarsCount, draws))
  {
    if PartArrays(classObject) {
      forall k | 0 <= k < |classObject|
        ensures forall i :: 0 <= i < avatarsCount ==> Column(classObject, k, avatarsCount, draws)[i].Drawn?
      {
        SampleElements(classObject[k].node.parts, avatarsCount, draws(classObject[k].key));
        var col := Column(classObject, k, avatarsCount, draws);
        assert forall i :: 0 <= i < avatarsCount ==> col[i] in col;
      }
    }
  }

  /** A field's `value.name`; None when the value is not a part object. */
  function NameOf(v: Value): Option<string>
  {
    if v.Trait? && v.drawn.Drawn? then Some(v.drawn.part.name) else None
  }

  /** Avatars whose every value is a drawn part, as `printReport` receives them. */
  predicate AllDrawn(avatars: seq<Avatar>)
  {
    forall i, k :: 0 <= i < |avatars| && 0 <= k < |avatars[i]| ==> avatars[i][k].value.Trait? && avatars[i][k].value.drawn.Drawn?
  }

  type Counts = map<string, map<string, nat>>

  /** One `counts[key][val.name].count += 1`, creating the entries it needs. */
  function Tally(counts: Counts, key: string, name: string): Counts
  {
    var row := if key in counts then counts[key] else map[];
    counts[key := row[name := if name in row then row[name] + 1 else 1]]
  }

  function TallyFields(counts: Counts, fields: seq<Field>): Counts
    requires forall k :: 0 <= k < |fields| ==> fields[k].value.Trait? && fields[k].value.drawn.Drawn?
  {
    if fields == [] then counts
    else
      var last := fields[|fields| - 1];
      Tally(TallyFields(counts, fields[..|fields| - 1]), last.key, last.value.drawn.part.name)
  }

  function TallyAll(avatars: seq<Avatar>): Counts
    requires AllDrawn(avatars)
  {
    if avatars == [] then map[]
    else TallyFields(TallyAll(avatars[..|avatars| - 1]), avatars[|avatars| - 1])
  }

  /** The counting part of `printReport(avatars)`. */
  method ReportCounts(avatars: seq<Avatar>) returns (counts: Counts)
    requires AllDrawn(avatars)
    ensures counts == TallyAll(avatars)
  {
    counts := map[];
    for i := 0 to |avatars|
      invariant counts == TallyAll(avatars[..i])
    {
      var avatar := avatars[i];
      assert avatars[..i + 1][..i] == avatars[..i];
      for k := 0 to |avatar|
        invariant counts == TallyFields(TallyAll(avatars[..i]), avatar[..k])
      {
        assert avatar[..k + 1][..k] == avatar[..k];
        var key := avatar[k].key;
        var name := avatar[k].value.drawn.part.name;
        var row := if key in counts then counts[key] else map[];
        row := row[name := if name in row then row[name] + 1 else 1];
        counts := counts[key := row];
      }
      assert avatar[..|avatar|] == avatar;
    }
    assert avatars[..|avatars|] == avatars;
  }

  /** How many avatars hold a part named `name` under `key`. */
  function CountOf(avatars: seq<Avatar>, key: string, name: string): nat
  {
    if avatars == [] then 0
    else CountOf(avatars[..|avatars| - 1], key, name) + (if Lookup(avatars[|avatars| - 1], key).Some? && NameOf(Lookup(avatars[|avatars| - 1], key).value) == Some(name) then 1 else 0)
  }

  /** How many of `fields` hold a part named `name` under `key`. */
  function FieldCount(fields: seq<Field>, key: string, name: string): nat
  {
    if fields == [] then 0
    else FieldCount(fields[..|fields| - 1], key, name) + (if fields[|fields| - 1].key == key && NameOf(fields[|fields| - 1].value) == Some(name) then 1 else 0)
  }

  /** The tally's entry for a key and name: 0 when absent. */
  function Entry0(counts: Counts, key: string, name: string): nat
  {
    if key in counts && name in counts[key] then counts[key][name] else 0
  }

  lemma {:induction false} TallyFieldsCounts(counts: Counts, fields: seq<Field>, key: string, name: string)
    requires forall k :: 0 <= k < |fields| ==> fields[k].value.Trait? && fields[k].value.drawn.Drawn?
    requires forall key', name' :: key' in counts && name' in counts[key'] ==> counts[key'][name'] > 0
    ensures forall key', name' :: key' in TallyFields(counts, fields) && name' in TallyFields(counts, fields)[key'] ==>
              TallyFields(counts, fields)[key'][name'] > 0
    ensures Entry0(TallyFields(counts, fields), key, name) == Entry0(counts, key, name) + FieldCount(fields, key, name)
  {
    if fields != [] {
      var prefix := fields[..|fields| - 1];
      assert forall k :: 0 <= k < |prefix| ==> prefix[k] == fields[k];
      TallyFieldsCounts(counts, prefix, key, name);
    }
  }

  lemma {:induction false} FieldCountIsLookup(a: Avatar, key: string, name: string)
    requires UniqueKeys(a)
    ensures FieldCount(a, key, name) == if Lookup(a, key).Some? && NameOf(Lookup(a, key).value) == Some(name) then 1 else 0
  {
    if a != [] {
      var prefix := a[..|a| - 1];
      FieldCountIsLookup(prefix, key, name);
      if a[|a| - 1].key == key {
        assert FieldIndex(prefix, key).None?;
      }
    }
  }

  lemma {:induction false} TallyAllCounts(avatars: seq<Avatar>, key: string, name: string)
    requires AllDrawn(avatars)
    requires forall i :: 0 <= i < |avatars| ==> UniqueKeys(avatars[i])
    ensures forall key', name' :: key' in TallyAll(avatars) && name' in TallyAll(avatars)[key'] ==> TallyAll(avatars)[key'][name'] > 0
    ensures Entry0(TallyAll(avatars), key, name) == CountOf(avatars, key, name)
  {
    if avatars != [] {
      var prefix := avatars[..|avatars| - 1];
      var last := avatars[|avatars| - 1];
      assert forall i :: 0 <= i < |prefix| ==> prefix[i] == avatars[i];
      TallyAllCounts(prefix, key, name);
      TallyFieldsCounts(TallyAll(prefix), last, key, name);
      FieldCountIsLookup(last, key, name);
    }
  }

  /**
   * The report holds, for every key and part name, exactly the number of
   * avatars carrying that part under that key, and no entry for a pair no
   * avatar carries.
   */
  lemma ReportIsCount(avatars: seq<Avatar>, key: string, name: string)
    requires AllDrawn(avatars)
    requires forall i :: 0 <= i < |avatars| ==> UniqueKeys(avatars[i])
    ensures key in TallyAll(avatars) && name in TallyAll(avatars)[key] <==> CountOf(avatars, key, name) > 0
    ensures key in TallyAll(avatars) && name in TallyAll(avatars)[key] ==> TallyAll(avatars)[key][name] == CountOf(avatars, key, name)
  {
    TallyAllCounts(avatars, key, name);
  }

  /** The part of the minting configuration `generateMetadataJson` reads. */
  datatype MintingConfig = MintingConfig(amountToCreate: nat, initialized: bool)

  /** `{filename: "metadata.json"}`, the stored records, or a TypeError the source would throw. */
  datatype Generated = Placeholder(filename: string) | Records(avatars: seq<Avatar>) | Failed

  const Description: string := "Arcadians is a collection of 10,000 NFT avatars built around the arcade of the metaverse!"
  const ImagePrefix: string := "https://images.arcadians.io/"

  /** The avatar's `localfile` for a generated id. */
  function LocalFile(id: string): string
  {
    "arcadian-" + id + ".png"
  }

  /** The record's `image`: the image host followed by the local file name. */
  function Image(id: string): string
  {
    ImagePrefix + LocalFile(id)
  }

  /** Distinct ids give distinct image addresses. */
  lemma ImageDeterminesId(a: string, b: string)
    requires Image(a) == Image(b)
    ensures a == b
  {
    var n := |ImagePrefix| + |"arcadian-"|;
    assert |a| == |b|;
    assert a == Image(a)[n..n + |a|];
    assert b == Image(b)[n..n + |b|];
  }

  /** The concatenation of `f` over the entries of an object, in key order (`_.forOwn` pushing). */
  function ConcatMap(es: seq<Entry>, f: Entry -> seq<Part>): seq<Part>
  {
    if es == [] then [] else ConcatMap(es[..|es| - 1], f) + f(es[|es| - 1])
  }

  lemma {:induction false} ConcatMapMember(es: seq<Entry>, f: Entry -> seq<Part>, x: Part)
    ensures x in ConcatMap(es, f) <==> exists k :: 0 <= k < |es| && x in f(es[k])
  {
    if es != [] {
      var prefix := es[..|es| - 1];
      ConcatMapMember(prefix, f, x);
      assert forall k :: 0 <= k < |prefix| ==> prefix[k] == es[k];
    }
  }

  /** A third-level value contributes its parts if it is an array. */
  function ListParts(e: Entry): seq<Part>
  {
    match e.node
    case List(ps) => ps
    case Group(_) => []
  }

  /** A second-level value: an array is pushed, an object contributes its arrays. */
  function NestedParts(e: Entry): seq<Part>
  {
    match e.node
    case List(ps) => ps
    case Group(subs) => ConcatMap(subs, ListParts)
  }

  /** A background group: only an object has arrays below it. */
  function GroupParts(e: Entry): seq<Part>
  {
    match e.node
    case List(_) => []
    case Group(lists) => ConcatMap(lists, NestedParts)
  }

  /** `flattenBackgrounds` for the backgrounds value `val`. */
  function FlattenBackgrounds(val: Node): seq<Part>
  {
    match val
    case List(_) => []
    case Group(groups) => ConcatMap(groups, GroupParts)
  }

  /** `x` is in a parts array two levels inside the backgrounds object (group `i`, key `j`). */
  predicate AtDepthTwo(groups: seq<Entry>, i: nat, j: nat, x: Part)
  {
    i < |groups| && groups[i].node.Group? && j < |groups[i].node.entries| &&
    groups[i].node.entries[j].node.List? && x in groups[i].node.entries[j].node.parts
  }

  /** `x` is in a parts array three levels inside the backgrounds object. */
  predicate AtDepthThree(groups: seq<Entry>, i: nat, j: nat, k: nat, x: Part)
  {
    i < |groups| && groups[i].node.Group? && j < |groups[i].node.entries| &&
    groups[i].node.entries[j].node.Group? && k < |groups[i].node.entries[j].node.entries| &&
    groups[i].node.entries[j].node.entries[k].node.List? && x in groups[i].node.entries[j].node.entries[k].node.parts
  }

  /**
   * The flattened backgrounds are exactly the parts of the arrays two or three
   * levels inside the backgrounds object; arrays at other depths are ignored.
   */
  lemma FlattenBackgroundsMembers(groups: seq<Entry>, x: Part)
    ensures x in FlattenBackgrounds(Group(groups)) <==>
              (exists i, j :: AtDepthTwo(groups, i, j, x)) || (exists i, j, k :: AtDepthThree(groups, i, j, k, x))
  {
    ConcatMapMember(groups, GroupParts, x);
    forall i | 0 <= i < |groups| && groups[i].node.Group?
      ensures x in GroupParts(groups[i]) <==>
                (exists j :: AtDepthTwo(groups, i, j, x)) || (exists j, k :: AtDepthThree(groups, i, j, k, x))
    {
      var lists := groups[i].node.entries;
      ConcatMapMember(lists, NestedParts, x);
      forall j | 0 <= j < |lists| && lists[j].node.Group?
        ensures x in NestedParts(lists[j]) <==> exists k :: AtDepthThree(groups, i, j, k, x)
      {
        var subs := lists[j].node.entries;
        ConcatMapMember(subs, ListParts, x);
        if x in NestedParts(lists[j]) {
          var k :| 0 <= k < |subs| && x in ListParts(subs[k]);
          assert AtDepthThree(groups, i, j, k, x);
        }
        if exists k :: AtDepthThree(groups, i, j, k, x) {
          var k: nat :| AtDepthThree(groups, i, j, k, x);
          assert x in ListParts(subs[k]);
        }
      }
      if x in GroupParts(groups[i]) {
        var j :| 0 <= j < |lists| && x in NestedParts(lists[j]);
        if lists[j].node.List? {
          assert AtDepthTwo(groups, i, j, x);
        } else {
          var k: nat :| AtDepthThree(groups, i, j, k, x);
        }
      }
      if exists j :: AtDepthTwo(groups, i, j, x) {
        var j: nat :| AtDepthTwo(groups, i, j, x);
        assert x in NestedParts(lists[j]);
      }
      if exists j, k :: AtDepthThree(groups, i, j, k, x) {
        var j: nat, k: nat :| AtDepthThree(groups, i, j, k, x);
        assert x in NestedParts(lists[j]);
      }
    }
    if x in FlattenBackgrounds(Group(groups)) {
      var i :| 0 <= i < |groups| && x in GroupParts(groups[i]);
    }
    if exists i, j :: AtDepthTwo(groups, i, j, x) {
      var i: nat, j: nat :| AtDepthTwo(groups, i, j, x);
      assert x in GroupParts(groups[i]);
    }
    if exists i, j, k :: AtDepthThree(groups, i, j, k, x) {
      var i: nat, j: nat, k: nat :| AtDepthThree(groups, i, j, k, x);
      assert x in GroupParts(groups[i]);
    }
  }

  predicate IsBackgroundKey(key: string)
  {
    StartsWith(ToLower(key), "background")
  }

  predicate IsClassKey(key: string)
  {
    StartsWith(ToLower(key), "female") || StartsWith(ToLower(key), "male")
  }

  predicate IsPetsKey(key: string)
  {
    ToLower(key) == "pets"
  }

  predicate AllUnique(avatars: seq<Avatar>)
  {
    forall i :: 0 <= i < |avatars| ==> UniqueKeys(avatars[i])
  }

  function Min(a: nat, b: nat): nat
  {
    if a < b then a else b
  }

  /** The backgrounds loop: avatar `i` below `n` gets element `i` of the column. */
  function AssignBackgrounds(avatars: seq<Avatar>, column: seq<Drawn>, n: nat): (r: seq<Avatar>)
    requires AllUnique(avatars) && |column| >= n
    ensures |r| == |avatars| && AllUnique(r)
    ensures forall i :: 0 <= i < |r| && i < n ==> Lookup(r[i], "Background") == Some(Trait(column[i]))
    ensures forall i, k :: 0 <= i < |r| && (i >= n || k != "Background") ==> Lookup(r[i], k) == Lookup(avatars[i], k)
  {
    seq(|avatars|, i requires 0 <= i < |avatars| => if i < n then SetField(avatars[i], "Background", Trait(column[i])) else avatars[i])
  }

  /** Some pet the loop would read is undefined, so `pet.name` throws. */
  predicate PetMissing(avatars: seq<Avatar>, column: seq<Drawn>, n: nat)
    requires |column| >= n
  {
    exists i :: 0 <= i < Min(|avatars|, n) && column[i].Missing?
  }

  /**
   * The pets loop: avatar `i` below `n` gets element `i` of the column unless
   * that pet is named "None", in which case the avatar keeps what it had.
   */
  function AssignPets(avatars: seq<Avatar>, column: seq<Drawn>, n: nat): (r: seq<Avatar>)
    requires AllUnique(avatars) && |column| >= n && !PetMissing(avatars, column, n)
    ensures |r| == |avatars| && AllUnique(r)
    ensures forall i :: 0 <= i < |r| ==>
              Lookup(r[i], "Pet") == if i < n && column[i].part.name != "None" then Some(Trait(column[i])) else Lookup(avatars[i], "Pet")
    ensures forall i, k :: 0 <= i < |r| && k != "Pet" ==> Lookup(r[i], k) == Lookup(avatars[i], k)
  {
    seq(|avatars|, i requires 0 <= i < |avatars| =>
      if i < n && column[i].part.name != "None" then SetField(avatars[i], "Pet", Trait(column[i])) else avatars[i])
  }

  /** A pet that `generateMetadataJson` stores is never the placeholder "None". */
  lemma NonePetNeverStored(avatars: seq<Avatar>, column: seq<Drawn>, n: nat, i: nat)
    requires AllUnique(avatars) && |column| >= n && !PetMissing(avatars, column, n)
    requires i < |avatars|
    requires Lookup(AssignPets(avatars, column, n)[i], "Pet") != Lookup(avatars[i], "Pet")
    ensures exists p, m :: Lookup(AssignPets(avatars, column, n)[i], "Pet") == Some(Trait(Drawn(p, m))) && p.name != "None"
  {
    var p := column[i].part;
    var m := column[i].minWeight;
    assert Lookup(AssignPets(avatars, column, n)[i], "Pet") == Some(Trait(Drawn(p, m)));
  }

  /** The random draws of each column, named by the path of its category. */
  type DrawsFor = seq<string> -> Draws

  /** Catalog values as the source reads them: objects have distinct keys. */
  predicate KeyedParts(currentParts: seq<Entry>)
  {
    Keyed(Group(currentParts))
  }

  /** One step of the `_.forOwn(currentParts, …)` loop; None where the source throws. */
  function CategoryStep(avatars: seq<Avatar>, e: Entry, n: nat, draws: DrawsFor): (r: Option<seq<Avatar>>)
    requires AllUnique(avatars) && Keyed(e.node)
    ensures r.Some? ==> AllUnique(r.value)
  {
    if IsBackgroundKey(e.key) then
      var column := Sample(FlattenBackgrounds(e.node), n, draws([e.key]));
      SampleLength(FlattenBackgrounds(e.node), n, draws([e.key]));
      Some(AssignBackgrounds(avatars, column, n))
    else if IsClassKey(e.key) then
      match e.node
      case Group(es) =>
        if n == 0 then Some(avatars)
        else if !PartArrays(es) then None
        else
          ClassAvatarsShape(es, n, k => draws([e.key, k]));
          Some(avatars + ClassAvatars(es, n, k => draws([e.key, k])))
      case List(ps) =>
        if n > 0 && |ps| > 0 then None else Some(avatars + Repeat([], n))
    else if IsPetsKey(e.key) then
      match e.node
      case Group(_) => None
      case List(ps) =>
        var column := Sample(ps, n, draws([e.key]));
        SampleLength(ps, n, draws([e.key]));
        if PetMissing(avatars, column, n) then None else Some(AssignPets(avatars, column, n))
    else Some(avatars)
  }

  /** The `_.forOwn(currentParts, …)` loop over the categories from the first on. */
  function Categories(avatars: seq<Avatar>, parts: seq<Entry>, n: nat, draws: DrawsFor): (r: Option<seq<Avatar>>)
    requires AllUnique(avatars) && forall k :: 0 <= k < |parts| ==> Keyed(parts[k].node)
    ensures r.Some? ==> AllUnique(r.value)
    decreases |parts|
  {
    if parts == [] then Some(avatars)
    else match CategoryStep(avatars, parts[0], n, draws)
      case None => None
      case Some(next) => Categories(next, parts[1..], n, draws)
  }

  /** Keys `generateMetadataJson` leaves out of the attributes. */
  predicate Excluded(key: string)
  {
    key == "attributes" || key == "name" || key == "metadata" || key == "description"
  }

  /** The attributes built from an avatar's own fields, in order; None where `value.name` throws. */
  function AttributesOf(a: Avatar): Option<seq<Attribute>>
  {
    if a == [] then Some([])
    else match AttributesOf(a[..|a| - 1])
      case None => None
      case Some(attrs) =>
        var f := a[|a| - 1];
        if Excluded(f.key) then Some(attrs)
        else if f.value == Trait(Missing) then None
        else Some(attrs + [Attribute(f.key, NameOf(f.value))])
  }

  /**
   * The attributes are built exactly when no listed field is undefined; then
   * they hold one entry per field that is not excluded, with that field's key
   * and part name, and nothing else.
   */
  lemma {:induction false} AttributesOfFields(a: Avatar)
    ensures AttributesOf(a).None? <==> exists j :: 0 <= j < |a| && !Excluded(a[j].key) && a[j].value == Trait(Missing)
    ensures AttributesOf(a).Some? ==> forall t :: t in AttributesOf(a).value <==>
              exists j :: 0 <= j < |a| && !Excluded(a[j].key) && t == Attribute(a[j].key, NameOf(a[j].value))
  {
    if a != [] {
      var prefix := a[..|a| - 1];
      AttributesOfFields(prefix);
      assert forall j :: 0 <= j < |prefix| ==> prefix[j] == a[j];
    }
  }

  /** The fields of an avatar that are not excluded, in their order. */
  function Kept(a: Avatar): (r: seq<Field>)
    ensures |r| <= |a|
    ensures forall f :: f in r <==> f in a && !Excluded(f.key)
  {
    if a == [] then []
    else
      var prefix := a[..|a| - 1];
      assert a == prefix + [a[|a| - 1]];
      Kept(prefix) + (if Excluded(a[|a| - 1].key) then [] else [a[|a| - 1]])
  }

  /**
   * When the attributes are built, the k-th attribute is the key and part
   * name of the k-th kept field: one per kept field, in the fields' order.
   */
  lemma {:induction false} AttributesInOrder(a: Avatar)
    ensures AttributesOf(a).Some? ==> |AttributesOf(a).value| == |Kept(a)|
    ensures AttributesOf(a).Some? ==> forall k :: 0 <= k < |Kept(a)| ==>
              AttributesOf(a).value[k] == Attribute(Kept(a)[k].key, NameOf(Kept(a)[k].value))
  {
    if a != [] {
      AttributesInOrder(a[..|a| - 1]);
    }
  }

  /** The record of one avatar: `metadata` with its attributes, description and image, and `localfile`. */
  function Finalized(a: Avatar, className: Option<string>, id: string): (r: Option<Avatar>)
    requires UniqueKeys(a)
    ensures r.Some? <==> AttributesOf(a).Some?
    ensures r.Some? ==> UniqueKeys(r.value)
    ensures r.Some? ==>
              Lookup(r.value, "metadata") == Some(Meta(Metadata([Attribute("Class", className)] + AttributesOf(a).value, Description, Image(id))))
    ensures r.Some? ==> Lookup(r.value, "localfile") == Some(Text(LocalFile(id)))
    ensures r.Some? ==> forall k :: k != "metadata" && k != "localfile" ==> Lookup(r.value, k) == Lookup(a, k)
  {
    match AttributesOf(a)
    case None => None
    case Some(attrs) =>
      var withMetadata := SetField(a, "metadata", Meta(Metadata([Attribute("Class", className)] + attrs, Description, Image(id))));
      Some(SetField(withMetadata, "localfile", Text(LocalFile(id))))
  }

  /** The `myAvatars.forEach` loop; `ids(idx)` is the id generated for avatar `idx`. */
  function FinalizeAll(avatars: seq<Avatar>, className: Option<string>, ids: nat -> string): (r: Option<seq<Avatar>>)
    requires AllUnique(avatars)
    ensures r.Some? ==> |r.value| == |avatars| && AllUnique(r.value)
    ensures r.Some? ==> forall i :: 0 <= i < |avatars| ==> Finalized(avatars[i], className, ids(i)) == Some(r.value[i])
  {
    if exists i :: 0 <= i < |avatars| && AttributesOf(avatars[i]).None? then None
    else
      var out := seq(|avatars|, i requires 0 <= i < |avatars| => Finalized(avatars[i], className, ids(i)).value);
      assert forall i :: 0 <= i < |out| ==> Finalized(avatars[i], className, ids(i)) == Some(out[i]) && UniqueKeys(out[i]);
      Some(out)
  }

  /** `Object.keys(currentParts)[0]`. */
  function ClassName(currentParts: seq<Entry>): Option<string>
  {
    if currentParts == [] then None else Some(currentParts[0].key)
  }

  /** What `generateMetadataJson` returns (and stores). */
  function Generate(config: MintingConfig, stored: seq<Avatar>, currentParts: seq<Entry>, draws: DrawsFor, ids: nat -> string): Generated
    requires AllUnique(stored) && KeyedParts(currentParts)
  {
    if !config.initialized then Placeholder("metadata.json")
    else match Categories(stored, currentParts, config.amountToCreate, draws)
      case None => Failed
      case Some(avatars) =>
        match FinalizeAll(avatars, ClassName(currentParts), ids)
        case None => Failed
        case Some(out) => Records(out)
  }

  /** The attribute loop for one avatar, after the leading class attribute. */
  method BuildAttributes(avatar: Avatar, className: Option<string>) returns (attributes: Option<seq<Attribute>>)
    ensures attributes.None? <==> AttributesOf(avatar).None?
    ensures attributes.Some? ==> attributes.value == [Attribute("Class", className)] + AttributesOf(avatar).value
  {
    var acc := [Attribute("Class", className)];
    for k := 0 to |avatar|
      invariant AttributesOf(avatar[..k]).Some? && acc == [Attribute("Class", className)] + AttributesOf(avatar[..k]).value
    {
      assert avatar[..k + 1][..k] == avatar[..k];
      var key := avatar[k].key;
      var value := avatar[k].value;
      if !Excluded(key) {
        if value == Trait(Missing) {
          LaterFieldsKeepFailure(avatar, k + 1);
          return None;
        }
        acc := acc + [Attribute(key, NameOf(value))];
      }
    }
    assert avatar[..|avatar|] == avatar;
    return Some(acc);
  }

  lemma {:induction false} LaterFieldsKeepFailure(a: Avatar, k: nat)
    requires k <= |a| && AttributesOf(a[..k]).None?
    ensures AttributesOf(a).None?
    decreases |a| - k
  {
    if k < |a| {
      assert a[..k + 1][..k] == a[..k];
      LaterFieldsKeepFailure(a, k + 1);
    } else {
      assert a[..k] == a;
    }
  }

  /**
   * `generateMetadataJson(mintingConfigJSON)`: placeholder when the
   * configuration is not initialised; otherwise the stored avatars extended by
   * each category of the parts list in key order, then given their records.
   */
  method GenerateMetadataJson(config: MintingConfig, stored: seq<Avatar>, currentParts: seq<Entry>, draws: DrawsFor, ids: nat -> string)
    returns (r: Generated)
    requires AllUnique(stored) && KeyedParts(currentParts)
    ensures r == Generate(config, stored, currentParts, draws, ids)
    ensures !config.initialized ==> r == Placeholder("metadata.json")
  {
    if !config.initialized {
      return Placeholder("metadata.json");
    }
    var myAvatars := RunCategories(stored, currentParts, config.amountToCreate, draws);
    if myAvatars.None? {
      return Failed;
    }
    var records := FinalizeAvatars(myAvatars.value, ClassName(currentParts), ids);
    if records.None? {
      return Failed;
    }
    return Records(records.value);
  }

  /** The loop over the categories of the parts list. */
  method RunCategories(stored: seq<Avatar>, currentParts: seq<Entry>, amountToCreate: nat, draws: DrawsFor)
    returns (r: Option<seq<Avatar>>)
    requires AllUnique(stored) && KeyedParts(currentParts)
    ensures r == Categories(stored, currentParts, amountToCreate, draws)
  {
    var myAvatars := stored;
    for p := 0 to |currentParts|
      invariant AllUnique(myAvatars)
      invariant Categories(myAvatars, currentParts[p..], amountToCreate, draws) == Categories(stored, currentParts, amountToCreate, draws)
    {
      assert currentParts[p..][1..] == currentParts[p + 1..];
      var next := ApplyCategory(myAvatars, currentParts[p].key, currentParts[p].node, amountToCreate, draws);
      assert currentParts[p..][0] == Entry(currentParts[p].key, currentParts[p].node);
      if next.None? {
        return None;
      }
      myAvatars := next.value;
    }
    return Some(myAvatars);
  }

  /** The loop that gives every avatar its attributes, image and local file name. */
  method FinalizeAvatars(avatars: seq<Avatar>, className: Option<string>, ids: nat -> string) returns (r: Option<seq<Avatar>>)
    requires AllUnique(avatars)
    ensures r == FinalizeAll(avatars, className, ids)
  {
    var myAvatars := avatars;
    for idx := 0 to |myAvatars|
      invariant |myAvatars| == |avatars| && AllUnique(myAvatars)
      invariant forall j :: 0 <= j < idx ==> Finalized(avatars[j], className, ids(j)) == Some(myAvatars[j])
      invariant forall j :: idx <= j < |myAvatars| ==> myAvatars[j] == avatars[j]
    {
      var avatar := myAvatars[idx];
      var attributes := BuildAttributes(avatar, className);
      if attributes.None? {
        return None;
      }
      var id := ids(idx);
      var localfile := LocalFile(id);
      avatar := SetField(avatar, "metadata", Meta(Metadata(attributes.value, Description, ImagePrefix + localfile)));
      avatar := SetField(avatar, "localfile", Text(localfile));
      myAvatars := myAvatars[idx := avatar];
    }
    assert forall i :: 0 <= i < |avatars| ==> AttributesOf(avatars[i]).Some?;
    ghost var out := seq(|avatars|, i requires 0 <= i < |avatars| => Finalized(avatars[i], className, ids(i)).value);
    assert forall i :: 0 <= i < |out| ==> out[i] == myAvatars[i];
    assert out == myAvatars;
    return Some(myAvatars);
  }

  /** The body of the categories loop for one key of the parts list; None where the source throws. */
  method ApplyCategory(avatars: seq<Avatar>, key: string, val: Node, amountToCreate: nat, draws: DrawsFor)
    returns (next: Option<seq<Avatar>>)
    requires AllUnique(avatars) && Keyed(val)
    ensures next == CategoryStep(avatars, Entry(key, val), amountToCreate, draws)
  {
    if IsBackgroundKey(key) {
      var withBackgrounds := ApplyBackgrounds(avatars, key, val, amountToCreate, draws);
      next := Some(withBackgrounds);
    } else if IsClassKey(key) {
      next := ApplyClass(avatars, key, val, amountToCreate, draws);
    } else if IsPetsKey(key) {
      next := ApplyPets(avatars, key, val, amountToCreate, draws);
    } else {
      next := Some(avatars);
    }
  }

  /** A background category: avatar `i` gets element `i` of the shuffled backgrounds. */
  method ApplyBackgrounds(avatars: seq<Avatar>, key: string, val: Node, amountToCreate: nat, draws: DrawsFor)
    returns (next: seq<Avatar>)
    requires AllUnique(avatars) && Keyed(val) && IsBackgroundKey(key)
    ensures Some(next) == CategoryStep(avatars, Entry(key, val), amountToCreate, draws)
  {
    var flattenBackgrounds := FlattenBackgrounds(val);
    var randomBackgrounds := PrepareWeightedArray(flattenBackgrounds, amountToCreate, draws([key]));
    SampleLength(flattenBackgrounds, amountToCreate, draws([key]));
    next := avatars;
    for i := 0 to Min(|avatars|, amountToCreate)
      invariant next == AssignBackgrounds(avatars, randomBackgrounds, i)
    {
      next := next[i := SetField(next[i], "Background", Trait(randomBackgrounds[i]))];
    }
    assert next == AssignBackgrounds(avatars, randomBackgrounds, amountToCreate);
  }

  /** A class category: the class's avatars are appended after those already made. */
  method ApplyClass(avatars: seq<Avatar>, key: string, val: Node, amountToCreate: nat, draws: DrawsFor)
    returns (next: Option<seq<Avatar>>)
    requires AllUnique(avatars) && Keyed(val) && !IsBackgroundKey(key) && IsClassKey(key)
    ensures next == CategoryStep(avatars, Entry(key, val), amountToCreate, draws)
  {
    match val
    case Group(es) =>
      if amountToCreate > 0 && !PartArrays(es) {
        return None;
      }
      var made := RandomizePartsForClass(key, es, amountToCreate, k => draws([key, k]));
      if amountToCreate == 0 {
        assert avatars + made == avatars;
      }
      return Some(avatars + made);
    case List(ps) =>
      if amountToCreate > 0 && |ps| > 0 {
        return None;
      }
      var made := RandomizePartsForClass(key, [], amountToCreate, k => draws([key, k]));
      assert made == Repeat([], amountToCreate);
      return Some(avatars + made);
  }

  /** The pets category: each avatar gets its pet unless the pet drawn is "None". */
  method ApplyPets(avatars: seq<Avatar>, key: string, val: Node, amountToCreate: nat, draws: DrawsFor)
    returns (next: Option<seq<Avatar>>)
    requires AllUnique(avatars) && Keyed(val) && !IsBackgroundKey(key) && !IsClassKey(key) && IsPetsKey(key)
    ensures next == CategoryStep(avatars, Entry(key, val), amountToCreate, draws)
  {
    match val
    case Group(_) =>
      return None;
    case List(ps) =>
      var randomPets := PrepareWeightedArray(ps, amountToCreate, draws([key]));
      SampleLength(ps, amountToCreate, draws([key]));
      next := AssignPetsLoop(avatars, randomPets, amountToCreate);
  }

  /** The loop of the pets category over the shuffled pets. */
  method AssignPetsLoop(avatars: seq<Avatar>, randomPets: seq<Drawn>, amountToCreate: nat) returns (next: Option<seq<Avatar>>)
    requires AllUnique(avatars) && |randomPets| >= amountToCreate
    ensures next.None? <==> PetMissing(avatars, randomPets, amountToCreate)
    ensures next.Some? ==> next.value == AssignPets(avatars, randomPets, amountToCreate)
  {
    var myAvatars := avatars;
    for i := 0 to Min(|avatars|, amountToCreate)
      invariant forall j :: 0 <= j < i ==> !randomPets[j].Missing?
      invariant myAvatars == AssignPets(avatars, randomPets, i)
    {
      var pet := randomPets[i];
      if pet.Missing? {
        return None;
      }
      if pet.part.name != "None" {
        myAvatars := myAvatars[i := SetField(myAvatars[i], "Pet", Trait(pet))];
      }
    }
    assert myAvatars == AssignPets(avatars, randomPets, amountToCreate);
    return Some(myAvatars);
  }

  /** The keys of the parts list that the class branch handles. */
  function ClassKeyCount(parts: seq<Entry>): nat
  {
    if parts == [] then 0
    else (if !IsBackgroundKey(parts[0].key) && IsClassKey(parts[0].key) then 1 else 0) + ClassKeyCount(parts[1..])
  }

  /** Each class category adds `amountToCreate` avatars; every other category adds none. */
  lemma {:induction false} CategoriesCount(avatars: seq<Avatar>, parts: seq<Entry>, n: nat, draws: DrawsFor)
    requires AllUnique(avatars) && forall k :: 0 <= k < |parts| ==> Keyed(parts[k].node)
    ensures Categories(avatars, parts, n, draws).Some? ==>
              |Categories(avatars, parts, n, draws).value| == |avatars| + n * ClassKeyCount(parts)
    decreases |parts|
  {
    if parts != [] {
      var e := parts[0];
      match CategoryStep(avatars, e, n, draws)
      case None =>
      case Some(next) =>
        if !IsBackgroundKey(e.key) && IsClassKey(e.key) {
          match e.node
          case Group(es) =>
            if n > 0 {
              ClassAvatarsShape(es, n, k => draws([e.key, k]));
            }
          case List(_) =>
          assert |next| == |avatars| + n;
        } else {
          assert |next| == |avatars|;
        }
        CategoriesCount(next, parts[1..], n, draws);
        Distribute(n, if !IsBackgroundKey(e.key) && IsClassKey(e.key) then 1 else 0, ClassKeyCount(parts[1..]));
    }
  }

  /**
   * A run of `generateMetadataJson` that completes returns the stored avatars
   * followed by `amountToCreate` new ones per class category.
   */
  lemma GeneratedCount(config: MintingConfig, stored: seq<Avatar>, currentParts: seq<Entry>, draws: DrawsFor, ids: nat -> string)
    requires AllUnique(stored) && KeyedParts(currentParts)
    ensures Generate(config, stored, currentParts, draws, ids).Records? ==>
              |Generate(config, stored, currentParts, draws, ids).avatars| == |stored| + config.amountToCreate * ClassKeyCount(currentParts)
  {
    CategoriesCount(stored, currentParts, config.amountToCreate, draws);
  }

  /**
   * Every record returned carries the class attribute first, then one
   * attribute per trait field, the collection description, the image URL of
   * its own id and the matching local file name, and keeps every trait.
   */
  lemma GeneratedRecordShape(config: MintingConfig, stored: seq<Avatar>, currentParts: seq<Entry>, draws: DrawsFor, ids: nat -> string, i: nat)
    requires AllUnique(stored) && KeyedParts(currentParts)
    requires Generate(config, stored, currentParts, draws, ids).Records?
    requires i < |Generate(config, stored, currentParts, draws, ids).avatars|
    ensures var made := Categories(stored, currentParts, config.amountToCreate, draws).value;
            var out := Generate(config, stored, currentParts, draws, ids).avatars;
            i < |made| &&
            Lookup(out[i], "metadata") ==
              Some(Meta(Metadata([Attribute("Class", ClassName(currentParts))] + AttributesOf(made[i]).value, Description, Image(ids(i))))) &&
            Lookup(out[i], "localfile") == Some(Text(LocalFile(ids(i)))) &&
            forall k :: k != "metadata" && k != "localfile" ==> Lookup(out[i], k) == Lookup(made[i], k)
  {
    var made := Categories(stored, currentParts, config.amountToCreate, draws).value;
    assert Finalized(made[i], ClassName(currentParts), ids(i)) == Some(Generate(config, stored, currentParts, draws, ids).avatars[i]);
  }
}
