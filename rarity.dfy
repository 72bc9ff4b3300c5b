/**
 * The rarity table (`PartRarities`): for each class, the rarity tier named for
 * a part or a layer, filled from a rarity descriptor; and the fixed tier
 * weights (`RarityWeights`).
 */
module Rarity {
  import opened Wrappers
  import opened Parts

  const Common := "Common"
  const Rare := "Rare"
  const Legendary := "Legendary"
  const Mythical := "Mythical"

  predicate IsTier(tier: string)
  {
    tier == Common || tier == Rare || tier == Legendary || tier == Mythical
  }

  /** `RarityWeights[tier]`: defined for the four tiers only, rarer tiers weigh less. */
  function TierWeight(tier: string): (w: Option<pos>)
    ensures w.Some? <==> IsTier(tier)
    ensures tier == Common ==> w == Some(60)
    ensures w.Some? ==> w.value <= 60
    ensures tier == Mythical ==> w == Some(1)
  {
    if tier == Common then Some(60)
    else if tier == Rare then Some(30)
    else if tier == Legendary then Some(10)
    else if tier == Mythical then Some(1)
    else None
  }

  /** Each tier is strictly rarer (lighter) than the one before it. */
  lemma TierWeightsDescend()
    ensures TierWeight(Common).value > TierWeight(Rare).value > TierWeight(Legendary).value > TierWeight(Mythical).value
  {
  }

  /** One class's table: part or layer name to the `Rarity` field as stored (None: the field was absent). */
  type ClassRarities = map<string, Option<string>>

  /** The whole table: class name to that class's rarities. */
  type RarityTable = map<string, ClassRarities>

  /** A JavaScript string value used as a condition: present and not empty. */
  predicate Truthy(v: Option<string>)
  {
    v.Some? && v.value != ""
  }

  /** An element of the descriptor's `rarity` array. */
  datatype RarityEntry = RarityEntry(partName: Option<string>, partLayer: Option<string>, rarity: Option<string>)

  /** A rarity descriptor `{class, rarity}`; `rarity` is None when the field is not an array. */
  datatype RarityDescriptor = RarityDescriptor(className: Option<string>, rarity: Option<seq<RarityEntry>>)

  /** The property name JavaScript uses for `obj[partName]`: an absent name becomes "undefined". */
  function PropertyKey(name: Option<string>): string
  {
    if name.Some? then name.value else "undefined"
  }

  /** The keys one entry writes into its class's table. */
  function Writes(e: RarityEntry): set<string>
  {
    if Truthy(e.partName) then {e.partName.value}
    else if Truthy(e.partLayer) then {e.partLayer.value, PropertyKey(e.partName)}
    else {}
  }

  /** The effect of one entry of the `forEach` on its class's table. */
  function Apply(m: ClassRarities, e: RarityEntry): ClassRarities
  {
    if !Truthy(e.partName) && !Truthy(e.partLayer) then m
    else
      var m1 := if !Truthy(e.partName) then m[e.partLayer.value := e.rarity] else m;
      m1[PropertyKey(e.partName) := e.rarity]
  }

  /** The table a class gets from its entries, applied in order to an empty table. */
  function Fill(es: seq<RarityEntry>): ClassRarities
  {
    if es == [] then map[] else Apply(Fill(es[..|es| - 1]), es[|es| - 1])
  }

  /**
   * The loaded table as a lookup: a key is present exactly when some entry
   * writes it, and it holds the rarity of the last entry that writes it. A
   * "Part Name" entry writes only that name, so it takes precedence over its
   * "Part Layer"; an entry with neither writes nothing.
   */
  lemma {:induction false} FillLookup(es: seq<RarityEntry>, k: string)
    ensures k in Fill(es) <==> exists j :: 0 <= j < |es| && k in Writes(es[j])
    ensures forall j :: 0 <= j < |es| && k in Writes(es[j]) && (forall j' :: j < j' < |es| ==> k !in Writes(es[j'])) ==>
              k in Fill(es) && Fill(es)[k] == es[j].rarity
  {
    if es != [] {
      var init := es[..|es| - 1];
      var last := es[|es| - 1];
      FillLookup(init, k);
      assert forall j :: 0 <= j < |init| ==> init[j] == es[j];
      if k in Writes(last) {
        assert k in Fill(es) && Fill(es)[k] == last.rarity;
      } else {
        assert k in Fill(es) <==> k in Fill(init);
        assert k in Fill(es) ==> Fill(es)[k] == Fill(init)[k];
      }
    }
  }

  /**
   * A layer-only entry also writes the key "undefined", because the write of
   * the "Part Name" key still runs after the "Part Layer" one.
   */
  lemma LayerEntryAlsoWritesUndefined(layer: string, tier: string)
    requires layer != ""
    ensures Fill([RarityEntry(None, Some(layer), Some(tier))]) == map[layer := Some(tier), "undefined" := Some(tier)]
  {
    var e := RarityEntry(None, Some(layer), Some(tier));
    assert [e][..0] == [];
  }

  /** The rarity table that `loadRarities` fills. */
  class PartRarities {
    var table: RarityTable

    constructor ()
      ensures table == map[]
    {
      table := map[];
    }

    /**
     * The part of `loadRarities` after the descriptor has been fetched: a
     * descriptor without a class or whose `rarity` is not an array is skipped;
     * otherwise the class's table is replaced by a fresh one filled from the
     * entries in order.
     */
    method LoadRarities(json: RarityDescriptor)
      modifies this
      ensures !Truthy(json.className) || json.rarity.None? ==> table == old(table)
      ensures Truthy(json.className) && json.rarity.Some? ==>
                table == old(table)[json.className.value := Fill(json.rarity.value)]
    {
      if !Truthy(json.className) {
        return;
      }
      if json.rarity.None? {
        return;
      }
      var cls := json.className.value;
      var es := json.rarity.value;
      table := table[cls := map[]];
      var i := 0;
      while i < |es|
        invariant 0 <= i <= |es|
        invariant table == old(table)[cls := Fill(es[..i])]
      {
        var e := es[i];
        assert es[..i + 1][..i] == es[..i];
        if !Truthy(e.partName) {
          if !Truthy(e.partLayer) {
            i := i + 1;
            continue;
          }
          table := table[cls := table[cls][e.partLayer.value := e.rarity]];
        }
        table := table[cls := table[cls][PropertyKey(e.partName) := e.rarity]];
        i := i + 1;
      }
      assert es[..|es|] == es;
    }
  }

  /** The tier stored for `name` in a class's table makes a truthy condition. */
  predicate HasTier(m: ClassRarities, name: string)
  {
    name in m && Truthy(m[name])
  }

  /**
   * Scanning `segs[..i]` from the last segment towards the first, the index
   * of the first segment with a tier in `m`.
   */
  function LeafmostTier(m: ClassRarities, segs: seq<string>, i: nat): (r: Option<nat>)
    requires i <= |segs|
    ensures r.Some? ==> r.value < i && HasTier(m, segs[r.value])
    ensures r.Some? ==> forall k :: r.value < k < i ==> !HasTier(m, segs[k])
    ensures r.None? ==> forall k :: 0 <= k < i ==> !HasTier(m, segs[k])
  {
    if i == 0 then None
    else if HasTier(m, segs[i - 1]) then Some(i - 1)
    else LeafmostTier(m, segs, i - 1)
  }

  /**
   * The weight `addToPartsList` gives the part at the dotted path `segs`
   * (`segs[1]` is the class): the weight of the first tier found scanning the
   * segments from the leaf back to the root in the class's table, Common when
   * none is found or when the class has no table.
   */
  function PartWeight(table: RarityTable, segs: seq<string>): (w: Option<pos>)
    requires |segs| >= 2
    ensures segs[1] !in table ==> w == Some(60)
    ensures segs[1] in table && (forall k :: 0 <= k < |segs| ==> !HasTier(table[segs[1]], segs[k])) ==> w == Some(60)
    ensures forall j :: 0 <= j < |segs| && segs[1] in table && HasTier(table[segs[1]], segs[j]) &&
                        (forall k :: j < k < |segs| ==> !HasTier(table[segs[1]], segs[k])) ==>
                          w == TierWeight(table[segs[1]][segs[j]].value)
  {
    var cls := segs[1];
    if cls !in table then TierWeight(Common)
    else
      match LeafmostTier(table[cls], segs, |segs|)
      case None => TierWeight(Common)
      case Some(j) => TierWeight(table[cls][segs[j]].value)
  }
}
