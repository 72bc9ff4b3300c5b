/** The part descriptor shared by the rarity table, the catalog and the sampler. */
module Parts {
  import opened Wrappers

  /** A positive selection weight. */
  type pos = n: nat | 0 < n witness 1

  /**
   * A part descriptor `{name, weight}`. The weight is the tier weight of the
   * part's rarity; it is `undefined` (None) when the stored rarity is not one
   * of the four known tiers.
   */
  datatype Part = Part(name: string, weight: Option<pos>)
}
