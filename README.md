# Avatar trait engine, modelled in Dafny

This project models the trait-distribution engine of the `useAvatar` hook
(`packages/react-app/src/hooks/Avatar.js`). That engine is the part of the
avatar generator that does no drawing and no I/O. It does the following:

- turns the layer paths of a layered image into a weighted parts catalog,
  weighing each part by its rarity tier;
- draws one shuffled column of parts per trait category for a collection;
- zips the columns into avatars;
- adds backgrounds and pets;
- turns the avatars into metadata records.

It also covers the viewer-side rules that show and hide layers of the layer
tree, the `REQUIRES` dependency tokens in part names, the class trees offered
for selection, and the tree of part names built for a configuration.

Each `Math.random()` draw is an explicit input: a natural number, reduced
modulo the range the source scales it to. The same holds for `uuidv4` ids and
the avatars and parts read from `localStorage`.

Modules, one per file:

| file | module | models |
|---|---|---|
| wrappers.dfy | Wrappers | `Option` |
| strings.dfy | Strings | `split`, `join`, `includes`, `startsWith`, `toLowerCase` |
| parts.dfy | Parts | the part descriptor `{name, weight}` |
| rarity.dfy | Rarity | `RarityWeights`, the `PartRarities` table and `loadRarities`, the leaf-to-root tier lookup |
| catalog.dfy | Catalog | `tempPartsList` as an ordered nested object; `addToPartsList`, `recurseOverParts`, `recursivelyCreateNodes`, the pet "None" |
| layers.dfy | Layers | the layer tree (a class with a mutable `hidden` flag); `hideLayersRecursively`, `recurseOverMetadata`, `recursivelyFindPart`, `checkRequiredParts`, `randomizePart` |
| sampler.dfy | Sampler | `prepareWeightedArray`, `randomShuffle` |
| assembly.dfy | Assembly | `randomizePartsForClass`, the counts of `printReport`, `generateMetadataJson` |
| classtree.dfy | ClassTree | `getBaseClassesRecursively`, `refreshClassOptions(Recursively)`, `getRandomClasses`, `recurseOverChildren`, `addToTreeConfig`, `recursivelyCreateTreeNode`, `addObjectToTree` |

Where the source works in place, the model is imperative:

- `randomShuffle` swaps inside an `array`.
- `prepareWeightedArray`, `loadRarities`, `addToPartsList`, `addObjectToTree`,
  `checkRequiredParts` and `printReport` are methods with loops. Each is proved
  equal to a specification function, and the properties are proved about that
  function.
- The hook's accumulators `tempPartsList`, `PartRarities`, `requiredPartsList`
  and `currentTreeConfig` are fields of classes that these methods update.
- `randomizePart`, `hideLayersRecursively` and `recurseOverMetadata` set the
  `hidden` field of `Layer` objects.

The recursive builders are functions: `recursivelyCreateNodes`,
`recursivelyCreateTreeNode`, `recursivelyFindPart` and the class-option
builders.

A JavaScript `TypeError` is modelled as an explicit outcome. `generateMetadataJson`
gives `Failed`, and the functions it uses give `None`. Examples: `value.name` of
an undefined field, `pet.name` of an undefined pet, and iterating the missing
`children` of a CLASS-named leaf.

Where the design description and the code differ, the model follows the code:

- `prepareWeightedArray` promises a column of exactly the needed length in the
  design. The code only guarantees at least that length. When the needed
  length is below the total normalised weight, the scale clamps to 1 and the
  column is longer: weights 60/30/10 with 5 needed give 10 elements
  (`Sampler.ClampedScaleExample`). `randomizePartsForClass` then reads only
  the first `avatarsCount` elements of each column.
- The design applies `REQUIRES` overrides when avatars are assembled for
  minting. The code applies them only in the viewer, through
  `requiredPartsList`. `randomizePartsForClass` and `generateMetadataJson`
  ignore them, and so does the model.
- `checkRequiredParts` records only the single space-separated token after each
  `REQUIRES`, so a multi-word required name is cut to its first word
  (`Layers.RequiresInName`).
- `loadRarities` also writes the key `undefined` for an entry that has only a
  "Part Layer" (`Rarity.LayerEntryAlsoWritesUndefined`).
- The design says metadata generation does not change its input. The code
  changes the avatar objects in place. The model returns the changed avatars.

## Model

| member | source | states |
|---|---|---|
| Strings.Split | packages/react-app/src/hooks/Avatar.js:839-840 | `split` gives at least one piece, no piece holds the separator, and there is more than one piece exactly when the separator occurs |
| Strings.SplitJoin | packages/react-app/src/hooks/Avatar.js:1159 | splitting words joined by a separator that none of them holds gives the words back |
| Strings.JoinSplit | packages/react-app/src/hooks/Avatar.js:1159 | joining the pieces of a split gives the string back |
| Strings.ToLower | packages/react-app/src/hooks/Avatar.js:662 | lower-casing keeps the length and leaves no capital letter: each capital becomes its small letter (32 code points above) and every other character is kept |
| Strings.ToLowerIdempotent | packages/react-app/src/hooks/Avatar.js:662 | lower-casing an already lower-cased key changes nothing |
| Rarity.TierWeight | packages/react-app/src/hooks/Avatar.js:59-64 | a tier weight is defined exactly for the four tiers; Common weighs 60, Mythical 1, none more than 60 |
| Rarity.TierWeightsDescend | packages/react-app/src/hooks/Avatar.js:59-64 | Common > Rare > Legendary > Mythical |
| Rarity.FillLookup | packages/react-app/src/hooks/Avatar.js:198-208 | a loaded class table holds a key exactly when some entry writes it, with the rarity of the last entry writing it; a "Part Name" entry writes only its name, an entry with neither name writes nothing |
| Rarity.LayerEntryAlsoWritesUndefined | packages/react-app/src/hooks/Avatar.js:200-208 | a layer-only entry writes both the layer name and the key "undefined" |
| Rarity.PartRarities.constructor | packages/react-app/src/hooks/Avatar.js:66 | the rarity table starts empty |
| Rarity.PartRarities.LoadRarities | packages/react-app/src/hooks/Avatar.js:190-209 | a descriptor without a class or with a non-array `rarity` leaves the table unchanged; otherwise only the class's table is replaced, by the one filled from its entries in order |
| Rarity.LeafmostTier | packages/react-app/src/hooks/Avatar.js:848-853 | the index found is the last segment with a tier in the class table; none when no segment has one |
| Rarity.PartWeight | packages/react-app/src/hooks/Avatar.js:842-857 | the weight is that of the tier of the leaf-most segment with a tier in the class's table; Common (60) when the class is unknown or no segment has a tier |
| Catalog.Chain | packages/react-app/src/hooks/Avatar.js:892-894 | the nested objects built for a missing path lead to the given value |
| Catalog.InsertLookup | packages/react-app/src/hooks/Avatar.js:878-894 | after adding, the part's category is its old array with the part appended, a new one-part array when the path was undefined, and unchanged when it holds an object or runs through an array |
| Catalog.InsertNoList | packages/react-app/src/hooks/Avatar.js:885-889 | adding to a category that holds an object, or whose path runs through an array, changes nothing |
| Catalog.InsertKeepsOthers | packages/react-app/src/hooks/Avatar.js:881-894 | every other category's array keeps its contents and order |
| Catalog.InsertKeepsKeyed | packages/react-app/src/hooks/Avatar.js:894 | adding a part never gives an object two equal keys |
| Catalog.Category | packages/react-app/src/hooks/Avatar.js:878 | the category is the dotted path without its last segment, and at least one segment long |
| Catalog.LeafStrings | packages/react-app/src/hooks/Avatar.js:828-836 | every part string visited below a layer holds a dot |
| Catalog.AddedAllKeepsKeyed | packages/react-app/src/hooks/Avatar.js:828-836 | adding any sequence of part strings keeps every object's keys distinct |
| Catalog.Reversed | packages/react-app/src/hooks/Avatar.js:839 | `reverse` puts element `i` at position `n - 1 - i` |
| Catalog.CreateNodesRoundTrip | packages/react-app/src/hooks/Avatar.js:1353-1362 | built from the reversed segments, the nested object's keys followed by its leaf value are the segments in path order |
| Catalog.PartsListBuilder.constructor | packages/react-app/src/hooks/Avatar.js:123 | the catalog starts as `{PartsList: {}}` |
| Catalog.PartsListBuilder.AddToPartsList | packages/react-app/src/hooks/Avatar.js:838-895 | the catalog becomes the old one with the part, weighed by its leaf-most tier, added to its category |
| Catalog.PartsListBuilder.RecurseOverParts | packages/react-app/src/hooks/Avatar.js:828-836 | the catalog becomes the old one with every leaf below the layer added, in pre-order |
| Catalog.PartsListBuilder.AddNonePet | packages/react-app/src/hooks/Avatar.js:806-810 | `push` throws exactly when `PartsList.Pets` is missing or not an array, and the catalog is then unchanged; otherwise the new catalog is the old one with "None" of weight 322 inserted at that path, so the pets array gains it at its end and every other array is unchanged |
| Layers.HideLayersRecursively | packages/react-app/src/hooks/Avatar.js:366-374 | every layer below the root is hidden unless its name contains UNIVERSAL |
| Layers.RecurseOverMetadata | packages/react-app/src/hooks/Avatar.js:241-256 | each leaf is shown exactly when the metadata names it for its parent's dotted path; groups keep their flag |
| Layers.PreOrderFrom | packages/react-app/src/hooks/Avatar.js:1180-1196 | the pre-order walk only visits layers strictly below the root |
| Layers.FindFromIsFirstInPreOrder | packages/react-app/src/hooks/Avatar.js:1180-1196 | the search loop from child `i` finds the first layer with the name in the pre-order of children `i..` and their subtrees |
| Layers.RecursivelyFindPart | packages/react-app/src/hooks/Avatar.js:1177-1197 | the part found is the first layer with that name in pre-order below the root, so a matching group comes before its children; none when no layer has that name |
| Layers.NoKeywordNothingRequired | packages/react-app/src/hooks/Avatar.js:1161-1170 | a name without "REQUIRES" requires nothing |
| Layers.RequiresTakesNextToken | packages/react-app/src/hooks/Avatar.js:1161-1169 | each "REQUIRES" contributes exactly the next token, and scanning resumes after it |
| Layers.RequiresInName | packages/react-app/src/hooks/Avatar.js:1158-1166 | in "A.. REQUIRES X B..", the requirement recorded is the single word X |
| Layers.FirstRequiredFrom | packages/react-app/src/hooks/Avatar.js:1116-1121 | the index found is the first child named in the required list; none when no child is |
| Layers.ShownChild | packages/react-app/src/hooks/Avatar.js:1105-1134 | the child shown is the first required child if there is one; else none when hideAll applies to a non-UNIVERSAL layer; else the drawn child |
| Layers.Viewer.constructor | packages/react-app/src/hooks/Avatar.js:125 | the required list starts empty |
| Layers.Viewer.CheckRequiredParts | packages/react-app/src/hooks/Avatar.js:1158-1171 | the required list gains the tokens after each "REQUIRES" in the name, in order |
| Layers.Viewer.RandomizePart | packages/react-app/src/hooks/Avatar.js:1105-1134 | every child is hidden except the one ShownChild picks, so at most one is visible; the drawn child's requirements are recorded only when no required child was shown |
| Layers.HideAll | packages/react-app/src/hooks/Avatar.js:1110-1113 | every child ends hidden |
| Sampler.MinWeight | packages/react-app/src/hooks/Avatar.js:566 | the result is the smallest defined weight, and is one of them; none (Infinity) exactly when no weight is defined |
| Sampler.Normalized | packages/react-app/src/hooks/Avatar.js:567-570 | one normalised choice per input choice |
| Sampler.RandomShuffle | packages/react-app/src/hooks/Avatar.js:549-561 | the array becomes the Fisher-Yates shuffle of its old contents under the draws; a non-array is left alone |
| Sampler.PrepareWeightedArray | packages/react-app/src/hooks/Avatar.js:565-589 | the column returned is the copies of each choice, padded with picks up to the needed length and shuffled |
| Sampler.ShufflePermutes | packages/react-app/src/hooks/Avatar.js:556-560 | the shuffle keeps the length and the multiset |
| Sampler.PadFacts | packages/react-app/src/hooks/Avatar.js:584-586 | padding keeps the prefix, reaches the needed length exactly when short, and adds only normalised choices |
| Sampler.BaseLength | packages/react-app/src/hooks/Avatar.js:575-581 | the copies loop pushes the sum of the copy counts |
| Sampler.SampleLength | packages/react-app/src/hooks/Avatar.js:572-586 | the column's length is the larger of the copy total and the needed length, so never shorter than needed |
| Sampler.ScaledCopiesBound | packages/react-app/src/hooks/Avatar.js:572-581 | when the scale does not clamp, the copy total never exceeds the needed length |
| Sampler.ExactLengthWhenScaled | packages/react-app/src/hooks/Avatar.js:572-586 | when the needed length covers the total normalised weight (or no weight is defined) the column has exactly the needed length |
| Sampler.NoWeightNoCopies | packages/react-app/src/hooks/Avatar.js:569-581 | with no defined weight no copies are pushed |
| Sampler.BaseElements | packages/react-app/src/hooks/Avatar.js:575-581 | the copies are normalised choices, each at least its copy count times |
| Sampler.SampleElements | packages/react-app/src/hooks/Avatar.js:566-587 | every element of the column is a normalised choice, and each weighted choice occurs at least its copy count times |
| Sampler.UniformCopies | packages/react-app/src/hooks/Avatar.js:572-577 | with equal weights and `q * n` needed, every choice gets exactly `q` copies |
| Sampler.EqualWeightsExactCopies | packages/react-app/src/hooks/Avatar.js:566-587 | with equal weights and `q * n` needed, no padding is drawn and the column holds each choice exactly `q` times per occurrence in the input |
| Sampler.ClampedScaleExample | packages/react-app/src/hooks/Avatar.js:573 | weights 60/30/10 with 5 needed give a column of 10 |
| Assembly.SetField | packages/react-app/src/hooks/Avatar.js:681 | assigning a key sets it, changes no other key, keeps existing keys in place and adds a new key last |
| Assembly.Column | packages/react-app/src/hooks/Avatar.js:633 | each category's column has at least `avatarsCount` elements |
| Assembly.RandomizePartsForClass | packages/react-app/src/hooks/Avatar.js:625-644 | exactly `avatarsCount` avatars; avatar `i` has one field per category, in key order, holding element `i` of that category's column |
| Assembly.ClassAvatarsShape | packages/react-app/src/hooks/Avatar.js:635-641 | the zipped avatars have one field per category with distinct keys, and every value is a drawn part |
| Assembly.ReportCounts | packages/react-app/src/hooks/Avatar.js:595-608 | the counts built are the tally of every field of every avatar |
| Assembly.ReportIsCount | packages/react-app/src/hooks/Avatar.js:595-608 | the report has an entry for a key and part name exactly when some avatar carries that part under that key, and the entry is the number of such avatars |
| Assembly.ImageDeterminesId | packages/react-app/src/hooks/Avatar.js:725-731 | distinct ids give distinct image addresses |
| Assembly.FlattenBackgroundsMembers | packages/react-app/src/hooks/Avatar.js:664-678 | the flattened backgrounds are exactly the parts of arrays two or three levels inside the backgrounds object |
| Assembly.AssignBackgrounds | packages/react-app/src/hooks/Avatar.js:679-682 | avatar `i` below the count gets background `i`; all other fields and avatars are unchanged |
| Assembly.AssignPets | packages/react-app/src/hooks/Avatar.js:686-692 | avatar `i` below the count gets pet `i` unless it is named "None"; nothing else changes |
| Assembly.NonePetNeverStored | packages/react-app/src/hooks/Avatar.js:689-691 | a pet the loop stores is never the "None" placeholder |
| Assembly.CategoryStep | packages/react-app/src/hooks/Avatar.js:661-696 | each category step keeps every avatar's keys distinct |
| Assembly.Categories | packages/react-app/src/hooks/Avatar.js:661-696 | the categories loop keeps every avatar's keys distinct |
| Assembly.AttributesOfFields | packages/react-app/src/hooks/Avatar.js:710-717 | the attributes fail exactly when a non-excluded field is undefined; otherwise they are one `{key, value.name}` per non-excluded field and nothing else |
| Assembly.Kept | packages/react-app/src/hooks/Avatar.js:710-712 | the fields that are not `attributes`, `name`, `metadata` or `description`: no more than the avatar has, and exactly its non-excluded fields |
| Assembly.AttributesInOrder | packages/react-app/src/hooks/Avatar.js:710-717 | when the attributes are built there is one per kept field, and the k-th is the key and part name of the k-th kept field, in the avatar's field order |
| Assembly.Finalized | packages/react-app/src/hooks/Avatar.js:700-731 | a record has metadata with the class attribute first, then the field attributes, the description and the image URL of its id; its `localfile` is `arcadian-<id>.png`; other fields are unchanged |
| Assembly.FinalizeAll | packages/react-app/src/hooks/Avatar.js:700-734 | every avatar is finalised with its own id, the count is kept |
| Assembly.BuildAttributes | packages/react-app/src/hooks/Avatar.js:702-717 | the attribute loop fails exactly when the attributes do, and otherwise returns the class attribute followed by them |
| Assembly.GenerateMetadataJson | packages/react-app/src/hooks/Avatar.js:646-742 | `{filename: "metadata.json"}` when not initialised; otherwise the categories loop followed by the records loop |
| Assembly.RunCategories | packages/react-app/src/hooks/Avatar.js:661-696 | the loop over the parts list gives the categories fold |
| Assembly.FinalizeAvatars | packages/react-app/src/hooks/Avatar.js:700-734 | the records loop gives every avatar its record |
| Assembly.ApplyCategory | packages/react-app/src/hooks/Avatar.js:661-696 | one key's branch: background, class, pets or skipped |
| Assembly.ApplyBackgrounds | packages/react-app/src/hooks/Avatar.js:663-682 | the backgrounds branch |
| Assembly.ApplyClass | packages/react-app/src/hooks/Avatar.js:683-684 | the class branch appends the class's avatars |
| Assembly.ApplyPets | packages/react-app/src/hooks/Avatar.js:685-692 | the pets branch |
| Assembly.AssignPetsLoop | packages/react-app/src/hooks/Avatar.js:686-692 | the pets loop fails exactly when a pet it reads is undefined, and otherwise assigns the pets |
| Assembly.CategoriesCount | packages/react-app/src/hooks/Avatar.js:661-696 | a completed loop adds `amountToCreate` avatars per class key and none for any other key |
| Assembly.GeneratedCount | packages/react-app/src/hooks/Avatar.js:646-742 | the records returned are the stored avatars plus `amountToCreate` per class key |
| Assembly.GeneratedRecordShape | packages/react-app/src/hooks/Avatar.js:699-731 | each record returned has the class attribute first, its trait attributes, the description, the image of its own id, `localfile`, and its traits unchanged |
| ClassTree.BaseClassesFrom | packages/react-app/src/hooks/Avatar.js:353-361 | the class options are the CLASS-named children in order, each named as a class all the way down; a CLASS-named leaf makes the loop throw |
| ClassTree.GetBaseClassesRecursively | packages/react-app/src/hooks/Avatar.js:350-364 | the options returned are the root's CLASS-named children, in order, and every option below them is CLASS-named |
| ClassTree.RefreshClassOptionsRecursively | packages/react-app/src/hooks/Avatar.js:1235-1249 | null exactly for an empty level; otherwise one entry per option with value and label equal to its name |
| ClassTree.RefreshClassOptions | packages/react-app/src/hooks/Avatar.js:1222-1233 | one well-formed entry per class option, from which the option can be read back |
| ClassTree.CascaderRoundTrip | packages/react-app/src/hooks/Avatar.js:1235-1249 | a built entry is well formed and gives back its class option |
| ClassTree.CascaderRoundTripBack | packages/react-app/src/hooks/Avatar.js:1235-1249 | every well-formed entry is the one built from the option it gives back |
| ClassTree.WalkFrom | packages/react-app/src/hooks/Avatar.js:1212-1216 | the walk is not empty and starts with the entry's value |
| ClassTree.GetRandomClasses | packages/react-app/src/hooks/Avatar.js:1204-1220 | the classes returned are the random walk from a top-level entry |
| ClassTree.WalkIsPath | packages/react-app/src/hooks/Avatar.js:1212-1216 | the walk names an entry on each level and ends on a last level |
| ClassTree.RandomClassesIsPath | packages/react-app/src/hooks/Avatar.js:1204-1220 | the result is empty exactly when no class is offered; otherwise it is a path from a top-level class to a last level |
| ClassTree.NamePathsFrom | packages/react-app/src/hooks/Avatar.js:1251-1272 | every leaf path handed on is non-empty and passes the IGNORE/CLASS filter on every segment |
| ClassTree.ConfigPathsStep | packages/react-app/src/hooks/Avatar.js:1252-1271 | the part strings from child `i` are none when it is filtered out, its own when a leaf, its subtree's when a group, then those of the later children |
| ClassTree.CreateTreeNodeRoundTrip | packages/react-app/src/hooks/Avatar.js:1287-1302 | built from reversed names, the chain's keys are the names in their original order |
| ClassTree.TreeChainKeys | packages/react-app/src/hooks/Avatar.js:1279-1285 | the chain added for a part string holds its names after the first |
| ClassTree.FirstKey | packages/react-app/src/hooks/Avatar.js:1318-1325 | the node found is the first of its level with that key; none when no node has it |
| ClassTree.InsertPathPresent | packages/react-app/src/hooks/Avatar.js:1304-1351 | after inserting a chain, its keys can be followed from the root level |
| ClassTree.InsertPathKeepsLevel | packages/react-app/src/hooks/Avatar.js:1318-1338 | inserting keeps every node of the level in place with its key, changes only the node with the chain's key, and adds at most one node, at the end |
| ClassTree.InsertPathIdempotent | packages/react-app/src/hooks/Avatar.js:1304-1351 | inserting the same chain twice is inserting it once |
| ClassTree.InsertPathKeepsMerged | packages/react-app/src/hooks/Avatar.js:1304-1351 | a forest with distinct keys on every level keeps them |
| ClassTree.StepNotFound | packages/react-app/src/hooks/Avatar.js:1330-1338 | when no node has the key, a new empty node is pushed and the walk continues in its children |
| ClassTree.StepFound | packages/react-app/src/hooks/Avatar.js:1341-1343 | when a node has the key, the walk continues in its children |
| ClassTree.AddAllToTreeKeepsMerged | packages/react-app/src/hooks/Avatar.js:1251-1272 | adding part strings keeps every level's keys distinct |
| ClassTree.TreeConfig.constructor | packages/react-app/src/hooks/Avatar.js:132 | the tree starts empty |
| ClassTree.TreeConfig.AddObjectToTree | packages/react-app/src/hooks/Avatar.js:1304-1351 | the tree becomes the old one with the chain inserted, reusing the first node with each key and pushing new ones |
| ClassTree.TreeConfig.AddToTreeConfig | packages/react-app/src/hooks/Avatar.js:1279-1285 | the tree gains the chain of the part string's names after the first |
| ClassTree.TreeConfig.RecurseOverChildren | packages/react-app/src/hooks/Avatar.js:1251-1272 | the tree gains every part string that passes the IGNORE/CLASS filter, in visiting order |

## Left out

- Canvas compositing and export are not modelled, because they are browser drawing APIs and floating-point layout. This covers `changeAvatarColor`, `drawAvatar`, `drawMiniAvatar`, `finalRender` and `renderAvatar`.
- Network, IPFS and file loading are not modelled, because they are asynchronous I/O. This covers `loadProject`, `loadBackgrounds`, `loadPets`, `startIPFSUpload`, `toBlobWrapper` and the fetch inside `loadRarities`. The descriptor `loadRarities` receives is an input.
- The image-data gatherers and the asynchronous z-index setup inside `randomizePart` are not modelled, because they serve rendering only.
- React state setters and `localStorage` are not modelled. The stored avatars and parts list are inputs, and the records are the output. A missing stored list (`null`) is not modelled.
- `uuidv4` is not modelled: the id of each avatar is an input.
- `Math.random()` is not modelled as one shared stream. The model uses separate oracles: the padding and shuffle draws of each column, the class walk, and the draw of `randomizePart`. The order in which the source consumes a single stream is not captured.
- The OPTIONAL_% probability parse (`parseFloat`) is not modelled, because it is floating point.
- The loot-text rarity rolls are not modelled, because they are cosmetic.
- The percentages and console output of `printReport` are not modelled, because they are floating point and diagnostics.
- Sampler.Copies: the source divides in floating point. The model computes the same quotients exactly on integers (`w * N div D` or `w div m`), so rounding of inexact floating-point quotients is idealised.
- Layers.RecurseOverMetadata: token metadata is a map from the segments of a dotted path to a string. lodash's `_.get` path parsing (brackets, quoted keys, empty segments), metadata values that are not strings, and JavaScript's loose `==` between such a value and the child's name are not modelled.
- Rarity.PartRarities.LoadRarities: a rarity entry's "Part Name", "Part Layer" and "Rarity" are either absent or strings. A JSON `null` name, which the source writes under the key "null", and values of other JSON types are not modelled.
- Strings.ToLower: only ASCII letters are lower-cased; JavaScript's full Unicode `toLowerCase` is not modelled.
- Object key order is insertion order throughout. JavaScript's rule of listing integer-like keys first is not modelled.
- Catalog.Insert treats dotted paths as plain keys. lodash's bracket paths and array-index path segments are not modelled.
- Catalog.Insert drops a part whose category path runs through an existing array. lodash would set a named property on that array, which JSON serialisation of the catalog loses.
- Property names inherited from `Object.prototype` are not modelled.
- `Layers.Layer.children` is an immutable sequence. The layer tree's shape never changes in the modelled operations; only `hidden` does.
- `addObjectToTree` walks a live reference (`childArray`) into `currentTreeConfig` and pushes through it. The model replaces that reference by the index path to the level it denotes, and each push by a functional update at that path. Aliasing between nodes is therefore not modelled.
- The `title` of a tree-config node is not stored, because it always equals its `key`.
- `addToConfig`, the lodash `_.merge` of each accepted part string into `currentRandomConfig`, is not modelled; the chain it merges is `Catalog.RecursivelyCreateNodes`.
- `randomizeHiddenParts` is not modelled; it resets `requiredPartsList` and walks the configuration calling `randomizePart`.
- ClassTree.GetRandomClasses requires well-formed cascader entries (no empty level), which is what the builders produce. A hand-made empty `children` array would make the source index an empty array; that case is not modelled.
- Assembly.RandomizePartsForClass requires every category of the class object to be a non-empty part array when avatars are drawn. The source throws otherwise: at `allparts[key][i]` for a category that is not an array, and at `val.name` in `printReport` for an empty one. Within `generateMetadataJson` both cases are modelled as `Failed`.
- Assembly.ApplyClass requires the key not to start with "background". The source's branches are tested in that order, so this only restates the dispatch.
