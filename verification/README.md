# Minecraft pack builder: the build engine

This project models how the pack builder of `minecraft-pack-builder` turns a
repository of pack modules into the entries of one pack archive.

The build runs in these steps:

1. **Main module.** Fetch the main module's file tree and write or patch its
   `pack.mcmeta` for the target game version.
2. **Rules.** Resolve the `version_modules` rules into one override folder per
   module.
3. **Icon.** Append the icon, if the configuration names one.
4. **Merges.** Merge the other modules onto the pack, in weight order. Each
   module is followed by its override.
5. **Zip walk.** Write the tree as archive entries, leaving out the folder the
   pack type excludes. A mod build also writes the four mod-loader descriptors.

While the tree is fetched, every path is renamed for the target version
(`PathFormatter`). Every recipe file is rewritten into the recipe shape of
that version (`RecipeFormatter`). Game versions are ordered by their position
in the version table (`Version.compareMC`).

The two sources of files are modelled as recursive walks:

- the online builder asks a repository contents API;
- the archive builder reads the keys of a loaded zip archive.

Both are proved equal to tree-valued specification functions.

Each walk converts file contents through the builder's `preprocessContent`,
which the base class provides. The walks take that conversion as a parameter
of type `BuilderCore.Conversion`; the builders pass `BuilderCore.Preprocess(ctx)`.
Every walk property below therefore holds whatever the conversion does.

The older static `Builder` class repeats the same steps. It differs in two
places:

- it always appends a synthesized `pack.mcmeta`, with the scalar
  `pack_format`;
- its `getFileTree` takes the base path and the pack type as arguments.

The model shares every other definition between the two builders. The
`Context` value carries the base path, the pack type, the version table entry
and the recipe codec, so the static walk is the online walk with those
arguments.

Module layout:

| module | models |
|---|---|
| `Wrappers` | `Option` and `Result` |
| `Strings` | the JavaScript string operations the code uses |
| `Seqs` | facts about sequences the proofs share |
| `Versions` | `Version`, `VersionRange` and `compareMC` |
| `PathFormat` | `PathFormatter.format` and its rename table |
| `RecipeFormat` | the three recipe converters and `RecipeFormatter.format` |
| `BuilderCore` | the file tree, `processPath`, `preprocessContent` and `getBasePath` |
| `TreeMerge` | `mergeFileOrTree` |
| `ZipEmit` | `fileTreeToZip` and the archive as a class |
| `PackMeta` | the `pack.mcmeta` step of both builders |
| `Overrides` | the `version_modules` resolver |
| `ModInfo` | `buildModZip` |
| `Pipeline` | the weight sort, the merge schedule and `build` |
| `OnlineBuilder` | the online `getFileTree` |
| `FileBuilder` | the archive `getFileTree` |

## Model

| member | source | states |
|---|---|---|
| Strings.Split | src/scripts/formatter/impl/path.ts:28 | `split` on one separator gives at least one piece, and no piece contains the separator |
| Strings.JoinSplit | src/scripts/formatter/impl/path.ts:28-63 | joining the pieces of a split gives the string back, so `format` returns the path unchanged when it renames nothing |
| Strings.SplitJoin | src/scripts/builder/impl/index.ts:256 | splitting a join of separator-free pieces gives the pieces back |
| Strings.SplitNoSep | src/scripts/formatter/impl/path.ts:28 | a string without the separator splits into itself |
| Strings.SplitAfterSep | src/scripts/formatter/impl/path.ts:28 | the first piece of `a + sep + b` is `a`, followed by the pieces of `b` |
| Strings.StartsWithSegment | src/scripts/builder/impl/online.ts:28-33 | a path starts with `seg/` exactly when its first segment is `seg` and another segment follows |
| Strings.LeadingSpace | src/scripts/builder/impl/index.ts:257 | the length of the leading run of white space: every character before it is white space, the one at it is not |
| Strings.TrailingStart | src/scripts/builder/impl/index.ts:257 | where the trailing run of white space begins: every character from it on is white space, the one before it is not |
| Strings.TrimStart | src/scripts/builder/impl/index.ts:257 | the result is a suffix of the input that does not start with white space, and every removed character is white space |
| Strings.TrimEnd | src/scripts/builder/impl/index.ts:257 | the result is a prefix of the input that does not end with white space, and every removed character is white space |
| Strings.Trim | src/scripts/builder/impl/index.ts:257 | `trim()` gives a slice of the input that neither starts nor ends with white space, and everything before and after the slice is white space |
| Strings.TrimIsUnique | src/scripts/builder/impl/index.ts:257 | any slice without white space at its ends whose removed prefix and suffix are all white space is the result of `trim()` |
| Versions.Sub | src/scripts/version/index.ts:30 | JavaScript subtraction: integer difference on integers; NaN exactly when an operand is NaN or both are the same infinity |
| Versions.Compare | src/scripts/version/index.ts:29-31 | on finite versions the sign of `compare` is the lexicographic order of (major, minor, patch), and 0 means equal |
| Versions.DigitPrefix | src/scripts/version/index.ts:35 | the run of leading decimal digits that `parseInt` reads, and the first non-digit after it |
| Versions.ParseInt | src/scripts/version/index.ts:35 | `parseInt` gives NaN or an integer, and the decimal value of an all-digit string |
| Versions.ComponentText | src/scripts/version/index.ts:35 | `parts[i] \|\| '0'` is never empty |
| Versions.VersionFromString | src/scripts/version/index.ts:33-36 | missing components read as 0; the empty string is 0.0.0 |
| Versions.TwoComponentsDefaultPatch | src/scripts/version/index.ts:33-36 | "a.b" with digit groups a, b is version a.b.0 |
| Versions.ThreeComponents | src/scripts/version/index.ts:33-36 | "a.b.c" with digit groups a, b, c is version a.b.c |
| Versions.ExtraComponentsIgnored | src/scripts/version/index.ts:33-36 | components after the third are ignored: "a.b.c.rest" reads as "a.b.c" |
| Versions.AnyContainsFinite | src/scripts/version/index.ts:47 | the `ANY` range contains every finite version |
| Versions.BracketParts | src/scripts/version/index.ts:77 | the text between the brackets gives at least one piece |
| Versions.ParseBracketRange | src/scripts/version/index.ts:71-80 | `[`/`(` and `]`/`)` decide whether the ends are inclusive; an empty side is unbounded, and a non-empty side is the version that side parses to; a range without a comma fails (the source throws on `parts[1]` being undefined) |
| Versions.BracketForm | src/scripts/version/index.ts:71-80 | `[a,b]` with non-empty, comma-free sides is the closed range from the version of `a` to the version of `b` |
| Versions.RangeFromString | src/scripts/version/index.ts:69-92 | "*" is `ANY`; the bracket form is tested first; every other text parses |
| Versions.ContainsAt | src/scripts/version/index.ts:64-67 | `contains` on finite versions is the interval test with inclusive or exclusive ends |
| Versions.AtLeastForm | src/scripts/version/index.ts:81-82 | `>=t` is the range from t (inclusive) to +∞ |
| Versions.AboveForm | src/scripts/version/index.ts:83-84 | `>t` is the range from t (exclusive) to +∞ |
| Versions.AtMostForm | src/scripts/version/index.ts:85-86 | `<=t` is the range from -∞ to t (inclusive) |
| Versions.BelowForm | src/scripts/version/index.ts:87-88 | `<t` is the range from -∞ to t (exclusive) |
| Versions.ExclusiveEndsExcludeBound | src/scripts/version/index.ts:64-67 | an exclusive end never contains the version at that end |
| Versions.AtLeastContainsBound | src/scripts/version/index.ts:81-82 | `>=t` contains t |
| Versions.AboveExcludesBound | src/scripts/version/index.ts:83-84 | `>t` does not contain t |
| Versions.AtMostContainsBound | src/scripts/version/index.ts:85-86 | `<=t` contains t |
| Versions.BelowExcludesBound | src/scripts/version/index.ts:87-88 | `<t` does not contain t |
| Versions.BareVersionIsExact | src/scripts/version/index.ts:89-90 | a bare version text is the range holding exactly that version |
| Versions.IndexOf | src/scripts/version/index.ts:39-40 | `indexOf` is the first position of the id, or -1 exactly when the id is absent |
| Versions.CompareMC | src/scripts/version/index.ts:38-43 | throws exactly on an id missing from the table; otherwise 0 iff the ids are equal, positive iff the first is newer (earlier in the table) |
| Versions.CompareMCAntisymmetric | src/scripts/version/index.ts:38-43 | `compareMC(a, b) == -compareMC(b, a)` |
| Versions.NewerIsStrictTotalOrder | src/scripts/version/index.ts:38-43 | table order is irreflexive, total and transitive on a table of distinct ids |
| PathFormat.Format | src/scripts/formatter/impl/path.ts:21-64 | the loops of `format` compute `FormatPath`: the path with its third segment passed through the table of its root folder |
| PathFormat.RewriteThird | src/scripts/formatter/impl/path.ts:29-44 | each table entry renames segment 2 forward when the version reaches its key and backward otherwise; every other segment is kept, and a path of two segments or fewer is unchanged |
| PathFormat.DataRulesWellFormed | src/scripts/formatter/impl/path.ts:5-19 | the seven data-pack rules hold no "/", and no modern name is also a legacy name |
| PathFormat.ForwardFixed | src/scripts/formatter/impl/path.ts:34-37 | a segment no rule names as legacy passes the forward walk unchanged |
| PathFormat.BackwardFixed | src/scripts/formatter/impl/path.ts:39-42 | a segment no rule names as modern passes the backward walk unchanged |
| PathFormat.ForwardRenames | src/scripts/formatter/impl/path.ts:34-37 | the k-th legacy name becomes the k-th modern name |
| PathFormat.BackwardRenames | src/scripts/formatter/impl/path.ts:39-42 | the k-th modern name becomes the k-th legacy name |
| PathFormat.ForwardResultNotLegacy | src/scripts/formatter/impl/path.ts:34-37 | the forward walk never leaves a legacy name |
| PathFormat.BackwardResultNotModern | src/scripts/formatter/impl/path.ts:39-42 | the backward walk never leaves a modern name |
| PathFormat.DataTable | src/scripts/formatter/impl/path.ts:18 | the data table is its single entry at 45: forward from 45 on, backward below |
| PathFormat.ForwardSlashless | src/scripts/formatter/impl/path.ts:34-37 | renaming never puts a "/" into a segment |
| PathFormat.BackwardSlashless | src/scripts/formatter/impl/path.ts:39-42 | renaming never puts a "/" into a segment |
| PathFormat.OtherRootsUnchanged | src/scripts/formatter/impl/path.ts:29-62 | a path whose first segment is neither "data" nor "assets" comes back unchanged |
| PathFormat.AssetsUnchanged | src/scripts/formatter/impl/path.ts:45-61 | "assets" paths come back unchanged, because the assets table is empty |
| PathFormat.ShortPathUnchanged | src/scripts/formatter/impl/path.ts:35 | a path of fewer than three segments comes back unchanged |
| PathFormat.OnlyThirdSegmentChanges | src/scripts/formatter/impl/path.ts:28-63 | only segment 2 of a data path can change |
| PathFormat.ModernizesLegacyName | src/scripts/formatter/impl/path.ts:33-37 | from datapack version 45 on, a legacy plural folder becomes its singular name |
| PathFormat.RestoresLegacyName | src/scripts/formatter/impl/path.ts:38-43 | below datapack version 45, a singular folder becomes its legacy plural name |
| PathFormat.FormatIdempotent | src/scripts/formatter/impl/path.ts:21-64 | for a fixed version, formatting twice is formatting once |
| PathFormat.FormatKeepsRoot | src/scripts/formatter/impl/path.ts:28-63 | `format` never moves a path into or out of a top-level folder |
| PathFormat.ModernThenLegacyRoundTrip | src/scripts/formatter/impl/path.ts:21-64 | formatting for a version from 45 on, then for one below 45, restores a path whose third segment was a legacy name |
| RecipeFormat.Preprocess | src/scripts/formatter/impl/recipe.ts:60-75 | the copy keeps every other field and drops key, ingredients and result; a falsy single ingredient survives |
| RecipeFormat.MoreKeyLoop | src/scripts/formatter/impl/recipe.ts:81-96 | the key loop of `toMore24w33a` gives each slot its string form (the string itself, "#"+tag over item); a slot with neither is dropped |
| RecipeFormat.MoreIngredientsLoop | src/scripts/formatter/impl/recipe.ts:97-111 | each ingredient pushes the string itself, or item then "#"+tag, in order |
| RecipeFormat.ToMore24w33a | src/scripts/formatter/impl/recipe.ts:77-133 | `toMore24w33a`: the newest shape, with the result `{id: item, count: count ?? 1}` when item is truthy; it fails on a recipe without a result |
| RecipeFormat.BetweenKeyLoop | src/scripts/formatter/impl/recipe.ts:140-154 | "#name" becomes `{tag: name}`, anything else `{item: s}` |
| RecipeFormat.BetweenIngredientsLoop | src/scripts/formatter/impl/recipe.ts:155-168 | the same conversion, for each ingredient in order |
| RecipeFormat.ToBetween24w10aTo24w33a | src/scripts/formatter/impl/recipe.ts:135-182 | `toBetween24w10aTo24w33a`: the newest shape's strings as objects, and its result |
| RecipeFormat.MoreResultHasNoItem | src/scripts/formatter/impl/recipe.ts:124-131 | the newest shape's result never holds a truthy `item` |
| RecipeFormat.BetweenIngredientsShape | src/scripts/formatter/impl/recipe.ts:155-168 | one object per string, in order |
| RecipeFormat.BetweenIsBetweenShaped | src/scripts/formatter/impl/recipe.ts:135-182 | the middle converter's ingredients are objects with exactly one of item and tag |
| RecipeFormat.LessIsLessShaped | src/scripts/formatter/impl/recipe.ts:184-205 | the oldest converter's result names its item, not an id |
| RecipeFormat.More | src/scripts/formatter/impl/recipe.ts:77-133 | `toMore24w33a` fails exactly on a recipe without a result; otherwise it keeps the other fields and has a key map or an ingredient list exactly when the recipe does |
| RecipeFormat.Between | src/scripts/formatter/impl/recipe.ts:135-182 | `toBetween24w10aTo24w33a` fails exactly on a recipe without a result; otherwise it keeps the other fields and takes the newest shape's result |
| RecipeFormat.Less | src/scripts/formatter/impl/recipe.ts:184-205 | `toLess24w10a` fails exactly on a recipe without a result; otherwise the result is `{item: id, count}` of the newest shape's result, and the other fields are kept |
| RecipeFormat.ConvertersFailTogether | src/scripts/formatter/impl/recipe.ts:124-130 | each of the three converters fails exactly on a recipe without a result |
| RecipeFormat.MoreOfMore | src/scripts/formatter/impl/recipe.ts:77-133 | a recipe already in the newest shape is a fixed point of `toMore24w33a` |
| RecipeFormat.MoreIngredientsOfRefs | src/scripts/formatter/impl/recipe.ts:99-103 | string ingredients pass through unchanged |
| RecipeFormat.MoreIdempotent | src/scripts/formatter/impl/recipe.ts:77-133 | `toMore24w33a` is idempotent |
| RecipeFormat.SlotRoundTrip | src/scripts/formatter/impl/recipe.ts:144-152 | a string other than "" and "#" survives the trip through the middle shape |
| RecipeFormat.IngredientsRoundTrip | src/scripts/formatter/impl/recipe.ts:155-168 | such ingredient lists survive the trip unchanged |
| RecipeFormat.MoreAfterBetween | src/scripts/formatter/impl/recipe.ts:135-182 | converting to the middle shape and back to the newest gives the newest shape of the original |
| RecipeFormat.EmptyKeyStringIsLost | src/scripts/formatter/impl/recipe.ts:89-94 | that round trip needs its precondition: an empty key string is lost |
| RecipeFormat.MoreAfterLess | src/scripts/formatter/impl/recipe.ts:184-205 | converting to the oldest shape and back gives the newest shape of the original, for a result with an id and a count |
| RecipeFormat.Convert | src/scripts/formatter/impl/recipe.ts:215-221 | the newest shape from datapack version 49, exactly `toBetween24w10aTo24w33a` from 34, exactly `toLess24w10a` below; it fails exactly on a missing result |
| RecipeFormat.Format | src/scripts/formatter/impl/recipe.ts:207-223 | content that does not decode fails; otherwise the result is the encoding of the converted recipe |
| BuilderCore.ProcessPathDropsModuleFolder | src/scripts/builder/impl/index.ts:82-87 | `base/module/rest` becomes `rest` |
| BuilderCore.ProcessPathModuleRoot | src/scripts/builder/impl/index.ts:82-87 | the module folder `base/module` becomes "" |
| BuilderCore.ProcessPathIsSuffix | src/scripts/builder/impl/index.ts:82-93 | `processPath` only removes a prefix: its result is always a suffix of the path |
| BuilderCore.ProcessPathOutsideBase | src/scripts/builder/impl/index.ts:88-92 | outside the base path only a leading "./" is removed |
| BuilderCore.PreprocessContent | src/scripts/builder/impl/index.ts:126-137 | only content under a "recipe" or "recipes" folder (segment 2) goes through the recipe formatter; anything else is returned as is |
| BuilderCore.PreprocessFailsOnlyOnRecipes | src/scripts/builder/impl/index.ts:126-137 | a failure comes only from a recipe whose content does not decode or has no result |
| BuilderCore.GetBasePath | src/scripts/builder/impl/index.ts:177-183 | a leading "./" is removed and nothing else changes |
| TreeMerge.FindMatch | src/scripts/builder/impl/index.ts:105-119 | the first existing child with the same path and the same kind, or -1 when there is none |
| TreeMerge.Place | src/scripts/builder/impl/index.ts:103-122 | placing one incoming child does not grow the tree's size beyond the two sizes together |
| TreeMerge.Overlay | src/scripts/builder/impl/index.ts:103-122 | the outer loop's result is no larger than its two inputs |
| TreeMerge.Merge | src/scripts/builder/impl/index.ts:95-124 | fails exactly when an argument is not a folder; the result is a folder with the second argument's path |
| TreeMerge.MergeFileOrTree | src/scripts/builder/impl/index.ts:95-124 | the outer loop over the incoming children computes `Merge` |
| TreeMerge.PlaceChild | src/scripts/builder/impl/index.ts:104-121 | the inner loop, left at the first child with the same path and kind, places one incoming child as `Place` does |
| TreeMerge.OverlayStep | src/scripts/builder/impl/index.ts:103 | each pass of the outer loop places the next incoming child |
| TreeMerge.PlaceKeepsSlots | src/scripts/builder/impl/index.ts:103-122 | existing children keep their slot and position; at most one child is appended; the path set gains the incoming path |
| TreeMerge.OverlayKeepsBase | src/scripts/builder/impl/index.ts:102-122 | the base children keep their slots and order, and the merged path set is the union of the two |
| TreeMerge.OverlayAppendsUnmatched | src/scripts/builder/impl/index.ts:99-123 | for all inputs, the merge is the base list with the incoming children that find a slot placed in it, which keeps its length, followed by the incoming children that find no slot in the base, merged among themselves in their order |
| TreeMerge.OverlayParts | src/scripts/builder/impl/index.ts:99-123 | merging into `xs + ys` places the children with a slot in `xs` there and the others, in order, in `ys` |
| TreeMerge.DisjointOverlayAppends | src/scripts/builder/impl/index.ts:120-121 | with no shared and no repeated paths, the merge is the base list followed by the incoming one |
| TreeMerge.PlaceFileOverwrites | src/scripts/builder/impl/index.ts:107-111 | an incoming file replaces the content of the first file at its path, and nothing else changes |
| TreeMerge.WinnerAlternatesByDepth | src/scripts/builder/impl/index.ts:112-116 | the recursive call swaps its arguments, so on a path conflict at depth 1 the second tree's file wins and at depth 2 the first tree's file wins |
| TreeMerge.OtherKindIsDuplicated | src/scripts/builder/impl/index.ts:106-121 | a same-path child of the other kind is appended, so the path appears twice |
| TreeMerge.AppendedChildrenAreMatched | src/scripts/builder/impl/index.ts:105 | the inner loop also searches the children appended so far, so of two incoming files at one path the last one wins |
| ZipEmit.Zip.constructor | src/scripts/builder/impl/index.ts:390 | a new archive has no entries |
| ZipEmit.Zip.AddFolder | src/scripts/builder/impl/index.ts:168 | `folder(path)` adds one folder entry |
| ZipEmit.Zip.AddFile | src/scripts/builder/impl/index.ts:141-150 | `fileToZip` adds one file entry with the content |
| ZipEmit.FileTreeToZip | src/scripts/builder/impl/index.ts:152-175 | the recursive walk appends `Emit` of the tree: pre-order, with folders left out by pack type and empty files skipped |
| ZipEmit.EmitIsClean | src/scripts/builder/impl/index.ts:152-175 | no entry is a folder the pack type leaves out or an empty file, and there are at most as many entries as nodes |
| ZipEmit.EmitAllIsClean | src/scripts/builder/impl/index.ts:169-171 | the same for a list of siblings |
| ZipEmit.FolderComesFirst | src/scripts/builder/impl/index.ts:167-171 | a written folder comes before everything from its children |
| ZipEmit.FilesAreNeverPruned | src/scripts/builder/impl/index.ts:153-166 | a file is never pruned by the pack-type checks (they apply only to nodes without content) |
| ZipEmit.AllKeepsEveryFolder | src/scripts/builder/impl/index.ts:152-175 | for a pack of every type, each folder of the tree gives exactly one folder entry |
| ZipEmit.AllKeepsEveryFolderAll | src/scripts/builder/impl/index.ts:169-171 | the same for a list of siblings |
| ZipEmit.CountFoldersAppend | src/scripts/builder/impl/index.ts:169-171 | folder counts add up over concatenated entry lists |
| PackMeta.PackFormat | src/scripts/builder/impl/index.ts:268 | a data pack takes the data-pack number; a resource pack and a pack of every type take the resource-pack number |
| PackMeta.RangedFormatIsOneThreshold | src/scripts/builder/impl/index.ts:281-284 | the condition `(type === "data" && packFormat >= 82) \|\| packFormat >= 65` chooses the ranged form exactly from 65 on, for every pack type |
| PackMeta.PatchPack | src/scripts/builder/impl/index.ts:310-322 | the ranged form sets `min_format`/`max_format` and deletes `pack_format`/`supported_formats`; the scalar form does the reverse; other keys are kept |
| PackMeta.PatchPackIdempotent | src/scripts/builder/impl/index.ts:310-322 | patching twice for the same target is patching once |
| PackMeta.SynthPack | src/scripts/builder/impl/index.ts:269-289 | the synthesized `pack` holds the two description lines and the format keys of the chosen form, and nothing else |
| PackMeta.SynthIsPatchedDescription | src/scripts/builder/impl/index.ts:269-289 | the synthesized object is what the patch makes of the description alone |
| PackMeta.PatchedMeta | src/scripts/builder/impl/index.ts:309-323 | fails exactly when the parsed file is not an object with a `pack` object or array; otherwise every other top-level key keeps its value, an object `pack` becomes `PatchPack` of itself, and an array `pack` leaves the JSON unchanged |
| PackMeta.FirstWithPath | src/scripts/builder/impl/index.ts:307 | the first child at the path, or -1 when no child has it |
| PackMeta.PatchMcmeta | src/scripts/builder/impl/index.ts:306-330 | a leaf is left alone; a folder without `pack.mcmeta` gets the synthesized file appended; otherwise the first `pack.mcmeta` becomes the encoding of `PatchedMeta` of its decoded content, and no other child changes; it fails exactly when that file is a folder, does not decode, or cannot be patched |
| PackMeta.McmetaStatesFormat | src/scripts/builder/impl/index.ts:306-330 | after the step, the first `pack.mcmeta` of a folder states the target format in the chosen form |
| PackMeta.StaticAppendMcmeta | src/scripts/builder/index.ts:307-310 | the static builder appends its `pack.mcmeta` to a folder and leaves a leaf alone |
| PackMeta.StaticAppendAddsOneMcmeta | src/scripts/builder/index.ts:307-310 | the static builder adds one more `pack.mcmeta`, even when the module already has one |
| PackMeta.StaticIgnoresRangedFormat | src/scripts/builder/index.ts:278-290 | the static builder always writes the scalar `pack_format` |
| Overrides.Kept | src/scripts/builder/impl/index.ts:340-347 | the filter keeps exactly the rules whose target is unset, empty, the main module, or the last segment of a selected module path, in key order. `endsWith` also accepts a target of several segments, such as "x/bar" for a module path ending in "/x/bar"; the merge loop finds such a rule only when the module path without the base path is exactly the target |
| Overrides.Resolve | src/scripts/builder/impl/index.ts:348-362 | every chosen entry's version is in the table and not newer than the requested version; its path is `base/<rule key>` |
| Overrides.ResolveSnoc | src/scripts/builder/impl/index.ts:348-362 | one more rule is one more loop step |
| Overrides.KeepRules | src/scripts/builder/impl/index.ts:340-347 | the filter with its inner loop over the selected modules computes `Kept` |
| Overrides.ResolveOverrides | src/scripts/builder/impl/index.ts:339-362 | no `version_modules` gives no overrides; otherwise the loop computes `Resolve` on the kept rules |
| Overrides.StepKeepsCovered | src/scripts/builder/impl/index.ts:354-356 | a later step never lowers the version chosen for a key |
| Overrides.StepCoversRule | src/scripts/builder/impl/index.ts:354-361 | an applicable rule is covered right after its own step |
| Overrides.ResolveCovers | src/scripts/builder/impl/index.ts:348-362 | every applicable rule has an entry for its target key that is at least as new as the rule |
| Overrides.PrefixOlderBefore | src/scripts/builder/impl/index.ts:356 | the earlier applicable rules for a key are strictly older than the one chosen |
| Overrides.ResolveChoosesFirstNewest | src/scripts/builder/impl/index.ts:348-362 | each key's entry is the first applicable rule with the newest version for that key |
| ModInfo.ModId | src/scripts/builder/impl/index.ts:188 | the mod id has the pack name's length; each character is its lower-case form when that is in [a-z0-9], otherwise "_" |
| ModInfo.ModIdIdempotent | src/scripts/builder/impl/index.ts:188 | a mod id is its own mod id |
| ModInfo.License | src/scripts/builder/impl/index.ts:189 | only an absent license takes "All Right Reserved" |
| ModInfo.AuthorList | src/scripts/builder/impl/index.ts:256-257 | one trimmed author per comma-separated piece, in order |
| ModInfo.Authors | src/scripts/builder/impl/index.ts:256-260 | the loop pushes the authors in order and makes each one a contributor key with value "" |
| ModInfo.ContributorsAreAuthors | src/scripts/builder/impl/index.ts:259 | the contributor keys are exactly the authors, each with the value "" |
| ModInfo.ContributorsGrow | src/scripts/builder/impl/index.ts:259 | one more author adds one contributor key |
| ModInfo.AuthorsAreTrimmedPieces | src/scripts/builder/impl/index.ts:256-257 | no author holds a comma or starts or ends with white space |
| ModInfo.TrimOfTrimmed | src/scripts/builder/impl/index.ts:257 | trimming a trimmed name changes nothing |
| ModInfo.AuthorListOfJoined | src/scripts/builder/impl/index.ts:256-260 | trimmed, comma-free names written as a comma-separated author field come back unchanged |
| ModInfo.BuildModZip | src/scripts/builder/impl/index.ts:185-263 | `buildModZip` adds the META-INF folder and the four descriptor files, in order, rendered from the derived fields |
| Pipeline.ModuleList | src/scripts/builder/impl/index.ts:290-296 | one entry per selected module, in key order, with its weight |
| Pipeline.Insert | src/scripts/builder/impl/index.ts:302 | insertion adds exactly one entry |
| Pipeline.InsertPermutes | src/scripts/builder/impl/index.ts:302 | insertion keeps every entry and adds the new one |
| Pipeline.SortByWeight | src/scripts/builder/impl/index.ts:302 | the sorted list has as many entries as the module list |
| Pipeline.InsertKeepsSorted | src/scripts/builder/impl/index.ts:302 | insertion keeps a list sorted by weight |
| Pipeline.SortByWeightSorts | src/scripts/builder/impl/index.ts:302 | the sort orders the modules by weight and keeps every module |
| Pipeline.WithWeightAppend | src/scripts/builder/impl/index.ts:302 | the entries of one weight in a concatenation are those of each part, in order |
| Pipeline.NoneWithWeight | src/scripts/builder/impl/index.ts:302 | a list without that weight has no entries of it |
| Pipeline.InsertWithWeight | src/scripts/builder/impl/index.ts:302 | insertion places the new entry after the entries of its own weight |
| Pipeline.SortIsStable | src/scripts/builder/impl/index.ts:302 | the sort is stable: the modules of each weight keep their key order |
| Pipeline.Paths | src/scripts/builder/impl/index.ts:343-345 | the module paths, in order |
| Pipeline.OverrideKeyOfModule | src/scripts/builder/impl/index.ts:385 | the override key of module `base/name` is `name`, the key the resolver writes for it |
| Pipeline.ModuleStepsPrefix | src/scripts/builder/impl/index.ts:383-389 | the steps of the first i modules are a prefix of the full schedule |
| Pipeline.ScheduleOrder | src/scripts/builder/impl/index.ts:376-389 | the main module's override is merged first; each module is merged right after the modules before it, and its own override right after it |
| Pipeline.NoOverridesMergesModulesOnly | src/scripts/builder/impl/index.ts:383-389 | without overrides the merges are the sorted modules, in order |
| Pipeline.FetchAll | src/scripts/builder/impl/index.ts:297-301 | the tree of every scheduled path, in order |
| Pipeline.FoldMergeSucceeds | src/scripts/builder/impl/index.ts:376-389 | the merges succeed exactly when there is nothing to merge, or the pack and every merged tree are folders; the result keeps the last tree's path |
| Pipeline.FoldMergeFailureStays | src/scripts/builder/impl/index.ts:380-387 | once a merge has thrown, the build's outcome is that error |
| Pipeline.FoldMergeSnoc | src/scripts/builder/impl/index.ts:384 | one more tree is one more `mergeFileOrTree` call |
| Pipeline.Advance | src/scripts/builder/impl/index.ts:380-387 | merging the next scheduled tree extends the fold; a failure there is the failure of the whole schedule |
| Pipeline.StepsSnoc | src/scripts/builder/impl/index.ts:383-389 | module i and its override follow the steps of the modules before it, inside the schedule |
| Pipeline.MergePipeline | src/scripts/builder/impl/index.ts:376-389 | the merge loop folds `mergeFileOrTree` over the schedule: the main module's override, then each module and its own override |
| Pipeline.MergeModule | src/scripts/builder/impl/index.ts:383-388 | one pass of the loop merges module i and then its own override, extending the fold by exactly those steps; a failure there is the failure of the whole schedule |
| Pipeline.AddIcon | src/scripts/builder/impl/index.ts:369-375 | the icon's tree, renamed "pack.png", is appended to a main-module folder and nothing else changes |
| Pipeline.WithIcon | src/scripts/builder/impl/index.ts:369-375 | the icon step keeps the pack's path and whether it is a folder |
| Pipeline.AssembleSucceeds | src/scripts/builder/impl/index.ts:369-389 | after the `pack.mcmeta` step the build fails exactly when something is merged and the pack or a merged tree is not a folder |
| Pipeline.BuildTreeOutcome | src/scripts/builder/impl/index.ts:303-389 | a failed `pack.mcmeta` step ends the build with its error; otherwise the build succeeds exactly when the merges do, with a folder or the untouched pack |
| Pipeline.StaticBuildSucceeds | src/scripts/builder/index.ts:304-369 | the static build fails exactly when something is merged and the main module's tree or a merged tree is not a folder |
| Pipeline.BuildPackTree | src/scripts/builder/impl/index.ts:265-389 | `build` up to the zip walk computes the merged tree: `pack.mcmeta` step, resolver, icon, merge loop |
| Pipeline.Build | src/scripts/builder/impl/index.ts:265-397 | the archive holds the walk of the merged tree, followed by the descriptor entries for a mod; a failure is the failure of the merged tree |
| OnlineBuilder.RSize | src/scripts/builder/impl/online.ts:6-44 | every answer has size at least 1, the measure that bounds the recursion |
| OnlineBuilder.RSizeOfPrefix | src/scripts/builder/impl/online.ts:25-38 | a listing entry is smaller than its listing |
| OnlineBuilder.GetFileTree | src/scripts/builder/impl/online.ts:6-44 | the recursive walk computes `OnlineTree`: a file answer gives a leaf at its formatted path; a listing gives a folder with one child per entry the filters keep |
| OnlineBuilder.ChildrenSkip | src/scripts/builder/impl/online.ts:27-33 | a skipped entry adds no child |
| OnlineBuilder.ChildrenPush | src/scripts/builder/impl/online.ts:34-36 | an entry that is kept adds its own node, or ends the walk with its error |
| OnlineBuilder.ChildrenFailureStays | src/scripts/builder/impl/online.ts:25-38 | once an entry has failed, the listing fails with that error |
| OnlineBuilder.KeptEntries | src/scripts/builder/impl/online.ts:27-33 | the kept entries are exactly the listing entries that are not `config.json` and not under the folder the pack type leaves out |
| OnlineBuilder.AllSucceedSnoc | src/scripts/builder/impl/online.ts:25-38 | all nodes of a longer list succeed iff those of the shorter one and the new one do |
| OnlineBuilder.ChildrenFailOnlyOnKeptEntries | src/scripts/builder/impl/online.ts:25-38 | a listing fails exactly when the node of a kept entry fails |
| OnlineBuilder.OneChildPerKeptEntry | src/scripts/builder/impl/online.ts:25-38 | each kept entry gives exactly one child, its own node, in listing order |
| OnlineBuilder.FileAnswerIsLeaf | src/scripts/builder/impl/online.ts:14-21 | a file answer becomes a leaf at the formatted processed path of the answer, with its content converted for that path |
| OnlineBuilder.DirAnswerIsTree | src/scripts/builder/impl/online.ts:13-23 | a listing becomes a folder at the formatted processed path of the request |
| OnlineBuilder.ChildPath | src/scripts/builder/impl/online.ts:26-34 | a child's path is the formatted processed path of its entry |
| OnlineBuilder.OnlineTreeIsTypeClean | src/scripts/builder/impl/online.ts:28-33 | no node below the root lies under the top-level folder the pack type leaves out |
| OnlineBuilder.OnlineChildrenAreTypeClean | src/scripts/builder/impl/online.ts:28-33 | the same for every child of a listing |
| FileBuilder.FileAt | src/scripts/builder/impl/file.ts:24 | `files.file(name)` finds only a file entry at exactly that key |
| FileBuilder.AsFolder | src/scripts/builder/impl/file.ts:27 | the folder prefix ends with "/" and extends the path by at most that character |
| FileBuilder.StartsWithTrans | src/scripts/builder/impl/file.ts:39 | prefixes compose |
| FileBuilder.PrefixAndRest | src/scripts/builder/impl/file.ts:40 | a key is the folder prefix followed by `fileKeySub` |
| FileBuilder.KeyUnderFolder | src/scripts/builder/impl/file.ts:50 | a key under a walkable folder is its own request path and is walkable again |
| FileBuilder.UnderShrinks | src/scripts/builder/impl/file.ts:50 | the recursive request for a key sees strictly fewer keys, so the walk ends |
| FileBuilder.UnderMono | src/scripts/builder/impl/file.ts:39 | a nested prefix sees no more keys than its parent |
| FileBuilder.GetFileTree | src/scripts/builder/impl/file.ts:22-79 | the walk computes `ArchiveTree`: a file request gives a leaf; any other request gives a folder whose children come from the keys one level under it |
| FileBuilder.KeyLoop | src/scripts/builder/impl/file.ts:37-61 | the loop over all keys computes the children `ArchiveChildren` of the folder, ending at the first key whose node fails |
| FileBuilder.LoopBody | src/scripts/builder/impl/file.ts:39-60 | one pass of the loop skips a key not directly under the folder, and otherwise pushes that key's node or ends with its error: the children of one more key |
| FileBuilder.VisitKey | src/scripts/builder/impl/file.ts:46-59 | a key without a file is requested again as a folder; a file key becomes a leaf converted with the folder's path: the node `KeyNode` of that key |
| FileBuilder.ArchiveChildrenFailureStays | src/scripts/builder/impl/file.ts:38-61 | once a key has failed, the folder fails with that error |
| FileBuilder.DirectKeys | src/scripts/builder/impl/file.ts:39-45 | the keys that give children are exactly those one non-empty segment under the folder, in key order |
| FileBuilder.ChildrenSuccessStep | src/scripts/builder/impl/file.ts:38-61 | one more key keeps the children successful exactly when the earlier keys did and this key, if directly under the folder, gives a node |
| FileBuilder.ChildrenFailOnlyOnDirectKeys | src/scripts/builder/impl/file.ts:38-61 | the children succeed exactly when every key directly under the folder gives a node; a folder fails exactly when one of them fails |
| FileBuilder.ChildrenAreDirectKeys | src/scripts/builder/impl/file.ts:38-61 | each direct key gives exactly one child, in key order: a file key gives a leaf converted with the folder's path, any other key the folder it names |
| FileBuilder.DotSlashIgnored | src/scripts/builder/impl/file.ts:23 | a leading "./" makes no difference to a request |
| FileBuilder.FileRequestIsLeaf | src/scripts/builder/impl/file.ts:70-78 | a request for a file key not ending in "/" gives a leaf at the formatted path, converted with that same path |
| FileBuilder.FolderRequestIsTree | src/scripts/builder/impl/file.ts:26-32 | any other request gives a folder at the formatted path of the request |
| FileBuilder.MissingFolderIsEmpty | src/scripts/builder/impl/file.ts:26-64 | a request with no key under its folder prefix gives an empty folder |
| FileBuilder.NoDirectKeys | src/scripts/builder/impl/file.ts:38-61 | no direct key gives no children |
| FileBuilder.DeepKeysAreNotChildren | src/scripts/builder/impl/file.ts:43-45 | a key two or more non-empty segments below the folder never gives a child of that folder |

## Left out

- Network, user interface and archive generation. The repository contents API
  is a finite answer tree. The loaded archive is a key list with a map of
  entries. `generateAsync` and the `Blob` are not modelled.
- Concurrency.
  - The source pushes children and icons in promise completion order. The
    model keeps listing or key order, and claims nothing about the order of
    children beyond that.
  - When a recipe cannot be converted, the exception is thrown inside a
    promise callback and the source's build never settles. The model returns
    the first failure in listing order.
  - The same holds for the other throws of `build`: the `pack.mcmeta` step
    (src/scripts/builder/impl/index.ts:309-322: a folder, unparsable JSON or a
    missing `pack` object) and `mergeFileOrTree` on a tree that is not a
    folder (src/scripts/builder/impl/index.ts:96-99, called from 376-389; the
    static builder at src/scripts/builder/index.ts:49-52, called from
    354-366). All of them are thrown inside `then` callbacks, so the promise
    `build` returns is never resolved or rejected.
- Pipeline.BuildTree, Pipeline.Build and Pipeline.FoldMergeFailureStays: a
  `Failure` result stands for a build that never settles, not for a rejected
  promise; the error it carries names the step that threw.
- Base64, `atob`/`btoa`, `JSON.parse` and `JSON.stringify` are given functions
  (`Codec`, `MetaCodec`). The TOML and JSON text of the mod descriptors is a
  given `render` function of the derived fields. The whitespace stripping and
  byte copying of `fileToZip` are not modelled: an entry holds the base64
  text.
- JSZip behaviour:
  - `folder(path)` also creates entries for the archive being read; this is
    not modelled, and `FileBuilder` reads a fixed archive;
  - `folder()` never returns null, so the `!dirFile` and `!dirFile1`
    branches (src/scripts/builder/impl/file.ts:33-36 and 49) are unreachable
    and are left out;
  - a second write to the same archive path appears as a second entry.
- ZipEmit.Emit: the walk writes a folder entry for every folder it reaches,
  the root included, whose path is "" after `processPath`. What JSZip's
  `folder("")` adds to the archive is not modelled: the model lists it as a
  folder entry with the empty path, and `ZipEmit.Zip.AddFolder` records it
  the same way.
- JavaScript object key order is taken as the given order of `version_modules`
  and of the version table. The comparator `a.weight - b.weight` is modelled
  on integer weights only: NaN and fractional weights are not modelled.
- Floating-point pack formats. Formats are integers, so
  `[Math.floor(packFormat), parseInt(packFormat.toString().split(".")[1])]`
  is the format followed by NaN, which JSON writes as null (`FormatPair`).
- Unicode case folding and Unicode white space. `toLowerCase` and `trim` are
  modelled on ASCII.
- `parseInt` leading white space and the `0x` prefix are not modelled.
- Overrides.Resolve: the rule versions and target keys are looked up in plain
  JavaScript objects, and the model reads those as dictionaries. A name that
  the object prototype provides behaves differently in the source. A rule
  version such as "constructor", "toString" or "__proto__" passes the
  `mcVersions[...]` test (src/scripts/builder/impl/index.ts:351), and then
  `compareMC` throws on it (src/scripts/version/index.ts:41). The model skips
  that rule. A target key with such a name finds a prototype member in
  `versionModuleMap` (src/scripts/builder/impl/index.ts:354-355), and
  `compareMC` then throws on its missing `version`. The model writes the
  entry.
- ModInfo.ContributorsAreAuthors: an author named "__proto__" adds no key to
  the `contributors` object of `quilt.mod.json`
  (src/scripts/builder/impl/index.ts:259), because assigning to `__proto__`
  sets the prototype. The model adds the key, as it does for every other name.
- ModInfo.ModId: JavaScript strings are UTF-16, so a character outside the
  Basic Multilingual Plane is two code units and becomes "__" in the source.
  A Dafny `char` is one Unicode scalar value, so the model gives one "_".
- In-place mutation and aliasing in `mergeFileOrTree`. Children are
  overwritten in the shared lists of both arguments; the model builds new
  values and returns the same tree.
- The third argument `version_reverse` that `AbstractBuilder.build` passes to
  `compareMC` is ignored by `compareMC`, and the model drops it.
- The static `Builder`'s `getFileTree`, `fileTreeToZip` and `buildModZip` are
  the online builder's with the base path and pack type passed in. They are
  covered by `OnlineBuilder.OnlineTree`, `ZipEmit.Emit` and
  `ModInfo.BuildModZip` with the matching `Context`.
- FileBuilder.GetFileTree: requires that the folder of the request does not
  itself start with "./". For the key "././" under the folder "./", the source
  requests the same folder again and never finishes.
- RecipeFormat.MoreAfterBetween: holds only for recipes whose strings are not
  "" or "#", because the middle shape loses those (see
  `RecipeFormat.EmptyKeyStringIsLost`).
- Config-file and module-selection user interface
  (src/scripts/project/project.ts) and the GitHub request helpers are not part
  of this model.
