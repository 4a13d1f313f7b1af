/**
 * The `pack.mcmeta` step of `build`: the format number for the pack type,
 * the choice between the scalar `pack_format` and the ranged
 * `min_format`/`max_format` form, the patch of an existing `pack.mcmeta`,
 * the synthesized one, and the older static builder's unconditional append.
 */
module PackMeta {
  import opened Wrappers
  import opened Versions
  import opened BuilderCore
  import opened RecipeFormat

  /** `packFormat`: the data-pack number for a data pack, the resource-pack number otherwise (also for "all"). */
  function PackFormat(packType: PackType, formats: Formats): (r: int)
    ensures packType == Data ==> r == formats.datapack
    ensures packType != Data ==> r == formats.resources
  {
    if packType == Data then formats.datapack else formats.resources
  }

  /** The test written in the builder: `(type === "data" && packFormat >= 82) || packFormat >= 65`. */
  predicate UsesRangedFormat(packType: PackType, packFormat: int) {
    (packType == Data && packFormat >= 82) || packFormat >= 65
  }

  /** The first disjunct adds nothing: the ranged form is chosen exactly from 65 on, for every pack type. */
  lemma RangedFormatIsOneThreshold(packType: PackType, packFormat: int)
    ensures UsesRangedFormat(packType, packFormat) <==> packFormat >= 65
  {
  }

  /**
   * `[Math.floor(pf), parseInt(pf.toString().split(".")[1])]`: an integer
   * format has no fraction, `parseInt(undefined)` is NaN, and JSON writes NaN
   * as null.
   */
  function FormatPair(packFormat: int): Json {
    JArr([JNum(packFormat), JNull])
  }

  /** The four keys the step may set or delete. */
  predicate IsFormatKey(k: string) {
    k == "pack_format" || k == "supported_formats" || k == "min_format" || k == "max_format"
  }

  /** The format keys of a `pack` object are as the step leaves them. */
  predicate FormatStated(pack: map<string, Json>, packType: PackType, packFormat: int) {
    if UsesRangedFormat(packType, packFormat) then
      && "min_format" in pack && pack["min_format"] == FormatPair(packFormat)
      && "max_format" in pack && pack["max_format"] == FormatPair(packFormat)
      && "pack_format" !in pack && "supported_formats" !in pack
    else
      && "pack_format" in pack && pack["pack_format"] == JNum(packFormat)
      && "min_format" !in pack && "max_format" !in pack
  }

  /**
   * The patch of an existing `pack` object: the ranged form sets both ends
   * and deletes `pack_format` and `supported_formats`; the scalar form sets
   * `pack_format` and deletes both ends, keeping `supported_formats`. Every
   * other key keeps its value.
   */
  function PatchPack(pack: map<string, Json>, packType: PackType, packFormat: int): (r: map<string, Json>)
    ensures FormatStated(r, packType, packFormat)
    ensures forall k :: !IsFormatKey(k) ==> (k in r <==> k in pack) && (k in r ==> r[k] == pack[k])
    ensures !UsesRangedFormat(packType, packFormat) ==>
      ("supported_formats" in r <==> "supported_formats" in pack)
      && ("supported_formats" in r ==> r["supported_formats"] == pack["supported_formats"])
  {
    if UsesRangedFormat(packType, packFormat) then
      pack["min_format" := FormatPair(packFormat)]["max_format" := FormatPair(packFormat)] - {"pack_format", "supported_formats"}
    else
      pack["pack_format" := JNum(packFormat)] - {"min_format", "max_format"}
  }

  /** Patching twice for the same target is patching once. */
  lemma PatchPackIdempotent(pack: map<string, Json>, packType: PackType, packFormat: int)
    ensures PatchPack(PatchPack(pack, packType, packFormat), packType, packFormat) == PatchPack(pack, packType, packFormat)
  {
    var once := PatchPack(pack, packType, packFormat);
    var twice := PatchPack(once, packType, packFormat);
    assert twice.Keys == once.Keys;
  }

  /**
   * The two description lines, each led by Minecraft formatting codes (U+00A7
   * followed by a code letter): gold bold "<description> v<version>" and a
   * line break, then green bold "by " and the author in gold bold.
   */
  function DescriptionLines(cfg: Config): Json {
    JArr([
      JObj(map["text" := JStr("\U{A7}6\U{A7}l" + cfg.description + " v" + cfg.version + "\n")]),
      JObj(map["text" := JStr("\U{A7}a\U{A7}lby \U{A7}6\U{A7}l" + cfg.author)])
    ])
  }

  /** `metaJson.pack`: the description, then the format keys of the chosen form. */
  function SynthPack(cfg: Config, packType: PackType, packFormat: int): (r: map<string, Json>)
    ensures FormatStated(r, packType, packFormat)
    ensures "description" in r && r["description"] == DescriptionLines(cfg)
    ensures forall k :: k in r ==> k == "description" || IsFormatKey(k)
  {
    var pack := map["description" := DescriptionLines(cfg)];
    if UsesRangedFormat(packType, packFormat) then
      pack["min_format" := FormatPair(packFormat)]["max_format" := FormatPair(packFormat)]
    else
      pack["pack_format" := JNum(packFormat)]
  }

  /** The synthesized `pack` object is what the patch makes of an object holding only the description. */
  lemma SynthIsPatchedDescription(cfg: Config, packType: PackType, packFormat: int)
    ensures SynthPack(cfg, packType, packFormat) == PatchPack(map["description" := DescriptionLines(cfg)], packType, packFormat)
  {
    var s := SynthPack(cfg, packType, packFormat);
    var p := PatchPack(map["description" := DescriptionLines(cfg)], packType, packFormat);
    assert s.Keys == p.Keys;
  }

  /** `JSON.parse(b64tou(...))` and `utob64(JSON.stringify(...))` on `pack.mcmeta`, as given functions. */
  datatype MetaCodec = MetaCodec(decode: string -> Option<Json>, encode: Json -> string)

  datatype MetaError =
    | McmetaIsFolder     // `content!!` of a folder: the base64 decode throws
    | McmetaUnparsable   // JSON.parse throws
    | NoPackObject       // `originalMetaJson.pack[...] = ...` on a missing or primitive `pack` throws

  /**
   * The patch of a parsed `pack.mcmeta`. An object `pack` is patched; an
   * array `pack` takes the property writes without effect on its JSON text;
   * anything else throws.
   */
  function PatchedMeta(json: Json, packType: PackType, packFormat: int): (r: Result<Json, MetaError>)
    ensures r.Failure? <==> !(json.JObj? && "pack" in json.fields && (json.fields["pack"].JObj? || json.fields["pack"].JArr?))
    ensures r.Success? ==> r.value.JObj? && "pack" in r.value.fields
    ensures r.Success? && json.fields["pack"].JObj? ==>
      r.value.fields["pack"].JObj? && FormatStated(r.value.fields["pack"].fields, packType, packFormat)
    ensures r.Success? ==> forall k :: k != "pack" ==> (k in r.value.fields <==> k in json.fields)
    ensures r.Success? ==> forall k :: k != "pack" && k in json.fields ==> r.value.fields[k] == json.fields[k]
    ensures r.Success? && json.fields["pack"].JObj? ==>
      r.value.fields["pack"] == JObj(PatchPack(json.fields["pack"].fields, packType, packFormat))
    ensures r.Success? && json.fields["pack"].JArr? ==> r.value == json
  {
    if json.JObj? && "pack" in json.fields then
      match json.fields["pack"]
      case JObj(pack) => Success(JObj(json.fields["pack" := JObj(PatchPack(pack, packType, packFormat))]))
      case JArr(_) => Success(json)
      case _ => Failure(NoPackObject)
    else Failure(NoPackObject)
  }

  /** The first child with the given path (`filter(...)[0]`), or -1. */
  function FirstWithPath(children: seq<Node>, path: string): (i: int)
    ensures -1 <= i < |children|
    ensures i == -1 <==> forall m :: 0 <= m < |children| ==> children[m].path != path
    ensures i >= 0 ==> children[i].path == path && forall m :: 0 <= m < i ==> children[m].path != path
  {
    if children == [] then -1
    else if children[0].path == path then 0
    else
      var i := FirstWithPath(children[1..], path);
      if i == -1 then -1 else i + 1
  }

  /** The synthesized `pack.mcmeta` file. */
  function SynthFile(cfg: Config, packType: PackType, packFormat: int, codec: MetaCodec): Node {
    Leaf("pack.mcmeta", codec.encode(JObj(map["pack" := JObj(SynthPack(cfg, packType, packFormat))])))
  }

  /**
   * The `pack.mcmeta` step of `build` on the main module's tree: the first
   * child named "pack.mcmeta" is rewritten in place; without one, a
   * synthesized file is appended. A main module that is a single file is
   * left alone.
   */
  function PatchMcmeta(pack: Node, cfg: Config, packType: PackType, formats: Formats, codec: MetaCodec): (r: Result<Node, MetaError>)
    ensures pack.Leaf? ==> r == Success(pack)
    ensures pack.Tree? && FirstWithPath(pack.children, "pack.mcmeta") == -1 ==>
      r == Success(Tree(pack.path, pack.children + [SynthFile(cfg, packType, PackFormat(packType, formats), codec)]))
    ensures pack.Tree? && FirstWithPath(pack.children, "pack.mcmeta") >= 0 ==>
      var i := FirstWithPath(pack.children, "pack.mcmeta");
      && (r.Failure? <==>
            (|| pack.children[i].Tree?
             || codec.decode(pack.children[i].content).None?
             || PatchedMeta(codec.decode(pack.children[i].content).value, packType, PackFormat(packType, formats)).Failure?))
      && (r.Success? ==>
            (&& r.value.Tree? && r.value.path == pack.path && |r.value.children| == |pack.children|
             && (forall m :: 0 <= m < |pack.children| && m != i ==> r.value.children[m] == pack.children[m])
             && r.value.children[i] == Leaf("pack.mcmeta", codec.encode(
                  PatchedMeta(codec.decode(pack.children[i].content).value, packType, PackFormat(packType, formats)).value))))
  {
    if pack.Leaf? then Success(pack)
    else
      var packFormat := PackFormat(packType, formats);
      var i := FirstWithPath(pack.children, "pack.mcmeta");
      if i == -1 then
        Success(Tree(pack.path, pack.children + [SynthFile(cfg, packType, packFormat, codec)]))
      else if pack.children[i].Tree? then Failure(McmetaIsFolder)
      else
        match codec.decode(pack.children[i].content)
        case None => Failure(McmetaUnparsable)
        case Some(json) =>
          var patched :- PatchedMeta(json, packType, packFormat);
          Success(Tree(pack.path, pack.children[i := Leaf("pack.mcmeta", codec.encode(patched))]))
  }

  /**
   * After the step, the first "pack.mcmeta" child of the tree is a file
   * holding the encoding of a meta object whose `pack` states the chosen
   * format form (an array `pack` aside).
   */
  lemma McmetaStatesFormat(pack: Node, cfg: Config, packType: PackType, formats: Formats, codec: MetaCodec)
    requires pack.Tree?
    requires PatchMcmeta(pack, cfg, packType, formats, codec).Success?
    ensures var t := PatchMcmeta(pack, cfg, packType, formats, codec).value;
      var i := FirstWithPath(t.children, "pack.mcmeta");
      && t.Tree? && i >= 0 && t.children[i].Leaf?
      && exists m: Json :: t.children[i].content == codec.encode(m) && m.JObj? && "pack" in m.fields
           && (m.fields["pack"].JObj? ==> FormatStated(m.fields["pack"].fields, packType, PackFormat(packType, formats)))
  {
    var t := PatchMcmeta(pack, cfg, packType, formats, codec).value;
    var packFormat := PackFormat(packType, formats);
    var j := FirstWithPath(pack.children, "pack.mcmeta");
    if j == -1 {
      var n := |pack.children|;
      assert t.children[n] == SynthFile(cfg, packType, packFormat, codec);
      assert FirstWithPath(t.children, "pack.mcmeta") == n;
      var m := JObj(map["pack" := JObj(SynthPack(cfg, packType, packFormat))]);
      assert t.children[n].content == codec.encode(m);
    } else {
      var m := PatchedMeta(codec.decode(pack.children[j].content).value, packType, packFormat).value;
      assert t.children[j] == Leaf("pack.mcmeta", codec.encode(m));
      assert FirstWithPath(t.children, "pack.mcmeta") == j;
    }
  }

  // ---------------------------------------------------------------------------
  // The static builder

  /** The static builder's `metaJson.pack`: the description and always the scalar `pack_format`. */
  function StaticPack(cfg: Config, packType: PackType, formats: Formats): map<string, Json> {
    map["description" := DescriptionLines(cfg), "pack_format" := JNum(PackFormat(packType, formats))]
  }

  /** The static builder appends its `pack.mcmeta` to a main-module tree whether or not one is there. */
  function StaticAppendMcmeta(pack: Node, cfg: Config, packType: PackType, formats: Formats, codec: MetaCodec): (r: Node)
    ensures pack.Tree? ==> r.Tree? && r.path == pack.path && |r.children| == |pack.children| + 1
    ensures pack.Tree? ==> r.children[..|pack.children|] == pack.children && r.children[|pack.children|].path == "pack.mcmeta"
    ensures pack.Leaf? ==> r == pack
  {
    if pack.Tree? then
      Tree(pack.path, pack.children + [Leaf("pack.mcmeta", codec.encode(JObj(map["pack" := JObj(StaticPack(cfg, packType, formats))])))])
    else pack
  }

  /** The number of children with a given path. */
  function CountPath(children: seq<Node>, path: string): nat {
    if children == [] then 0
    else CountPath(children[..|children| - 1], path) + (if children[|children| - 1].path == path then 1 else 0)
  }

  /**
   * The static builder always adds one more "pack.mcmeta": a main module
   * that has its own ends up with two, the module's first.
   */
  lemma StaticAppendAddsOneMcmeta(pack: Node, cfg: Config, packType: PackType, formats: Formats, codec: MetaCodec)
    requires pack.Tree?
    ensures CountPath(StaticAppendMcmeta(pack, cfg, packType, formats, codec).children, "pack.mcmeta")
         == CountPath(pack.children, "pack.mcmeta") + 1
    ensures FirstWithPath(pack.children, "pack.mcmeta") >= 0 ==>
      FirstWithPath(StaticAppendMcmeta(pack, cfg, packType, formats, codec).children, "pack.mcmeta")
        == FirstWithPath(pack.children, "pack.mcmeta")
  {
    var r := StaticAppendMcmeta(pack, cfg, packType, formats, codec);
    assert r.children[..|r.children| - 1] == pack.children;
    var i := FirstWithPath(pack.children, "pack.mcmeta");
    if i >= 0 {
      assert r.children[i] == pack.children[i];
      assert forall m :: 0 <= m < i ==> r.children[m] == pack.children[m];
    }
  }

  /** The static builder writes the scalar form even where the newer builder writes the ranged one. */
  lemma StaticIgnoresRangedFormat(cfg: Config, packType: PackType, formats: Formats)
    ensures "pack_format" in StaticPack(cfg, packType, formats)
    ensures "min_format" !in StaticPack(cfg, packType, formats) && "max_format" !in StaticPack(cfg, packType, formats)
    ensures StaticPack(cfg, packType, formats) == SynthPack(cfg, packType, PackFormat(packType, formats))
        <==> !UsesRangedFormat(packType, PackFormat(packType, formats))
  {
    var pf := PackFormat(packType, formats);
    if UsesRangedFormat(packType, pf) {
      assert "min_format" in SynthPack(cfg, packType, pf);
    } else {
      assert StaticPack(cfg, packType, formats).Keys == SynthPack(cfg, packType, pf).Keys;
    }
  }
}
