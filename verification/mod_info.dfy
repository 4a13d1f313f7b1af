/**
 * `buildModZip`: the fields derived from the configuration for the mod
 * loader descriptors (mod id, license, author list and contributor map), and
 * the five archive entries it writes. The descriptor texts themselves are
 * produced by a given rendering function.
 */
module ModInfo {
  import opened Seqs
  import opened Wrappers
  import opened Strings
  import opened BuilderCore
  import opened ZipEmit

  /** One character of `toLowerCase().replace(/[^a-z0-9]/g, '_')`. */
  function ModIdChar(c: char): char {
    var l := LowerChar(c);
    if IsAsciiLowerOrDigit(l) then l else '_'
  }

  /** The mod id: the pack name lower-cased, every character outside [a-z0-9] replaced by "_". */
  function ModId(packName: string): (r: string)
    ensures |r| == |packName|
    ensures forall i :: 0 <= i < |r| ==> IsAsciiLowerOrDigit(r[i]) || r[i] == '_'
    ensures forall i :: 0 <= i < |r| ==>
      (IsAsciiLowerOrDigit(LowerChar(packName[i])) ==> r[i] == LowerChar(packName[i]))
      && (!IsAsciiLowerOrDigit(LowerChar(packName[i])) ==> r[i] == '_')
  {
    seq(|packName|, i requires 0 <= i < |packName| => ModIdChar(packName[i]))
  }

  /** A mod id is its own mod id. */
  lemma ModIdIdempotent(packName: string)
    ensures ModId(ModId(packName)) == ModId(packName)
  {
    var once := ModId(packName);
    forall i | 0 <= i < |once|
      ensures ModId(once)[i] == once[i]
    {
      assert LowerChar(once[i]) == once[i];
    }
  }

  /** `${config.license ?? 'All Right Reserved'}`: only an absent license takes the default; an empty one stays empty. */
  function License(license: Option<string>): (r: string)
    ensures license.None? ==> r == "All Right Reserved"
    ensures license.Some? ==> r == license.value
  {
    license.GetOr("All Right Reserved")
  }

  /** The author list: the pieces of `author.split(",")`, each trimmed, in order. */
  function AuthorList(author: string): (r: seq<string>)
    ensures |r| == |Split(author, ',')| && |r| >= 1
    ensures forall i :: 0 <= i < |r| ==> r[i] == Trim(Split(author, ',')[i])
  {
    var parts := Split(author, ',');
    seq(|parts|, i requires 0 <= i < |parts| => Trim(parts[i]))
  }

  /** The contributor map: every author a key with the value "". */
  function Contributors(authors: seq<string>): map<string, string> {
    map a | a in authors :: ""
  }

  /** The contributor keys are exactly the authors, and every value is "". */
  lemma ContributorsAreAuthors(authors: seq<string>)
    ensures forall a :: a in Contributors(authors) <==> a in authors
    ensures forall a :: a in Contributors(authors) ==> Contributors(authors)[a] == ""
  {
  }

  /** The loop over the authors: each trimmed name is pushed to the list and becomes a contributor key with value "". */
  method Authors(author: string) returns (authors: seq<string>, contributors: map<string, string>)
    ensures authors == AuthorList(author)
    ensures contributors == Contributors(authors)
  {
    authors := [];
    contributors := map[];
    var parts := Split(author, ',');
    for i := 0 to |parts|
      invariant authors == AuthorList(author)[..i]
      invariant contributors == Contributors(authors)
    {
      var name := Trim(parts[i]);
      AuthorListStep(author, i);
      ContributorsGrow(authors, name);
      authors := authors + [name];
      contributors := contributors[name := ""];
    }
    TakeAll(AuthorList(author));
  }

  lemma AuthorListStep(author: string, i: nat)
    requires i < |Split(author, ',')|
    ensures AuthorList(author)[..i + 1] == AuthorList(author)[..i] + [Trim(Split(author, ',')[i])]
  {
    TakeSnoc(AuthorList(author), i);
  }

  lemma ContributorsGrow(authors: seq<string>, name: string)
    ensures Contributors(authors + [name]) == Contributors(authors)[name := ""]
  {
    var l := Contributors(authors + [name]);
    var r := Contributors(authors)[name := ""];
    assert l.Keys == r.Keys;
  }

  /** No author holds a comma or starts or ends with white space. */
  lemma AuthorsAreTrimmedPieces(author: string)
    ensures forall i :: 0 <= i < |AuthorList(author)| ==>
      var a := AuthorList(author)[i];
      ',' !in a && (a == [] || (!IsSpace(a[0]) && !IsSpace(a[|a| - 1])))
  {
    var parts := Split(author, ',');
    forall i | 0 <= i < |parts|
      ensures ',' !in Trim(parts[i])
    {
      var t := Trim(parts[i]);
      var x, y :| 0 <= x <= y <= |parts[i]| && t == parts[i][x..y];
      assert forall c :: c in t ==> c in parts[i];
    }
  }

  lemma TrimOfTrimmed(s: string)
    requires s == [] || (!IsSpace(s[0]) && !IsSpace(s[|s| - 1]))
    ensures Trim(s) == s
  {
  }

  /** Names that are already trimmed and comma-free come back unchanged from a comma-separated author field. */
  lemma {:induction false} AuthorListOfJoined(names: seq<string>)
    requires |names| >= 1
    requires forall i :: 0 <= i < |names| ==> ',' !in names[i]
    requires forall i :: 0 <= i < |names| ==> names[i] == [] || (!IsSpace(names[i][0]) && !IsSpace(names[i][|names[i]| - 1]))
    ensures AuthorList(Join(names, ',')) == names
  {
    SplitJoin(names, ',');
    forall i | 0 <= i < |names|
      ensures Trim(names[i]) == names[i]
    {
      TrimOfTrimmed(names[i]);
    }
  }

  /** What the descriptor templates read. */
  datatype ModFields = ModFields(
    modId: string,
    license: string,
    version: string,
    name: string,
    description: string,
    author: string,
    authors: seq<string>,
    contributors: map<string, string>)

  /** The four descriptor texts, as the templates and `JSON.stringify` would write them. */
  datatype ModTexts = ModTexts(modsToml: string, neoForgeModsToml: string, fabricModJson: string, quiltModJson: string)

  /** The fields of a configuration. */
  function FieldsOf(cfg: Config): ModFields {
    var authors := AuthorList(cfg.author);
    ModFields(ModId(cfg.packName), License(cfg.license), cfg.version, cfg.packName, cfg.description,
              cfg.author, authors, Contributors(authors))
  }

  /** The entries `buildModZip` adds, in order. */
  function ModEntries(texts: ModTexts): seq<ZipEntry> {
    [ Folder("META-INF"),
      File("META-INF/mods.toml", texts.modsToml),
      File("META-INF/neoforge.mods.toml", texts.neoForgeModsToml),
      File("fabric.mod.json", texts.fabricModJson),
      File("quilt.mod.json", texts.quiltModJson) ]
  }

  /** `buildModZip` as written: derive the fields, run the author loop, write the five entries. */
  method BuildModZip(zip: Zip, cfg: Config, render: ModFields -> ModTexts)
    modifies zip
    ensures zip.entries == old(zip.entries) + ModEntries(render(FieldsOf(cfg)))
  {
    var modId := ModId(cfg.packName);
    var license := License(cfg.license);
    var authors, contributors := Authors(cfg.author);
    var fields := ModFields(modId, license, cfg.version, cfg.packName, cfg.description, cfg.author, authors, contributors);
    var texts := render(fields);
    zip.AddFolder("META-INF");
    zip.AddFile("META-INF/mods.toml", texts.modsToml);
    zip.AddFile("META-INF/neoforge.mods.toml", texts.neoForgeModsToml);
    zip.AddFile("fabric.mod.json", texts.fabricModJson);
    zip.AddFile("quilt.mod.json", texts.quiltModJson);
  }
}
