/**
 * The pieces of `AbstractBuilder` (and of the older static `Builder`, which
 * repeats them) that do not depend on where files come from: the file tree,
 * the pack type, `processPath`, `preprocessContent` and `getBasePath`.
 */
module BuilderCore {
  import opened Wrappers
  import opened Strings
  import opened Versions
  import RecipeFormat

  /** `FileOrTree`: a file with base64 content, or a folder with children. */
  datatype Node = Leaf(path: string, content: string) | Tree(path: string, children: seq<Node>)

  /** `"all" | "resource" | "data"`. */
  datatype PackType = All | Resource | Data

  /**
   * One entry of `version_modules`: the override folder's module name, whether the
   * game version must match exactly, the game version it is written for, and
   * the module it overrides (the main module when unset or empty).
   */
  datatype VersionRule = VersionRule(folder: string, strict: bool, version: string, target: Option<string>)

  /** The fields of `config.json` the builders read; `versionModules` keeps the object's key order. */
  datatype Config = Config(
    packName: string,
    author: string,
    description: string,
    version: string,
    basePath: string,
    icon: Option<string>,
    license: Option<string>,
    mainModule: string,
    versionModules: Option<seq<(string, VersionRule)>>)

  /** What every builder method reads from the builder: base path, pack type, the table entry of the target version, and the recipe codec. */
  datatype Context = Context(basePath: string, packType: PackType, formats: Formats, codec: RecipeFormat.Codec)

  /**
   * The content conversion a tree walk applies to every file: the content and
   * the output path give the content written, or the error that ends the walk.
   * The builders convert with `Preprocess(ctx)`; the walks and what is proved
   * about them hold for any conversion.
   */
  type Conversion = (string, string) -> Result<string, RecipeFormat.RecipeError>

  /**
   * `processPath`: a path under the base path loses the base path and the
   * module folder after it ("" if nothing remains); otherwise a leading "./"
   * is dropped. (`replace` removes the first occurrence of the base path,
   * which is the prefix here.)
   */
  function ProcessPath(basePath: string, path: string): string {
    if StartsWith(path, basePath) then
      var pieces := Split(path[|basePath|..], '/');
      if |pieces| > 2 then Join(pieces[2..], '/') else ""
    else if StartsWith(path, "./") then path[2..]
    else path
  }

  /** The processed path is always a suffix of the path: only a prefix is ever removed. */
  lemma ProcessPathIsSuffix(basePath: string, path: string)
    ensures EndsWith(path, ProcessPath(basePath, path))
  {
    var r := ProcessPath(basePath, path);
    if StartsWith(path, basePath) {
      var cur := path[|basePath|..];
      var pieces := Split(cur, '/');
      if |pieces| > 2 {
        JoinSplit(cur, '/');
        JoinDropIsSuffix(pieces, '/', 2);
        assert path == path[..|basePath|] + cur;
        EndsWithAppend(path[..|basePath|], cur, r);
      } else {
        assert path[|path|..] == r;
      }
    } else if StartsWith(path, "./") {
      assert path == path[..2] + path[2..];
      assert path[2..][|path[2..]| - |r|..] == r;
      EndsWithAppend(path[..2], path[2..], r);
    } else {
      assert path[|path| - |r|..] == r;
    }
  }

  /** `base/module/rest` becomes `rest`. */
  lemma ProcessPathDropsModuleFolder(basePath: string, folder: string, rest: string)
    requires '/' !in folder
    ensures ProcessPath(basePath, basePath + "/" + folder + "/" + rest) == rest
  {
    var path := basePath + "/" + folder + "/" + rest;
    assert StartsWith(path, basePath) by {
      assert path[..|basePath|] == basePath;
    }
    var cur := path[|basePath|..];
    assert cur == "" + ['/'] + (folder + ['/'] + rest);
    SplitAfterSep("", folder + ['/'] + rest, '/');
    SplitAfterSep(folder, rest, '/');
    var pieces := Split(cur, '/');
    assert pieces == [""] + ([folder] + Split(rest, '/'));
    assert pieces[2..] == Split(rest, '/');
    JoinSplit(rest, '/');
  }

  /** The module folder itself, `base/module`, becomes "". */
  lemma ProcessPathModuleRoot(basePath: string, folder: string)
    requires '/' !in folder
    ensures ProcessPath(basePath, basePath + "/" + folder) == ""
  {
    var path := basePath + "/" + folder;
    assert StartsWith(path, basePath) by {
      assert path[..|basePath|] == basePath;
    }
    assert path[|basePath|..] == "" + ['/'] + folder;
    SplitAfterSep("", folder, '/');
    SplitNoSep(folder, '/');
  }

  /** Outside the base path only a leading "./" is removed. */
  lemma ProcessPathOutsideBase(basePath: string, path: string)
    requires !StartsWith(path, basePath)
    ensures StartsWith(path, "./") ==> ProcessPath(basePath, path) == path[2..] && "./" + ProcessPath(basePath, path) == path
    ensures !StartsWith(path, "./") ==> ProcessPath(basePath, path) == path
  {
    if StartsWith(path, "./") {
      assert path == path[..2] + path[2..];
    }
  }

  /** The folder kind that selects the recipe converter: segment 2 is "recipe" or "recipes". */
  predicate IsRecipePath(path: string) {
    var segs := Split(path, '/');
    |segs| > 2 && (segs[2] == "recipe" || segs[2] == "recipes")
  }

  /**
   * `preprocessContent`: recipe files are converted for the target version;
   * everything else, including a path without a third segment, is returned
   * unchanged.
   */
  function PreprocessContent(ctx: Context, content: string, path: string): (r: Result<string, RecipeFormat.RecipeError>)
    ensures !IsRecipePath(path) ==> r == Success(content)
    ensures IsRecipePath(path) ==> r == RecipeFormat.Format(content, ctx.formats, ctx.codec)
  {
    var segs := Split(path, '/');
    if |segs| <= 2 || segs[2] == "" then Success(content)
    else if segs[2] == "recipe" || segs[2] == "recipes" then RecipeFormat.Format(content, ctx.formats, ctx.codec)
    else Success(content)
  }

  /** `this.preprocessContent` as the walks receive it. */
  function Preprocess(ctx: Context): Conversion {
    (content, path) => PreprocessContent(ctx, content, path)
  }

  /** A recipe whose content does not decode makes `preprocessContent` fail; any other file never fails. */
  lemma PreprocessFailsOnlyOnRecipes(ctx: Context, content: string, path: string)
    requires PreprocessContent(ctx, content, path).Failure?
    ensures IsRecipePath(path)
    ensures ctx.codec.decode(content).None? || ctx.codec.decode(content).value.result.None?
  {
  }

  /** `getBasePath`: the configured base path without a leading "./". */
  function GetBasePath(basePath: string): (r: string)
    ensures StartsWith(basePath, "./") ==> basePath == "./" + r
    ensures !StartsWith(basePath, "./") ==> r == basePath
  {
    if StartsWith(basePath, "./") then
      assert basePath == basePath[..2] + basePath[2..];
      basePath[2..]
    else basePath
  }

  // ---------------------------------------------------------------------------
  // Sizes, for the recursions over trees

  function Size(n: Node): (r: nat)
    ensures r >= 1
  {
    match n
    case Leaf(_, _) => 1
    case Tree(_, children) => 1 + SizeOf(children)
  }

  function SizeOf(nodes: seq<Node>): nat {
    if nodes == [] then 0 else SizeOf(nodes[..|nodes| - 1]) + Size(nodes[|nodes| - 1])
  }

  lemma {:induction false} SizeOfAppend(a: seq<Node>, b: seq<Node>)
    ensures SizeOf(a + b) == SizeOf(a) + SizeOf(b)
    decreases |b|
  {
    if b == [] {
      assert a + b == a;
    } else {
      assert (a + b)[..|a + b| - 1] == a + b[..|b| - 1];
      SizeOfAppend(a, b[..|b| - 1]);
    }
  }

  lemma {:induction false} SizeOfCons(n: Node, rest: seq<Node>)
    ensures SizeOf([n] + rest) == Size(n) + SizeOf(rest)
  {
    SizeOfAppend([n], rest);
    assert [n][..0] == [];
  }

  /** Replacing one element changes the total by the difference of the two sizes. */
  lemma {:induction false} SizeOfUpdate(nodes: seq<Node>, i: nat, n: Node)
    requires i < |nodes|
    ensures SizeOf(nodes[i := n]) + Size(nodes[i]) == SizeOf(nodes) + Size(n)
  {
    assert nodes == nodes[..i] + [nodes[i]] + nodes[i + 1..];
    assert nodes[i := n] == nodes[..i] + [n] + nodes[i + 1..];
    SizeOfAppend(nodes[..i] + [nodes[i]], nodes[i + 1..]);
    SizeOfAppend(nodes[..i] + [n], nodes[i + 1..]);
    SizeOfAppend(nodes[..i], [nodes[i]]);
    SizeOfAppend(nodes[..i], [n]);
    assert [n][..0] == [] && [nodes[i]][..0] == [];
  }

  lemma {:induction false} SizeOfElement(nodes: seq<Node>, i: nat)
    requires i < |nodes|
    ensures Size(nodes[i]) <= SizeOf(nodes)
  {
    SizeOfUpdate(nodes, i, Leaf("", ""));
  }
}
