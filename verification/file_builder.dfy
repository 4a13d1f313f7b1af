/**
 * `FileBuilder.getFileTree`: the same tree as the online builder, read from
 * an uploaded archive. A request for a path that is a folder (it ends with
 * "/" or no file has that key) becomes a folder whose children are the
 * archive keys directly under it; any other request is a file.
 *
 * The archive is its keys in iteration order and the entry at each key (a
 * folder entry, or a file with its base64 content).
 */
module FileBuilder {
  import opened Wrappers
  import opened Strings
  import opened BuilderCore
  import opened PathFormat
  import RecipeFormat

  datatype ArchiveEntry = FolderEntry | FileEntry(content: string)

  /** The loaded archive: `files` in key order, and what each key holds. */
  datatype Archive = Archive(keys: seq<string>, files: map<string, ArchiveEntry>)

  /** `files.file(name)`: only a file entry at exactly that key is found; a folder entry is not. */
  function FileAt(a: Archive, name: string): (r: Option<string>)
    ensures r.Some? <==> name in a.files && a.files[name].FileEntry?
  {
    if name in a.files && a.files[name].FileEntry? then Some(a.files[name].content) else None
  }

  /** A request path with a leading "./" removed (the same removal as `getBasePath`). */
  function Requested(path: string): string {
    GetBasePath(path)
  }

  /** `path.endsWith("/") ? path : path + "/"`. */
  function AsFolder(p: string): (r: string)
    ensures EndsWith(r, "/") && StartsWith(r, p) && |r| <= |p| + 1
  {
    if EndsWith(p, "/") then p else p + "/"
  }

  /** The folder prefix whose keys are looked at when `path` is a folder. */
  function FolderOf(path: string): string {
    AsFolder(Requested(path))
  }

  /** A folder prefix the walk lists: it ends with "/" and does not start with "./". */
  predicate FolderPrefix(dir: string) {
    EndsWith(dir, "/") && !StartsWith(dir, "./")
  }

  /**
   * A request the walk can answer: its folder prefix does not itself start
   * with "./". (With a key "././" under the prefix "./" the walk would ask
   * for the same folder again without end.)
   */
  predicate Walkable(path: string) {
    !StartsWith(FolderOf(path), "./")
  }

  /** The number of keys strictly under the prefix `dir`: what each recursive request lowers. */
  function Under(keys: seq<string>, dir: string): nat {
    if keys == [] then 0
    else
      var last := keys[|keys| - 1];
      Under(keys[..|keys| - 1], dir) + (if StartsWith(last, dir) && last != dir then 1 else 0)
  }

  /** `split("/").filter(s => s.length != 0).length`. */
  function NonEmptyCount(parts: seq<string>): nat {
    if parts == [] then 0
    else NonEmptyCount(parts[..|parts| - 1]) + (if parts[|parts| - 1] != "" then 1 else 0)
  }

  /** A key strictly under the folder prefix and at most one non-empty segment below it. */
  predicate Direct(dir: string, key: string) {
    StartsWith(key, dir) && key != dir && NonEmptyCount(Split(key[|dir|..], '/')) <= 1
  }

  /** The node for a request; a recipe that cannot be converted ends the walk. */
  function ArchiveTree(ctx: Context, convert: Conversion, a: Archive, path: string): Result<Node, RecipeFormat.RecipeError>
    requires Walkable(path)
    decreases Under(a.keys, FolderOf(path)), 1, 0
  {
    var p := Requested(path);
    var filePath := FormatPath(ProcessPath(ctx.basePath, p), ctx.formats);
    if FileAt(a, p).None? || EndsWith(p, "/") then
      var children :- ArchiveChildren(ctx, convert, a, AsFolder(p), filePath, |a.keys|);
      Success(Tree(filePath, children))
    else
      var converted :- convert(FileAt(a, p).value, filePath);
      Success(Leaf(filePath, converted))
  }

  /** The children found among the first `n` keys: one node for each key directly under the folder, in key order. */
  function ArchiveChildren(ctx: Context, convert: Conversion, a: Archive, dir: string, parentPath: string, n: nat)
    : Result<seq<Node>, RecipeFormat.RecipeError>
    requires n <= |a.keys| && FolderPrefix(dir)
    decreases Under(a.keys, dir), 0, n
  {
    if n == 0 then Success([])
    else
      var init :- ArchiveChildren(ctx, convert, a, dir, parentPath, n - 1);
      var key := a.keys[n - 1];
      if !Direct(dir, key) then Success(init)
      else
        var child :- KeyNode(ctx, convert, a, dir, parentPath, key);
        Success(init + [child])
  }

  /**
   * The node a direct key gives: a file key becomes a leaf whose content is
   * converted with the folder's path `parentPath`; a key without a file
   * becomes the folder requested by that key.
   */
  function KeyNode(ctx: Context, convert: Conversion, a: Archive, dir: string, parentPath: string, key: string): Result<Node, RecipeFormat.RecipeError>
    requires FolderPrefix(dir) && key in a.keys && Direct(dir, key)
    decreases Under(a.keys, dir), 0, 0
  {
    match FileAt(a, key)
    case None =>
      KeyUnderFolder(dir, key);
      UnderShrinksIn(a.keys, dir, key);
      ArchiveTree(ctx, convert, a, key)
    case Some(content) =>
      var converted :- convert(content, parentPath);
      Success(Leaf(FormatPath(ProcessPath(ctx.basePath, key), ctx.formats), converted))
  }

  // ---------------------------------------------------------------------------
  // Termination of the walk

  lemma StartsWithTrans(s: string, mid: string, prefix: string)
    requires StartsWith(s, mid) && StartsWith(mid, prefix)
    ensures StartsWith(s, prefix)
  {
    assert s[..|prefix|] == s[..|mid|][..|prefix|];
  }

  lemma PrefixAndRest(s: string, prefix: string)
    requires StartsWith(s, prefix)
    ensures prefix + s[|prefix|..] == s
  {
    assert s == s[..|prefix|] + s[|prefix|..];
  }

  /** Anything under a folder prefix that does not start with "./" does not start with it either. */
  lemma NoDotSlashUnder(dir: string, s: string)
    requires FolderPrefix(dir) && StartsWith(s, dir)
    ensures !StartsWith(s, "./")
  {
    assert s[..|dir|] == dir;
    if |dir| >= 2 {
      assert s[..2] == dir[..2];
    } else {
      assert dir[0] == '/';
      assert s[0] == dir[0];
    }
  }

  /** A key under a walkable folder prefix is its own request path, and is walkable again. */
  lemma KeyUnderFolder(dir: string, key: string)
    requires FolderPrefix(dir) && StartsWith(key, dir)
    ensures Requested(key) == key && FolderOf(key) == AsFolder(key)
    ensures StartsWith(FolderOf(key), dir) && Walkable(key)
  {
    NoDotSlashUnder(dir, key);
    assert Requested(key) == key;
    var folder := AsFolder(key);
    StartsWithTrans(folder, key, dir);
    NoDotSlashUnder(dir, folder);
  }

  /** Every key under the folder of a child key is under the parent prefix, and the child key itself is not under its own folder. */
  lemma {:induction false} UnderShrinks(keys: seq<string>, dir: string, key: string, i: nat)
    requires i < |keys| && keys[i] == key
    requires StartsWith(key, dir) && key != dir
    ensures Under(keys, AsFolder(key)) < Under(keys, dir)
    decreases |keys|
  {
    var n := |keys| - 1;
    var sub := AsFolder(key);
    StartsWithTrans(sub, key, dir);
    if i < n {
      assert keys[..n][i] == key;
      UnderShrinks(keys[..n], dir, key, i);
    } else {
      UnderMono(keys[..n], dir, key);
    }
    var last := keys[n];
    if StartsWith(last, sub) && last != sub {
      StartsWithTrans(last, sub, dir);
    }
  }

  lemma UnderShrinksIn(keys: seq<string>, dir: string, key: string)
    requires key in keys && StartsWith(key, dir) && key != dir
    ensures Under(keys, AsFolder(key)) < Under(keys, dir)
  {
    var i :| 0 <= i < |keys| && keys[i] == key;
    UnderShrinks(keys, dir, key, i);
  }

  lemma {:induction false} UnderMono(keys: seq<string>, dir: string, key: string)
    requires StartsWith(key, dir) && key != dir
    ensures Under(keys, AsFolder(key)) <= Under(keys, dir)
    decreases |keys|
  {
    if keys != [] {
      var sub := AsFolder(key);
      StartsWithTrans(sub, key, dir);
      UnderMono(keys[..|keys| - 1], dir, key);
      var last := keys[|keys| - 1];
      if StartsWith(last, sub) && last != sub {
        StartsWithTrans(last, sub, dir);
      }
    }
  }

  // ---------------------------------------------------------------------------
  // The walk as written

  /** `getFileTree` as written: a file request, or a folder request whose children the key loop finds. */
  method GetFileTree(ctx: Context, convert: Conversion, a: Archive, path: string) returns (res: Result<Node, RecipeFormat.RecipeError>)
    requires Walkable(path)
    ensures res == ArchiveTree(ctx, convert, a, path)
    decreases Under(a.keys, FolderOf(path)), 3
  {
    var p := path;
    if StartsWith(p, "./") {
      p := p[2..];
    }
    var files := FileAt(a, p);
    var curPath := ProcessPath(ctx.basePath, p);
    if (files.None? && !EndsWith(p, "/")) || EndsWith(p, "/") {
      p := if EndsWith(p, "/") then p else p + "/";
      assert p == FolderOf(path);
      var filePath := Format(curPath, ctx.formats);
      var children := KeyLoop(ctx, convert, a, p, filePath);
      if children.Failure? {
        return Failure(children.error);
      }
      return Success(Tree(filePath, children.value));
    }
    var filePath := Format(curPath, ctx.formats);
    var converted := convert(files.value, filePath);
    if converted.Failure? {
      return Failure(converted.error);
    }
    res := Success(Leaf(filePath, converted.value));
  }

  /** The loop of `getFileTree` over every archive key, ending at the first key whose node fails. */
  method KeyLoop(ctx: Context, convert: Conversion, a: Archive, p: string, filePath: string)
    returns (res: Result<seq<Node>, RecipeFormat.RecipeError>)
    requires FolderPrefix(p)
    ensures res == ArchiveChildren(ctx, convert, a, p, filePath, |a.keys|)
    decreases Under(a.keys, p), 2
  {
    var children: seq<Node> := [];
    for i := 0 to |a.keys|
      invariant ArchiveChildren(ctx, convert, a, p, filePath, i) == Success(children)
    {
      var next := LoopBody(ctx, convert, a, p, filePath, i, children);
      if next.Failure? {
        ArchiveChildrenFailureStays(ctx, convert, a, p, filePath, i + 1, |a.keys|);
        return Failure(next.error);
      }
      children := next.value;
    }
    res := Success(children);
  }

  /** One pass of the loop: the `continue` filters, then the node of a key directly under the folder pushed to the children. */
  method LoopBody(ctx: Context, convert: Conversion, a: Archive, p: string, filePath: string, i: nat, children: seq<Node>)
    returns (next: Result<seq<Node>, RecipeFormat.RecipeError>)
    requires i < |a.keys| && FolderPrefix(p)
    requires ArchiveChildren(ctx, convert, a, p, filePath, i) == Success(children)
    ensures next == ArchiveChildren(ctx, convert, a, p, filePath, i + 1)
    decreases Under(a.keys, p), 1
  {
    var filesKey := a.keys[i];
    if !StartsWith(filesKey, p) || filesKey == p {
      return Success(children);
    }
    var fileKeySub := filesKey[|p|..];
    if NonEmptyCount(Split(fileKeySub, '/')) > 1 {
      return Success(children);
    }
    var node := VisitKey(ctx, convert, a, p, filePath, filesKey);
    if node.Failure? {
      return Failure(node.error);
    }
    next := Success(children + [node.value]);
  }

  /** The body of the loop for a key that passed the filters: the request for a key without a file, or the converted file. */
  method VisitKey(ctx: Context, convert: Conversion, a: Archive, p: string, filePath: string, filesKey: string)
    returns (node: Result<Node, RecipeFormat.RecipeError>)
    requires FolderPrefix(p) && filesKey in a.keys && Direct(p, filesKey)
    ensures node == KeyNode(ctx, convert, a, p, filePath, filesKey)
    decreases Under(a.keys, p), 0
  {
    var fileKeySub := filesKey[|p|..];
    PrefixAndRest(filesKey, p);
    var file := FileAt(a, p + fileKeySub);
    if file.None? {
      KeyUnderFolder(p, filesKey);
      UnderShrinksIn(a.keys, p, filesKey);
      node := GetFileTree(ctx, convert, a, filesKey);
      return;
    }
    var curFilePath := Format(ProcessPath(ctx.basePath, filesKey), ctx.formats);
    var converted := convert(file.value, filePath);
    if converted.Failure? {
      return Failure(converted.error);
    }
    node := Success(Leaf(curFilePath, converted.value));
  }

  /** Once a key has failed, the children fail with that error. */
  lemma {:induction false} ArchiveChildrenFailureStays(ctx: Context, convert: Conversion, a: Archive, dir: string, parentPath: string, n: nat, m: nat)
    requires n <= m <= |a.keys| && FolderPrefix(dir)
    requires ArchiveChildren(ctx, convert, a, dir, parentPath, n).Failure?
    ensures ArchiveChildren(ctx, convert, a, dir, parentPath, m) == ArchiveChildren(ctx, convert, a, dir, parentPath, n)
    decreases m
  {
    if n < m {
      ArchiveChildrenFailureStays(ctx, convert, a, dir, parentPath, n, m - 1);
    }
  }

  // ---------------------------------------------------------------------------
  // What the walk guarantees

  /** The keys that give children, in key order. */
  function DirectKeys(keys: seq<string>, dir: string): (r: seq<string>)
    ensures forall k :: k in r <==> k in keys && Direct(dir, k)
    ensures forall i :: 0 <= i < |r| ==> Direct(dir, r[i])
  {
    if keys == [] then []
    else
      var last := keys[|keys| - 1];
      assert keys == keys[..|keys| - 1] + [last];
      DirectKeys(keys[..|keys| - 1], dir) + (if Direct(dir, last) then [last] else [])
  }

  /** Key `j` is not directly under the folder, or its node can be built. */
  predicate KeyBuilds(ctx: Context, convert: Conversion, a: Archive, dir: string, parentPath: string, j: nat)
    requires j < |a.keys| && FolderPrefix(dir)
  {
    Direct(dir, a.keys[j]) ==> KeyNode(ctx, convert, a, dir, parentPath, a.keys[j]).Success?
  }

  /** One more key: the children still succeed exactly when the earlier ones did and this key builds. */
  lemma ChildrenSuccessStep(ctx: Context, convert: Conversion, a: Archive, dir: string, parentPath: string, n: nat)
    requires 0 < n <= |a.keys| && FolderPrefix(dir)
    ensures ArchiveChildren(ctx, convert, a, dir, parentPath, n).Success?
      <==> ArchiveChildren(ctx, convert, a, dir, parentPath, n - 1).Success? && KeyBuilds(ctx, convert, a, dir, parentPath, n - 1)
  {
  }

  /** The folder fails exactly when the node of a key directly under it fails. */
  lemma {:induction false} ChildrenFailOnlyOnDirectKeys(ctx: Context, convert: Conversion, a: Archive, dir: string, parentPath: string, n: nat)
    requires n <= |a.keys| && FolderPrefix(dir)
    ensures ArchiveChildren(ctx, convert, a, dir, parentPath, n).Success?
      <==> forall j :: 0 <= j < n ==> KeyBuilds(ctx, convert, a, dir, parentPath, j)
  {
    if n > 0 {
      ChildrenFailOnlyOnDirectKeys(ctx, convert, a, dir, parentPath, n - 1);
      ChildrenSuccessStep(ctx, convert, a, dir, parentPath, n);
    }
  }

  /** `node` is the node that `key`, a key directly under the folder, gives. */
  predicate GivesNode(ctx: Context, convert: Conversion, a: Archive, dir: string, parentPath: string, key: string, node: Node)
    requires FolderPrefix(dir)
  {
    key in a.keys && Direct(dir, key) && KeyNode(ctx, convert, a, dir, parentPath, key) == Success(node)
  }

  /** Exactly the keys directly under the folder give children, one each and in key order. */
  lemma {:induction false} ChildrenAreDirectKeys(ctx: Context, convert: Conversion, a: Archive, dir: string, parentPath: string, n: nat)
    requires n <= |a.keys| && FolderPrefix(dir)
    requires ArchiveChildren(ctx, convert, a, dir, parentPath, n).Success?
    ensures |ArchiveChildren(ctx, convert, a, dir, parentPath, n).value| == |DirectKeys(a.keys[..n], dir)|
    ensures forall i {:trigger GivesNode(ctx, convert, a, dir, parentPath, DirectKeys(a.keys[..n], dir)[i], ArchiveChildren(ctx, convert, a, dir, parentPath, n).value[i])}
      :: 0 <= i < |DirectKeys(a.keys[..n], dir)| ==>
      GivesNode(ctx, convert, a, dir, parentPath, DirectKeys(a.keys[..n], dir)[i], ArchiveChildren(ctx, convert, a, dir, parentPath, n).value[i])
  {
    if n > 0 {
      ChildrenAreDirectKeys(ctx, convert, a, dir, parentPath, n - 1);
      var key := a.keys[n - 1];
      assert a.keys[..n] == a.keys[..n - 1] + [key];
      var before := DirectKeys(a.keys[..n - 1], dir);
      var prev := ArchiveChildren(ctx, convert, a, dir, parentPath, n - 1).value;
      var cur := ArchiveChildren(ctx, convert, a, dir, parentPath, n).value;
      if Direct(dir, key) {
        var direct := before + [key];
        assert DirectKeys(a.keys[..n], dir) == direct;
        assert cur == prev + [KeyNode(ctx, convert, a, dir, parentPath, key).value];
        forall i | 0 <= i < |direct|
          ensures GivesNode(ctx, convert, a, dir, parentPath, direct[i], cur[i])
        {
          if i < |before| {
            assert GivesNode(ctx, convert, a, dir, parentPath, before[i], prev[i]);
            assert direct[i] == before[i] && cur[i] == prev[i];
          }
        }
      } else {
        assert DirectKeys(a.keys[..n], dir) == before;
        assert cur == prev;
      }
    }
  }

  /** A leading "./" makes no difference to a request. */
  lemma DotSlashIgnored(ctx: Context, convert: Conversion, a: Archive, path: string)
    requires !StartsWith(path, "./") && Walkable(path)
    ensures Walkable("./" + path)
    ensures ArchiveTree(ctx, convert, a, "./" + path) == ArchiveTree(ctx, convert, a, path)
  {
    assert StartsWith("./" + path, "./");
    assert ("./" + path)[2..] == path;
    assert Requested("./" + path) == Requested(path);
  }

  /** A request for a key holding a file, not ending with "/", gives a leaf at the formatted path, converted with that same path. */
  lemma FileRequestIsLeaf(ctx: Context, convert: Conversion, a: Archive, path: string)
    requires Walkable(path)
    requires FileAt(a, Requested(path)).Some? && !EndsWith(Requested(path), "/")
    ensures var filePath := FormatPath(ProcessPath(ctx.basePath, Requested(path)), ctx.formats);
      var converted := convert(FileAt(a, Requested(path)).value, filePath);
      && (ArchiveTree(ctx, convert, a, path).Success? <==> converted.Success?)
      && (converted.Success? ==> ArchiveTree(ctx, convert, a, path).value == Leaf(filePath, converted.value))
  {
  }

  /** Any other request gives a folder at the formatted path, whose children come from the keys under it. */
  lemma FolderRequestIsTree(ctx: Context, convert: Conversion, a: Archive, path: string)
    requires Walkable(path)
    requires FileAt(a, Requested(path)).None? || EndsWith(Requested(path), "/")
    requires ArchiveTree(ctx, convert, a, path).Success?
    ensures var filePath := FormatPath(ProcessPath(ctx.basePath, Requested(path)), ctx.formats);
      ArchiveTree(ctx, convert, a, path) == Success(Tree(filePath, ArchiveChildren(ctx, convert, a, FolderOf(path), filePath, |a.keys|).value))
  {
  }

  /** No key under the folder prefix: the request gives a folder with no children. */
  lemma {:induction false} MissingFolderIsEmpty(ctx: Context, convert: Conversion, a: Archive, path: string)
    requires Walkable(path)
    requires FileAt(a, Requested(path)).None? || EndsWith(Requested(path), "/")
    requires forall k :: k in a.keys ==> !StartsWith(k, FolderOf(path)) || k == FolderOf(path)
    ensures ArchiveTree(ctx, convert, a, path) == Success(Tree(FormatPath(ProcessPath(ctx.basePath, Requested(path)), ctx.formats), []))
  {
    var dir := FolderOf(path);
    var filePath := FormatPath(ProcessPath(ctx.basePath, Requested(path)), ctx.formats);
    NoDirectKeys(ctx, convert, a, dir, filePath, |a.keys|);
  }

  lemma {:induction false} NoDirectKeys(ctx: Context, convert: Conversion, a: Archive, dir: string, parentPath: string, n: nat)
    requires n <= |a.keys| && FolderPrefix(dir)
    requires forall k :: k in a.keys ==> !StartsWith(k, dir) || k == dir
    ensures ArchiveChildren(ctx, convert, a, dir, parentPath, n) == Success([])
  {
    if n > 0 {
      NoDirectKeys(ctx, convert, a, dir, parentPath, n - 1);
      assert a.keys[n - 1] in a.keys;
    }
  }

  /** A key two or more non-empty segments below the folder never gives a child of that folder. */
  lemma DeepKeysAreNotChildren(a: Archive, dir: string, key: string)
    requires StartsWith(key, dir) && NonEmptyCount(Split(key[|dir|..], '/')) > 1
    ensures key !in DirectKeys(a.keys, dir)
  {
  }
}
