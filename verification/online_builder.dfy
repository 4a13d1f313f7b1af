/**
 * `OnlineBuilder.getFileTree` (and the static `Builder.getFileTree`, which is
 * the same walk with the base path, pack type and version passed in): the
 * repository contents API answers a path with a file or with a directory
 * listing, and every listed entry that is not filtered out is fetched in
 * turn and becomes one child.
 *
 * The repository is a finite tree of answers: asking for the path of a
 * listed entry gets that entry's own answer.
 */
module OnlineBuilder {
  import opened Wrappers
  import opened Strings
  import opened BuilderCore
  import opened PathFormat
  import RecipeFormat

  /** An answer of the contents API: a file with its base64 content, or a directory listing. */
  datatype Remote = RemoteFile(path: string, content: string) | RemoteDir(path: string, entries: seq<Remote>)

  function RSize(r: Remote): (n: nat)
    ensures n >= 1
  {
    match r
    case RemoteFile(_, _) => 1
    case RemoteDir(_, entries) => 1 + RSizeOf(entries)
  }

  function RSizeOf(rs: seq<Remote>): nat {
    if rs == [] then 0 else RSizeOf(rs[..|rs| - 1]) + RSize(rs[|rs| - 1])
  }

  lemma {:induction false} RSizeOfPrefix(rs: seq<Remote>, i: nat)
    requires i < |rs|
    ensures RSize(rs[i]) + RSizeOf(rs[..i]) <= RSizeOf(rs)
    decreases |rs|
  {
    var n := |rs| - 1;
    if i < n {
      assert rs[..n][..i] == rs[..i] && rs[..n][i] == rs[i];
      RSizeOfPrefix(rs[..n], i);
    } else {
      assert rs[..n] == rs[..i];
    }
  }

  /** A listing entry the walk skips: a `config.json`, or a top-level folder the pack type leaves out. */
  predicate Skipped(ctx: Context, datumPath: string) {
    var filePath := ProcessPath(ctx.basePath, datumPath);
    || EndsWith(datumPath, "config.json")
    || (ctx.packType == Resource && StartsWith(filePath, "data/"))
    || (ctx.packType == Data && StartsWith(filePath, "assets/"))
  }

  /** The node for the answer `r` to a request for `path`; a recipe that cannot be converted ends the walk. */
  function OnlineTree(ctx: Context, convert: Conversion, path: string, r: Remote): Result<Node, RecipeFormat.RecipeError>
    decreases RSize(r), 0
  {
    match r
    case RemoteFile(dataPath, content) =>
      var filePath := FormatPath(ProcessPath(ctx.basePath, dataPath), ctx.formats);
      var converted :- convert(content, filePath);
      Success(Leaf(filePath, converted))
    case RemoteDir(_, entries) =>
      var children :- OnlineChildren(ctx, convert, entries);
      Success(Tree(FormatPath(ProcessPath(ctx.basePath, path), ctx.formats), children))
  }

  /** The children of a listing: one node per entry that is not skipped, fetched by the entry's path. */
  function OnlineChildren(ctx: Context, convert: Conversion, entries: seq<Remote>): Result<seq<Node>, RecipeFormat.RecipeError>
    decreases RSizeOf(entries), 1
  {
    if entries == [] then Success([])
    else
      var last := entries[|entries| - 1];
      var init :- OnlineChildren(ctx, convert, entries[..|entries| - 1]);
      if Skipped(ctx, last.path) then Success(init)
      else
        var child :- OnlineTree(ctx, convert, last.path, last);
        Success(init + [child])
  }

  /** `getFileTree` as written: a recursive walk with a loop over the listing that pushes each fetched child. */
  method GetFileTree(ctx: Context, convert: Conversion, path: string, r: Remote) returns (res: Result<Node, RecipeFormat.RecipeError>)
    ensures res == OnlineTree(ctx, convert, path, r)
    decreases RSize(r)
  {
    var curPath := ProcessPath(ctx.basePath, path);
    match r {
      case RemoteFile(dataPath, content) =>
        curPath := ProcessPath(ctx.basePath, dataPath);
        var filePath := Format(curPath, ctx.formats);
        var converted := convert(content, filePath);
        if converted.Failure? {
          return Failure(converted.error);
        }
        return Success(Leaf(filePath, converted.value));
      case RemoteDir(_, entries) =>
        var treePath := Format(curPath, ctx.formats);
        var children: seq<Node> := [];
        for i := 0 to |entries|
          invariant OnlineChildren(ctx, convert, entries[..i]) == Success(children)
        {
          var datum := entries[i];
          var filePath := ProcessPath(ctx.basePath, datum.path);
          if EndsWith(datum.path, "config.json") {
            ChildrenSkip(ctx, convert, entries, i, children);
            continue;
          }
          if ctx.packType == Resource && StartsWith(filePath, "data/") {
            ChildrenSkip(ctx, convert, entries, i, children);
            continue;
          }
          if ctx.packType == Data && StartsWith(filePath, "assets/") {
            ChildrenSkip(ctx, convert, entries, i, children);
            continue;
          }
          RSizeOfPrefix(entries, i);
          var file := GetFileTree(ctx, convert, datum.path, datum);
          ChildrenPush(ctx, convert, entries, i, children);
          if file.Failure? {
            ChildrenFailureStays(ctx, convert, entries, i + 1);
            return Failure(file.error);
          }
          children := children + [file.value];
        }
        assert entries[..|entries|] == entries;
        res := Success(Tree(treePath, children));
    }
  }

  lemma ChildrenSkip(ctx: Context, convert: Conversion, entries: seq<Remote>, i: nat, children: seq<Node>)
    requires i < |entries| && Skipped(ctx, entries[i].path)
    requires OnlineChildren(ctx, convert, entries[..i]) == Success(children)
    ensures OnlineChildren(ctx, convert, entries[..i + 1]) == Success(children)
  {
    assert entries[..i + 1][..i] == entries[..i];
  }

  lemma ChildrenPush(ctx: Context, convert: Conversion, entries: seq<Remote>, i: nat, children: seq<Node>)
    requires i < |entries| && !Skipped(ctx, entries[i].path)
    requires OnlineChildren(ctx, convert, entries[..i]) == Success(children)
    ensures var node := OnlineTree(ctx, convert, entries[i].path, entries[i]);
      && (node.Failure? ==> OnlineChildren(ctx, convert, entries[..i + 1]) == Failure(node.error))
      && (node.Success? ==> OnlineChildren(ctx, convert, entries[..i + 1]) == Success(children + [node.value]))
  {
    assert entries[..i + 1][..i] == entries[..i];
  }

  /** A listing whose entries before the last already fail fails with that error. */
  lemma FailedInitStays(ctx: Context, convert: Conversion, entries: seq<Remote>)
    requires entries != [] && OnlineChildren(ctx, convert, entries[..|entries| - 1]).Failure?
    ensures OnlineChildren(ctx, convert, entries) == OnlineChildren(ctx, convert, entries[..|entries| - 1])
  {
  }

  /** Once a listing entry has failed, the listing fails with that error. */
  lemma {:induction false} ChildrenFailureStays(ctx: Context, convert: Conversion, entries: seq<Remote>, n: nat)
    requires n <= |entries| && OnlineChildren(ctx, convert, entries[..n]).Failure?
    ensures OnlineChildren(ctx, convert, entries) == OnlineChildren(ctx, convert, entries[..n])
    decreases |entries|
  {
    if n < |entries| {
      var init := entries[..|entries| - 1];
      assert init[..n] == entries[..n];
      ChildrenFailureStays(ctx, convert, init, n);
      FailedInitStays(ctx, convert, entries);
    } else {
      assert entries[..n] == entries;
    }
  }

  // ---------------------------------------------------------------------------
  // What the walk guarantees

  /** The listing entries that become children, in listing order. */
  function KeptEntries(ctx: Context, entries: seq<Remote>): (r: seq<Remote>)
    ensures |r| <= |entries|
    ensures forall e :: e in r <==> e in entries && !Skipped(ctx, e.path)
  {
    if entries == [] then []
    else
      var last := entries[|entries| - 1];
      assert entries == entries[..|entries| - 1] + [last];
      KeptEntries(ctx, entries[..|entries| - 1]) + (if Skipped(ctx, last.path) then [] else [last])
  }

  /** The node of every entry of `rs` can be built. */
  predicate AllSucceed(ctx: Context, convert: Conversion, rs: seq<Remote>) {
    forall i :: 0 <= i < |rs| ==> OnlineTree(ctx, convert, rs[i].path, rs[i]).Success?
  }

  lemma AllSucceedSnoc(ctx: Context, convert: Conversion, rs: seq<Remote>, e: Remote)
    ensures AllSucceed(ctx, convert, rs + [e]) <==> AllSucceed(ctx, convert, rs) && OnlineTree(ctx, convert, e.path, e).Success?
  {
    assert forall i :: 0 <= i < |rs| ==> (rs + [e])[i] == rs[i];
    assert (rs + [e])[|rs|] == e;
  }

  /** The listing fails exactly when the node of an entry that is not skipped fails. */
  lemma {:induction false} ChildrenFailOnlyOnKeptEntries(ctx: Context, convert: Conversion, entries: seq<Remote>)
    ensures OnlineChildren(ctx, convert, entries).Success? <==> AllSucceed(ctx, convert, KeptEntries(ctx, entries))
  {
    if entries != [] {
      var init := entries[..|entries| - 1];
      var last := entries[|entries| - 1];
      ChildrenFailOnlyOnKeptEntries(ctx, convert, init);
      if !Skipped(ctx, last.path) {
        AllSucceedSnoc(ctx, convert, KeptEntries(ctx, init), last);
      }
    }
  }

  /** Every entry that is not skipped contributes exactly one child, its own node, in listing order. */
  lemma {:induction false} OneChildPerKeptEntry(ctx: Context, convert: Conversion, entries: seq<Remote>)
    requires OnlineChildren(ctx, convert, entries).Success?
    ensures |OnlineChildren(ctx, convert, entries).value| == |KeptEntries(ctx, entries)|
    ensures forall i :: 0 <= i < |KeptEntries(ctx, entries)| ==>
      OnlineTree(ctx, convert, KeptEntries(ctx, entries)[i].path, KeptEntries(ctx, entries)[i]) == Success(OnlineChildren(ctx, convert, entries).value[i])
  {
    if entries != [] {
      var init := entries[..|entries| - 1];
      var last := entries[|entries| - 1];
      OneChildPerKeptEntry(ctx, convert, init);
      if !Skipped(ctx, last.path) {
        var kept, nodes := KeptEntries(ctx, init), OnlineChildren(ctx, convert, init).value;
        assert KeptEntries(ctx, entries) == kept + [last];
        assert OnlineChildren(ctx, convert, entries).value == nodes + [OnlineTree(ctx, convert, last.path, last).value];
        assert forall i :: 0 <= i < |kept| ==> (kept + [last])[i] == kept[i];
      }
    }
  }

  /** A file answer becomes a leaf at its formatted pack path, with its content converted for that path. */
  lemma FileAnswerIsLeaf(ctx: Context, convert: Conversion, path: string, dataPath: string, content: string)
    ensures var filePath := FormatPath(ProcessPath(ctx.basePath, dataPath), ctx.formats);
      var node := OnlineTree(ctx, convert, path, RemoteFile(dataPath, content));
      var converted := convert(content, filePath);
      && (node.Success? <==> converted.Success?)
      && (node.Success? ==> node.value == Leaf(filePath, converted.value))
  {
  }

  /** A directory answer becomes a folder at the formatted pack path of the request. */
  lemma DirAnswerIsTree(ctx: Context, convert: Conversion, path: string, r: Remote)
    requires r.RemoteDir? && OnlineTree(ctx, convert, path, r).Success?
    ensures OnlineTree(ctx, convert, path, r).value.Tree?
    ensures OnlineTree(ctx, convert, path, r).value.path == FormatPath(ProcessPath(ctx.basePath, path), ctx.formats)
  {
  }

  /** The pack path a listing entry gets: the formatted processed path of the entry, file or folder. */
  lemma ChildPath(ctx: Context, convert: Conversion, e: Remote)
    requires OnlineTree(ctx, convert, e.path, e).Success?
    ensures OnlineTree(ctx, convert, e.path, e).value.path == FormatPath(ProcessPath(ctx.basePath, e.path), ctx.formats)
  {
  }

  /** No node below the root lies under the top-level folder the pack type leaves out. */
  predicate TypeClean(packType: PackType, n: Node) {
    n.Tree? ==> forall c :: c in n.children ==>
      && !(packType == Resource && StartsWith(c.path, "data/"))
      && !(packType == Data && StartsWith(c.path, "assets/"))
      && TypeClean(packType, c)
  }

  /**
   * The listing filter, applied at every level, keeps the whole tree clear of
   * the left-out top-level folder: `format` never moves a path between
   * top-level folders.
   */
  lemma {:induction false} OnlineTreeIsTypeClean(ctx: Context, convert: Conversion, path: string, r: Remote)
    requires OnlineTree(ctx, convert, path, r).Success?
    ensures TypeClean(ctx.packType, OnlineTree(ctx, convert, path, r).value)
    decreases RSize(r), 0
  {
    if r.RemoteDir? {
      OnlineChildrenAreTypeClean(ctx, convert, r.entries);
    }
  }

  lemma {:induction false} OnlineChildrenAreTypeClean(ctx: Context, convert: Conversion, entries: seq<Remote>)
    requires OnlineChildren(ctx, convert, entries).Success?
    ensures forall c :: c in OnlineChildren(ctx, convert, entries).value ==>
      && !(ctx.packType == Resource && StartsWith(c.path, "data/"))
      && !(ctx.packType == Data && StartsWith(c.path, "assets/"))
      && TypeClean(ctx.packType, c)
    decreases RSizeOf(entries), 2
  {
    if entries != [] {
      var init := entries[..|entries| - 1];
      var last := entries[|entries| - 1];
      OnlineChildrenAreTypeClean(ctx, convert, init);
      if !Skipped(ctx, last.path) {
        OnlineChildIsTypeClean(ctx, convert, last);
      }
    }
  }

  lemma {:induction false} OnlineChildIsTypeClean(ctx: Context, convert: Conversion, e: Remote)
    requires !Skipped(ctx, e.path) && OnlineTree(ctx, convert, e.path, e).Success?
    ensures var c := OnlineTree(ctx, convert, e.path, e).value;
      && !(ctx.packType == Resource && StartsWith(c.path, "data/"))
      && !(ctx.packType == Data && StartsWith(c.path, "assets/"))
      && TypeClean(ctx.packType, c)
    decreases RSize(e), 1
  {
    OnlineTreeIsTypeClean(ctx, convert, e.path, e);
    var processed := ProcessPath(ctx.basePath, e.path);
    FormatKeepsRoot(processed, ctx.formats, "data");
    FormatKeepsRoot(processed, ctx.formats, "assets");
  }
}
