/**
 * `fileTreeToZip`: the walk that writes a merged pack tree into the archive.
 *
 * A folder at or under "assets" is skipped with everything in it when the
 * pack type is data, and one at or under "data" when it is resource. Every
 * other folder is written before its children, in order; a file is written
 * only when its content is not empty. The archive is the list of entries the
 * walk adds.
 */
module ZipEmit {
  import opened Seqs
  import opened Strings
  import opened BuilderCore

  datatype ZipEntry = Folder(path: string) | File(path: string, content: string)

  /** The archive being filled: `folder(path)` and `file(path, data)` each add one entry. */
  class Zip {
    var entries: seq<ZipEntry>

    constructor()
      ensures entries == []
    {
      entries := [];
    }

    method AddFolder(path: string)
      modifies this
      ensures entries == old(entries) + [Folder(path)]
    {
      entries := entries + [Folder(path)];
    }

    /** `fileToZip`: the content goes in as the base64 text it arrived as. */
    method AddFile(path: string, content: string)
      modifies this
      ensures entries == old(entries) + [File(path, content)]
    {
      entries := entries + [File(path, content)];
    }
  }

  /** A path at or under the top-level folder the pack type leaves out. */
  predicate ExcludedFolderPath(packType: PackType, path: string) {
    (packType == Data && (StartsWith(path, "assets/") || path == "assets"))
    || (packType == Resource && (StartsWith(path, "data/") || path == "data"))
  }

  /** The two early returns apply only to nodes without content, that is folders. */
  predicate Pruned(packType: PackType, n: Node) {
    n.Tree? && ExcludedFolderPath(packType, n.path)
  }

  /** The entries the walk adds for one node. */
  function Emit(packType: PackType, n: Node): seq<ZipEntry>
    decreases Size(n), 0
  {
    if Pruned(packType, n) then []
    else
      match n
      case Tree(path, children) => [Folder(path)] + EmitAll(packType, children)
      case Leaf(path, content) => if content != "" then [File(path, content)] else []
  }

  /** The entries the walk adds for a list of siblings, in order. */
  function EmitAll(packType: PackType, nodes: seq<Node>): seq<ZipEntry>
    decreases SizeOf(nodes), 1
  {
    if nodes == [] then []
    else EmitAll(packType, nodes[..|nodes| - 1]) + Emit(packType, nodes[|nodes| - 1])
  }

  /** `fileTreeToZip` as written: a recursive walk with a loop over the children. */
  method FileTreeToZip(zip: Zip, packType: PackType, file: Node)
    modifies zip
    ensures zip.entries == old(zip.entries) + Emit(packType, file)
    decreases Size(file)
  {
    if packType == Data && file.Tree? && (StartsWith(file.path, "assets/") || file.path == "assets") {
      return;
    }
    if packType == Resource && file.Tree? && (StartsWith(file.path, "data/") || file.path == "data") {
      return;
    }
    match file {
      case Tree(path, children) =>
        zip.AddFolder(path);
        ghost var start := zip.entries;
        for k := 0 to |children|
          invariant zip.entries == start + EmitAll(packType, children[..k])
        {
          SizeOfElement(children, k);
          FileTreeToZip(zip, packType, children[k]);
          EmitAllSnoc(packType, children, k);
          AppendAssoc(start, EmitAll(packType, children[..k]), Emit(packType, children[k]));
        }
        assert children[..|children|] == children;
      case Leaf(path, content) =>
        if content != "" {
          zip.AddFile(path, content);
        }
    }
  }

  lemma EmitAllSnoc(packType: PackType, nodes: seq<Node>, k: nat)
    requires k < |nodes|
    ensures EmitAll(packType, nodes[..k + 1]) == EmitAll(packType, nodes[..k]) + Emit(packType, nodes[k])
  {
    assert nodes[..k + 1][..k] == nodes[..k];
  }

  // ---------------------------------------------------------------------------
  // What the walk guarantees

  /** No folder the pack type leaves out, and no empty file. */
  predicate Clean(packType: PackType, entries: seq<ZipEntry>) {
    forall e :: e in entries ==>
      (e.Folder? ==> !ExcludedFolderPath(packType, e.path)) && (e.File? ==> e.content != "")
  }

  /** The archive never holds a folder at or under the left-out top-level folder, nor an empty file. */
  lemma {:induction false} EmitIsClean(packType: PackType, n: Node)
    ensures Clean(packType, Emit(packType, n))
    ensures |Emit(packType, n)| <= Size(n)
    decreases Size(n), 0
  {
    if !Pruned(packType, n) && n.Tree? {
      EmitAllIsClean(packType, n.children);
    }
  }

  lemma {:induction false} EmitAllIsClean(packType: PackType, nodes: seq<Node>)
    ensures Clean(packType, EmitAll(packType, nodes))
    ensures |EmitAll(packType, nodes)| <= SizeOf(nodes)
    decreases SizeOf(nodes), 1
  {
    if nodes != [] {
      EmitAllIsClean(packType, nodes[..|nodes| - 1]);
      EmitIsClean(packType, nodes[|nodes| - 1]);
    }
  }

  /** A folder that is written comes first, before anything from its children (pre-order). */
  lemma FolderComesFirst(packType: PackType, path: string, children: seq<Node>)
    requires !ExcludedFolderPath(packType, path)
    ensures Emit(packType, Tree(path, children)) == [Folder(path)] + EmitAll(packType, children)
  {
  }

  /**
   * Only folders are pruned: a file whose path lies under the left-out
   * top-level folder is still written when it sits in a folder that is kept.
   */
  lemma FilesAreNeverPruned(packType: PackType, path: string, content: string)
    requires content != ""
    ensures Emit(packType, Leaf(path, content)) == [File(path, content)]
  {
  }

  /** For a pack of every type nothing is pruned: each folder of the tree gives one entry. */
  lemma {:induction false} AllKeepsEveryFolder(n: Node)
    ensures CountFolders(Emit(All, n)) == Folders(n)
    decreases Size(n), 0
  {
    if n.Tree? {
      AllKeepsEveryFolderAll(n.children);
      CountFoldersAppend([Folder(n.path)], EmitAll(All, n.children));
    }
  }

  lemma {:induction false} AllKeepsEveryFolderAll(nodes: seq<Node>)
    ensures CountFolders(EmitAll(All, nodes)) == FoldersOf(nodes)
    decreases SizeOf(nodes), 1
  {
    if nodes != [] {
      AllKeepsEveryFolderAll(nodes[..|nodes| - 1]);
      AllKeepsEveryFolder(nodes[|nodes| - 1]);
      CountFoldersAppend(EmitAll(All, nodes[..|nodes| - 1]), Emit(All, nodes[|nodes| - 1]));
    }
  }

  /** The number of folders in a tree. */
  function Folders(n: Node): nat
    decreases Size(n), 0
  {
    match n
    case Leaf(_, _) => 0
    case Tree(_, children) => 1 + FoldersOf(children)
  }

  function FoldersOf(nodes: seq<Node>): nat
    decreases SizeOf(nodes), 1
  {
    if nodes == [] then 0 else FoldersOf(nodes[..|nodes| - 1]) + Folders(nodes[|nodes| - 1])
  }

  /** The number of folder entries in a list of entries. */
  function CountFolders(entries: seq<ZipEntry>): nat {
    if entries == [] then 0
    else CountFolders(entries[..|entries| - 1]) + (if entries[|entries| - 1].Folder? then 1 else 0)
  }

  lemma {:induction false} CountFoldersAppend(a: seq<ZipEntry>, b: seq<ZipEntry>)
    ensures CountFolders(a + b) == CountFolders(a) + CountFolders(b)
    decreases |b|
  {
    if b == [] {
      assert a + b == a;
    } else {
      assert (a + b)[..|a + b| - 1] == a + b[..|b| - 1];
      CountFoldersAppend(a, b[..|b| - 1]);
    }
  }
}
