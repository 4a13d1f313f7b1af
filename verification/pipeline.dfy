/**
 * The fixed order of `build`: the modules sorted by weight, the main
 * module's tree with its `pack.mcmeta` step and icon, then one merge per
 * scheduled tree (the main module's override first, then each module
 * followed by its own override), and finally the zip walk and, for a mod,
 * the descriptor entries.
 *
 * `getFileTree` is a given function from a repository path to a tree; the
 * online and archive builders each give one.
 */
module Pipeline {
  import opened Seqs
  import opened Wrappers
  import opened Strings
  import opened Versions
  import opened BuilderCore
  import opened TreeMerge
  import opened Overrides
  import opened PackMeta
  import opened ZipEmit
  import opened ModInfo

  // ---------------------------------------------------------------------------
  // The module list, sorted by weight

  /** An entry of `moduleList`: the module's repository path and its weight. */
  datatype ModuleEntry = ModuleEntry(path: string, weight: int)

  /** `moduleList`: the selected modules in the map's key order. */
  function ModuleList(modules: seq<(string, int)>): (r: seq<ModuleEntry>)
    ensures |r| == |modules|
    ensures forall i :: 0 <= i < |r| ==> r[i] == ModuleEntry(modules[i].0, modules[i].1)
  {
    seq(|modules|, i requires 0 <= i < |modules| => ModuleEntry(modules[i].0, modules[i].1))
  }

  predicate SortedByWeight(s: seq<ModuleEntry>) {
    forall i, j :: 0 <= i < j < |s| ==> s[i].weight <= s[j].weight
  }

  /** Insert after every entry of the same or a smaller weight. */
  function Insert(s: seq<ModuleEntry>, x: ModuleEntry): (r: seq<ModuleEntry>)
    ensures |r| == |s| + 1
  {
    if s == [] then [x]
    else if s[0].weight > x.weight then [x] + s
    else [s[0]] + Insert(s[1..], x)
  }

  /** Inserting adds exactly `x`. */
  lemma {:induction false} InsertPermutes(s: seq<ModuleEntry>, x: ModuleEntry)
    ensures multiset(Insert(s, x)) == multiset(s) + multiset{x}
  {
    if s != [] && s[0].weight <= x.weight {
      InsertPermutes(s[1..], x);
      assert s == [s[0]] + s[1..];
    }
  }

  /** `moduleList.sort((a, b) => a.weight - b.weight)`: a stable sort by weight. */
  function SortByWeight(s: seq<ModuleEntry>): (r: seq<ModuleEntry>)
    ensures |r| == |s|
  {
    if s == [] then []
    else Insert(SortByWeight(s[..|s| - 1]), s[|s| - 1])
  }

  lemma {:induction false} InsertKeepsSorted(s: seq<ModuleEntry>, x: ModuleEntry)
    requires SortedByWeight(s)
    ensures SortedByWeight(Insert(s, x))
  {
    if s != [] && s[0].weight <= x.weight {
      var t := Insert(s[1..], x);
      InsertKeepsSorted(s[1..], x);
      InsertPermutes(s[1..], x);
      forall k | 0 <= k < |t|
        ensures s[0].weight <= t[k].weight
      {
        assert t[k] in multiset(t);
        if t[k] != x {
          assert t[k] in multiset(s[1..]);
          var m :| 0 <= m < |s[1..]| && s[1..][m] == t[k];
          assert s[m + 1] == t[k];
        }
      }
    }
  }

  lemma {:induction false} SortByWeightOrders(s: seq<ModuleEntry>)
    ensures SortedByWeight(SortByWeight(s))
  {
    if s != [] {
      SortByWeightOrders(s[..|s| - 1]);
      InsertKeepsSorted(SortByWeight(s[..|s| - 1]), s[|s| - 1]);
    }
  }

  lemma {:induction false} SortByWeightPermutes(s: seq<ModuleEntry>)
    ensures multiset(SortByWeight(s)) == multiset(s)
  {
    if s != [] {
      var init := s[..|s| - 1];
      SortByWeightPermutes(init);
      InsertPermutes(SortByWeight(init), s[|s| - 1]);
      assert s == init + [s[|s| - 1]];
    }
  }

  /** The sorted list is ordered by weight and is a permutation of the input. */
  lemma SortByWeightSorts(s: seq<ModuleEntry>)
    ensures SortedByWeight(SortByWeight(s))
    ensures multiset(SortByWeight(s)) == multiset(s)
  {
    SortByWeightOrders(s);
    SortByWeightPermutes(s);
  }

  /** The entries of one weight, in order. */
  function WithWeight(s: seq<ModuleEntry>, w: int): seq<ModuleEntry> {
    if s == [] then []
    else (if s[0].weight == w then [s[0]] else []) + WithWeight(s[1..], w)
  }

  lemma {:induction false} WithWeightAppend(a: seq<ModuleEntry>, b: seq<ModuleEntry>, w: int)
    ensures WithWeight(a + b, w) == WithWeight(a, w) + WithWeight(b, w)
  {
    if a == [] {
      assert a + b == b;
    } else {
      WithWeightAppend(a[1..], b, w);
      assert a + b == [a[0]] + (a[1..] + b);
      WithWeightCons(a[0], a[1..] + b, w);
      WithWeightCons(a[0], a[1..], w);
      assert [a[0]] + a[1..] == a;
    }
  }

  lemma {:induction false} NoneWithWeight(s: seq<ModuleEntry>, w: int)
    requires forall i :: 0 <= i < |s| ==> s[i].weight != w
    ensures WithWeight(s, w) == []
  {
    if s != [] {
      NoneWithWeight(s[1..], w);
    }
  }

  lemma WithWeightCons(y: ModuleEntry, s: seq<ModuleEntry>, w: int)
    ensures WithWeight([y] + s, w) == (if y.weight == w then [y] else []) + WithWeight(s, w)
  {
    assert ([y] + s)[0] == y && ([y] + s)[1..] == s;
  }

  lemma SortedTail(s: seq<ModuleEntry>)
    requires s != [] && SortedByWeight(s)
    ensures SortedByWeight(s[1..])
  {
    forall i, j | 0 <= i < j < |s[1..]|
      ensures s[1..][i].weight <= s[1..][j].weight
    {
      assert s[1..][i] == s[i + 1] && s[1..][j] == s[j + 1];
    }
  }

  /** A sorted list whose first entry is heavier than `w` has no entry of weight `w`. */
  lemma HeavierThanFirst(s: seq<ModuleEntry>, w: int)
    requires s != [] && SortedByWeight(s) && s[0].weight > w
    ensures WithWeight(s, w) == []
  {
    forall i | 0 <= i < |s|
      ensures s[i].weight != w
    {
      assert i == 0 || s[0].weight <= s[i].weight;
    }
    NoneWithWeight(s, w);
  }

  lemma {:induction false} InsertWithWeight(s: seq<ModuleEntry>, x: ModuleEntry, w: int)
    requires SortedByWeight(s)
    ensures WithWeight(Insert(s, x), w) == WithWeight(s, w) + (if x.weight == w then [x] else [])
  {
    if s == [] {
      WithWeightCons(x, [], w);
      assert [x] + [] == [x];
    } else if s[0].weight > x.weight {
      WithWeightCons(x, s, w);
      if x.weight == w {
        HeavierThanFirst(s, w);
      }
    } else {
      var t := Insert(s[1..], x);
      assert Insert(s, x) == [s[0]] + t;
      WithWeightCons(s[0], t, w);
      WithWeightCons(s[0], s[1..], w);
      assert [s[0]] + s[1..] == s;
      SortedTail(s);
      InsertWithWeight(s[1..], x, w);
    }
  }

  /** The sort is stable: the entries of each weight keep their relative order. */
  lemma {:induction false} SortIsStable(s: seq<ModuleEntry>, w: int)
    ensures WithWeight(SortByWeight(s), w) == WithWeight(s, w)
  {
    if s != [] {
      var init, last := s[..|s| - 1], s[|s| - 1];
      var sortedInit := SortByWeight(init);
      assert SortByWeight(s) == Insert(sortedInit, last);
      SortIsStable(init, w);
      SortByWeightOrders(init);
      InsertWithWeight(sortedInit, last, w);
      assert init + [last] == s;
      WithWeightAppend(init, [last], w);
      assert WithWeight([last], w) == (if last.weight == w then [last] else []) by {
        assert [last][1..] == [];
      }
    }
  }

  function Paths(s: seq<ModuleEntry>): (r: seq<string>)
    ensures |r| == |s| && forall i :: 0 <= i < |s| ==> r[i] == s[i].path
  {
    seq(|s|, i requires 0 <= i < |s| => s[i].path)
  }

  // ---------------------------------------------------------------------------
  // The merge schedule

  /** `module.path.substring(basePath.length + 1)`: "" when the path is too short. */
  function OverrideKey(basePath: string, path: string): string {
    if |basePath| + 1 <= |path| then path[|basePath| + 1..] else ""
  }

  /** The override key of a module `base/name` is `name`, the key the resolver writes for a rule on that module. */
  lemma OverrideKeyOfModule(basePath: string, name: string)
    ensures OverrideKey(basePath, basePath + "/" + name) == name
  {
    assert (basePath + "/" + name)[|basePath| + 1..] == name;
  }

  /** The main module's override, when the resolver chose one. */
  function MainPart(mainModule: string, overrides: map<string, Override>): seq<string> {
    if mainModule in overrides then [overrides[mainModule].path] else []
  }

  /** The override merged right after a module, when there is one. */
  function OverrideAfter(basePath: string, m: ModuleEntry, overrides: map<string, Override>): seq<string> {
    var key := OverrideKey(basePath, m.path);
    if key in overrides then [overrides[key].path] else []
  }

  /** Each module, followed by its own override. */
  function ModuleSteps(basePath: string, modules: seq<ModuleEntry>, overrides: map<string, Override>): seq<string> {
    if modules == [] then []
    else
      var last := modules[|modules| - 1];
      ModuleSteps(basePath, modules[..|modules| - 1], overrides) + [last.path] + OverrideAfter(basePath, last, overrides)
  }

  /** The paths whose trees are merged onto the pack, in order. */
  function Schedule(mainModule: string, basePath: string, modules: seq<ModuleEntry>, overrides: map<string, Override>): seq<string> {
    MainPart(mainModule, overrides) + ModuleSteps(basePath, modules, overrides)
  }

  lemma {:induction false} ModuleStepsPrefix(basePath: string, modules: seq<ModuleEntry>, overrides: map<string, Override>, i: nat)
    requires i <= |modules|
    ensures ModuleSteps(basePath, modules[..i], overrides) <= ModuleSteps(basePath, modules, overrides)
    decreases |modules|
  {
    if i < |modules| {
      var n := |modules| - 1;
      assert modules[..n][..i] == modules[..i];
      ModuleStepsPrefix(basePath, modules[..n], overrides, i);
    } else {
      assert modules[..i] == modules;
    }
  }

  /**
   * The main module's override is merged first, and every module is merged
   * at its place in the list and is followed at once by its own override.
   */
  lemma ScheduleOrder(mainModule: string, basePath: string, modules: seq<ModuleEntry>, overrides: map<string, Override>, i: nat)
    requires i < |modules|
    ensures mainModule in overrides ==> Schedule(mainModule, basePath, modules, overrides)[0] == overrides[mainModule].path
    ensures var p := |MainPart(mainModule, overrides)| + |ModuleSteps(basePath, modules[..i], overrides)|;
      var s := Schedule(mainModule, basePath, modules, overrides);
      var key := OverrideKey(basePath, modules[i].path);
      && p < |s| && s[p] == modules[i].path
      && (key in overrides ==> p + 1 < |s| && s[p + 1] == overrides[key].path)
  {
    StepsSnoc(mainModule, basePath, modules, overrides, i);
  }

  /** Without overrides the schedule is the module list itself. */
  lemma {:induction false} NoOverridesMergesModulesOnly(mainModule: string, basePath: string, modules: seq<ModuleEntry>)
    ensures Schedule(mainModule, basePath, modules, map[]) == Paths(modules)
  {
    if modules != [] {
      NoOverridesMergesModulesOnly(mainModule, basePath, modules[..|modules| - 1]);
    }
  }

  // ---------------------------------------------------------------------------
  // The merges

  /** The fetched tree of every path. */
  function FetchAll(fetch: string -> Node, paths: seq<string>): (r: seq<Node>)
    ensures |r| == |paths| && forall i :: 0 <= i < |paths| ==> r[i] == fetch(paths[i])
  {
    seq(|paths|, i requires 0 <= i < |paths| => fetch(paths[i]))
  }

  /** `pack = mergeFileOrTree(pack, tree)` for each tree in turn; an exception ends the build. */
  function FoldMerge(pack: Node, trees: seq<Node>): Result<Node, MergeError> {
    if trees == [] then Success(pack)
    else
      var p :- FoldMerge(pack, trees[..|trees| - 1]);
      Merge(p, trees[|trees| - 1])
  }

  /**
   * With nothing to merge the pack comes back as it is; otherwise the fold
   * succeeds exactly when the pack and every merged tree are folders, and the
   * result is a folder with the last tree's path.
   */
  lemma {:induction false} FoldMergeSucceeds(pack: Node, trees: seq<Node>)
    ensures trees == [] ==> FoldMerge(pack, trees) == Success(pack)
    ensures FoldMerge(pack, trees).Success? <==> (trees == [] || (pack.Tree? && forall i :: 0 <= i < |trees| ==> trees[i].Tree?))
    ensures FoldMerge(pack, trees).Success? && trees != [] ==>
      (&& FoldMerge(pack, trees).value.Tree?
       && FoldMerge(pack, trees).value.path == trees[|trees| - 1].path)
  {
    if trees != [] {
      var n := |trees| - 1;
      var prefix := trees[..n];
      FoldMergeSucceeds(pack, prefix);
      var before := FoldMerge(pack, prefix);
      if before.Success? {
        assert FoldMerge(pack, trees) == Merge(before.value, trees[n]);
        assert before.value.Tree? <==> pack.Tree?;
        if trees[n].Tree? && pack.Tree? {
          forall i | 0 <= i < |trees|
            ensures trees[i].Tree?
          {
            if i < n {
              assert prefix[i] == trees[i];
            }
          }
        } else {
          assert FoldMerge(pack, trees).Failure?;
          assert !(pack.Tree? && forall i :: 0 <= i < |trees| ==> trees[i].Tree?);
        }
      } else {
        assert FoldMerge(pack, trees) == before;
        if pack.Tree? {
          var i :| 0 <= i < n && !prefix[i].Tree?;
          assert !trees[i].Tree?;
        }
      }
    }
  }

  /** Once a merge has failed, further merges change nothing. */
  lemma {:induction false} FoldMergeFailureStays(pack: Node, a: seq<Node>, b: seq<Node>)
    requires a <= b && FoldMerge(pack, a).Failure?
    ensures FoldMerge(pack, b) == FoldMerge(pack, a)
    decreases |b|
  {
    if |b| > |a| {
      assert a <= b[..|b| - 1];
      FoldMergeFailureStays(pack, a, b[..|b| - 1]);
    } else {
      assert a == b;
    }
  }

  lemma FoldMergeSnoc(pack: Node, trees: seq<Node>, t: Node)
    requires FoldMerge(pack, trees).Success?
    ensures FoldMerge(pack, trees + [t]) == Merge(FoldMerge(pack, trees).value, t)
  {
    assert (trees + [t])[..|trees|] == trees;
  }

  lemma FetchAllSnoc(fetch: string -> Node, done: seq<string>, p: string)
    ensures FetchAll(fetch, done + [p]) == FetchAll(fetch, done) + [fetch(p)]
  {
  }

  lemma FetchAllPrefix(fetch: string -> Node, done: seq<string>, schedule: seq<string>)
    requires done <= schedule
    ensures FetchAll(fetch, done) <= FetchAll(fetch, schedule)
  {
    assert FetchAll(fetch, done) == FetchAll(fetch, schedule)[..|done|];
  }

  /**
   * One merge of the loop: merging the next scheduled path onto the pack so far
   * gives the fold one path further, and a failure there is the failure of the
   * whole fold.
   */
  lemma Advance(pack: Node, fetch: string -> Node, done: seq<string>, p: string, schedule: seq<string>, cur: Node)
    requires done + [p] <= schedule
    requires FoldMerge(pack, FetchAll(fetch, done)) == Success(cur)
    ensures FoldMerge(pack, FetchAll(fetch, done + [p])) == Merge(cur, fetch(p))
    ensures Merge(cur, fetch(p)).Failure? ==> FoldMerge(pack, FetchAll(fetch, schedule)) == Merge(cur, fetch(p))
  {
    FetchAllSnoc(fetch, done, p);
    FoldMergeSnoc(pack, FetchAll(fetch, done), fetch(p));
    if Merge(cur, fetch(p)).Failure? {
      FetchAllPrefix(fetch, done + [p], schedule);
      FoldMergeFailureStays(pack, FetchAll(fetch, done + [p]), FetchAll(fetch, schedule));
    }
  }

  /** The module steps grow by one module and its override. */
  lemma ModuleStepsSnoc(basePath: string, modules: seq<ModuleEntry>, overrides: map<string, Override>, i: nat)
    requires i < |modules|
    ensures ModuleSteps(basePath, modules[..i + 1], overrides)
      == ModuleSteps(basePath, modules[..i], overrides) + [modules[i].path] + OverrideAfter(basePath, modules[i], overrides)
  {
    var upto := modules[..i + 1];
    assert upto[..i] == modules[..i] && upto[i] == modules[i];
  }

  /** The paths scheduled before module `i`, and the steps of module `i`. */
  lemma StepsSnoc(mainModule: string, basePath: string, modules: seq<ModuleEntry>, overrides: map<string, Override>, i: nat)
    requires i < |modules|
    ensures var before := MainPart(mainModule, overrides) + ModuleSteps(basePath, modules[..i], overrides);
      var after := MainPart(mainModule, overrides) + ModuleSteps(basePath, modules[..i + 1], overrides);
      && after == before + [modules[i].path] + OverrideAfter(basePath, modules[i], overrides)
      && after <= Schedule(mainModule, basePath, modules, overrides)
  {
    var main := MainPart(mainModule, overrides);
    var steps := ModuleSteps(basePath, modules[..i], overrides);
    var next := ModuleSteps(basePath, modules[..i + 1], overrides);
    ModuleStepsSnoc(basePath, modules, overrides, i);
    assert main + next == main + steps + [modules[i].path] + OverrideAfter(basePath, modules[i], overrides);
    ModuleStepsPrefix(basePath, modules, overrides, i + 1);
    PrefixExtend(main, next, ModuleSteps(basePath, modules, overrides));
  }

  /** The paths merged before module `i`: the main module's override and the steps of the modules before `i`. */
  function ScheduledBefore(mainModule: string, basePath: string, modules: seq<ModuleEntry>, overrides: map<string, Override>, i: nat): seq<string>
    requires i <= |modules|
  {
    MainPart(mainModule, overrides) + ModuleSteps(basePath, modules[..i], overrides)
  }

  /** The merge loop of `build` as written: the main module's override, then each module and its override. */
  method MergePipeline(pack: Node, mainModule: string, basePath: string, modules: seq<ModuleEntry>,
                       overrides: map<string, Override>, fetch: string -> Node)
    returns (r: Result<Node, MergeError>)
    ensures r == FoldMerge(pack, FetchAll(fetch, Schedule(mainModule, basePath, modules, overrides)))
  {
    var cur := pack;
    if mainModule in overrides {
      var p := overrides[mainModule].path;
      Advance(pack, fetch, [], p, Schedule(mainModule, basePath, modules, overrides), cur);
      var m := MergeFileOrTree(cur, fetch(p));
      if m.Failure? {
        return m;
      }
      cur := m.value;
    }
    assert modules[..0] == [];
    for i := 0 to |modules|
      invariant FoldMerge(pack, FetchAll(fetch, ScheduledBefore(mainModule, basePath, modules, overrides, i))) == Success(cur)
    {
      var m := MergeModule(pack, mainModule, basePath, modules, overrides, fetch, i, cur);
      if m.Failure? {
        return m;
      }
      cur := m.value;
    }
    TakeAll(modules);
    r := Success(cur);
  }

  /** One pass of the merge loop: module `i`, then its own override when there is one. */
  method MergeModule(pack: Node, mainModule: string, basePath: string, modules: seq<ModuleEntry>,
                     overrides: map<string, Override>, fetch: string -> Node, i: nat, cur: Node)
    returns (r: Result<Node, MergeError>)
    requires i < |modules|
    requires FoldMerge(pack, FetchAll(fetch, ScheduledBefore(mainModule, basePath, modules, overrides, i))) == Success(cur)
    ensures r.Success? ==> FoldMerge(pack, FetchAll(fetch, ScheduledBefore(mainModule, basePath, modules, overrides, i + 1))) == r
    ensures r.Failure? ==> FoldMerge(pack, FetchAll(fetch, Schedule(mainModule, basePath, modules, overrides))) == r
  {
    ghost var schedule := Schedule(mainModule, basePath, modules, overrides);
    ghost var done := ScheduledBefore(mainModule, basePath, modules, overrides, i);
    StepsSnoc(mainModule, basePath, modules, overrides, i);
    var p := modules[i].path;
    assert done + [p] <= schedule;
    Advance(pack, fetch, done, p, schedule, cur);
    r := MergeFileOrTree(cur, fetch(p));
    if r.Failure? {
      return;
    }
    ghost var next := ScheduledBefore(mainModule, basePath, modules, overrides, i + 1);
    var key := OverrideKey(basePath, p);
    if key in overrides {
      var q := overrides[key].path;
      assert next == done + [p] + [q];
      Advance(pack, fetch, done + [p], q, schedule, r.value);
      r := MergeFileOrTree(r.value, fetch(q));
    } else {
      assert next == done + [p];
    }
  }

  // ---------------------------------------------------------------------------
  // The whole build

  /** `icon.path = "pack.png"`. */
  function Renamed(n: Node, path: string): Node {
    match n
    case Leaf(_, content) => Leaf(path, content)
    case Tree(_, children) => Tree(path, children)
  }

  /** The icon's tree, renamed to "pack.png", is appended to a main-module folder. */
  function AddIcon(pack: Node, icon: Node): (r: Node)
    ensures pack.Leaf? ==> r == pack
    ensures pack.Tree? ==>
      (&& r.Tree? && r.path == pack.path && |r.children| == |pack.children| + 1
       && r.children[..|pack.children|] == pack.children && r.children[|pack.children|].path == "pack.png")
  {
    if pack.Tree? then Tree(pack.path, pack.children + [Renamed(icon, "pack.png")]) else pack
  }

  /** `config.icon` is truthy. */
  predicate HasIcon(cfg: Config) {
    cfg.icon.Some? && cfg.icon.value != ""
  }

  /** The resolver's result for this build. */
  function OverridesFor(reg: Registry, cfg: Config, version: string, basePath: string, sorted: seq<ModuleEntry>): map<string, Override>
    requires version in reg.ids
  {
    if cfg.versionModules.None? then map[]
    else Resolve(reg, version, cfg.mainModule, basePath, Kept(cfg.versionModules.value, cfg.mainModule, Paths(sorted)))
  }

  /** The trees merged onto the pack, in order. */
  function MergedTrees(reg: Registry, cfg: Config, version: string, modules: seq<(string, int)>, fetch: string -> Node): seq<Node>
    requires version in reg.ids
  {
    var basePath := GetBasePath(cfg.basePath);
    var sorted := SortByWeight(ModuleList(modules));
    FetchAll(fetch, Schedule(cfg.mainModule, basePath, sorted, OverridesFor(reg, cfg, version, basePath, sorted)))
  }

  /** The pack with the icon appended when the configuration names one. */
  function WithIcon(pack: Node, cfg: Config, fetch: string -> Node): (r: Node)
    ensures r.Tree? <==> pack.Tree?
    ensures r.path == pack.path
  {
    if HasIcon(cfg) then AddIcon(pack, fetch(cfg.icon.value)) else pack
  }

  /** Everything after the `pack.mcmeta` step: the icon, then the merges. */
  function Assemble(pack: Node, reg: Registry, cfg: Config, version: string, modules: seq<(string, int)>, fetch: string -> Node)
    : Result<Node, MergeError>
    requires version in reg.ids
  {
    FoldMerge(WithIcon(pack, cfg, fetch), MergedTrees(reg, cfg, version, modules, fetch))
  }

  datatype BuildError = MetaFailed(meta: MetaError) | MergeFailed(merge: MergeError)

  /** The merged pack tree of `AbstractBuilder.build`. */
  function BuildTree(reg: Registry, cfg: Config, packType: PackType, version: string, modules: seq<(string, int)>,
                     fetch: string -> Node, codec: MetaCodec): (r: Result<Node, BuildError>)
    requires ValidRegistry(reg) && version in reg.ids
  {
    var basePath := GetBasePath(cfg.basePath);
    var main := fetch(basePath + "/" + cfg.mainModule);
    match PatchMcmeta(main, cfg, packType, reg.formats[version], codec)
    case Failure(e) => Failure(MetaFailed(e))
    case Success(pack) =>
      match Assemble(pack, reg, cfg, version, modules, fetch)
      case Failure(e) => Failure(MergeFailed(e))
      case Success(t) => Success(t)
  }

  /** The merged pack tree of the static `Builder.build`: the same, with the unconditional `pack.mcmeta` append. */
  function StaticBuildTree(reg: Registry, cfg: Config, packType: PackType, version: string, modules: seq<(string, int)>,
                           fetch: string -> Node, codec: MetaCodec): (r: Result<Node, MergeError>)
    requires ValidRegistry(reg) && version in reg.ids
  {
    var basePath := GetBasePath(cfg.basePath);
    var main := fetch(basePath + "/" + cfg.mainModule);
    Assemble(StaticAppendMcmeta(main, cfg, packType, reg.formats[version], codec), reg, cfg, version, modules, fetch)
  }

  /** Everything after the `pack.mcmeta` step fails exactly when there is something to merge and a merged tree or the pack is not a folder. */
  lemma AssembleSucceeds(pack: Node, reg: Registry, cfg: Config, version: string, modules: seq<(string, int)>, fetch: string -> Node)
    requires version in reg.ids
    ensures var trees := MergedTrees(reg, cfg, version, modules, fetch);
      Assemble(pack, reg, cfg, version, modules, fetch).Success?
        == (trees == [] || (pack.Tree? && forall i :: 0 <= i < |trees| ==> trees[i].Tree?))
  {
    FoldMergeSucceeds(WithIcon(pack, cfg, fetch), MergedTrees(reg, cfg, version, modules, fetch));
  }

  /** The build fails on the `pack.mcmeta` step with that step's error, and otherwise exactly when the merges fail. */
  lemma BuildTreeOutcome(reg: Registry, cfg: Config, packType: PackType, version: string, modules: seq<(string, int)>,
                         fetch: string -> Node, codec: MetaCodec)
    requires ValidRegistry(reg) && version in reg.ids
    ensures var patched := PatchMcmeta(fetch(GetBasePath(cfg.basePath) + "/" + cfg.mainModule), cfg, packType, reg.formats[version], codec);
      var built := BuildTree(reg, cfg, packType, version, modules, fetch, codec);
      && (patched.Failure? ==> built == Failure(MetaFailed(patched.error)))
      && (patched.Success? ==> (built.Success? <==> Assemble(patched.value, reg, cfg, version, modules, fetch).Success?))
      && (built.Success? ==> built.value.Tree? || built.value == patched.value)
  {
    var patched := PatchMcmeta(fetch(GetBasePath(cfg.basePath) + "/" + cfg.mainModule), cfg, packType, reg.formats[version], codec);
    if patched.Success? {
      FoldMergeSucceeds(WithIcon(patched.value, cfg, fetch), MergedTrees(reg, cfg, version, modules, fetch));
    }
  }

  /**
   * The static build has no `pack.mcmeta` step that can fail: it fails exactly
   * when there is something to merge and a merged tree or the main module's
   * tree is not a folder.
   */
  lemma StaticBuildSucceeds(reg: Registry, cfg: Config, packType: PackType, version: string, modules: seq<(string, int)>,
                            fetch: string -> Node, codec: MetaCodec)
    requires ValidRegistry(reg) && version in reg.ids
    ensures var main := fetch(GetBasePath(cfg.basePath) + "/" + cfg.mainModule);
      var trees := MergedTrees(reg, cfg, version, modules, fetch);
      StaticBuildTree(reg, cfg, packType, version, modules, fetch, codec).Success?
        == (trees == [] || (main.Tree? && forall i :: 0 <= i < |trees| ==> trees[i].Tree?))
  {
    var main := fetch(GetBasePath(cfg.basePath) + "/" + cfg.mainModule);
    AssembleSucceeds(StaticAppendMcmeta(main, cfg, packType, reg.formats[version], codec), reg, cfg, version, modules, fetch);
  }

  /** `build` up to the zip walk, as written: the `pack.mcmeta` step, the resolver, the icon and the merge loop. */
  method BuildPackTree(reg: Registry, cfg: Config, packType: PackType, version: string, modules: seq<(string, int)>,
                       fetch: string -> Node, codec: MetaCodec)
    returns (r: Result<Node, BuildError>)
    requires ValidRegistry(reg) && version in reg.ids
    ensures r == BuildTree(reg, cfg, packType, version, modules, fetch, codec)
  {
    var formats := reg.formats[version];
    var basePath := GetBasePath(cfg.basePath);
    var sorted := SortByWeight(ModuleList(modules));
    var main := fetch(basePath + "/" + cfg.mainModule);
    var patched := PatchMcmeta(main, cfg, packType, formats, codec);
    if patched.Failure? {
      return Failure(MetaFailed(patched.error));
    }
    var pack := patched.value;
    var overrides := ResolveOverrides(reg, cfg, version, basePath, Paths(sorted));
    assert overrides == OverridesFor(reg, cfg, version, basePath, sorted);
    if HasIcon(cfg) {
      pack := AddIcon(pack, fetch(cfg.icon.value));
    }
    assert pack == WithIcon(patched.value, cfg, fetch);
    var merged := MergePipeline(pack, cfg.mainModule, basePath, sorted, overrides, fetch);
    assert merged == Assemble(patched.value, reg, cfg, version, modules, fetch);
    if merged.Failure? {
      return Failure(MergeFailed(merged.error));
    }
    r := Success(merged.value);
  }

  /**
   * `build` as written: the merged pack tree, the zip walk and, for a mod,
   * the descriptor entries.
   */
  method Build(reg: Registry, cfg: Config, packType: PackType, version: string, modules: seq<(string, int)>,
               isMod: bool, fetch: string -> Node, codec: MetaCodec, render: ModFields -> ModTexts)
    returns (r: Result<seq<ZipEntry>, BuildError>)
    requires ValidRegistry(reg) && version in reg.ids
    ensures var built := BuildTree(reg, cfg, packType, version, modules, fetch, codec);
      && (built.Failure? ==> r == Failure(built.error))
      && (built.Success? ==> r == Success(Emit(packType, built.value) + (if isMod then ModEntries(render(FieldsOf(cfg))) else [])))
  {
    var built := BuildPackTree(reg, cfg, packType, version, modules, fetch, codec);
    if built.Failure? {
      return Failure(built.error);
    }
    var zip := new Zip();
    FileTreeToZip(zip, packType, built.value);
    assert zip.entries == Emit(packType, built.value);
    if isMod {
      BuildModZip(zip, cfg, render);
    } else {
      assert zip.entries == zip.entries + [];
    }
    r := Success(zip.entries);
  }
}
