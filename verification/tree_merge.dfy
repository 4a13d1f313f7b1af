/**
 * `mergeFileOrTree(file1, file2)`: overlays the children of `file2` on the
 * children of `file1`.
 *
 * Each child of `file2` is looked up, in order, in the result's child list,
 * which grows as unmatched children are appended. The match is the first
 * child with the same path and the same kind. A matching file takes the new
 * content. A matching folder is merged recursively, with the two arguments
 * swapped (`merge(child, child1)`). A child that matches nothing, including a
 * same-path child of the other kind, is appended.
 */
module TreeMerge {
  import opened Seqs
  import opened Wrappers
  import opened BuilderCore

  datatype MergeError =
    /** "file1 or file2 is not a tree" */
    NotATree

  /** Two children occupy the same slot when they have the same path and are both files or both folders. */
  predicate SameSlot(a: Node, b: Node) {
    a.path == b.path && a.Leaf? == b.Leaf?
  }

  /** The first child of `acc` in the slot of `c`, or -1. */
  function FindMatch(acc: seq<Node>, c: Node): (r: int)
    ensures -1 <= r < |acc|
    ensures r == -1 <==> forall m :: 0 <= m < |acc| ==> !SameSlot(acc[m], c)
    ensures r >= 0 ==> SameSlot(acc[r], c) && forall m :: 0 <= m < r ==> !SameSlot(acc[m], c)
  {
    if acc == [] then -1
    else if SameSlot(acc[0], c) then 0
    else
      var r := FindMatch(acc[1..], c);
      if r == -1 then -1 else r + 1
  }

  /** One step of the outer loop: place the incoming child `c` in the list `acc`. */
  function Place(acc: seq<Node>, c: Node): (r: seq<Node>)
    ensures SizeOf(r) <= SizeOf(acc) + Size(c)
    decreases SizeOf(acc) + Size(c), 0
  {
    var i := FindMatch(acc, c);
    if i == -1 then
      SizeOfAppend(acc, [c]);
      assert [c][..0] == [];
      acc + [c]
    else
      match c
      case Leaf(_, content) =>
        SizeOfUpdate(acc, i, Leaf(acc[i].path, content));
        acc[i := Leaf(acc[i].path, content)]
      case Tree(_, children) =>
        SizeOfElement(acc, i);
        // the nested call is merge(child, child1): the incoming folder is the base
        var merged := Overlay(children, acc[i].children);
        SizeOfUpdate(acc, i, Tree(acc[i].path, merged));
        acc[i := Tree(acc[i].path, merged)]
  }

  /** The outer loop: place the incoming children one after another. */
  function Overlay(acc: seq<Node>, incoming: seq<Node>): (r: seq<Node>)
    ensures SizeOf(r) <= SizeOf(acc) + SizeOf(incoming)
    decreases SizeOf(acc) + SizeOf(incoming), |incoming| + 1
  {
    if incoming == [] then acc
    else
      assert incoming == [incoming[0]] + incoming[1..];
      SizeOfCons(incoming[0], incoming[1..]);
      Overlay(Place(acc, incoming[0]), incoming[1..])
  }

  /** `mergeFileOrTree`: fails unless both arguments are folders; the result has the second argument's path. */
  function Merge(file1: Node, file2: Node): (r: Result<Node, MergeError>)
    ensures r.Failure? <==> !(file1.Tree? && file2.Tree?)
    ensures r.Success? ==> r.value.Tree? && r.value.path == file2.path
  {
    if file1.Tree? && file2.Tree? then Success(Tree(file2.path, Overlay(file1.children, file2.children)))
    else Failure(NotATree)
  }

  /** `mergeFileOrTree` as written: the outer loop over the incoming children. */
  method MergeFileOrTree(file1: Node, file2: Node) returns (r: Result<Node, MergeError>)
    ensures r == Merge(file1, file2)
    decreases Size(file1) + Size(file2), 1
  {
    if !file1.Tree? || !file2.Tree? {
      return Failure(NotATree);
    }
    var incoming := file2.children;
    var children := file1.children;
    for k := 0 to |incoming|
      invariant Overlay(file1.children, incoming) == Overlay(children, incoming[k..])
      invariant SizeOf(children) + SizeOf(incoming[k..]) <= SizeOf(file1.children) + SizeOf(incoming)
    {
      var child := incoming[k];
      OverlayStep(children, incoming, k);
      children := PlaceChild(children, child);
    }
    r := Success(Tree(file2.path, children));
  }

  /**
   * The inner loop of `mergeFileOrTree` for one incoming child: the search
   * for its slot, left at the first match.
   */
  method PlaceChild(children: seq<Node>, child: Node) returns (next: seq<Node>)
    ensures next == Place(children, child)
    decreases SizeOf(children) + Size(child), 2
  {
    var contain := false;
    next := children;
    var j := 0;
    while j < |children|
      invariant 0 <= j <= |children| && next == children && !contain
      invariant forall m :: 0 <= m < j ==> !SameSlot(children[m], child)
    {
      if children[j].path == child.path {
        if children[j].Leaf? && child.Leaf? {
          assert FindMatch(children, child) == j;
          next := children[j := Leaf(children[j].path, child.content)];
          contain := true;
          break;
        }
        if children[j].Tree? && child.Tree? {
          assert FindMatch(children, child) == j;
          SizeOfElement(children, j);
          var merged := MergeFileOrTree(child, children[j]);
          next := children[j := Tree(children[j].path, merged.value.children)];
          contain := true;
          break;
        }
      }
      j := j + 1;
    }
    if !contain {
      assert FindMatch(children, child) == -1;
      next := children + [child];
    }
  }

  /** The outer loop advances by placing one incoming child. */
  lemma OverlayStep(acc: seq<Node>, incoming: seq<Node>, k: nat)
    requires k < |incoming|
    ensures Overlay(acc, incoming[k..]) == Overlay(Place(acc, incoming[k]), incoming[k + 1..])
    ensures SizeOf(incoming[k..]) == Size(incoming[k]) + SizeOf(incoming[k + 1..])
  {
    var rest := incoming[k..];
    assert rest[0] == incoming[k] && rest[1..] == incoming[k + 1..];
    assert rest == [incoming[k]] + incoming[k + 1..];
    SizeOfCons(incoming[k], incoming[k + 1..]);
  }

  // ---------------------------------------------------------------------------
  // What the merge keeps

  /** The set of top-level paths of a child list. */
  function Paths(nodes: seq<Node>): set<string> {
    set i | 0 <= i < |nodes| :: nodes[i].path
  }

  lemma AppendKeepsSlots(acc: seq<Node>, c: Node)
    ensures forall i :: 0 <= i < |acc| ==> SameSlot((acc + [c])[i], acc[i])
    ensures Paths(acc + [c]) == Paths(acc) + {c.path}
  {
    var r := acc + [c];
    assert r[|acc|] == c;
    forall p | p in Paths(r) ensures p in Paths(acc) + {c.path} {
      var m :| 0 <= m < |r| && r[m].path == p;
      if m < |acc| {
        assert acc[m].path == p;
      }
    }
    forall p | p in Paths(acc) ensures p in Paths(r) {
      var m :| 0 <= m < |acc| && acc[m].path == p;
      assert r[m].path == p;
    }
  }

  lemma UpdateKeepsSlots(acc: seq<Node>, i: nat, n: Node, c: Node)
    requires i < |acc| && SameSlot(n, acc[i]) && acc[i].path == c.path
    ensures |acc| <= |acc[i := n]| <= |acc| + 1
    ensures forall m :: 0 <= m < |acc| ==> SameSlot(acc[i := n][m], acc[m])
    ensures Paths(acc[i := n]) == Paths(acc) + {c.path}
  {
    var r := acc[i := n];
    forall p | p in Paths(r) ensures p in Paths(acc) {
      var m :| 0 <= m < |r| && r[m].path == p;
      assert acc[m].path == p;
    }
    forall p | p in Paths(acc) + {c.path} ensures p in Paths(r) {
      if p != c.path {
        var m :| 0 <= m < |acc| && acc[m].path == p;
        assert r[m].path == p;
      } else {
        assert r[i].path == p;
      }
    }
  }

  /** Placing a child keeps every existing child in its slot and position, and adds at most one at the end. */
  lemma PlaceKeepsSlots(acc: seq<Node>, c: Node)
    ensures |acc| <= |Place(acc, c)| <= |acc| + 1
    ensures forall i :: 0 <= i < |acc| ==> SameSlot(Place(acc, c)[i], acc[i])
    ensures Paths(Place(acc, c)) == Paths(acc) + {c.path}
  {
    if FindMatch(acc, c) == -1 {
      PlaceAppends(acc, c);
    } else {
      PlaceUpdates(acc, c);
    }
  }

  lemma PlaceAppends(acc: seq<Node>, c: Node)
    requires FindMatch(acc, c) == -1
    ensures |acc| <= |Place(acc, c)| <= |acc| + 1
    ensures forall i :: 0 <= i < |acc| ==> SameSlot(Place(acc, c)[i], acc[i])
    ensures Paths(Place(acc, c)) == Paths(acc) + {c.path}
  {
    AppendKeepsSlots(acc, c);
  }

  lemma PlaceUpdates(acc: seq<Node>, c: Node)
    requires FindMatch(acc, c) >= 0
    ensures |acc| <= |Place(acc, c)| <= |acc| + 1
    ensures forall i :: 0 <= i < |acc| ==> SameSlot(Place(acc, c)[i], acc[i])
    ensures Paths(Place(acc, c)) == Paths(acc) + {c.path}
  {
    var i := FindMatch(acc, c);
    match c
    case Leaf(_, content) =>
      UpdateKeepsSlots(acc, i, Leaf(acc[i].path, content), c);
    case Tree(_, children) =>
      UpdateKeepsSlots(acc, i, Tree(acc[i].path, Overlay(children, acc[i].children)), c);
  }

  /**
   * The first argument's children stay in place and order, each keeping its
   * path and kind, and the result's paths are exactly the paths of both lists.
   */
  lemma {:induction false} OverlayKeepsBase(acc: seq<Node>, incoming: seq<Node>)
    ensures |acc| <= |Overlay(acc, incoming)| <= |acc| + |incoming|
    ensures forall i :: 0 <= i < |acc| ==> SameSlot(Overlay(acc, incoming)[i], acc[i])
    ensures Paths(Overlay(acc, incoming)) == Paths(acc) + Paths(incoming)
    decreases |incoming|
  {
    if incoming != [] {
      var placed := Place(acc, incoming[0]);
      PlaceKeepsSlots(acc, incoming[0]);
      OverlayKeepsBase(placed, incoming[1..]);
      assert Paths(incoming) == {incoming[0].path} + Paths(incoming[1..]) by {
        forall p | p in Paths(incoming) ensures p in {incoming[0].path} + Paths(incoming[1..]) {
          var m :| 0 <= m < |incoming| && incoming[m].path == p;
          if m > 0 {
            assert incoming[1..][m - 1].path == p;
          }
        }
        forall p | p in Paths(incoming[1..]) ensures p in Paths(incoming) {
          var m :| 0 <= m < |incoming[1..]| && incoming[1..][m].path == p;
          assert incoming[m + 1].path == p;
        }
      }
    }
  }

  /** With no shared and no repeated paths, the merge is the first list followed by the second, in order. */
  lemma {:induction false} DisjointOverlayAppends(acc: seq<Node>, incoming: seq<Node>)
    requires forall i, j :: 0 <= i < |acc| && 0 <= j < |incoming| ==> acc[i].path != incoming[j].path
    requires forall i, j :: 0 <= i < j < |incoming| ==> incoming[i].path != incoming[j].path
    ensures Overlay(acc, incoming) == acc + incoming
    decreases |incoming|
  {
    if incoming != [] {
      DisjointStep(acc, incoming);
      var placed := acc + [incoming[0]];
      DisjointOverlayAppends(placed, incoming[1..]);
      MoveFirst(acc, incoming);
    }
  }

  /** The first incoming child of a disjoint overlay is appended, and the rest stay disjoint from the grown list. */
  lemma DisjointStep(acc: seq<Node>, incoming: seq<Node>)
    requires incoming != []
    requires forall i, j :: 0 <= i < |acc| && 0 <= j < |incoming| ==> acc[i].path != incoming[j].path
    requires forall i, j :: 0 <= i < j < |incoming| ==> incoming[i].path != incoming[j].path
    ensures Overlay(acc, incoming) == Overlay(acc + [incoming[0]], incoming[1..])
    ensures var placed := acc + [incoming[0]];
      forall i, j :: 0 <= i < |placed| && 0 <= j < |incoming[1..]| ==> placed[i].path != incoming[1..][j].path
    ensures forall i, j :: 0 <= i < j < |incoming[1..]| ==> incoming[1..][i].path != incoming[1..][j].path
  {
    assert FindMatch(acc, incoming[0]) == -1;
    var placed := acc + [incoming[0]];
    assert Place(acc, incoming[0]) == placed;
    forall i, j | 0 <= i < |placed| && 0 <= j < |incoming[1..]|
      ensures placed[i].path != incoming[1..][j].path
    {
      assert incoming[1..][j] == incoming[j + 1];
      if i == |acc| {
        assert placed[i] == incoming[0];
      }
    }
    forall i, j | 0 <= i < j < |incoming[1..]|
      ensures incoming[1..][i].path != incoming[1..][j].path
    {
      assert incoming[1..][i] == incoming[i + 1] && incoming[1..][j] == incoming[j + 1];
    }
  }

  // ---------------------------------------------------------------------------
  // Matched and unmatched incoming children

  /** Two child lists with the same length whose children pairwise share a slot. */
  predicate SameSlots(a: seq<Node>, b: seq<Node>) {
    |a| == |b| && forall m :: 0 <= m < |a| ==> SameSlot(a[m], b[m])
  }

  /** The incoming children that find a slot in `base`, in order. */
  function Matched(base: seq<Node>, incoming: seq<Node>): seq<Node> {
    if incoming == [] then []
    else (if FindMatch(base, incoming[0]) >= 0 then [incoming[0]] else []) + Matched(base, incoming[1..])
  }

  /** The incoming children that find no slot in `base`, in order. */
  function Unmatched(base: seq<Node>, incoming: seq<Node>): seq<Node> {
    if incoming == [] then []
    else (if FindMatch(base, incoming[0]) == -1 then [incoming[0]] else []) + Unmatched(base, incoming[1..])
  }

  lemma {:induction false} FindMatchAlike(a: seq<Node>, b: seq<Node>, c: Node)
    requires SameSlots(a, b)
    ensures FindMatch(a, c) == FindMatch(b, c)
    decreases |a|
  {
    if a != [] {
      FindMatchAlike(a[1..], b[1..], c);
    }
  }

  lemma {:induction false} FilterAlike(a: seq<Node>, b: seq<Node>, incoming: seq<Node>)
    requires SameSlots(a, b)
    ensures Matched(a, incoming) == Matched(b, incoming)
    ensures Unmatched(a, incoming) == Unmatched(b, incoming)
    decreases |incoming|
  {
    if incoming != [] {
      FindMatchAlike(a, b, incoming[0]);
      FilterAlike(a, b, incoming[1..]);
    }
  }

  /** A child without a slot in `xs` is looked up in `ys`, shifted past `xs`. */
  lemma {:induction false} FindMatchAfter(xs: seq<Node>, ys: seq<Node>, c: Node)
    requires FindMatch(xs, c) == -1
    ensures FindMatch(xs + ys, c) == if FindMatch(ys, c) == -1 then -1 else |xs| + FindMatch(ys, c)
    decreases |xs|
  {
    if xs != [] {
      assert !SameSlot(xs[0], c);
      assert (xs + ys)[0] == xs[0] && (xs + ys)[1..] == xs[1..] + ys;
      assert FindMatch(xs[1..], c) == -1 by {
        forall m | 0 <= m < |xs[1..]| ensures !SameSlot(xs[1..][m], c) {
          assert xs[1..][m] == xs[m + 1];
        }
      }
      FindMatchAfter(xs[1..], ys, c);
    } else {
      assert xs + ys == ys;
    }
  }

  /** A child with a slot in `xs` finds it there, whatever follows. */
  lemma {:induction false} FindMatchBefore(xs: seq<Node>, ys: seq<Node>, c: Node)
    requires FindMatch(xs, c) >= 0
    ensures FindMatch(xs + ys, c) == FindMatch(xs, c)
    decreases |xs|
  {
    assert (xs + ys)[0] == xs[0];
    if !SameSlot(xs[0], c) {
      assert (xs + ys)[1..] == xs[1..] + ys;
      FindMatchBefore(xs[1..], ys, c);
    }
  }

  /** A child without a slot in `xs` is placed in the list that follows `xs`. */
  lemma PlaceAfter(xs: seq<Node>, ys: seq<Node>, c: Node)
    requires FindMatch(xs, c) == -1
    ensures Place(xs + ys, c) == xs + Place(ys, c)
  {
    FindMatchAfter(xs, ys, c);
    var j := FindMatch(ys, c);
    if j == -1 {
      AppendAssoc(xs, ys, [c]);
    } else {
      var acc := xs + ys;
      assert acc[|xs| + j] == ys[j];
      match c
      case Leaf(_, content) =>
        assert acc[|xs| + j := Leaf(ys[j].path, content)] == xs + ys[j := Leaf(ys[j].path, content)];
      case Tree(_, children) =>
        var n := Tree(ys[j].path, Overlay(children, ys[j].children));
        assert acc[|xs| + j := n] == xs + ys[j := n];
    }
  }

  /** A child with a slot in `xs` is placed in `xs`, which keeps its slots; what follows is untouched. */
  lemma PlaceBefore(xs: seq<Node>, ys: seq<Node>, c: Node)
    requires FindMatch(xs, c) >= 0
    ensures Place(xs + ys, c) == Place(xs, c) + ys
    ensures SameSlots(Place(xs, c), xs)
  {
    FindMatchBefore(xs, ys, c);
    var i := FindMatch(xs, c);
    var acc := xs + ys;
    match c
    case Leaf(_, content) =>
      assert acc[i := Leaf(xs[i].path, content)] == xs[i := Leaf(xs[i].path, content)] + ys;
    case Tree(_, children) =>
      var n := Tree(xs[i].path, Overlay(children, xs[i].children));
      assert acc[i := n] == xs[i := n] + ys;
  }

  lemma OverlayCons(acc: seq<Node>, c: Node, rest: seq<Node>)
    ensures Overlay(acc, [c] + rest) == Overlay(Place(acc, c), rest)
  {
    assert ([c] + rest)[0] == c && ([c] + rest)[1..] == rest;
  }

  /**
   * Overlaying onto `xs + ys` works on the two parts apart: the children with
   * a slot in `xs` are placed in `xs`, and the others, in their order, in `ys`.
   */
  lemma {:induction false} OverlayParts(xs: seq<Node>, ys: seq<Node>, incoming: seq<Node>)
    ensures Overlay(xs + ys, incoming) == Overlay(xs, Matched(xs, incoming)) + Overlay(ys, Unmatched(xs, incoming))
    decreases |incoming|
  {
    if incoming != [] {
      var c, rest := incoming[0], incoming[1..];
      assert incoming == [c] + rest;
      OverlayCons(xs + ys, c, rest);
      if FindMatch(xs, c) == -1 {
        PlaceAfter(xs, ys, c);
        OverlayParts(xs, Place(ys, c), rest);
        OverlayCons(ys, c, Unmatched(xs, rest));
        assert Matched(xs, incoming) == Matched(xs, rest) by {
          assert [] + Matched(xs, rest) == Matched(xs, rest);
        }
        assert Unmatched(xs, incoming) == [c] + Unmatched(xs, rest);
      } else {
        PlaceBefore(xs, ys, c);
        OverlayParts(Place(xs, c), ys, rest);
        FilterAlike(Place(xs, c), xs, rest);
        OverlayCons(xs, c, Matched(xs, rest));
        assert Matched(xs, incoming) == [c] + Matched(xs, rest);
        assert Unmatched(xs, incoming) == Unmatched(xs, rest) by {
          assert [] + Unmatched(xs, rest) == Unmatched(xs, rest);
        }
      }
    } else {
      assert xs + [] == xs;
    }
  }

  /** Placing only children that have a slot keeps every slot and adds no child. */
  lemma {:induction false} MatchedKeepSlots(acc: seq<Node>, incoming: seq<Node>)
    ensures SameSlots(Overlay(acc, Matched(acc, incoming)), acc)
    decreases |incoming|
  {
    if incoming != [] {
      var c, rest := incoming[0], incoming[1..];
      if FindMatch(acc, c) >= 0 {
        PlaceBefore(acc, [], c);
        var placed := Place(acc, c);
        FilterAlike(placed, acc, rest);
        MatchedKeepSlots(placed, rest);
        OverlayCons(acc, c, Matched(acc, rest));
        assert Matched(acc, incoming) == [c] + Matched(acc, rest);
      } else {
        MatchedKeepSlots(acc, rest);
        assert Matched(acc, incoming) == Matched(acc, rest);
      }
    }
  }

  /**
   * The merged list is the base list, with the incoming children that find a
   * slot in it placed there, followed by the incoming children that find none,
   * overlaid among themselves in their order.
   */
  lemma OverlayAppendsUnmatched(acc: seq<Node>, incoming: seq<Node>)
    ensures |Overlay(acc, Matched(acc, incoming))| == |acc|
    ensures Overlay(acc, incoming) == Overlay(acc, Matched(acc, incoming)) + Overlay([], Unmatched(acc, incoming))
    ensures Overlay(acc, incoming)[|acc|..] == Overlay([], Unmatched(acc, incoming))
  {
    MatchedKeepSlots(acc, incoming);
    assert acc + [] == acc;
    OverlayParts(acc, [], incoming);
  }

  /** An incoming file replaces the content of the first file at its path, and nothing else changes. */
  lemma PlaceFileOverwrites(acc: seq<Node>, i: nat, content: string)
    requires i < |acc| && acc[i].Leaf?
    requires forall m :: 0 <= m < i ==> !SameSlot(acc[m], acc[i])
    ensures Place(acc, Leaf(acc[i].path, content)) == acc[i := Leaf(acc[i].path, content)]
  {
    assert FindMatch(acc, Leaf(acc[i].path, content)) == i;
  }

  /**
   * The winner of a file conflict alternates by depth: directly under the
   * merged folders the second argument's content wins, one folder deeper the
   * first argument's content survives, because the recursion swaps its
   * arguments. At that depth the second argument's files also come first.
   */
  lemma WinnerAlternatesByDepth(a: string, b: string, d: string, p: string, q: string, x: string, y: string)
    requires p != q
    ensures Merge(Tree(a, [Leaf(p, x)]), Tree(b, [Leaf(p, y)])) == Success(Tree(b, [Leaf(p, y)]))
    ensures Merge(Tree(a, [Tree(d, [Leaf(p, x)])]), Tree(b, [Tree(d, [Leaf(p, y)])]))
         == Success(Tree(b, [Tree(d, [Leaf(p, x)])]))
    ensures Merge(Tree(a, [Tree(d, [Leaf(p, x)])]), Tree(b, [Tree(d, [Leaf(q, y)])]))
         == Success(Tree(b, [Tree(d, [Leaf(q, y), Leaf(p, x)])]))
  {
    assert FindMatch([Leaf(p, x)], Leaf(p, y)) == 0;
    assert Place([Leaf(p, x)], Leaf(p, y)) == [Leaf(p, y)];
    assert Overlay([Leaf(p, x)], [Leaf(p, y)]) == [Leaf(p, y)] by {
      assert [Leaf(p, y)][1..] == [];
    }
    assert FindMatch([Leaf(p, y)], Leaf(p, x)) == 0;
    assert Place([Leaf(p, y)], Leaf(p, x)) == [Leaf(p, x)];
    assert Overlay([Leaf(p, y)], [Leaf(p, x)]) == [Leaf(p, x)] by {
      assert [Leaf(p, x)][1..] == [];
    }
    assert FindMatch([Tree(d, [Leaf(p, x)])], Tree(d, [Leaf(p, y)])) == 0;
    assert Overlay([Tree(d, [Leaf(p, x)])], [Tree(d, [Leaf(p, y)])]) == [Tree(d, [Leaf(p, x)])] by {
      assert [Tree(d, [Leaf(p, y)])][1..] == [];
    }
    DisjointOverlayAppends([Leaf(q, y)], [Leaf(p, x)]);
    assert FindMatch([Tree(d, [Leaf(p, x)])], Tree(d, [Leaf(q, y)])) == 0;
    var deeper := [Tree(d, [Leaf(q, y), Leaf(p, x)])];
    var base := [Tree(d, [Leaf(p, x)])];
    assert Overlay([Leaf(q, y)], base[0].children) == [Leaf(q, y), Leaf(p, x)];
    assert Place(base, Tree(d, [Leaf(q, y)])) == base[0 := Tree(d, [Leaf(q, y), Leaf(p, x)])];
    assert Place(base, Tree(d, [Leaf(q, y)])) == deeper;
    assert Overlay(deeper, []) == deeper;
    assert Overlay([Tree(d, [Leaf(p, x)])], [Tree(d, [Leaf(q, y)])]) == deeper by {
      assert [Tree(d, [Leaf(q, y)])][1..] == [];
    }
  }

  /** A same-path child of the other kind is appended as a duplicate path. */
  lemma OtherKindIsDuplicated(a: string, b: string, p: string, x: string, cs: seq<Node>)
    ensures Merge(Tree(a, [Leaf(p, x)]), Tree(b, [Tree(p, cs)])) == Success(Tree(b, [Leaf(p, x), Tree(p, cs)]))
  {
    assert FindMatch([Leaf(p, x)], Tree(p, cs)) == -1;
    assert Overlay([Leaf(p, x)], [Tree(p, cs)]) == [Leaf(p, x), Tree(p, cs)] by {
      assert [Tree(p, cs)][1..] == [];
    }
  }

  /** The list searched grows: a later incoming file matches an earlier appended one, and the last content wins. */
  lemma AppendedChildrenAreMatched(a: string, b: string, p: string, x: string, y: string)
    ensures Merge(Tree(a, []), Tree(b, [Leaf(p, x), Leaf(p, y)])) == Success(Tree(b, [Leaf(p, y)]))
  {
    var incoming := [Leaf(p, x), Leaf(p, y)];
    assert Place([], Leaf(p, x)) == [Leaf(p, x)];
    assert FindMatch([Leaf(p, x)], Leaf(p, y)) == 0;
    assert Place([Leaf(p, x)], Leaf(p, y)) == [Leaf(p, y)];
    assert incoming[1..] == [Leaf(p, y)];
    assert [Leaf(p, y)][1..] == [];
    assert Overlay([Leaf(p, y)], []) == [Leaf(p, y)];
    assert Overlay([Leaf(p, x)], [Leaf(p, y)]) == [Leaf(p, y)];
    assert Overlay([], incoming) == [Leaf(p, y)];
  }
}
