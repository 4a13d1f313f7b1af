/**
 * `PathFormatter`: rewrites the third segment of a `data/...` (or `assets/...`)
 * path between the plural folder names of older data packs and the singular
 * names used from datapack version 45 on.
 */
module PathFormat {
  import opened Strings
  import opened Versions

  /** One renaming rule: `from` is the legacy name, `to` the modern one. */
  datatype Rule = Rule(from: string, to: string)

  /** The seven data-pack folders renamed at datapack version 45, in table order. */
  const DataRules: seq<Rule> := [
    Rule("structures", "structure"),
    Rule("advancements", "advancement"),
    Rule("recipes", "recipe"),
    Rule("loot_tables", "loot_table"),
    Rule("predicates", "predicate"),
    Rule("item_modifiers", "item_modifier"),
    Rule("functions", "function")
  ]

  /** The threshold at which the data-pack rules switch direction. */
  const DataThreshold: int := 45

  /** The rule tables, as (threshold, rules) entries in insertion order. */
  const DataPathMap: seq<(int, seq<Rule>)> := [(DataThreshold, DataRules)]
  const AssetsPathMap: seq<(int, seq<Rule>)> := []

  /** Walking the rules in order, a segment equal to `from` is replaced by `to`. */
  function Forward(seg: string, rules: seq<Rule>): string
    decreases |rules|
  {
    if rules == [] then seg
    else Forward(if seg == rules[0].from then rules[0].to else seg, rules[1..])
  }

  /** Walking the rules in order, a segment equal to `to` is replaced by `from`. */
  function Backward(seg: string, rules: seq<Rule>): string
    decreases |rules|
  {
    if rules == [] then seg
    else Backward(if seg == rules[0].to then rules[0].from else seg, rules[1..])
  }

  /** Each table entry applies its rules forward when the version reaches its key, backward otherwise. */
  function ApplyTable(seg: string, table: seq<(int, seq<Rule>)>, version: int): string
    decreases |table|
  {
    if table == [] then seg
    else
      var rules := table[0].1;
      ApplyTable(if version >= table[0].0 then Forward(seg, rules) else Backward(seg, rules), table[1..], version)
  }

  /** What `format` returns: the path re-joined after the third segment went through the matching table. */
  function FormatPath(path: string, formats: Formats): string {
    var segs := Split(path, '/');
    if |segs| > 2 && segs[0] == "data" then
      Join(segs[2 := ApplyTable(segs[2], DataPathMap, formats.datapack)], '/')
    else if |segs| > 2 && segs[0] == "assets" then
      Join(segs[2 := ApplyTable(segs[2], AssetsPathMap, formats.resources)], '/')
    else Join(segs, '/')
  }

  /** `PathFormatter.format`: walks the table for the path's root folder and overwrites segment 2 in place. */
  method Format(path: string, formats: Formats) returns (r: string)
    ensures r == FormatPath(path, formats)
  {
    var segs := Split(path, '/');
    if segs[0] == "data" {
      segs := RewriteThird(segs, DataPathMap, formats.datapack);
    } else if segs[0] == "assets" {
      segs := RewriteThird(segs, AssetsPathMap, formats.resources);
    }
    r := Join(segs, '/');
  }

  /** The loops of `format` for one root folder: a missing segment 2 never equals a rule name. */
  method RewriteThird(segs: seq<string>, table: seq<(int, seq<Rule>)>, version: int) returns (out: seq<string>)
    ensures |segs| > 2 ==> out == segs[2 := ApplyTable(segs[2], table, version)]
    ensures |segs| <= 2 ==> out == segs
  {
    out := segs;
    var i := 0;
    while i < |table|
      invariant 0 <= i <= |table|
      invariant |out| == |segs|
      invariant forall k :: 0 <= k < |segs| && k != 2 ==> out[k] == segs[k]
      invariant |segs| > 2 ==> ApplyTable(segs[2], table, version) == ApplyTable(out[2], table[i..], version)
    {
      var key := table[i].0;
      var rules := table[i].1;
      var before := out;
      var j := 0;
      if version >= key {
        while j < |rules|
          invariant 0 <= j <= |rules|
          invariant |out| == |segs|
          invariant forall k :: 0 <= k < |segs| && k != 2 ==> out[k] == segs[k]
          invariant |segs| > 2 ==> Forward(before[2], rules) == Forward(out[2], rules[j..])
        {
          if |out| > 2 && out[2] == rules[j].from {
            out := out[2 := rules[j].to];
          }
          assert rules[j..][1..] == rules[j + 1..];
          j := j + 1;
        }
      } else {
        while j < |rules|
          invariant 0 <= j <= |rules|
          invariant |out| == |segs|
          invariant forall k :: 0 <= k < |segs| && k != 2 ==> out[k] == segs[k]
          invariant |segs| > 2 ==> Backward(before[2], rules) == Backward(out[2], rules[j..])
        {
          if |out| > 2 && out[2] == rules[j].to {
            out := out[2 := rules[j].from];
          }
          assert rules[j..][1..] == rules[j + 1..];
          j := j + 1;
        }
      }
      assert table[i..][1..] == table[i + 1..];
      i := i + 1;
    }
    if |segs| > 2 {
      assert out == segs[2 := out[2]];
    } else {
      assert out == segs;
    }
  }

  // ---------------------------------------------------------------------------
  // The rule table

  /** No rule's name contains the path separator. */
  predicate Slashless(rules: seq<Rule>) {
    forall k :: 0 <= k < |rules| ==> '/' !in rules[k].from && '/' !in rules[k].to
  }

  /**
   * The names do not chain: the legacy names are pairwise distinct, the modern
   * names are pairwise distinct, and no name is both legacy and modern.
   */
  predicate NoChain(rules: seq<Rule>) {
    && (forall j, k :: 0 <= j < k < |rules| ==> rules[j].from != rules[k].from && rules[j].to != rules[k].to)
    && (forall j, k :: 0 <= j < |rules| && 0 <= k < |rules| ==> rules[j].from != rules[k].to)
  }

  predicate IsFrom(seg: string, rules: seq<Rule>) {
    exists k :: 0 <= k < |rules| && rules[k].from == seg
  }

  predicate IsTo(seg: string, rules: seq<Rule>) {
    exists k :: 0 <= k < |rules| && rules[k].to == seg
  }

  /** The data-pack names are told apart by their first letter, and each modern name is its legacy name without the final 's'. */
  lemma DataRuleShape(k: nat)
    requires k < |DataRules|
    ensures '/' !in DataRules[k].from && '/' !in DataRules[k].to
    ensures |DataRules[k].to| > 0 && DataRules[k].from[0] == "sarlpif"[k] == DataRules[k].to[0]
    ensures |DataRules[k].from| == |DataRules[k].to| + 1
  {
    if k == 0 {} else if k == 1 {} else if k == 2 {} else if k == 3 {} else if k == 4 {} else if k == 5 {} else {}
  }

  /** The data-pack table is well formed. */
  lemma DataRulesWellFormed()
    ensures Slashless(DataRules) && NoChain(DataRules)
  {
    forall k | 0 <= k < |DataRules|
      ensures '/' !in DataRules[k].from && '/' !in DataRules[k].to
    {
      DataRuleShape(k);
    }
    forall j, k | 0 <= j < |DataRules| && 0 <= k < |DataRules|
      ensures DataRules[j].from != DataRules[k].to
      ensures j != k ==> DataRules[j].from != DataRules[k].from && DataRules[j].to != DataRules[k].to
    {
      DataRuleShape(j);
      DataRuleShape(k);
      if j != k {
        assert "sarlpif"[j] != "sarlpif"[k];
      }
    }
  }

  /** A segment that no rule names as legacy passes the forward walk unchanged. */
  lemma {:induction false} ForwardFixed(seg: string, rules: seq<Rule>)
    requires !IsFrom(seg, rules)
    ensures Forward(seg, rules) == seg
    decreases |rules|
  {
    if rules != [] {
      assert rules[0].from != seg;
      forall k | 0 <= k < |rules[1..]| ensures rules[1..][k].from != seg {
        assert rules[1..][k] == rules[k + 1];
      }
      ForwardFixed(seg, rules[1..]);
    }
  }

  /** A segment that no rule names as modern passes the backward walk unchanged. */
  lemma {:induction false} BackwardFixed(seg: string, rules: seq<Rule>)
    requires !IsTo(seg, rules)
    ensures Backward(seg, rules) == seg
    decreases |rules|
  {
    if rules != [] {
      assert rules[0].to != seg;
      forall k | 0 <= k < |rules[1..]| ensures rules[1..][k].to != seg {
        assert rules[1..][k] == rules[k + 1];
      }
      BackwardFixed(seg, rules[1..]);
    }
  }

  /** Without chains, the forward walk sends the k-th legacy name to the k-th modern name. */
  lemma {:induction false} ForwardRenames(rules: seq<Rule>, k: nat)
    requires NoChain(rules) && k < |rules|
    ensures Forward(rules[k].from, rules) == rules[k].to
    decreases |rules|
  {
    if k == 0 {
      forall m | 0 <= m < |rules[1..]| ensures rules[1..][m].from != rules[0].to {
        assert rules[1..][m] == rules[m + 1];
      }
      ForwardFixed(rules[0].to, rules[1..]);
    } else {
      assert rules[0].from != rules[k].from;
      assert rules[1..][k - 1] == rules[k];
      ForwardRenames(rules[1..], k - 1);
    }
  }

  /** Without chains, the backward walk sends the k-th modern name to the k-th legacy name. */
  lemma {:induction false} BackwardRenames(rules: seq<Rule>, k: nat)
    requires NoChain(rules) && k < |rules|
    ensures Backward(rules[k].to, rules) == rules[k].from
    decreases |rules|
  {
    if k == 0 {
      forall m | 0 <= m < |rules[1..]| ensures rules[1..][m].to != rules[0].from {
        assert rules[1..][m] == rules[m + 1];
      }
      BackwardFixed(rules[0].from, rules[1..]);
    } else {
      assert rules[0].to != rules[k].to;
      assert rules[1..][k - 1] == rules[k];
      BackwardRenames(rules[1..], k - 1);
    }
  }

  /** The forward walk either renames a legacy name or leaves a non-legacy name alone; either way its result is not legacy. */
  lemma ForwardResultNotLegacy(seg: string, rules: seq<Rule>)
    requires NoChain(rules)
    ensures !IsFrom(Forward(seg, rules), rules)
  {
    if IsFrom(seg, rules) {
      var k :| 0 <= k < |rules| && rules[k].from == seg;
      ForwardRenames(rules, k);
    } else {
      ForwardFixed(seg, rules);
    }
  }

  /** The backward walk's result is never a modern name. */
  lemma BackwardResultNotModern(seg: string, rules: seq<Rule>)
    requires NoChain(rules)
    ensures !IsTo(Backward(seg, rules), rules)
  {
    if IsTo(seg, rules) {
      var k :| 0 <= k < |rules| && rules[k].to == seg;
      BackwardRenames(rules, k);
    } else {
      BackwardFixed(seg, rules);
    }
  }

  /** The data table is its single entry at 45: forward from 45 on, backward below. */
  lemma DataTable(seg: string, version: int)
    ensures ApplyTable(seg, DataPathMap, version) ==
      if version >= DataThreshold then Forward(seg, DataRules) else Backward(seg, DataRules)
  {
    assert DataPathMap[1..] == [];
  }

  /** Every result segment is free of the separator when the input segment is. */
  lemma {:induction false} ForwardSlashless(seg: string, rules: seq<Rule>)
    requires Slashless(rules) && '/' !in seg
    ensures '/' !in Forward(seg, rules)
    decreases |rules|
  {
    if rules != [] {
      ForwardSlashless(if seg == rules[0].from then rules[0].to else seg, rules[1..]);
    }
  }

  lemma {:induction false} BackwardSlashless(seg: string, rules: seq<Rule>)
    requires Slashless(rules) && '/' !in seg
    ensures '/' !in Backward(seg, rules)
    decreases |rules|
  {
    if rules != [] {
      BackwardSlashless(if seg == rules[0].to then rules[0].from else seg, rules[1..]);
    }
  }

  // ---------------------------------------------------------------------------
  // Properties of `format`

  /** A path whose first segment is neither "data" nor "assets" comes back unchanged. */
  lemma OtherRootsUnchanged(path: string, formats: Formats)
    requires Split(path, '/')[0] != "data" && Split(path, '/')[0] != "assets"
    ensures FormatPath(path, formats) == path
  {
    JoinSplit(path, '/');
  }

  /** "assets" paths come back unchanged: the assets table has no entries. */
  lemma AssetsUnchanged(path: string, formats: Formats)
    requires Split(path, '/')[0] == "assets"
    ensures FormatPath(path, formats) == path
  {
    var segs := Split(path, '/');
    if |segs| > 2 {
      assert segs[2 := segs[2]] == segs;
    }
    JoinSplit(path, '/');
  }

  /** A path with fewer than three segments comes back unchanged. */
  lemma ShortPathUnchanged(path: string, formats: Formats)
    requires |Split(path, '/')| < 3
    ensures FormatPath(path, formats) == path
  {
    JoinSplit(path, '/');
  }

  /** The rewritten third segment of a data path: what segment 2 of the result is. */
  function NewThird(seg: string, formats: Formats): string {
    if formats.datapack >= DataThreshold then Forward(seg, DataRules) else Backward(seg, DataRules)
  }

  /** Only segment 2 of a data path can change: the segment count and every other segment are kept. */
  lemma OnlyThirdSegmentChanges(path: string, formats: Formats)
    requires |Split(path, '/')| > 2 && Split(path, '/')[0] == "data"
    ensures Split(FormatPath(path, formats), '/') == Split(path, '/')[2 := NewThird(Split(path, '/')[2], formats)]
  {
    var segs := Split(path, '/');
    DataTable(segs[2], formats.datapack);
    DataRulesWellFormed();
    ForwardSlashless(segs[2], DataRules);
    BackwardSlashless(segs[2], DataRules);
    var out := segs[2 := NewThird(segs[2], formats)];
    assert forall i :: 0 <= i < |out| ==> '/' !in out[i];
    SplitJoin(out, '/');
  }

  /** From datapack version 45 on, a legacy plural segment becomes its singular name. */
  lemma ModernizesLegacyName(path: string, formats: Formats, k: nat)
    requires |Split(path, '/')| > 2 && Split(path, '/')[0] == "data"
    requires k < |DataRules| && Split(path, '/')[2] == DataRules[k].from
    requires formats.datapack >= DataThreshold
    ensures Split(FormatPath(path, formats), '/') == Split(path, '/')[2 := DataRules[k].to]
  {
    OnlyThirdSegmentChanges(path, formats);
    DataRulesWellFormed();
    ForwardRenames(DataRules, k);
  }

  /** Below datapack version 45, a singular segment becomes its legacy plural name. */
  lemma RestoresLegacyName(path: string, formats: Formats, k: nat)
    requires |Split(path, '/')| > 2 && Split(path, '/')[0] == "data"
    requires k < |DataRules| && Split(path, '/')[2] == DataRules[k].to
    requires formats.datapack < DataThreshold
    ensures Split(FormatPath(path, formats), '/') == Split(path, '/')[2 := DataRules[k].from]
  {
    OnlyThirdSegmentChanges(path, formats);
    DataRulesWellFormed();
    BackwardRenames(DataRules, k);
  }

  /** For a fixed version, formatting twice is formatting once. */
  lemma FormatIdempotent(path: string, formats: Formats)
    ensures FormatPath(FormatPath(path, formats), formats) == FormatPath(path, formats)
  {
    var segs := Split(path, '/');
    if |segs| > 2 && segs[0] == "data" {
      DataFormatIdempotent(path, formats);
    } else if |segs| > 2 && segs[0] == "assets" {
      AssetsUnchanged(path, formats);
    } else if |segs| <= 2 {
      ShortPathUnchanged(path, formats);
    } else {
      OtherRootsUnchanged(path, formats);
    }
  }

  /** Renaming the third segment a second time changes nothing. */
  lemma NewThirdIdempotent(seg: string, formats: Formats)
    ensures NewThird(NewThird(seg, formats), formats) == NewThird(seg, formats)
  {
    DataRulesWellFormed();
    if formats.datapack >= DataThreshold {
      ForwardResultNotLegacy(seg, DataRules);
      ForwardFixed(Forward(seg, DataRules), DataRules);
    } else {
      BackwardResultNotModern(seg, DataRules);
      BackwardFixed(Backward(seg, DataRules), DataRules);
    }
  }

  lemma DataFormatIdempotent(path: string, formats: Formats)
    requires |Split(path, '/')| > 2 && Split(path, '/')[0] == "data"
    ensures FormatPath(FormatPath(path, formats), formats) == FormatPath(path, formats)
  {
    var segs := Split(path, '/');
    var once := FormatPath(path, formats);
    OnlyThirdSegmentChanges(path, formats);
    var segs1 := Split(once, '/');
    OnlyThirdSegmentChanges(once, formats);
    NewThirdIdempotent(segs[2], formats);
    assert segs1[2 := NewThird(segs1[2], formats)] == segs1;
    JoinSplit(once, '/');
    JoinSplit(FormatPath(once, formats), '/');
  }

  /** `format` never moves a path into or out of a top-level folder: the first segment and the segment count are kept. */
  lemma FormatKeepsRoot(path: string, formats: Formats, root: string)
    requires '/' !in root
    ensures StartsWith(FormatPath(path, formats), root + "/") <==> StartsWith(path, root + "/")
  {
    var segs := Split(path, '/');
    var out := FormatPath(path, formats);
    if |segs| > 2 && segs[0] == "data" {
      OnlyThirdSegmentChanges(path, formats);
    } else if |segs| > 2 && segs[0] == "assets" {
      AssetsUnchanged(path, formats);
    } else if |segs| <= 2 {
      ShortPathUnchanged(path, formats);
    } else {
      OtherRootsUnchanged(path, formats);
    }
    assert |Split(out, '/')| == |segs| && Split(out, '/')[0] == segs[0];
    StartsWithSegment(out, root, '/');
    StartsWithSegment(path, root, '/');
  }

  /** Formatting at version 45 or later and then below 45 restores a path whose third segment was a legacy name. */
  lemma ModernThenLegacyRoundTrip(path: string, modern: Formats, legacy: Formats)
    requires |Split(path, '/')| > 2 && Split(path, '/')[0] == "data"
    requires IsFrom(Split(path, '/')[2], DataRules)
    requires modern.datapack >= DataThreshold && legacy.datapack < DataThreshold
    ensures FormatPath(FormatPath(path, modern), legacy) == path
  {
    var segs := Split(path, '/');
    var k :| 0 <= k < |DataRules| && DataRules[k].from == segs[2];
    var once := FormatPath(path, modern);
    ModernizesLegacyName(path, modern, k);
    RestoresLegacyName(once, legacy, k);
    assert segs[2 := DataRules[k].to][2 := DataRules[k].from] == segs;
    JoinSplit(path, '/');
    JoinSplit(FormatPath(once, legacy), '/');
  }
}
