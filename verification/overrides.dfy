/**
 * The version-module resolver of `build`: from the `version_modules` rules
 * of the configuration, pick for each overridden module the override folder
 * to merge after it.
 *
 * A rule is kept when its target is unset or empty, is the main module, or
 * names a selected module (a module path ending in "/" + target). A kept rule
 * applies when its game version is in the table, the requested version is
 * not older than it, and, for a strict rule, equal to it. Per target key (the
 * target, or the main module) an applicable rule replaces the entry chosen so
 * far only when its version is strictly newer.
 */
module Overrides {
  import opened Wrappers
  import opened Strings
  import opened Versions
  import opened BuilderCore

  /** An entry of `versionModuleMap`: the folder to fetch, the rule's key, and its game version. */
  datatype Override = Override(path: string, name: string, version: string)

  /** `versionModule.target` is truthy. */
  predicate HasTarget(rule: VersionRule) {
    rule.target.Some? && rule.target.value != ""
  }

  /** `versionModule.target || main_module`. */
  function TargetKey(rule: VersionRule, mainModule: string): string {
    if HasTarget(rule) then rule.target.value else mainModule
  }

  /** The `filter` callback on the rule keys. */
  predicate KeepsTarget(rule: VersionRule, mainModule: string, modulePaths: seq<string>) {
    !HasTarget(rule) || rule.target.value == mainModule
    || exists m :: m in modulePaths && EndsWith(m, "/" + rule.target.value)
  }

  /** `versionModuleKeys`: the rules the filter keeps, in key order. */
  function Kept(rules: seq<(string, VersionRule)>, mainModule: string, modulePaths: seq<string>): (r: seq<(string, VersionRule)>)
    ensures forall e :: e in r <==> e in rules && KeepsTarget(e.1, mainModule, modulePaths)
  {
    if rules == [] then []
    else
      var rest := Kept(rules[..|rules| - 1], mainModule, modulePaths);
      var e := rules[|rules| - 1];
      assert rules == rules[..|rules| - 1] + [e];
      if KeepsTarget(e.1, mainModule, modulePaths) then rest + [e] else rest
  }

  /**
   * The three `continue`s before the target lookup: the rule's version is in
   * the table, the requested version is the same or newer, and a strict rule
   * needs the same version.
   */
  predicate Applies(reg: Registry, version: string, rule: VersionRule)
    requires version in reg.ids
  {
    && rule.version in reg.formats
    && rule.version in reg.ids
    && (version == rule.version || Newer(reg, version, rule.version))
    && (rule.strict ==> version == rule.version)
  }

  /** `a` is strictly newer than `b`, both being in the table. */
  predicate StrictlyNewer(reg: Registry, a: string, b: string) {
    a in reg.ids && b in reg.ids && Newer(reg, a, b)
  }

  /** One pass of the loop body on the map built so far. */
  function Step(reg: Registry, version: string, mainModule: string, basePath: string,
                acc: map<string, Override>, key: string, rule: VersionRule): map<string, Override>
    requires version in reg.ids
  {
    if !Applies(reg, version, rule) then acc
    else
      var targetKey := TargetKey(rule, mainModule);
      if targetKey in acc && !StrictlyNewer(reg, rule.version, acc[targetKey].version) then acc
      else acc[targetKey := Override(basePath + "/" + key, key, rule.version)]
  }

  /** `versionModuleMap` after the loop over the given rules. */
  function Resolve(reg: Registry, version: string, mainModule: string, basePath: string,
                   rules: seq<(string, VersionRule)>): (r: map<string, Override>)
    requires version in reg.ids
    ensures forall k :: k in r ==> r[k].version in reg.ids && (r[k].version == version || Newer(reg, version, r[k].version))
    ensures forall k :: k in r ==> r[k].path == basePath + "/" + r[k].name
  {
    if rules == [] then map[]
    else
      var e := rules[|rules| - 1];
      Step(reg, version, mainModule, basePath, Resolve(reg, version, mainModule, basePath, rules[..|rules| - 1]), e.0, e.1)
  }

  lemma ResolveSnoc(reg: Registry, version: string, mainModule: string, basePath: string,
                    rules: seq<(string, VersionRule)>, i: nat)
    requires version in reg.ids && i < |rules|
    ensures Resolve(reg, version, mainModule, basePath, rules[..i + 1])
         == Step(reg, version, mainModule, basePath, Resolve(reg, version, mainModule, basePath, rules[..i]), rules[i].0, rules[i].1)
  {
    assert rules[..i + 1][..i] == rules[..i];
  }

  /** The entry a rule would write. */
  function Entry(basePath: string, e: (string, VersionRule)): Override {
    Override(basePath + "/" + e.0, e.0, e.1.version)
  }

  /** The `filter` over the rule keys as written, with its inner loop over the selected modules. */
  method KeepRules(rules: seq<(string, VersionRule)>, mainModule: string, modulePaths: seq<string>)
    returns (kept: seq<(string, VersionRule)>)
    ensures kept == Kept(rules, mainModule, modulePaths)
  {
    kept := [];
    for i := 0 to |rules|
      invariant kept == Kept(rules[..i], mainModule, modulePaths)
    {
      var rule := rules[i].1;
      var keep := !HasTarget(rule) || rule.target.value == mainModule;
      for j := 0 to |modulePaths|
        invariant keep == KeepsTarget(rule, mainModule, modulePaths[..j])
      {
        if !keep && EndsWith(modulePaths[j], "/" + rule.target.value) {
          keep := true;
        }
        assert modulePaths[..j + 1] == modulePaths[..j] + [modulePaths[j]];
      }
      assert modulePaths[..|modulePaths|] == modulePaths;
      if keep {
        kept := kept + [rules[i]];
      }
      assert rules[..i + 1][..i] == rules[..i];
    }
    assert rules[..|rules|] == rules;
  }

  /**
   * The resolver as written: the filter, then the loop with its `continue`s
   * and the `compareMC` calls. The requested version is in the table, since
   * `build` has already read its formats.
   */
  method ResolveOverrides(reg: Registry, cfg: Config, version: string, basePath: string, modulePaths: seq<string>)
    returns (overrides: map<string, Override>)
    requires ValidRegistry(reg) && version in reg.ids
    ensures cfg.versionModules.None? ==> overrides == map[]
    ensures cfg.versionModules.Some? ==>
      overrides == Resolve(reg, version, cfg.mainModule, basePath, Kept(cfg.versionModules.value, cfg.mainModule, modulePaths))
  {
    overrides := map[];
    if cfg.versionModules.None? {
      return;
    }
    var kept := KeepRules(cfg.versionModules.value, cfg.mainModule, modulePaths);
    for i := 0 to |kept|
      invariant overrides == Resolve(reg, version, cfg.mainModule, basePath, kept[..i])
    {
      var key := kept[i].0;
      var rule := kept[i].1;
      ResolveSnoc(reg, version, cfg.mainModule, basePath, kept, i);
      ghost var expected := Step(reg, version, cfg.mainModule, basePath, overrides, key, rule);
      if rule.version !in reg.formats {
        assert expected == overrides;
        continue;
      }
      var c := CompareMC(reg, version, rule.version);
      if c.value < 0 {
        assert expected == overrides;
        continue;
      }
      if rule.strict && c.value != 0 {
        assert expected == overrides;
        continue;
      }
      assert Applies(reg, version, rule);
      var targetKey := if HasTarget(rule) then rule.target.value else cfg.mainModule;
      if targetKey in overrides {
        var c2 := CompareMC(reg, overrides[targetKey].version, rule.version);
        if c2.value >= 0 {
          assert expected == overrides;
          continue;
        }
      }
      overrides := overrides[targetKey := Override(basePath + "/" + key, key, rule.version)];
      assert overrides == expected;
    }
    assert kept[..|kept|] == kept;
  }

  // ---------------------------------------------------------------------------
  // What the resolver chooses

  /** The entry for the rule's target key is the rule's version or newer. */
  predicate Covered(reg: Registry, mainModule: string, m: map<string, Override>, rule: VersionRule) {
    var k := TargetKey(rule, mainModule);
    k in m && m[k].version in reg.ids && rule.version in reg.ids
    && (m[k].version == rule.version || Newer(reg, m[k].version, rule.version))
  }

  /** Every applicable rule among `rules` is covered by `m`. */
  ghost predicate CoversRules(reg: Registry, version: string, mainModule: string,
                              rules: seq<(string, VersionRule)>, m: map<string, Override>)
    requires version in reg.ids
  {
    forall i :: 0 <= i < |rules| && Applies(reg, version, rules[i].1) ==> Covered(reg, mainModule, m, rules[i].1)
  }

  /** Every applicable rule before position `j` for key `k` is strictly older than `v`. */
  ghost predicate OlderBefore(reg: Registry, version: string, mainModule: string,
                              rules: seq<(string, VersionRule)>, j: int, k: string, v: string)
    requires version in reg.ids
  {
    forall i :: 0 <= i < j && i < |rules| && Applies(reg, version, rules[i].1) && TargetKey(rules[i].1, mainModule) == k ==>
      StrictlyNewer(reg, v, rules[i].1.version)
  }

  /** The entry of `k` in `m` was written by rule `j`, the first applicable rule for `k` with that version. */
  ghost predicate ChosenAt(reg: Registry, version: string, mainModule: string, basePath: string,
                           rules: seq<(string, VersionRule)>, m: map<string, Override>, k: string, j: int)
    requires version in reg.ids
  {
    && 0 <= j < |rules| && Applies(reg, version, rules[j].1) && TargetKey(rules[j].1, mainModule) == k
    && k in m && m[k] == Entry(basePath, rules[j])
    && OlderBefore(reg, version, mainModule, rules, j, k, m[k].version)
  }

  /** A later step never lowers the entry of a key, so what was covered stays covered. */
  lemma StepKeepsCovered(reg: Registry, version: string, mainModule: string, basePath: string,
                         acc: map<string, Override>, key: string, rule: VersionRule, old_rule: VersionRule)
    requires ValidRegistry(reg) && version in reg.ids
    requires Covered(reg, mainModule, acc, old_rule)
    ensures Covered(reg, mainModule, Step(reg, version, mainModule, basePath, acc, key, rule), old_rule)
  {
    var k := TargetKey(old_rule, mainModule);
    if Applies(reg, version, rule) && TargetKey(rule, mainModule) == k {
      NewerIsStrictTotalOrder(reg, rule.version, acc[k].version, old_rule.version);
    }
  }

  /** An applicable rule is covered right after its own step. */
  lemma StepCoversRule(reg: Registry, version: string, mainModule: string, basePath: string,
                       acc: map<string, Override>, key: string, rule: VersionRule)
    requires ValidRegistry(reg) && version in reg.ids
    requires forall k :: k in acc ==> acc[k].version in reg.ids
    requires Applies(reg, version, rule)
    ensures Covered(reg, mainModule, Step(reg, version, mainModule, basePath, acc, key, rule), rule)
  {
    var k := TargetKey(rule, mainModule);
    if k in acc {
      NewerIsStrictTotalOrder(reg, rule.version, acc[k].version, acc[k].version);
    }
  }

  /** Every applicable rule has an entry for its target key, at least as new as the rule. */
  lemma {:induction false} ResolveCovers(reg: Registry, version: string, mainModule: string, basePath: string,
                                         rules: seq<(string, VersionRule)>)
    requires ValidRegistry(reg) && version in reg.ids
    ensures CoversRules(reg, version, mainModule, rules, Resolve(reg, version, mainModule, basePath, rules))
  {
    if rules != [] {
      var n := |rules| - 1;
      var prefix := rules[..n];
      var e := rules[n];
      var acc := Resolve(reg, version, mainModule, basePath, prefix);
      ResolveCovers(reg, version, mainModule, basePath, prefix);
      var m := Resolve(reg, version, mainModule, basePath, rules);
      forall i | 0 <= i < |rules| && Applies(reg, version, rules[i].1)
        ensures Covered(reg, mainModule, m, rules[i].1)
      {
        if i < n {
          assert prefix[i] == rules[i];
          StepKeepsCovered(reg, version, mainModule, basePath, acc, e.0, e.1, rules[i].1);
        } else {
          StepCoversRule(reg, version, mainModule, basePath, acc, e.0, e.1);
        }
      }
    }
  }

  lemma PrefixOlderBefore(reg: Registry, version: string, mainModule: string,
                          rules: seq<(string, VersionRule)>, n: nat, j: int, k: string, v: string)
    requires version in reg.ids && n <= |rules| && j <= n
    requires OlderBefore(reg, version, mainModule, rules[..n], j, k, v)
    ensures OlderBefore(reg, version, mainModule, rules, j, k, v)
  {
    forall i | 0 <= i < j && i < |rules| && Applies(reg, version, rules[i].1) && TargetKey(rules[i].1, mainModule) == k
      ensures StrictlyNewer(reg, v, rules[i].1.version)
    {
      assert rules[..n][i] == rules[i];
    }
  }

  /**
   * For each target key the resolver keeps the newest applicable rule, and
   * among equally new ones the first: every entry was written by an
   * applicable rule for its key, every earlier applicable rule for that key
   * is strictly older, and every applicable rule has an entry at least as new.
   */
  lemma {:induction false} ResolveChoosesFirstNewest(reg: Registry, version: string, mainModule: string, basePath: string,
                                                     rules: seq<(string, VersionRule)>)
    requires ValidRegistry(reg) && version in reg.ids
    ensures forall k :: k in Resolve(reg, version, mainModule, basePath, rules) ==>
      exists j :: ChosenAt(reg, version, mainModule, basePath, rules, Resolve(reg, version, mainModule, basePath, rules), k, j)
    ensures CoversRules(reg, version, mainModule, rules, Resolve(reg, version, mainModule, basePath, rules))
  {
    ResolveCovers(reg, version, mainModule, basePath, rules);
    if rules != [] {
      var n := |rules| - 1;
      var prefix := rules[..n];
      var acc := Resolve(reg, version, mainModule, basePath, prefix);
      ResolveChoosesFirstNewest(reg, version, mainModule, basePath, prefix);
      ResolveCovers(reg, version, mainModule, basePath, prefix);
      var m := Resolve(reg, version, mainModule, basePath, rules);
      forall k | k in m
        ensures exists j :: ChosenAt(reg, version, mainModule, basePath, rules, m, k, j)
      {
        if k in acc && m[k] == acc[k] {
          var j :| ChosenAt(reg, version, mainModule, basePath, prefix, acc, k, j);
          KeptEntryStaysChosen(reg, version, mainModule, basePath, rules, k, j);
        } else {
          NewEntryIsChosen(reg, version, mainModule, basePath, rules, k);
        }
      }
    }
  }

  /** An entry the last rule left alone keeps the rule that chose it. */
  lemma KeptEntryStaysChosen(reg: Registry, version: string, mainModule: string, basePath: string,
                             rules: seq<(string, VersionRule)>, k: string, j: int)
    requires version in reg.ids && rules != []
    requires var acc := Resolve(reg, version, mainModule, basePath, rules[..|rules| - 1]);
      && ChosenAt(reg, version, mainModule, basePath, rules[..|rules| - 1], acc, k, j)
      && k in Resolve(reg, version, mainModule, basePath, rules)
      && Resolve(reg, version, mainModule, basePath, rules)[k] == acc[k]
    ensures ChosenAt(reg, version, mainModule, basePath, rules, Resolve(reg, version, mainModule, basePath, rules), k, j)
  {
    var n := |rules| - 1;
    var m := Resolve(reg, version, mainModule, basePath, rules);
    assert rules[..n][j] == rules[j];
    PrefixOlderBefore(reg, version, mainModule, rules, n, j, k, m[k].version);
  }

  /** An entry the last rule wrote or replaced is chosen by that rule. */
  lemma NewEntryIsChosen(reg: Registry, version: string, mainModule: string, basePath: string,
                         rules: seq<(string, VersionRule)>, k: string)
    requires ValidRegistry(reg) && version in reg.ids && rules != []
    requires var acc := Resolve(reg, version, mainModule, basePath, rules[..|rules| - 1]);
      var m := Resolve(reg, version, mainModule, basePath, rules);
      && CoversRules(reg, version, mainModule, rules[..|rules| - 1], acc)
      && k in m && !(k in acc && m[k] == acc[k])
    ensures ChosenAt(reg, version, mainModule, basePath, rules, Resolve(reg, version, mainModule, basePath, rules), k, |rules| - 1)
  {
    var n := |rules| - 1;
    var prefix := rules[..n];
    var e := rules[n];
    var acc := Resolve(reg, version, mainModule, basePath, prefix);
    var m := Resolve(reg, version, mainModule, basePath, rules);
    assert m == Step(reg, version, mainModule, basePath, acc, e.0, e.1);
    assert Applies(reg, version, e.1) && TargetKey(e.1, mainModule) == k && m[k] == Entry(basePath, e);
    forall i | 0 <= i < n && Applies(reg, version, rules[i].1) && TargetKey(rules[i].1, mainModule) == k
      ensures StrictlyNewer(reg, m[k].version, rules[i].1.version)
    {
      assert prefix[i] == rules[i];
      assert Covered(reg, mainModule, acc, rules[i].1);
      NewerIsStrictTotalOrder(reg, e.1.version, acc[k].version, rules[i].1.version);
    }
  }
}
