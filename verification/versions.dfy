/**
 * Version ordering (src/scripts/version/index.ts).
 *
 * `Version` is a triple of JavaScript numbers compared lexicographically by
 * subtraction and `||`; `VersionRange` is an interval with inclusive or
 * exclusive ends parsed from a small range syntax; `CompareMC` orders game
 * version ids only by their position in the version table, which lists the
 * newest version first.
 */
module Versions {
  import opened Wrappers
  import opened Strings

  // ---------------------------------------------------------------------------
  // JavaScript numbers, restricted to integers, the two infinities and NaN

  datatype Num = NaN | NegInf | PosInf | Int(i: int)

  /** `a - b` on JavaScript numbers. */
  function Sub(a: Num, b: Num): (r: Num)
    ensures a.Int? && b.Int? ==> r == Int(a.i - b.i)
    ensures r.NaN? <==> a.NaN? || b.NaN? || (a == b && !a.Int?)
  {
    match (a, b)
    case (NaN, _) => NaN
    case (_, NaN) => NaN
    case (Int(x), Int(y)) => Int(x - y)
    case (PosInf, PosInf) => NaN
    case (NegInf, NegInf) => NaN
    case (PosInf, _) => PosInf
    case (NegInf, _) => NegInf
    case (_, PosInf) => NegInf
    case (_, NegInf) => PosInf
  }

  /** JavaScript truthiness of a number: everything except 0 and NaN. */
  predicate Truthy(n: Num) {
    !n.NaN? && n != Int(0)
  }

  /** `a || b` on numbers. */
  function Or(a: Num, b: Num): Num {
    if Truthy(a) then a else b
  }

  // Comparisons against 0; every one of them is false for NaN.
  predicate AtMostZero(n: Num) { n.NegInf? || (n.Int? && n.i <= 0) }
  predicate BelowZero(n: Num) { n.NegInf? || (n.Int? && n.i < 0) }
  predicate AtLeastZero(n: Num) { n.PosInf? || (n.Int? && n.i >= 0) }
  predicate AboveZero(n: Num) { n.PosInf? || (n.Int? && n.i > 0) }

  // ---------------------------------------------------------------------------
  // Version

  datatype Version = Version(major: Num, minor: Num, patch: Num)

  const PositiveInfinity: Version := Version(PosInf, PosInf, PosInf)
  const NegativeInfinity: Version := Version(NegInf, NegInf, NegInf)

  /** A version whose three components are integers (what parsing digits yields). */
  predicate Finite(v: Version) {
    v.major.Int? && v.minor.Int? && v.patch.Int?
  }

  /** Strict lexicographic order on the integer triples of finite versions. */
  predicate LexLess(a: Version, b: Version)
    requires Finite(a) && Finite(b)
  {
    a.major.i < b.major.i
    || (a.major.i == b.major.i && a.minor.i < b.minor.i)
    || (a.major.i == b.major.i && a.minor.i == b.minor.i && a.patch.i < b.patch.i)
  }

  /**
   * `this.major - other.major || this.minor - other.minor || this.patch - other.patch`.
   * On finite versions its sign is the lexicographic order of the triples.
   */
  function Compare(a: Version, b: Version): (r: Num)
    ensures Finite(a) && Finite(b) ==> r.Int?
    ensures Finite(a) && Finite(b) ==> (r.i < 0 <==> LexLess(a, b))
    ensures Finite(a) && Finite(b) ==> (r.i == 0 <==> a == b)
    ensures Finite(a) && Finite(b) ==> (r.i > 0 <==> LexLess(b, a))
  {
    Or(Or(Sub(a.major, b.major), Sub(a.minor, b.minor)), Sub(a.patch, b.patch))
  }

  // ---------------------------------------------------------------------------
  // parseInt and Version.fromString

  predicate IsDigit(c: char) { '0' <= c <= '9' }

  predicate AllDigits(s: string) {
    forall i :: 0 <= i < |s| ==> IsDigit(s[i])
  }

  /** Number of leading decimal digits of `s`. */
  function DigitPrefix(s: string): (n: nat)
    ensures n <= |s| && AllDigits(s[..n])
    ensures n < |s| ==> !IsDigit(s[n])
  {
    if s == [] || !IsDigit(s[0]) then 0
    else
      var n := 1 + DigitPrefix(s[1..]);
      assert s[..n] == [s[0]] + s[1..][..n - 1];
      n
  }

  /** The value of a string of decimal digits. */
  function DigitsValue(s: string): nat
    requires AllDigits(s)
  {
    if s == [] then 0
    else DigitsValue(s[..|s| - 1]) * 10 + (s[|s| - 1] as int - '0' as int)
  }

  /**
   * `parseInt(s)` with the default radix: an optional sign, then the longest
   * run of decimal digits; NaN when there is no digit.
   */
  function ParseInt(s: string): (r: Num)
    ensures r.NaN? || r.Int?
    ensures AllDigits(s) && s != [] ==> r == Int(DigitsValue(s))
  {
    var negative := s != [] && s[0] == '-';
    var body := if s != [] && (s[0] == '-' || s[0] == '+') then s[1..] else s;
    var n := DigitPrefix(body);
    if n == 0 then NaN
    else
      assert AllDigits(s) && s != [] ==> body == s && n == |s| && body[..n] == s;
      var value: int := DigitsValue(body[..n]);
      Int(if negative then -value else value)
  }

  /** `parts[i] || '0'`: a missing or empty component reads as "0". */
  function ComponentText(parts: seq<string>, i: nat): (c: string)
    ensures c != ""
  {
    if i < |parts| && parts[i] != "" then parts[i] else "0"
  }

  /** `Version.fromString`: split on '.', missing or empty components are 0. */
  function VersionFromString(text: string): (v: Version)
    ensures |Split(text, '.')| < 3 ==> v.patch == Int(0)
    ensures |Split(text, '.')| < 2 ==> v.minor == Int(0)
    ensures text == "" ==> v == Version(Int(0), Int(0), Int(0))
  {
    var parts := Split(text, '.');
    assert ParseInt("0") == Int(0) by {
      assert AllDigits("0");
      assert DigitsValue("0") == DigitsValue("") * 10 + 0;
    }
    VersionOfParts(parts)
  }

  /** The version the first three pieces of a split read as. */
  function VersionOfParts(parts: seq<string>): Version {
    Version(ParseInt(ComponentText(parts, 0)), ParseInt(ComponentText(parts, 1)), ParseInt(ComponentText(parts, 2)))
  }

  /** "1.20" parses as 1.20.0: two digit groups give major and minor, and the patch defaults to 0. */
  lemma TwoComponentsDefaultPatch(a: string, b: string)
    requires a != "" && b != "" && AllDigits(a) && AllDigits(b)
    ensures VersionFromString(a + "." + b) == Version(Int(DigitsValue(a)), Int(DigitsValue(b)), Int(0))
  {
    forall k | 0 <= k < |a| ensures a[k] != '.' { assert IsDigit(a[k]); }
    forall k | 0 <= k < |b| ensures b[k] != '.' { assert IsDigit(b[k]); }
    assert Join([a, b], '.') == a + "." + b by {
      assert Join([a, b], '.') == a + ['.'] + Join([b], '.');
    }
    SplitJoin([a, b], '.');
  }

  /** "1.20.4" parses as 1.20.4: three digit groups give major, minor and patch. */
  lemma ThreeComponents(a: string, b: string, c: string)
    requires a != "" && b != "" && c != "" && AllDigits(a) && AllDigits(b) && AllDigits(c)
    ensures VersionFromString(a + "." + b + "." + c) == Version(Int(DigitsValue(a)), Int(DigitsValue(b)), Int(DigitsValue(c)))
  {
    forall k | 0 <= k < |a| ensures a[k] != '.' { assert IsDigit(a[k]); }
    forall k | 0 <= k < |b| ensures b[k] != '.' { assert IsDigit(b[k]); }
    forall k | 0 <= k < |c| ensures c[k] != '.' { assert IsDigit(c[k]); }
    assert Join([a, b, c], '.') == a + "." + b + "." + c by {
      assert [a, b, c][1..] == [b, c];
      assert Join([b, c], '.') == b + ['.'] + Join([c], '.');
    }
    SplitJoin([a, b, c], '.');
  }

  /** Components after the third are ignored: "1.20.4.7" parses as "1.20.4". */
  lemma ExtraComponentsIgnored(a: string, b: string, c: string, tail: string)
    requires '.' !in a && '.' !in b && '.' !in c
    ensures VersionFromString(a + "." + b + "." + c + "." + tail) == VersionFromString(a + "." + b + "." + c)
  {
    var long := Split(a + "." + b + "." + c + "." + tail, '.');
    var short := Split(a + "." + b + "." + c, '.');
    assert a + "." + b + "." + c + "." + tail == a + ['.'] + (b + ['.'] + (c + ['.'] + tail));
    assert a + "." + b + "." + c == a + ['.'] + (b + ['.'] + c);
    SplitAfterSep(c, tail, '.');
    SplitAfterSep(b, c + ['.'] + tail, '.');
    SplitAfterSep(a, b + ['.'] + (c + ['.'] + tail), '.');
    SplitNoSep(c, '.');
    SplitAfterSep(b, c, '.');
    SplitAfterSep(a, b + ['.'] + c, '.');
    assert long[..3] == [a, b, c] == short;
    FirstThreeParts(long);
  }

  lemma FirstThreeParts(parts: seq<string>)
    requires |parts| >= 3
    ensures VersionOfParts(parts[..3]) == VersionOfParts(parts)
  {
    assert ComponentText(parts, 0) == ComponentText(parts[..3], 0);
    assert ComponentText(parts, 1) == ComponentText(parts[..3], 1);
    assert ComponentText(parts, 2) == ComponentText(parts[..3], 2);
  }

  // ---------------------------------------------------------------------------
  // VersionRange

  datatype VersionRange = VersionRange(min: Version, containMin: bool, max: Version, containMax: bool)

  const Any: VersionRange := VersionRange(NegativeInfinity, true, PositiveInfinity, true)

  /** `VersionRange.contains`, with JavaScript's comparisons (false on NaN). */
  predicate Contains(range: VersionRange, v: Version) {
    && AtMostZero(Compare(range.min, v)) && (range.containMin || BelowZero(Compare(range.min, v)))
    && AtLeastZero(Compare(range.max, v)) && (range.containMax || AboveZero(Compare(range.max, v)))
  }

  /** The whole-range version `ANY` contains every finite version. */
  lemma AnyContainsFinite(v: Version)
    requires Finite(v)
    ensures Contains(Any, v)
  {
  }

  datatype RangeError =
    /** `[a]` or `(a)` has no comma, so `parts[1]` is undefined and `Version.fromString(undefined)` throws. */
    MissingUpperBound

  predicate IsBracketForm(range: string) {
    (StartsWith(range, "[") || StartsWith(range, "("))
    && (EndsWith(range, "]") || EndsWith(range, ")"))
  }

  /** The text between the brackets of `[a,b]`, split on ','. */
  function BracketParts(range: string): (parts: seq<string>)
    ensures |parts| >= 1
  {
    Split(if |range| >= 2 then range[1..|range| - 1] else "", ',')
  }

  /** The bracket form: `[`/`(` make the lower end inclusive/exclusive, `]`/`)` the upper; an empty side is unbounded. */
  function ParseBracketRange(range: string): (r: Result<VersionRange, RangeError>)
    ensures r.Failure? <==> |BracketParts(range)| < 2
    ensures r.Success? ==>
      && r.value.containMin == StartsWith(range, "[")
      && r.value.containMax == EndsWith(range, "]")
      && (BracketParts(range)[0] == "" <==> r.value.min == NegativeInfinity)
      && (BracketParts(range)[1] == "" <==> r.value.max == PositiveInfinity)
    ensures r.Success? && BracketParts(range)[0] != "" ==> r.value.min == VersionFromString(BracketParts(range)[0])
    ensures r.Success? && BracketParts(range)[1] != "" ==> r.value.max == VersionFromString(BracketParts(range)[1])
  {
    var parts := BracketParts(range);
    var min := if parts[0] == "" then NegativeInfinity else VersionFromString(parts[0]);
    if |parts| < 2 then Failure(MissingUpperBound)
    else
      var max := if parts[1] == "" then PositiveInfinity else VersionFromString(parts[1]);
      assert VersionFromString(parts[0]) != NegativeInfinity;
      assert VersionFromString(parts[1]) != PositiveInfinity;
      Success(VersionRange(min, StartsWith(range, "["), max, EndsWith(range, "]")))
  }

  /** `VersionRange.fromString`: the tests run in the source's order. */
  function RangeFromString(range: string): (r: Result<VersionRange, RangeError>)
    ensures range == "*" ==> r == Success(Any)
    ensures range != "*" && IsBracketForm(range) ==> r == ParseBracketRange(range)
    ensures range != "*" && !IsBracketForm(range) ==> r.Success?
  {
    if range == "*" then Success(Any)
    else if IsBracketForm(range) then ParseBracketRange(range)
    else if StartsWith(range, ">=") then
      Success(VersionRange(VersionFromString(range[2..]), true, PositiveInfinity, false))
    else if StartsWith(range, ">") then
      Success(VersionRange(VersionFromString(range[1..]), false, PositiveInfinity, false))
    else if StartsWith(range, "<=") then
      Success(VersionRange(NegativeInfinity, false, VersionFromString(range[2..]), true))
    else if StartsWith(range, "<") then
      Success(VersionRange(NegativeInfinity, false, VersionFromString(range[1..]), false))
    else
      var v := VersionFromString(range);
      Success(VersionRange(v, true, v, true))
  }

  /** "[a,b]" with non-empty, comma-free sides is the closed range from the version of `a` to that of `b`. */
  lemma BracketForm(a: string, b: string)
    requires a != "" && b != "" && ',' !in a && ',' !in b
    ensures RangeFromString("[" + a + "," + b + "]") == Success(VersionRange(VersionFromString(a), true, VersionFromString(b), true))
  {
    var range := "[" + a + "," + b + "]";
    assert StartsWith(range, "[") && EndsWith(range, "]");
    assert range[1..|range| - 1] == a + [','] + b;
    SplitAfterSep(a, b, ',');
    SplitNoSep(b, ',');
    assert BracketParts(range) == [a, b];
  }

  /** A finite version is contained in a range whose ends are given as below. */
  lemma ContainsAt(min: Version, containMin: bool, max: Version, containMax: bool, v: Version)
    requires Finite(v)
    requires min == NegativeInfinity || Finite(min)
    requires max == PositiveInfinity || Finite(max)
    ensures Contains(VersionRange(min, containMin, max, containMax), v) <==>
      && (min == NegativeInfinity || LexLess(min, v) || (containMin && min == v))
      && (max == PositiveInfinity || LexLess(v, max) || (containMax && max == v))
  {
  }

  /** `>=t` reads the rest of the text as an inclusive lower bound. */
  lemma AtLeastForm(range: string)
    requires |range| >= 2 && range[0] == '>' && range[1] == '='
    ensures RangeFromString(range) == Success(VersionRange(VersionFromString(range[2..]), true, PositiveInfinity, false))
  {
    assert !StartsWith(range, "[") && !StartsWith(range, "(");
    assert range[..2] == ">=";
  }

  /** `>t` (not `>=`) reads the rest of the text as an exclusive lower bound. */
  lemma AboveForm(range: string)
    requires |range| >= 1 && range[0] == '>' && (|range| == 1 || range[1] != '=')
    ensures RangeFromString(range) == Success(VersionRange(VersionFromString(range[1..]), false, PositiveInfinity, false))
  {
    assert !StartsWith(range, "[") && !StartsWith(range, "(");
    assert !StartsWith(range, ">=");
    assert range[..1] == ">";
  }

  /** `<=t` reads the rest of the text as an inclusive upper bound. */
  lemma AtMostForm(range: string)
    requires |range| >= 2 && range[0] == '<' && range[1] == '='
    ensures RangeFromString(range) == Success(VersionRange(NegativeInfinity, false, VersionFromString(range[2..]), true))
  {
    assert !StartsWith(range, "[") && !StartsWith(range, "(");
    assert !StartsWith(range, ">=") && !StartsWith(range, ">");
    assert range[..2] == "<=";
  }

  /** `<t` (not `<=`) reads the rest of the text as an exclusive upper bound. */
  lemma BelowForm(range: string)
    requires |range| >= 1 && range[0] == '<' && (|range| == 1 || range[1] != '=')
    ensures RangeFromString(range) == Success(VersionRange(NegativeInfinity, false, VersionFromString(range[1..]), false))
  {
    assert !StartsWith(range, "[") && !StartsWith(range, "(");
    assert !StartsWith(range, ">=") && !StartsWith(range, ">") && !StartsWith(range, "<=");
    assert range[..1] == "<";
  }

  /** An exclusive end never contains the version at that end. */
  lemma ExclusiveEndsExcludeBound(v: Version)
    requires Finite(v)
    ensures !Contains(VersionRange(v, false, PositiveInfinity, false), v)
    ensures !Contains(VersionRange(NegativeInfinity, false, v, false), v)
  {
    ContainsAt(v, false, PositiveInfinity, false, v);
    ContainsAt(NegativeInfinity, false, v, false, v);
  }

  /** `>=t` contains the version `t` names. */
  lemma AtLeastContainsBound(t: string)
    requires Finite(VersionFromString(t))
    requires t == [] || t[0] != '='
    ensures RangeFromString(">=" + t).Success? && Contains(RangeFromString(">=" + t).value, VersionFromString(t))
  {
    var v := VersionFromString(t);
    assert RangeFromString(">=" + t) == Success(VersionRange(v, true, PositiveInfinity, false)) by {
      var ge := ">=" + t;
      assert ge[0] == '>' && ge[1] == '=' && ge[2..] == t;
      AtLeastForm(ge);
    }
    ContainsAt(v, true, PositiveInfinity, false, v);
  }

  /** `>t` does not contain the version `t` names (">=" is tested before ">"). */
  lemma AboveExcludesBound(t: string)
    requires Finite(VersionFromString(t))
    requires t == [] || t[0] != '='
    ensures RangeFromString(">" + t) == Success(VersionRange(VersionFromString(t), false, PositiveInfinity, false))
    ensures !Contains(VersionRange(VersionFromString(t), false, PositiveInfinity, false), VersionFromString(t))
  {
    var gt := ">" + t;
    assert gt[0] == '>' && gt[1..] == t;
    AboveForm(gt);
    ExclusiveEndsExcludeBound(VersionFromString(t));
  }

  /** `<=t` contains the version `t` names. */
  lemma AtMostContainsBound(t: string)
    requires Finite(VersionFromString(t))
    requires t == [] || t[0] != '='
    ensures RangeFromString("<=" + t).Success? && Contains(RangeFromString("<=" + t).value, VersionFromString(t))
  {
    var v := VersionFromString(t);
    assert RangeFromString("<=" + t) == Success(VersionRange(NegativeInfinity, false, v, true)) by {
      var le := "<=" + t;
      assert le[0] == '<' && le[1] == '=' && le[2..] == t;
      AtMostForm(le);
    }
    ContainsAt(NegativeInfinity, false, v, true, v);
  }

  /** `<t` does not contain the version `t` names ("<=" is tested before "<"). */
  lemma BelowExcludesBound(t: string)
    requires Finite(VersionFromString(t))
    requires t == [] || t[0] != '='
    ensures RangeFromString("<" + t).Success? && !Contains(RangeFromString("<" + t).value, VersionFromString(t))
  {
    var v := VersionFromString(t);
    assert RangeFromString("<" + t) == Success(VersionRange(NegativeInfinity, false, v, false)) by {
      var lt := "<" + t;
      assert lt[0] == '<' && lt[1..] == t;
      BelowForm(lt);
    }
    ContainsAt(NegativeInfinity, false, v, false, v);
  }

  /** A bare version text is the range of exactly the versions equal to it. */
  lemma BareVersionIsExact(text: string, v: Version)
    requires text != "*" && !IsBracketForm(text)
    requires text == [] || (text[0] != '>' && text[0] != '<')
    requires Finite(VersionFromString(text)) && Finite(v)
    ensures RangeFromString(text) == Success(VersionRange(VersionFromString(text), true, VersionFromString(text), true))
    ensures Contains(RangeFromString(text).value, v) <==> v == VersionFromString(text)
  {
    var w := VersionFromString(text);
    BareVersionRange(text);
    ContainsAt(w, true, w, true, v);
  }

  lemma BareVersionRange(text: string)
    requires text != "*" && !IsBracketForm(text)
    requires text == [] || (text[0] != '>' && text[0] != '<')
    ensures RangeFromString(text) == Success(VersionRange(VersionFromString(text), true, VersionFromString(text), true))
  {
    assert !StartsWith(text, ">=") && !StartsWith(text, ">") && !StartsWith(text, "<=") && !StartsWith(text, "<");
  }

  // ---------------------------------------------------------------------------
  // The version table and compareMC

  /** The two schema numbers the table holds for each game version. */
  datatype Formats = Formats(datapack: int, resources: int)

  /**
   * The version table: ids in the table's key order (newest first) and the
   * schema numbers of each id.
   */
  datatype Registry = Registry(ids: seq<string>, formats: map<string, Formats>)

  ghost predicate ValidRegistry(reg: Registry) {
    && (forall i, j :: 0 <= i < j < |reg.ids| ==> reg.ids[i] != reg.ids[j])
    && (forall id :: id in reg.formats <==> id in reg.ids)
  }

  /** `Array.prototype.indexOf`: the first position of `x`, or -1. */
  function IndexOf(ids: seq<string>, x: string): (r: int)
    ensures -1 <= r < |ids|
    ensures r == -1 <==> x !in ids
    ensures r >= 0 ==> ids[r] == x && forall k :: 0 <= k < r ==> ids[k] != x
  {
    if ids == [] then -1
    else if ids[0] == x then 0
    else
      var r := IndexOf(ids[1..], x);
      if r == -1 then -1 else r + 1
  }

  datatype VersionError = UnknownMinecraftVersion(first: string, second: string)

  /**
   * `Version.compareMC(mcv1, mcv2)`: index(mcv2) - index(mcv1), which is
   * positive when mcv1 is newer because the table lists the newest first;
   * it throws when either id is not in the table.
   */
  function CompareMC(reg: Registry, mcv1: string, mcv2: string): (r: Result<int, VersionError>)
    ensures r.Failure? <==> mcv1 !in reg.ids || mcv2 !in reg.ids
    ensures r.Success? ==> (r.value == 0 <==> mcv1 == mcv2)
    ensures r.Success? ==> (r.value > 0 <==> Newer(reg, mcv1, mcv2))
  {
    var index1 := IndexOf(reg.ids, mcv2);
    var index2 := IndexOf(reg.ids, mcv1);
    if index1 == -1 || index2 == -1 then Failure(UnknownMinecraftVersion(mcv1, mcv2))
    else Success(index1 - index2)
  }

  /** `a` comes before `b` in the table, so it is the newer version. */
  predicate Newer(reg: Registry, a: string, b: string)
    requires a in reg.ids && b in reg.ids
  {
    IndexOf(reg.ids, a) < IndexOf(reg.ids, b)
  }

  /** `compareMC(a, b) == -compareMC(b, a)` whenever both are defined. */
  lemma CompareMCAntisymmetric(reg: Registry, a: string, b: string)
    requires a in reg.ids && b in reg.ids
    ensures CompareMC(reg, a, b).Success? && CompareMC(reg, b, a).Success?
    ensures CompareMC(reg, a, b).value == -CompareMC(reg, b, a).value
  {
  }

  /** Table order is a strict total order on the ids of a valid table. */
  lemma NewerIsStrictTotalOrder(reg: Registry, a: string, b: string, c: string)
    requires ValidRegistry(reg)
    requires a in reg.ids && b in reg.ids && c in reg.ids
    ensures !Newer(reg, a, a)
    ensures a != b ==> Newer(reg, a, b) || Newer(reg, b, a)
    ensures Newer(reg, a, b) && Newer(reg, b, c) ==> Newer(reg, a, c)
  {
  }
}
