/**
 * The JavaScript string operations the pack builder relies on, over `seq<char>`:
 * `startsWith`, `endsWith`, `split` and `join` on a one-character separator,
 * `trim` and ASCII lower-casing.
 */
module Strings {
  import opened Seqs

  predicate StartsWith(s: string, prefix: string) {
    |prefix| <= |s| && s[..|prefix|] == prefix
  }

  predicate EndsWith(s: string, suffix: string) {
    |suffix| <= |s| && s[|s| - |suffix|..] == suffix
  }

  /** `s.split(sep)`: never empty, and no piece contains the separator. */
  function Split(s: string, sep: char): (parts: seq<string>)
    ensures |parts| >= 1
    ensures forall i :: 0 <= i < |parts| ==> sep !in parts[i]
  {
    if s == [] then [""]
    else
      var rest := Split(s[1..], sep);
      if s[0] == sep then [""] + rest
      else [[s[0]] + rest[0]] + rest[1..]
  }

  /** `parts.join(sep)`; `[].join(sep)` is the empty string. */
  function Join(parts: seq<string>, sep: char): string {
    if |parts| == 0 then ""
    else if |parts| == 1 then parts[0]
    else parts[0] + [sep] + Join(parts[1..], sep)
  }

  /** Joining the pieces of a split gives the string back. */
  lemma {:induction false} JoinSplit(s: string, sep: char)
    ensures Join(Split(s, sep), sep) == s
  {
    if s != [] {
      var rest := Split(s[1..], sep);
      JoinSplit(s[1..], sep);
      if s[0] == sep {
        assert Split(s, sep) == [""] + rest;
        assert Join([""] + rest, sep) == "" + [sep] + Join(rest, sep) by {
          assert ([""] + rest)[1..] == rest;
        }
        assert s == [s[0]] + s[1..];
      } else {
        var first := [s[0]] + rest[0];
        assert Split(s, sep) == [first] + rest[1..];
        if |rest| == 1 {
          assert Join([first], sep) == first;
          assert Join(rest, sep) == rest[0];
        } else {
          assert Join([first] + rest[1..], sep) == first + [sep] + Join(rest[1..], sep) by {
            assert ([first] + rest[1..])[1..] == rest[1..];
          }
          assert Join(rest, sep) == rest[0] + [sep] + Join(rest[1..], sep);
        }
        assert s == [s[0]] + s[1..];
      }
    }
  }

  /** Splitting a join of separator-free pieces gives the pieces back. */
  lemma {:induction false} SplitJoin(parts: seq<string>, sep: char)
    requires |parts| >= 1
    requires forall i :: 0 <= i < |parts| ==> sep !in parts[i]
    ensures Split(Join(parts, sep), sep) == parts
    decreases |parts|
  {
    if |parts| == 1 {
      SplitNoSep(parts[0], sep);
    } else {
      SplitJoin(parts[1..], sep);
      SplitAfterSep(parts[0], Join(parts[1..], sep), sep);
      assert [parts[0]] + parts[1..] == parts;
    }
  }

  /** A suffix of `b` is a suffix of `a + b`. */
  lemma EndsWithAppend(a: string, b: string, c: string)
    requires EndsWith(b, c)
    ensures EndsWith(a + b, c)
  {
    assert (a + b)[|a + b| - |c|..] == b[|b| - |c|..];
  }

  /** Joining the pieces from `k` on gives a suffix of the whole join. */
  lemma {:induction false} JoinDropIsSuffix(parts: seq<string>, sep: char, k: nat)
    requires k <= |parts|
    ensures EndsWith(Join(parts, sep), Join(parts[k..], sep))
    decreases k
  {
    var whole := Join(parts, sep);
    if k == 0 {
      assert parts[0..] == parts;
      assert whole[|whole| - |whole|..] == whole;
    } else if |parts| == 1 {
      assert parts[k..] == [];
      assert whole[|whole|..] == "";
    } else {
      JoinDropIsSuffix(parts[1..], sep, k - 1);
      assert parts[1..][k - 1..] == parts[k..];
      EndsWithAppend(parts[0] + [sep], Join(parts[1..], sep), Join(parts[k..], sep));
    }
  }

  /** A string without the separator splits into itself. */
  lemma {:induction false} SplitNoSep(s: string, sep: char)
    requires sep !in s
    ensures Split(s, sep) == [s]
  {
    if s != [] {
      assert sep !in s[1..];
      SplitNoSep(s[1..], sep);
      assert [s[0]] + s[1..] == s;
    }
  }

  /** `(a + sep + b).split(sep)` is `[a]` followed by the pieces of `b`, when `a` has no separator. */
  lemma {:induction false} SplitAfterSep(a: string, b: string, sep: char)
    requires sep !in a
    ensures Split(a + [sep] + b, sep) == [a] + Split(b, sep)
  {
    if a == [] {
      assert a + [sep] + b == [sep] + b;
      assert ([sep] + b)[1..] == b;
    } else {
      assert (a + [sep] + b)[1..] == a[1..] + [sep] + b;
      assert sep !in a[1..];
      SplitAfterSep(a[1..], b, sep);
      assert [a[0]] + a[1..] == a;
    }
  }

  /** A string starts with `seg` and a separator exactly when `seg` is its first piece and another piece follows. */
  lemma StartsWithSegment(s: string, seg: string, sep: char)
    requires sep !in seg
    ensures StartsWith(s, seg + [sep]) <==> (|Split(s, sep)| >= 2 && Split(s, sep)[0] == seg)
  {
    if StartsWith(s, seg + [sep]) {
      var rest := s[|seg| + 1..];
      assert s == seg + [sep] + rest;
      SplitAfterSep(seg, rest, sep);
    }
    var parts := Split(s, sep);
    if |parts| >= 2 && parts[0] == seg {
      JoinSplit(s, sep);
      assert s == seg + [sep] + Join(parts[1..], sep);
      assert s[..|seg| + 1] == seg + [sep];
    }
  }

  /** The white space that `String.prototype.trim` removes, restricted to ASCII. */
  predicate IsSpace(c: char) {
    c == ' ' || c == '\t' || c == '\n' || c == '\r' || c == '\U{B}' || c == '\U{C}'
  }

  /** Every character of `s` at an index in `[lo, hi)` is white space. */
  predicate SpaceIn(s: string, lo: int, hi: int) {
    0 <= lo <= hi <= |s| && forall k :: lo <= k < hi ==> IsSpace(s[k])
  }

  /** The length of the run of white space that `s` starts with. */
  function LeadingSpace(s: string): (n: nat)
    ensures n <= |s| && SpaceIn(s, 0, n)
    ensures n == |s| || !IsSpace(s[n])
  {
    if s != [] && IsSpace(s[0]) then
      var m := LeadingSpace(s[1..]);
      SpaceInDrop(s, 1, 0, m);
      1 + m
    else 0
  }

  /** Where the run of white space that `s` ends with begins. */
  function TrailingStart(s: string): (n: nat)
    ensures n <= |s| && SpaceIn(s, n, |s|)
    ensures n == 0 || !IsSpace(s[n - 1])
  {
    if s != [] && IsSpace(s[|s| - 1]) then
      var m := TrailingStart(s[..|s| - 1]);
      SpaceInTake(s, |s| - 1, m, |s| - 1);
      m
    else |s|
  }

  /** The white space at the start is removed, and only that. */
  function TrimStart(s: string): (r: string)
    ensures |r| <= |s| && r == s[|s| - |r|..]
    ensures SpaceIn(s, 0, |s| - |r|)
    ensures r == [] || !IsSpace(r[0])
  {
    s[LeadingSpace(s)..]
  }

  /** The white space at the end is removed, and only that. */
  function TrimEnd(s: string): (r: string)
    ensures |r| <= |s| && r == s[..|r|]
    ensures SpaceIn(s, |r|, |s|)
    ensures r == [] || !IsSpace(r[|r| - 1])
  {
    s[..TrailingStart(s)]
  }

  /**
   * `s.trim()`: the slice of `s` left when the white space at both ends is
   * removed; it neither starts nor ends with white space.
   */
  function Trim(s: string): (r: string)
    ensures r == [] || (!IsSpace(r[0]) && !IsSpace(r[|r| - 1]))
    ensures exists i, j :: 0 <= i <= j <= |s| && r == s[i..j] && SpaceIn(s, 0, i) && SpaceIn(s, j, |s|)
  {
    var t := TrimStart(s);
    var r := TrimEnd(t);
    var i := |s| - |t|;
    SliceOfSuffix(s, i, |r|);
    SpaceInDrop(s, i, |r|, |t|);
    r
  }

  /** White space in a suffix of `s` is white space of `s`, shifted. */
  lemma SpaceInDrop(s: string, d: nat, lo: int, hi: int)
    requires d <= |s| && SpaceIn(s[d..], lo, hi)
    ensures SpaceIn(s, lo + d, hi + d)
  {
    forall k | lo + d <= k < hi + d
      ensures IsSpace(s[k])
    {
      assert s[d..][k - d] == s[k];
    }
  }

  /** White space in a prefix of `s` is white space of `s`. */
  lemma SpaceInTake(s: string, m: nat, lo: int, hi: int)
    requires m <= |s| && SpaceIn(s[..m], lo, hi)
    ensures SpaceIn(s, lo, hi)
  {
    forall k | lo <= k < hi
      ensures IsSpace(s[k])
    {
      assert s[..m][k] == s[k];
    }
  }

  /** A run of white space followed by a non-space is the leading run. */
  lemma LeadingSpaceAt(s: string, i: nat)
    requires i <= |s| && SpaceIn(s, 0, i) && (i == |s| || !IsSpace(s[i]))
    ensures LeadingSpace(s) == i
  {
  }

  /** A run of white space after a non-space is the trailing run. */
  lemma TrailingStartAt(s: string, j: nat)
    requires j <= |s| && SpaceIn(s, j, |s|) && (j == 0 || !IsSpace(s[j - 1]))
    ensures TrailingStart(s) == j
  {
  }

  /**
   * `trim` is the only slice without white space at its ends whose removed
   * prefix and suffix are all white space.
   */
  lemma TrimIsUnique(s: string, i: nat, j: nat)
    requires i <= j <= |s| && SpaceIn(s, 0, i) && SpaceIn(s, j, |s|)
    requires i == j || (!IsSpace(s[i]) && !IsSpace(s[j - 1]))
    ensures Trim(s) == s[i..j]
  {
    if i == j {
      assert SpaceIn(s, 0, |s|);
      LeadingSpaceAt(s, |s|);
    } else {
      LeadingSpaceAt(s, i);
      var t := s[i..];
      SliceOfSuffix(s, i, j - i);
      assert SpaceIn(t, j - i, |t|) by {
        forall k | j - i <= k < |t| ensures IsSpace(t[k]) {
          assert t[k] == s[k + i];
        }
      }
      TrailingStartAt(t, j - i);
    }
  }

  /** ASCII `toLowerCase` of one character. */
  function LowerChar(c: char): char {
    if 'A' <= c <= 'Z' then (c as int + 32) as char else c
  }

  predicate IsAsciiLowerOrDigit(c: char) {
    ('a' <= c <= 'z') || ('0' <= c <= '9')
  }
}
