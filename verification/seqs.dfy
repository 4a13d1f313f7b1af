/**
 * Facts about sequences that the walks and loops of the other modules use.
 * Each is stated on its own, away from the functions of those modules, so
 * that a proof about them needs only the equation.
 */
module Seqs {
  lemma TakeSnoc<T>(s: seq<T>, i: nat)
    requires i < |s|
    ensures s[..i + 1] == s[..i] + [s[i]]
  {
    assert s[..i + 1] == s[..i] + [s[i]];
  }

  lemma SliceOfSuffix<T>(s: seq<T>, i: nat, n: nat)
    requires i + n <= |s|
    ensures s[i..][..n] == s[i..i + n] && s[i..][n..] == s[i + n..]
  {
    assert s[i..][..n] == s[i..i + n];
    assert s[i..][n..] == s[i + n..];
  }

  lemma TakeAll<T>(s: seq<T>)
    ensures s[..|s|] == s
  {
    assert s[..|s|] == s;
  }

  lemma InitLast<T>(s: seq<T>)
    requires s != []
    ensures s[..|s| - 1] + [s[|s| - 1]] == s
  {
    assert s[..|s| - 1] + [s[|s| - 1]] == s;
  }

  lemma DropLast<T>(a: seq<T>, x: T)
    ensures (a + [x])[..|a|] == a && (a + [x])[|a|] == x
  {
    assert (a + [x])[..|a|] == a;
  }

  lemma MoveFirst<T>(a: seq<T>, s: seq<T>)
    requires s != []
    ensures (a + [s[0]]) + s[1..] == a + s
  {
    assert (a + [s[0]]) + s[1..] == a + s;
  }

  lemma AppendAssoc<T>(a: seq<T>, b: seq<T>, c: seq<T>)
    ensures a + b + c == a + (b + c)
  {
  }

  lemma PrefixExtend<T>(main: seq<T>, a: seq<T>, b: seq<T>)
    requires a <= b
    ensures main + a <= main + b
  {
    assert main + a == (main + b)[..|main| + |a|];
  }
}
