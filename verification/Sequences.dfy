/** Facts about concatenation and slicing, stated once so that no proof has to search for them. */
module Sequences {

  lemma Assoc<T>(x: seq<T>, y: seq<T>, z: seq<T>)
    ensures x + (y + z) == x + y + z
  {
  }

  lemma Cancel<T>(x: seq<T>, y: seq<T>, z: seq<T>)
    ensures x + y <= x + z ==> y <= z
    ensures x + y == x + z ==> y == z
  {
    assert (x + y)[|x|..] == y && (x + z)[|x|..] == z;
  }

  lemma SumParts<T>(x: seq<T>, y: seq<T>)
    ensures (x + y)[..|x|] == x && (x + y)[|x|..] == y
  {
  }

  lemma TakeNext<T>(s: seq<T>, i: nat)
    requires i < |s|
    ensures s[..i + 1] == s[..i] + [s[i]]
  {
  }

  lemma DropNext<T>(s: seq<T>, i: nat)
    requires i < |s|
    ensures s[i..] == [s[i]] + s[i + 1..] && s[i..][1..] == s[i + 1..]
  {
  }

  lemma SliceNext<T>(s: seq<T>, i: nat, k: nat)
    requires i < k <= |s|
    ensures s[i..k] == [s[i]] + s[i + 1..k]
  {
  }

  /** A prefix of a + [x] + b ends inside a, or after x. */
  lemma PrefixPastOne<T>(p: seq<T>, a: seq<T>, x: T, b: seq<T>)
    requires p <= a + [x] + b
    ensures |p| <= |a| ==> p == a[..|p|]
    ensures |p| > |a| ==> p == a + [x] + p[|a| + 1..] && p[|a| + 1..] <= b
  {
  }

  lemma SplitTake<T>(s: seq<T>, i: nat, k: nat)
    requires i <= k <= |s|
    ensures s[..k] == s[..i] + s[i..k]
  {
  }

  lemma CutOfSum<T>(x: seq<T>, y: seq<T>, k: nat, m: nat)
    requires k <= m <= |x|
    ensures (x + y)[..k] == x[..k] && (x + y)[m..] == x[m..] + y
  {
  }
}
