/**
 The word-level Levenshtein distance of corpus/score.py: a loop that overwrites a
 single row in place.  The loop is proved to return the length of a shortest script of
 single-word edits, and the distance it computes is proved to be a metric.
 */
module EditDistance {

  function Min(a: nat, b: nat): nat {
    if a <= b then a else b
  }

  /** Cost of pairing two words: 0 when they are the same word, 1 otherwise. */
  function Mismatch<T(==)>(x: T, y: T): nat {
    if x == y then 0 else 1
  }

  /** The two-index recursion, written on prefixes. */
  function Dist<T(==)>(a: seq<T>, b: seq<T>): nat
    decreases |a| + |b|
  {
    if a == [] then |b|
    else if b == [] then |a|
    else
      var a', b' := a[..|a| - 1], b[..|b| - 1];
      Min(Min(Dist(a', b) + 1, Dist(a, b') + 1), Dist(a', b') + Mismatch(a[|a| - 1], b[|b| - 1]))
  }

  // ----- Edit scripts: the meaning of "number of edits" -----

  /** One edit at a position of the current word list. */
  datatype Edit<T> = Insert(pos: nat, word: T) | Delete(pos: nat) | Replace(pos: nat, word: T)

  predicate Fits<T>(e: Edit<T>, s: seq<T>) {
    if e.Insert? then e.pos <= |s| else e.pos < |s|
  }

  function Apply<T>(e: Edit<T>, s: seq<T>): seq<T>
    requires Fits(e, s)
  {
    match e
    case Insert(p, w) => s[..p] + [w] + s[p..]
    case Delete(p) => s[..p] + s[p + 1..]
    case Replace(p, w) => s[p := w]
  }

  /** The edits of `script`, made one after the other, turn `from` into `to`. */
  ghost predicate Turns<T>(script: seq<Edit<T>>, from: seq<T>, to: seq<T>)
    decreases |script|
  {
    if script == [] then from == to
    else Fits(script[0], from) && Turns(script[1..], Apply(script[0], from), to)
  }

  // ----- The loop -----

  /** The table entry for the first i reference words and the first j transcript words. */
  function Cell<T(==)>(a: seq<T>, b: seq<T>, i: nat, j: nat): nat
    requires i <= |a| && j <= |b|
  {
    Dist(a[..i], b[..j])
  }

  lemma DistCell<T>(a: seq<T>, b: seq<T>, i: nat, j: nat)
    requires i < |a| && j < |b|
    ensures Cell(a, b, i + 1, j + 1) ==
            Min(Min(Cell(a, b, i, j + 1) + 1, Cell(a, b, i + 1, j) + 1), Cell(a, b, i, j) + Mismatch(a[i], b[j]))
  {
    assert a[..i + 1][..i] == a[..i] && b[..j + 1][..j] == b[..j];
  }

  /** The distance is the least number of single-word edits. */
  lemma DistIsLeastScript<T>(ref: seq<T>, hyp: seq<T>)
    ensures exists script :: Turns(script, ref, hyp) && |script| == Dist(ref, hyp)
    ensures forall script :: Turns(script, ref, hyp) ==> Dist(ref, hyp) <= |script|
  {
    var script := ShortestScript(ref, hyp);
    forall s | Turns(s, ref, hyp) ensures Dist(ref, hyp) <= |s| { ScriptIsLongEnough(s, ref, hyp); }
  }

  /** The row holds the table's entries for the first i reference words. */
  ghost predicate IsRow<T>(row: array<nat>, ref: seq<T>, hyp: seq<T>, i: nat)
    requires i <= |ref|
    reads row
  {
    row.Length == |hyp| + 1 && forall k :: 0 <= k <= |hyp| ==> row[k] == Cell(ref, hyp, i, k)
  }

  /** The inner loop: the row is overwritten in place, `prev` keeps the diagonal. */
  method NextRow<T(==)>(row: array<nat>, ref: seq<T>, hyp: seq<T>, i: nat)
    requires i < |ref| && IsRow(row, ref, hyp, i)
    modifies row
    ensures IsRow(row, ref, hyp, i + 1)
  {
    var prev := row[0];
    row[0] := i + 1;
    var j := 0;
    while j < |hyp|
      invariant j <= |hyp|
      invariant prev == Cell(ref, hyp, i, j)
      invariant forall k :: 0 <= k <= j ==> row[k] == Cell(ref, hyp, i + 1, k)
      invariant forall k :: j < k <= |hyp| ==> row[k] == Cell(ref, hyp, i, k)
    {
      DistCell(ref, hyp, i, j);
      j := j + 1;
      prev, row[j] := row[j], Min(Min(row[j] + 1, row[j - 1] + 1), prev + Mismatch(ref[i], hyp[j - 1]));
    }
  }

  /** corpus/score.py:60-66, with `row` as a real array. */
  method Edits<T(==)>(ref: seq<T>, hyp: seq<T>) returns (cost: nat)
    ensures cost == Dist(ref, hyp)
    ensures exists script :: Turns(script, ref, hyp) && |script| == cost
    ensures forall script :: Turns(script, ref, hyp) ==> cost <= |script|
  {
    var row := new nat[|hyp| + 1](j => j);
    var i := 0;
    while i < |ref|
      invariant i <= |ref| && IsRow(row, ref, hyp, i)
    {
      NextRow(row, ref, hyp, i);
      i := i + 1;
    }
    cost := row[|hyp|];
    assert ref[..i] == ref && hyp[..|hyp|] == hyp;
    DistIsLeastScript(ref, hyp);
  }

  // ----- Metric laws -----

  lemma {:induction false} Bounds<T>(a: seq<T>, b: seq<T>)
    ensures |a| - |b| <= Dist(a, b) && |b| - |a| <= Dist(a, b)
    ensures Dist(a, b) <= if |a| <= |b| then |b| else |a|
    decreases |a| + |b|
  {
    if a != [] && b != [] {
      var a', b' := a[..|a| - 1], b[..|b| - 1];
      Bounds(a', b);
      Bounds(a, b');
      Bounds(a', b');
    }
  }

  lemma {:induction false} Symmetric<T>(a: seq<T>, b: seq<T>)
    ensures Dist(a, b) == Dist(b, a)
    decreases |a| + |b|
  {
    if a != [] && b != [] {
      var a', b' := a[..|a| - 1], b[..|b| - 1];
      Symmetric(a', b);
      Symmetric(a, b');
      Symmetric(a', b');
    }
  }

  lemma {:induction false} ZeroIffEqual<T>(a: seq<T>, b: seq<T>)
    ensures Dist(a, b) == 0 <==> a == b
  {
    if a != [] && b != [] {
      var a', b' := a[..|a| - 1], b[..|b| - 1];
      ZeroIffEqual(a', b');
      assert a == a' + [a[|a| - 1]] && b == b' + [b[|b| - 1]];
    }
  }

  lemma {:induction false} Triangle<T>(a: seq<T>, b: seq<T>, c: seq<T>)
    ensures Dist(a, c) <= Dist(a, b) + Dist(b, c)
    decreases |a| + |b| + |c|
  {
    Bounds(a, b);
    Bounds(b, c);
    Bounds(a, c);
    if a != [] && b != [] && c != [] {
      var a', b', c' := a[..|a| - 1], b[..|b| - 1], c[..|c| - 1];
      Triangle(a', b, c);
      Triangle(a, b, c');
      Triangle(a, b', c);
      Triangle(a, b', c');
      Triangle(a', b', c);
      Triangle(a', b', c');
    }
  }

  /** A refused clip is charged every reference word (corpus/score.py:78-81): that is the
      distance to the empty transcript. */
  lemma RefusedCost<T>(ref: seq<T>)
    ensures Dist(ref, []) == |ref| && Dist([], ref) == |ref|
  {
  }

  // ----- The recursion counts edits -----

  lemma {:induction false} CommonSuffix<T>(u: seq<T>, v: seq<T>, s: seq<T>)
    ensures Dist(u + s, v + s) <= Dist(u, v)
    decreases |s|
  {
    if s == [] {
      assert u + s == u && v + s == v;
    } else {
      var s', x := s[..|s| - 1], s[|s| - 1];
      assert (u + s)[..|u + s| - 1] == u + s' && (v + s)[..|v + s| - 1] == v + s';
      CommonSuffix(u, v, s');
    }
  }

  lemma Front<T>(head: seq<T>, u: seq<T>)
    requires |u| <= 1
    ensures (head + u)[..|head|] == head && (u == [] ==> head + u == head)
  {
  }

  /** Lists that differ in at most their last word are at distance at most one. */
  lemma LastOnly<T>(head: seq<T>, u: seq<T>, v: seq<T>)
    requires |u| <= 1 && |v| <= 1
    ensures Dist(head + u, head + v) <= 1
  {
    ZeroIffEqual(head, head);
    Front(head, u);
    Front(head, v);
    FrontDist(head + u, head + v, head);
  }

  lemma FrontDist<T>(a: seq<T>, b: seq<T>, head: seq<T>)
    requires |head| <= |a| <= |head| + 1 && |head| <= |b| <= |head| + 1
    requires a[..|head|] == head == b[..|head|] && Dist(head, head) == 0
    requires (|a| == |head| ==> a == head) && (|b| == |head| ==> b == head)
    ensures Dist(a, b) <= 1
  {
  }

  /** Replacing at most one word in the middle of a list. */
  lemma MiddleOnly<T>(head: seq<T>, u: seq<T>, v: seq<T>, tail: seq<T>)
    requires |u| <= 1 && |v| <= 1
    ensures Dist(head + u + tail, head + v + tail) <= 1
  {
    LastOnly(head, u, v);
    CommonSuffix(head + u, head + v, tail);
  }

  /** One edit changes the distance by at most one. */
  lemma OneEdit<T>(e: Edit<T>, s: seq<T>)
    requires Fits(e, s)
    ensures Dist(s, Apply(e, s)) <= 1
  {
    var p := e.pos;
    match e
    case Insert(_, w) =>
      assert s == s[..p] + [] + s[p..];
      MiddleOnly(s[..p], [], [w], s[p..]);
    case Delete(_) =>
      assert s == s[..p] + [s[p]] + s[p + 1..] && Apply(e, s) == s[..p] + [] + s[p + 1..];
      MiddleOnly(s[..p], [s[p]], [], s[p + 1..]);
    case Replace(_, w) =>
      assert s == s[..p] + [s[p]] + s[p + 1..] && Apply(e, s) == s[..p] + [w] + s[p + 1..];
      MiddleOnly(s[..p], [s[p]], [w], s[p + 1..]);
  }

  /** No script is shorter than the distance. */
  lemma {:induction false} ScriptIsLongEnough<T>(script: seq<Edit<T>>, from: seq<T>, to: seq<T>)
    requires Turns(script, from, to)
    ensures Dist(from, to) <= |script|
    decreases |script|
  {
    if script == [] {
      ZeroIffEqual(from, to);
    } else {
      var next := Apply(script[0], from);
      OneEdit(script[0], from);
      ScriptIsLongEnough(script[1..], next, to);
      Triangle(from, next, to);
    }
  }

  lemma HeadAndTail<T>(p: seq<T>, q: seq<T>)
    requires p != []
    ensures p + q != [] && (p + q)[0] == p[0] && (p + q)[1..] == p[1..] + q
  {
  }

  lemma {:induction false} TurnsAppend<T>(p: seq<Edit<T>>, q: seq<Edit<T>>, a: seq<T>, b: seq<T>, c: seq<T>)
    requires Turns(p, a, b) && Turns(q, b, c)
    ensures Turns(p + q, a, c)
    decreases |p|
  {
    if p == [] {
      assert p + q == q;
    } else {
      HeadAndTail(p, q);
      TurnsAppend(p[1..], q, Apply(p[0], a), b, c);
    }
  }

  lemma ApplyUnderSuffix<T>(e: Edit<T>, a: seq<T>, s: seq<T>)
    requires Fits(e, a)
    ensures Fits(e, a + s) && Apply(e, a + s) == Apply(e, a) + s
  {
    match e
    case Insert(p, w) => Spliced(a, s, p, [w], p);
    case Delete(p) => Spliced(a, s, p, [], p + 1);
    case Replace(p, w) => Spliced(a, s, p, [w], p + 1);
  }

  lemma Spliced<T>(a: seq<T>, s: seq<T>, p: nat, mid: seq<T>, q: nat)
    requires p <= q <= |a|
    ensures (a + s)[..p] + mid + (a + s)[q..] == a[..p] + mid + a[q..] + s
    ensures mid == [] ==> (a + s)[..p] + (a + s)[q..] == a[..p] + a[q..] + s
    ensures |mid| == 1 && q == p + 1 ==> (a + s)[p := mid[0]] == a[p := mid[0]] + s
  {
    assert (a + s)[..p] == a[..p] && (a + s)[q..] == a[q..] + s;
  }

  /** A script still works with further words to the right of everything it touches. */
  lemma {:induction false} TurnsUnderSuffix<T>(p: seq<Edit<T>>, a: seq<T>, b: seq<T>, s: seq<T>)
    requires Turns(p, a, b)
    ensures Turns(p, a + s, b + s)
    decreases |p|
  {
    if p != [] {
      ApplyUnderSuffix(p[0], a, s);
      TurnsUnderSuffix(p[1..], Apply(p[0], a), b, s);
    }
  }

  /** Doing `p` and then one more edit. */
  lemma TurnsThen<T>(p: seq<Edit<T>>, e: Edit<T>, a: seq<T>, b: seq<T>)
    requires Turns(p, a, b) && Fits(e, b)
    ensures Turns(p + [e], a, Apply(e, b))
  {
    assert [e][1..] == [];
    TurnsAppend(p, [e], a, b, Apply(e, b));
  }

  /** The distance is reached by a script. */
  lemma {:induction false} ShortestScript<T>(a: seq<T>, b: seq<T>) returns (script: seq<Edit<T>>)
    ensures Turns(script, a, b) && |script| == Dist(a, b)
    decreases |a| + |b|
  {
    if a == [] && b == [] {
      script := [];
    } else if b == [] || (a != [] && Dist(a, b) == Dist(a[..|a| - 1], b) + 1) {
      script := DropLast(a, b);
    } else if a == [] || Dist(a, b) == Dist(a, b[..|b| - 1]) + 1 {
      script := AddLast(a, b);
    } else {
      script := PairLast(a, b);
    }
  }

  lemma {:induction false} DropLast<T>(a: seq<T>, b: seq<T>) returns (script: seq<Edit<T>>)
    requires a != []
    ensures Turns(script, a, b) && |script| == Dist(a[..|a| - 1], b) + 1
    decreases |a| + |b|, 0
  {
    var a' := a[..|a| - 1];
    var rest := ShortestScript(a', b);
    var e := Delete(|a'|);
    script := [e] + rest;
    assert Apply(e, a) == a' && script[1..] == rest;
  }

  lemma {:induction false} AddLast<T>(a: seq<T>, b: seq<T>) returns (script: seq<Edit<T>>)
    requires b != []
    ensures Turns(script, a, b) && |script| == Dist(a, b[..|b| - 1]) + 1
    decreases |a| + |b|, 0
  {
    var b' := b[..|b| - 1];
    var e := Insert(|b'|, b[|b'|]);
    var rest := ShortestScript(a, b');
    assert Apply(e, b') == b;
    TurnsThen(rest, e, a, b');
    script := rest + [e];
  }

  lemma {:induction false} PairLast<T>(a: seq<T>, b: seq<T>) returns (script: seq<Edit<T>>)
    requires a != [] && b != []
    ensures Turns(script, a, b)
    ensures |script| == Dist(a[..|a| - 1], b[..|b| - 1]) + Mismatch(a[|a| - 1], b[|b| - 1])
    decreases |a| + |b|, 0
  {
    var rest := ShortestScript(a[..|a| - 1], b[..|b| - 1]);
    script := ThenPair(rest, a, b);
  }

  lemma ThenPair<T>(rest: seq<Edit<T>>, a: seq<T>, b: seq<T>) returns (script: seq<Edit<T>>)
    requires a != [] && b != [] && Turns(rest, a[..|a| - 1], b[..|b| - 1])
    ensures Turns(script, a, b) && |script| == |rest| + Mismatch(a[|a| - 1], b[|b| - 1])
  {
    var a', b' := a[..|a| - 1], b[..|b| - 1];
    var x, y := a[|a'|], b[|b'|];
    assert a' + [x] == a && b' + [y] == b;
    TurnsUnderSuffix(rest, a', b', [x]);
    script := rest;
    if x != y {
      var e := Replace(|b'|, y);
      assert Apply(e, b' + [x]) == b' + [y];
      TurnsThen(script, e, a, b' + [x]);
      script := script + [e];
    }
  }
}
