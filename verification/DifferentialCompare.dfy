/**
 The comparator and the input shrinker of the eager/compiled differential
 (scripts/differential_compile.py).  An array is its shape, its element type and the raw bits of
 its elements in C order; a unit is a pair of functions that may raise.
 */
module DifferentialCompare {
  import opened Arith
  import opened Wrappers

  function Product(shape: seq<nat>): nat {
    if shape == [] then 1 else shape[0] * Product(shape[1..])
  }

  datatype Raw = Raw(shape: seq<nat>, dtype: string, bits: seq<nat>)

  type NdArray = a: Raw | |a.bits| == Product(a.shape) witness Raw([0], "float32", [])

  // ----- Comparing two captures -----

  /** The first position at which two flat arrays differ, else -1. */
  function FirstDiffIndex(a: seq<nat>, b: seq<nat>): (k: int)
    requires |a| == |b|
    ensures k == -1 <==> a == b
    ensures a != b ==> 0 <= k < |a| && a[k] != b[k] && a[..k] == b[..k]
  {
    if a == [] then -1
    else if a[0] != b[0] then 0
    else
      var k := FirstDiffIndex(a[1..], b[1..]);
      assert a == [a[0]] + a[1..] && b == [b[0]] + b[1..];
      assert k >= 0 ==> a[..k + 1] == [a[0]] + a[1..][..k] && b[..k + 1] == [b[0]] + b[1..][..k];
      if k == -1 then -1 else k + 1
  }

  /** Item size is a property of the element type. */
  predicate BitwiseEqual(itemSize: string -> nat, a: NdArray, b: NdArray) {
    a.shape == b.shape && itemSize(a.dtype) == itemSize(b.dtype) && a.bits == b.bits
  }

  datatype Detail =
    | Arity(eager: nat, compiled: nat)
    | Shape(output: nat, eagerShape: seq<nat>, compiledShape: seq<nat>)
    | DType(output: nat, eagerType: string, compiledType: string)
    | Value(output: nat, index: int, eagerBits: nat, compiledBits: nat)

  /** What a reported divergence says about the two lists of outputs: the first output that
      differs, the first of shape, type and bits that differs there, and the first element. */
  ghost predicate Explains(d: Detail, a: seq<NdArray>, b: seq<NdArray>) {
    match d
    case Arity(m, n) => m == |a| && n == |b| && m != n
    case Shape(j, s, t) => FirstOutput(a, b, j) && a[j].shape == s && b[j].shape == t && s != t
    case DType(j, s, t) =>
      FirstOutput(a, b, j) && a[j].shape == b[j].shape && a[j].dtype == s && b[j].dtype == t && s != t
    case Value(j, k, x, y) =>
      && FirstOutput(a, b, j) && a[j].shape == b[j].shape && a[j].dtype == b[j].dtype
      && 0 <= k < |a[j].bits| && a[j].bits[k] == x && b[j].bits[k] == y && x != y && a[j].bits[..k] == b[j].bits[..k]
  }

  ghost predicate FirstOutput(a: seq<NdArray>, b: seq<NdArray>, j: nat) {
    |a| == |b| && j < |a| && a[..j] == b[..j] && a[j] != b[j]
  }

  /** A reported divergence is real, and the outputs determine it. */
  lemma ExplanationIsUnique(d: Detail, e: Detail, a: seq<NdArray>, b: seq<NdArray>)
    requires Explains(d, a, b) && Explains(e, a, b)
    ensures a != b && d == e
  {
    if !d.Arity? {
      SamePlace(a, b, d.output, e.output);
      if d.Value? {
        SamePlace(a[d.output].bits, b[d.output].bits, d.index, e.index);
      }
    }
  }

  /** The first place at which two lists differ is one place. */
  lemma SamePlace<T>(a: seq<T>, b: seq<T>, i: nat, j: nat)
    requires |a| == |b| && i < |a| && j < |a| && a[i] != b[i] && a[j] != b[j] && a[..i] == b[..i] && a[..j] == b[..j]
    ensures i == j
  {
    AgreeBefore(a, b, i, j);
    AgreeBefore(a, b, j, i);
  }

  lemma AgreeBefore<T>(a: seq<T>, b: seq<T>, i: nat, j: nat)
    requires |a| == |b| && i < |a| && j < |a| && a[..j] == b[..j]
    ensures i < j ==> a[i] == b[i]
  {
    if i < j { assert a[..j][i] == b[..j][i]; }
  }

  /** One pair of outputs. */
  method CompareOutput(itemSize: string -> nat, a: NdArray, b: NdArray, j: nat) returns (d: Option<Detail>)
    ensures d.None? <==> a == b
    ensures forall xs: seq<NdArray>, ys: seq<NdArray> ::
              d.Some? && |xs| == |ys| && j < |xs| && xs[..j] == ys[..j] && xs[j] == a && ys[j] == b ==>
                Explains(d.value, xs, ys)
  {
    if a.shape != b.shape {
      return Some(Shape(j, a.shape, b.shape));
    }
    if a.dtype != b.dtype {
      return Some(DType(j, a.dtype, b.dtype));
    }
    if !BitwiseEqual(itemSize, a, b) {
      var k := FirstDiffIndex(a.bits, b.bits);
      return Some(Value(j, k, a.bits[k], b.bits[k]));
    }
    return None;
  }

  /** compare_capture without a tolerance. */
  method CompareCapture(itemSize: string -> nat, a: seq<NdArray>, b: seq<NdArray>) returns (d: Option<Detail>)
    ensures d.None? <==> a == b
    ensures d.Some? ==> Explains(d.value, a, b)
  {
    if |a| != |b| {
      return Some(Arity(|a|, |b|));
    }
    var j := 0;
    while j < |a|
      invariant j <= |a| && a[..j] == b[..j]
    {
      var one := CompareOutput(itemSize, a[j], b[j], j);
      if one.Some? {
        return one;
      }
      assert a[..j + 1] == a[..j] + [a[j]] && b[..j + 1] == b[..j] + [b[j]];
      j := j + 1;
    }
    assert a[..j] == a && b[..j] == b;
    return None;
  }

  // ----- Comparing two traces -----

  datatype Record = Record(name: string, unit: nat, args: seq<NdArray>, outs: seq<NdArray>)

  datatype Divergence =
    | Lengths(eagerLabels: seq<string>, compiledLabels: seq<string>)
    | Order(eagerLabel: string, compiledLabel: string)
    | Outputs(name: string, unit: nat, detail: Detail, shapes: seq<seq<nat>>, dtypes: seq<string>, args: seq<NdArray>)

  predicate SameRecord(a: Record, b: Record) {
    a.name == b.name && a.outs == b.outs
  }

  predicate SameUpTo(a: seq<Record>, b: seq<Record>, k: nat)
    requires k <= |a| == |b|
  {
    forall i :: 0 <= i < k ==> SameRecord(a[i], b[i])
  }

  /** The traces agree: one record for one, equal labels and equal outputs, bit for bit. */
  predicate SameTrace(a: seq<Record>, b: seq<Record>) {
    |a| == |b| && SameUpTo(a, b, |a|)
  }

  function Labels(rs: seq<Record>): (ls: seq<string>)
    ensures |ls| == |rs|
  {
    seq(|rs|, i requires 0 <= i < |rs| => rs[i].name)
  }

  /** The report describes record k, and every record before it agrees. */
  ghost predicate Reports(d: Divergence, a: seq<Record>, b: seq<Record>, k: nat) {
    match d
    case Lengths(ls, ms) => |a| != |b| && ls == Labels(a) && ms == Labels(b)
    case Order(l, m) => |a| == |b| && k < |a| && SameUpTo(a, b, k) && a[k].name == l && b[k].name == m && l != m
    case Outputs(l, u, detail, shapes, dtypes, args) =>
      && |a| == |b| && k < |a| && SameUpTo(a, b, k) && a[k].name == l == b[k].name
      && Explains(detail, a[k].outs, b[k].outs)
      && u == a[k].unit && args == a[k].args && shapes == Shapes(a[k].outs) && dtypes == DTypes(a[k].outs)
  }

  function Shapes(arrays: seq<NdArray>): (ss: seq<seq<nat>>)
    ensures |ss| == |arrays|
  {
    seq(|arrays|, i requires 0 <= i < |arrays| => arrays[i].shape)
  }

  function DTypes(arrays: seq<NdArray>): (ts: seq<string>)
    ensures |ts| == |arrays|
  {
    seq(|arrays|, i requires 0 <= i < |arrays| => arrays[i].dtype)
  }

  /** diff_records: nothing exactly when the traces agree, else the earliest disagreement. */
  method DiffRecords(itemSize: string -> nat, a: seq<Record>, b: seq<Record>) returns (d: Option<Divergence>)
    ensures d.None? <==> SameTrace(a, b)
    ensures d.Some? ==> exists k :: Reports(d.value, a, b, k)
  {
    if |a| != |b| {
      d := Some(Lengths(Labels(a), Labels(b)));
      assert Reports(d.value, a, b, 0);
      return;
    }
    var k := 0;
    while k < |a|
      invariant k <= |a| && SameUpTo(a, b, k)
    {
      if a[k].name != b[k].name {
        d := Some(Order(a[k].name, b[k].name));
        assert Reports(d.value, a, b, k);
        return;
      }
      var outs := CompareCapture(itemSize, a[k].outs, b[k].outs);
      if outs.Some? {
        d := Some(Outputs(a[k].name, a[k].unit, outs.value, Shapes(a[k].outs), DTypes(a[k].outs), a[k].args));
        assert Reports(d.value, a, b, k);
        return;
      }
      k := k + 1;
    }
    return None;
  }

  /** The traces determine the report: no later record and no other detail would do. */
  lemma ReportIsUnique(d: Divergence, e: Divergence, a: seq<Record>, b: seq<Record>, j: nat, k: nat)
    requires Reports(d, a, b, j) && Reports(e, a, b, k)
    ensures !SameTrace(a, b) && d == e && (|a| == |b| ==> j == k)
  {
    ReportedDiffers(d, a, b, j);
    ReportedDiffers(e, a, b, k);
    if |a| == |b| {
      SameBefore(a, b, j, k);
      SameBefore(a, b, k, j);
      if d.Outputs? {
        ExplanationIsUnique(d.detail, e.detail, a[k].outs, b[k].outs);
      }
    }
  }

  lemma SameBefore(a: seq<Record>, b: seq<Record>, i: nat, k: nat)
    requires |a| == |b| && i < |a| && k <= |a| && SameUpTo(a, b, k)
    ensures i < k ==> SameRecord(a[i], b[i])
  {
  }

  lemma ReportedDiffers(d: Divergence, a: seq<Record>, b: seq<Record>, k: nat)
    requires Reports(d, a, b, k)
    ensures |a| == |b| ==> k < |a| && !SameRecord(a[k], b[k])
  {
    if d.Outputs? { ExplanationIsUnique(d.detail, d.detail, a[k].outs, b[k].outs); }
  }

  // ----- Shrinking the inputs of a diverging unit -----

  /** The same callable, eager and compiled; None is an exception. */
  datatype Unit = Unit(eager: seq<NdArray> -> Option<seq<NdArray>>, compiled: seq<NdArray> -> Option<seq<NdArray>>)

  /** Whether the unit alone diverges on these inputs; None when either call raises. */
  function Diverges(unit: Unit, inputs: seq<NdArray>): Option<bool> {
    match (unit.eager(inputs), unit.compiled(inputs))
    case (Some(e), Some(c)) => Some(e != c)
    case _ => None
  }

  method StandaloneDiverges(itemSize: string -> nat, unit: Unit, inputs: seq<NdArray>) returns (r: Option<bool>)
    ensures r == Diverges(unit, inputs)
    ensures r.None? <==> unit.eager(inputs).None? || unit.compiled(inputs).None?
    ensures r.Some? ==> (r.value <==> unit.eager(inputs) != unit.compiled(inputs))
  {
    var e := unit.eager(inputs);
    if e.None? {
      return None;
    }
    var c := unit.compiled(inputs);
    if c.None? {
      return None;
    }
    var d := CompareCapture(itemSize, e.value, c.value);
    return Some(d.Some?);
  }

  /** a[:h] along the leading axis. */
  function Rows(a: NdArray, h: nat): (r: NdArray)
    requires a.shape != [] && h <= a.shape[0]
  {
    var row := Product(a.shape[1..]);
    MulMonotone(h, a.shape[0], row);
    assert ([h] + a.shape[1..])[1..] == a.shape[1..];
    Raw([h] + a.shape[1..], a.dtype, a.bits[..h * row])
  }

  /** Leading rows of `a`: its element type, its trailing axes, at most its rows, and the first
      of its elements. */
  predicate IsLeading(p: NdArray, a: NdArray) {
    && p.dtype == a.dtype && |p.shape| == |a.shape|
    && (a.shape != [] ==> p.shape[0] <= a.shape[0] && p.shape[1..] == a.shape[1..])
    && p.bits <= a.bits
  }

  lemma RowsAreLeading(a: NdArray, h: nat)
    requires a.shape != [] && h <= a.shape[0]
    ensures IsLeading(Rows(a, h), a) && Rows(a, h).shape[0] == h
  {
    MulMonotone(h, a.shape[0], Product(a.shape[1..]));
  }

  /** The number of rows determines them. */
  lemma LeadingIsUnique(p: NdArray, q: NdArray, a: NdArray)
    requires IsLeading(p, a) && IsLeading(q, a) && p.shape == q.shape
    ensures p == q
  {
    assert p.bits == a.bits[..|p.bits|] && q.bits == a.bits[..|q.bits|];
  }

  /** max(range(len(kept)), key=size): the first of the largest. */
  function Biggest(kept: seq<NdArray>): (b: nat)
    requires kept != []
    ensures b < |kept|
    ensures forall i :: 0 <= i < |kept| ==> |kept[i].bits| <= |kept[b].bits|
    ensures forall i :: 0 <= i < b ==> |kept[i].bits| < |kept[b].bits|
  {
    var n := |kept| - 1;
    if n == 0 then 0
    else
      var b := Biggest(kept[..n]);
      if |kept[n].bits| > |kept[b].bits| then n else b
  }

  datatype Uncaught = ValueError | IndexError

  /** The next inputs to try: None when the largest has at most one row. */
  function Halved(kept: seq<NdArray>): Option<seq<NdArray>>
    requires kept != [] && kept[Biggest(kept)].shape != []
  {
    var b := Biggest(kept);
    var rows := kept[b].shape[0];
    if rows <= 1 then None else Some(kept[b := Rows(kept[b], rows / 2)])
  }

  /** shrink_inputs: max() of nothing and shape[0] of a scalar escape; a raise while trying stops it. */
  function Shrink(unit: Unit, kept: seq<NdArray>, tries: nat): Result<seq<NdArray>, Uncaught>
    decreases tries
  {
    if tries == 0 then Success(kept)
    else if kept == [] then Failure(ValueError)
    else if kept[Biggest(kept)].shape == [] then Failure(IndexError)
    else
      var cand := Halved(kept);
      if cand.None? || Diverges(unit, cand.value) != Some(true) then Success(kept)
      else Shrink(unit, cand.value, tries - 1)
  }

  /** shrink_inputs, with what its result is in terms of the arrays alone. */
  method ShrinkInputs(itemSize: string -> nat, unit: Unit, inputs: seq<NdArray>, maxTries: nat)
    returns (r: Result<seq<NdArray>, Uncaught>)
    ensures r == Shrink(unit, inputs, maxTries)
    ensures r.Success? ==> Leading(r.value, inputs) && Shrunk(unit, inputs, r.value, maxTries)
  {
    r := ShrinkLoop(itemSize, unit, inputs, maxTries);
    ShrunkInputs(unit, inputs, maxTries);
  }

  /** Its loop. */
  method ShrinkLoop(itemSize: string -> nat, unit: Unit, inputs: seq<NdArray>, maxTries: nat)
    returns (r: Result<seq<NdArray>, Uncaught>)
    ensures r == Shrink(unit, inputs, maxTries)
  {
    var kept: seq<NdArray>, tries := inputs, maxTries;
    while tries > 0
      invariant Shrink(unit, inputs, maxTries) == Shrink(unit, kept, tries)
    {
      if kept == [] {
        return Failure(ValueError);
      }
      var biggest := Biggest(kept);
      var a := kept[biggest];
      if a.shape == [] {
        return Failure(IndexError);
      }
      if a.shape[0] <= 1 {
        return Success(kept);
      }
      var cand := kept[biggest := Rows(a, a.shape[0] / 2)];
      var d := StandaloneDiverges(itemSize, unit, cand);
      if d != Some(true) {
        return Success(kept);
      }
      kept, tries := cand, tries - 1;
    }
    return Success(kept);
  }

  /** Same list, each array cut to leading rows. */
  ghost predicate Leading(p: seq<NdArray>, a: seq<NdArray>) {
    |p| == |a| && forall i :: 0 <= i < |a| ==> IsLeading(p[i], a[i])
  }

  /** The first of the arrays with the most elements. */
  ghost predicate LargestAt(kept: seq<NdArray>, b: nat) {
    && b < |kept|
    && (forall i :: 0 <= i < |kept| ==> |kept[i].bits| <= |kept[b].bits|)
    && (forall i :: 0 <= i < b ==> |kept[i].bits| < |kept[b].bits|)
  }

  /** Of the first largest array, of two rows or more, half the rows are left, rounded down. */
  ghost predicate HalvedAt(kept: seq<NdArray>, next: seq<NdArray>, b: nat) {
    && LargestAt(kept, b) && |next| == |kept|
    && kept[b].shape != [] && kept[b].shape[0] >= 2
    && IsLeading(next[b], kept[b]) && next[b].shape[0] == kept[b].shape[0] / 2
    && forall i :: 0 <= i < |kept| && i != b ==> next[i] == kept[i]
  }

  ghost predicate IsHalf(kept: seq<NdArray>, next: seq<NdArray>) {
    exists b: nat :: HalvedAt(kept, next, b)
  }

  lemma HalvedIsHalf(kept: seq<NdArray>, next: seq<NdArray>)
    requires kept != [] && kept[Biggest(kept)].shape != []
    ensures Halved(kept) == Some(next) <==> IsHalf(kept, next)
  {
    var b := Biggest(kept);
    assert LargestAt(kept, b);
    var h := kept[b].shape[0] / 2;
    RowsAreLeading(kept[b], h);
    if Halved(kept) == Some(next) { assert HalvedAt(kept, next, b); }
    if c: nat :| HalvedAt(kept, next, c) {
      assert c == b;
      assert next[b].shape == Rows(kept[b], h).shape;
      LeadingIsUnique(next[b], Rows(kept[b], h), kept[b]);
      assert next == kept[b := next[b]];
    }
  }

  /** Nothing more to do: one row left, or half the rows no longer reproduce. */
  ghost predicate Smallest(unit: Unit, kept: seq<NdArray>) {
    && kept != [] && (forall b: nat :: LargestAt(kept, b) ==> kept[b].shape != [])
    && forall next :: IsHalf(kept, next) ==> Diverges(unit, next) != Some(true)
  }

  /** n steps lead from one value to another. */
  ghost predicate Chain<T(!new)>(step: (T, T) -> bool, from: T, to: T, n: nat)
    decreases n
  {
    if n == 0 then from == to else exists mid :: step(from, mid) && Chain(step, mid, to, n - 1)
  }

  /** What every step keeps, any number of them keeps. */
  lemma {:induction false} ChainKeeps<T(!new)>(step: (T, T) -> bool, from: T, to: T, n: nat, p: T -> bool)
    requires Chain(step, from, to, n) && p(from)
    requires forall a, b :: p(a) && step(a, b) ==> p(b)
    ensures p(to)
    decreases n
  {
    if n > 0 {
      var mid :| step(from, mid) && Chain(step, mid, to, n - 1);
      ChainKeeps(step, mid, to, n - 1, p);
    }
  }

  /** One step: half the rows, and the unit still diverges. */
  ghost function Halving(unit: Unit): (seq<NdArray>, seq<NdArray>) -> bool {
    (kept, next) => IsHalf(kept, next) && Diverges(unit, next) == Some(true)
  }

  /** n halvings that all diverge lead from one list to another. */
  ghost predicate Halvings(unit: Unit, from: seq<NdArray>, to: seq<NdArray>, n: nat) {
    Chain(Halving(unit), from, to, n)
  }

  /** The result of shrinking: halvings that all diverge, until no more is to be done or every try
      is used. */
  ghost predicate Shrunk(unit: Unit, from: seq<NdArray>, to: seq<NdArray>, tries: nat) {
    exists n: nat :: n <= tries && Halvings(unit, from, to, n) && (n == tries || Smallest(unit, to))
  }

  lemma LeadingHalf(kept: seq<NdArray>, next: seq<NdArray>, inputs: seq<NdArray>)
    requires Leading(kept, inputs) && IsHalf(kept, next)
    ensures Leading(next, inputs)
  {
    var b: nat :| HalvedAt(kept, next, b);
    forall i | 0 <= i < |inputs| ensures IsLeading(next[i], inputs[i]) {
      assert IsLeading(kept[i], inputs[i]);
      if i == b { LeadingTwice(next[b], kept[b], inputs[b]); }
    }
  }

  lemma LeadingTwice(p: NdArray, q: NdArray, a: NdArray)
    requires IsLeading(p, q) && IsLeading(q, a)
    ensures IsLeading(p, a)
  {
  }

  /** What the shrinker returns still diverges, unless it is the input. */
  lemma {:induction false} ShrinkKeepsDivergence(unit: Unit, kept: seq<NdArray>, tries: nat)
    ensures var r := Shrink(unit, kept, tries);
            r.Success? ==> r.value == kept || Diverges(unit, r.value) == Some(true)
    decreases tries
  {
    if tries > 0 && kept != [] && kept[Biggest(kept)].shape != [] {
      var cand := Halved(kept);
      if cand.Some? && Diverges(unit, cand.value) == Some(true) {
        ShrinkKeepsDivergence(unit, cand.value, tries - 1);
      }
    }
  }

  /** It is reached by halving, and halving stops only when it has to. */
  lemma {:induction false} ShrinkHalves(unit: Unit, kept: seq<NdArray>, tries: nat)
    ensures var r := Shrink(unit, kept, tries);
            r.Success? ==> Shrunk(unit, kept, r.value, tries)
    decreases tries
  {
    if tries == 0 {
      assert Halvings(unit, kept, kept, 0);
    } else if kept != [] && kept[Biggest(kept)].shape != [] {
      var cand := Halved(kept);
      if cand.Some? && Diverges(unit, cand.value) == Some(true) {
        ShrinkHalves(unit, cand.value, tries - 1);
        HalvedIsHalf(kept, cand.value);
        assert Halving(unit)(kept, cand.value);
        var r := Shrink(unit, cand.value, tries - 1);
        if r.Success? { OneMoreHalving(unit, kept, cand.value, r.value, tries); }
      } else {
        StopsHere(unit, kept);
        assert Halvings(unit, kept, kept, 0);
      }
    }
  }

  lemma OneMoreHalving(unit: Unit, kept: seq<NdArray>, next: seq<NdArray>, to: seq<NdArray>, tries: nat)
    requires tries > 0 && Halving(unit)(kept, next) && Shrunk(unit, next, to, tries - 1)
    ensures Shrunk(unit, kept, to, tries)
  {
    var n: nat :| n <= tries - 1 && Halvings(unit, next, to, n) && (n == tries - 1 || Smallest(unit, to));
    assert Halvings(unit, kept, to, n + 1);
  }

  lemma StopsHere(unit: Unit, kept: seq<NdArray>)
    requires kept != [] && kept[Biggest(kept)].shape != []
    requires Halved(kept).None? || Diverges(unit, Halved(kept).value) != Some(true)
    ensures Smallest(unit, kept)
  {
    forall b: nat | LargestAt(kept, b) ensures kept[b].shape != [] { assert b == Biggest(kept); }
    forall next | IsHalf(kept, next) ensures Diverges(unit, next) != Some(true) { HalvedIsHalf(kept, next); }
  }

  /** It takes leading rows, array by array. */
  lemma HalvingsLead(unit: Unit, from: seq<NdArray>, to: seq<NdArray>, tries: nat)
    requires Shrunk(unit, from, to, tries)
    ensures Leading(to, from)
  {
    var n: nat :| n <= tries && Halvings(unit, from, to, n) && (n == tries || Smallest(unit, to));
    forall a, b | Leading(a, from) && Halving(unit)(a, b) ensures Leading(b, from) { LeadingHalf(a, b, from); }
    ChainKeeps(Halving(unit), from, to, n, kept => Leading(kept, from));
  }

  /** All of it together, for the list the source starts from. */
  lemma ShrunkInputs(unit: Unit, inputs: seq<NdArray>, tries: nat)
    ensures var r := Shrink(unit, inputs, tries);
            r.Success? ==>
              && (r.value == inputs || Diverges(unit, r.value) == Some(true))
              && Leading(r.value, inputs)
              && Shrunk(unit, inputs, r.value, tries)
  {
    var r := Shrink(unit, inputs, tries);
    ShrinkKeepsDivergence(unit, inputs, tries);
    ShrinkHalves(unit, inputs, tries);
    if r.Success? { HalvingsLead(unit, inputs, r.value, tries); }
  }

  /** Half the rows are one list, so only one result is such. */
  lemma HalfIsUnique(kept: seq<NdArray>, a: seq<NdArray>, b: seq<NdArray>)
    requires IsHalf(kept, a) && IsHalf(kept, b)
    ensures a == b
  {
    var i: nat :| HalvedAt(kept, a, i);
    var j: nat :| HalvedAt(kept, b, j);
    assert i == j && i == Biggest(kept);
    HalvedIsHalf(kept, a);
    HalvedIsHalf(kept, b);
  }

  lemma {:induction false} ShrunkIsUnique(unit: Unit, from: seq<NdArray>, a: seq<NdArray>, b: seq<NdArray>, tries: nat)
    requires Shrunk(unit, from, a, tries) && Shrunk(unit, from, b, tries)
    ensures a == b
    decreases tries
  {
    var m: nat :| m <= tries && Halvings(unit, from, a, m) && (m == tries || Smallest(unit, a));
    var n: nat :| n <= tries && Halvings(unit, from, b, n) && (n == tries || Smallest(unit, b));
    if m > 0 && n > 0 {
      var x := FirstHalving(unit, from, a, m);
      var y := FirstHalving(unit, from, b, n);
      HalfIsUnique(from, x, y);
      ShrunkIsUnique(unit, x, a, b, tries - 1);
    } else if m > 0 {
      var x := FirstHalving(unit, from, a, m);
    } else if n > 0 {
      var y := FirstHalving(unit, from, b, n);
    }
  }

  lemma FirstHalving(unit: Unit, from: seq<NdArray>, to: seq<NdArray>, n: nat) returns (next: seq<NdArray>)
    requires n > 0 && Halvings(unit, from, to, n)
    ensures IsHalf(from, next) && Diverges(unit, next) == Some(true) && Halvings(unit, next, to, n - 1)
  {
    next :| Halving(unit)(from, next) && Chain(Halving(unit), next, to, n - 1);
  }

  ghost predicate AlwaysDiverges(unit: Unit) {
    forall inputs :: Diverges(unit, inputs) == Some(true)
  }

  /** How often a leading axis can be halved. */
  function HalvingsOf(rows: nat): nat {
    if rows <= 1 then 0 else 1 + HalvingsOf(rows / 2)
  }

  function RowsIn(a: NdArray): nat {
    if a.shape == [] then 0 else a.shape[0]
  }

  /** An input that halving brings to size one: a row is a single element. */
  predicate Thin(a: NdArray) {
    a.shape == [] || |a.bits| <= 1 || Product(a.shape[1..]) == 1
  }

  /** How many halvings bring every input with more than one element to size one. */
  function Work(kept: seq<NdArray>): nat {
    if kept == [] then 0 else Work(kept[..|kept| - 1]) + WorkOf(kept[|kept| - 1])
  }

  function WorkOf(a: NdArray): nat {
    if |a.bits| <= 1 then 0 else HalvingsOf(RowsIn(a))
  }

  /** The first input with any elements is a scalar. */
  predicate ScalarLeads(kept: seq<NdArray>) {
    exists i :: 0 <= i < |kept| && kept[i].shape == [] && forall j :: 0 <= j < i ==> kept[j].bits == []
  }

  predicate AllThin(kept: seq<NdArray>) {
    forall i :: 0 <= i < |kept| ==> Thin(kept[i])
  }

  /** The inputs on which the shrinker can raise, read off their shapes: none at all, or all thin
      with a scalar leading, and tries left over. */
  predicate Raising(kept: seq<NdArray>, tries: nat) {
    tries > 0 && (kept == [] || (ScalarLeads(kept) && AllThin(kept) && tries > Work(kept)))
  }

  lemma {:induction false} WorkUpdate(kept: seq<NdArray>, b: nat, x: NdArray)
    requires b < |kept|
    ensures Work(kept[b := x]) == Work(kept) - WorkOf(kept[b]) + WorkOf(x)
    decreases |kept|
  {
    var n := |kept| - 1;
    if b < n {
      WorkUpdate(kept[..n], b, x);
      assert kept[b := x][..n] == kept[..n][b := x];
    } else {
      assert kept[b := x][..n] == kept[..n];
    }
  }

  lemma {:induction false} NoWork(kept: seq<NdArray>)
    requires forall i :: 0 <= i < |kept| ==> |kept[i].bits| <= 1
    ensures Work(kept) == 0
    decreases |kept|
  {
    if kept != [] { NoWork(kept[..|kept| - 1]); }
  }

  lemma Sizes(a: NdArray)
    ensures a.shape == [] ==> |a.bits| == 1
    ensures a.shape != [] ==> |a.bits| == a.shape[0] * Product(a.shape[1..])
  {
  }

  lemma TimesAtLeast(rows: nat, trail: nat)
    ensures rows >= 1 && trail >= 2 ==> rows * trail >= 2
    ensures rows * 1 == rows && (rows * trail == 0 ==> rows == 0 || trail == 0)
  {
    if rows >= 1 { MulMonotone(1, rows, trail); }
  }

  /** A scalar is the largest: everything before it is empty and nothing has more elements. */
  lemma ScalarBiggest(kept: seq<NdArray>, tries: nat)
    requires kept != [] && kept[Biggest(kept)].shape == [] && tries > 0
    ensures Raising(kept, tries) && Work(kept) == 0
  {
    var b := Biggest(kept);
    Sizes(kept[b]);
    NoWork(kept);
    assert forall j :: 0 <= j < b ==> |kept[j].bits| < |kept[b].bits|;
  }

  /** The largest has one row: halving ends here without an error. */
  lemma OneRowBiggest(kept: seq<NdArray>, tries: nat)
    requires kept != [] && kept[Biggest(kept)].shape != [] && RowsIn(kept[Biggest(kept)]) <= 1
    ensures !Raising(kept, tries)
  {
    var b := Biggest(kept);
    var a := kept[b];
    Sizes(a);
    TimesAtLeast(a.shape[0], Product(a.shape[1..]));
    forall i | 0 <= i < |kept| ensures kept[i].shape == [] ==> |kept[i].bits| == 1 { Sizes(kept[i]); }
  }

  lemma HalfIsThin(a: NdArray)
    requires a.shape != [] && a.shape[0] >= 2 && a.bits != []
    ensures var half := Rows(a, a.shape[0] / 2);
            && half.shape != [] && half.bits != []
            && (Thin(half) <==> Thin(a)) && (Thin(a) ==> WorkOf(a) == WorkOf(half) + 1)
  {
    var rows, trail := a.shape[0], Product(a.shape[1..]);
    var half := Rows(a, rows / 2);
    assert half.shape == [rows / 2] + a.shape[1..] && half.shape[1..] == a.shape[1..];
    Sizes(a);
    Sizes(half);
    TimesAtLeast(rows, trail);
    TimesAtLeast(rows / 2, trail);
    HalfSizes(a, half, rows, trail);
  }

  lemma HalfSizes(a: NdArray, half: NdArray, rows: nat, trail: nat)
    requires rows >= 2 && trail >= 1 && |a.bits| == rows * trail && |half.bits| == rows / 2 * trail
    requires a.shape != [] && a.shape[0] == rows && Product(a.shape[1..]) == trail
    requires half.shape != [] && half.shape[0] == rows / 2 && Product(half.shape[1..]) == trail
    ensures half.bits != [] && (Thin(half) <==> Thin(a)) && (Thin(a) ==> WorkOf(a) == WorkOf(half) + 1)
  {
    MulMonotone(1, rows / 2, trail);
    MulMonotone(2, rows, trail);
    if trail == 1 {
      assert |a.bits| == rows && |half.bits| == rows / 2;
      assert Thin(a) && Thin(half);
      assert HalvingsOf(rows) == 1 + HalvingsOf(rows / 2);
      assert rows / 2 <= 1 ==> HalvingsOf(rows / 2) == 0;
    } else {
      assert |half.bits| >= 2 && |a.bits| >= 2;
    }
  }

  /** One halving keeps the condition and uses up one of the halvings counted. */
  lemma HalvingKeeps(kept: seq<NdArray>, tries: nat)
    requires kept != [] && kept[Biggest(kept)].shape != [] && Halved(kept).Some? && tries > 0
    ensures Raising(kept, tries) <==> Raising(Halved(kept).value, tries - 1)
    ensures Raising(kept, tries) ==> Work(kept) == Work(Halved(kept).value) + 1
  {
    var b, next := Biggest(kept), Halved(kept).value;
    if kept[b].bits == [] {
      NothingLeads(kept, next, b);
    } else {
      HalfIsThin(kept[b]);
      WorkUpdate(kept, b, next[b]);
      SameLead(kept, next, b);
      assert AllThin(kept) <==> AllThin(next) by {
        assert forall i :: 0 <= i < |kept| && i != b ==> next[i] == kept[i];
        assert AllThin(kept) ==> Thin(kept[b]);
        assert AllThin(next) ==> Thin(next[b]);
      }
      assert AllThin(kept) ==> Thin(kept[b]);
    }
  }

  /** When the largest is empty there is no scalar. */
  lemma NothingLeads(kept: seq<NdArray>, next: seq<NdArray>, b: nat)
    requires kept != [] && b == Biggest(kept) && kept[b].bits == [] && kept[b].shape != []
    requires |next| == |kept| && next[b].shape != [] && forall i :: 0 <= i < |kept| && i != b ==> next[i] == kept[i]
    ensures !ScalarLeads(kept) && !ScalarLeads(next)
  {
    forall i | 0 <= i < |kept| ensures kept[i].shape != [] && next[i].shape != [] { Sizes(kept[i]); }
  }

  lemma SameLead(kept: seq<NdArray>, next: seq<NdArray>, b: nat)
    requires b < |kept| == |next| && forall i :: 0 <= i < |kept| && i != b ==> next[i] == kept[i]
    requires kept[b].shape != [] && next[b].shape != [] && kept[b].bits != [] && next[b].bits != []
    ensures ScalarLeads(kept) <==> ScalarLeads(next)
  {
    if i :| 0 <= i < |kept| && kept[i].shape == [] && forall j :: 0 <= j < i ==> kept[j].bits == [] {
      assert next[i].shape == [] && forall j :: 0 <= j < i ==> next[j].bits == [];
    }
    if i :| 0 <= i < |next| && next[i].shape == [] && forall j :: 0 <= j < i ==> next[j].bits == [] {
      assert kept[i].shape == [] && forall j :: 0 <= j < i ==> kept[j].bits == [];
    }
  }

  /** Does the unit diverge on each of the first n halved lists? */
  ghost predicate DivergesAlong(unit: Unit, kept: seq<NdArray>, n: nat)
    decreases n
  {
    n == 0 ||
    (&& kept != [] && kept[Biggest(kept)].shape != [] && Halved(kept).Some?
     && Diverges(unit, Halved(kept).value) == Some(true) && DivergesAlong(unit, Halved(kept).value, n - 1))
  }

  /** One round of the loop, seen from the halved list. */
  lemma OneRound(unit: Unit, kept: seq<NdArray>, tries: nat, n: nat) returns (next: seq<NdArray>)
    requires tries > 0 && kept != [] && kept[Biggest(kept)].shape != [] && Halved(kept).Some?
    ensures Halved(kept) == Some(next)
    ensures Shrink(unit, kept, tries).Failure? <==>
            Diverges(unit, next) == Some(true) && Shrink(unit, next, tries - 1).Failure?
    ensures DivergesAlong(unit, kept, n + 1) <==> Diverges(unit, next) == Some(true) && DivergesAlong(unit, next, n)
  {
    next := Halved(kept).value;
  }

  /** The exact condition for the shrinker to raise: the shapes lead to a scalar as the largest
      input -- or there is none -- and the unit diverges on every halved list on the way. */
  lemma {:induction false} RaisesIff(unit: Unit, inputs: seq<NdArray>, tries: nat)
    ensures Shrink(unit, inputs, tries).Failure? <==>
            Raising(inputs, tries) && DivergesAlong(unit, inputs, Work(inputs))
    decreases tries
  {
    if tries > 0 && inputs != [] {
      if inputs[Biggest(inputs)].shape == [] {
        ScalarBiggest(inputs, tries);
      } else if Halved(inputs).None? {
        OneRowBiggest(inputs, tries);
      } else {
        HalvingKeeps(inputs, tries);
        var next := OneRound(unit, inputs, tries, Work(Halved(inputs).value));
        RaisesIff(unit, next, tries - 1);
      }
    }
  }

  lemma {:induction false} AlwaysAlong(unit: Unit, kept: seq<NdArray>, tries: nat)
    requires AlwaysDiverges(unit) && Raising(kept, tries)
    ensures DivergesAlong(unit, kept, Work(kept))
    decreases tries
  {
    if kept != [] {
      if kept[Biggest(kept)].shape == [] {
        ScalarBiggest(kept, tries);
      } else if Halved(kept).None? {
        OneRowBiggest(kept, tries);
      } else {
        HalvingKeeps(kept, tries);
        AlwaysAlong(unit, Halved(kept).value, tries - 1);
      }
    }
  }

  /** For a unit that diverges on every input the shapes alone decide. */
  lemma AlwaysRaisesIff(unit: Unit, inputs: seq<NdArray>, tries: nat)
    requires AlwaysDiverges(unit)
    ensures Shrink(unit, inputs, tries).Failure? <==> Raising(inputs, tries)
  {
    RaisesIff(unit, inputs, tries);
    if Raising(inputs, tries) { AlwaysAlong(unit, inputs, tries); }
  }

  ghost predicate NoScalars(kept: seq<NdArray>) {
    kept != [] && forall i :: 0 <= i < |kept| ==> kept[i].shape != []
  }

  /** With at least one input and no scalar among them it always returns. */
  lemma {:induction false} NoScalarsReturns(unit: Unit, kept: seq<NdArray>, tries: nat)
    requires NoScalars(kept)
    ensures Shrink(unit, kept, tries).Success?
    decreases tries
  {
    if tries > 0 && Halved(kept).Some? {
      var next := Halved(kept).value;
      assert next[Biggest(kept)].shape != [];
      NoScalarsReturns(unit, next, tries - 1);
    }
  }

  /** Two rows beside a scalar: halving makes both of size one, max() then takes the scalar. */
  lemma ScalarFirstRaises(unit: Unit, tries: nat)
    requires AlwaysDiverges(unit) && tries >= 2
    ensures var scalar, two := Raw([], "float32", [7]), Raw([2], "float32", [1, 2]);
            Product([]) == 1 && Product([2]) == 2 && Shrink(unit, [scalar, two], tries) == Failure(IndexError)
  {
    assert Product([]) == 1;
    assert Product([1]) == 1 && Product([2]) == 2;
    var scalar: NdArray, two: NdArray := Raw([], "float32", [7]), Raw([2], "float32", [1, 2]);
    var kept := [scalar, two];
    assert Biggest(kept) == 1;
    assert [2][1..] == [];
    var half := Halved(kept).value;
    assert Rows(two, 1).shape == [1] + two.shape[1..] == [1];
    assert |half[1].bits| == 1 && half[0] == scalar;
    assert Biggest(half) == 0;
    assert Diverges(unit, half) == Some(true);
    assert Shrink(unit, kept, tries) == Shrink(unit, half, tries - 1);
  }
}
