/**
 The padding bookkeeping of the batched state cache (scripts/patch-mlx-lm-ssm-maskless.py):
 a host list mirrors the padding array so that an all-True mask can be skipped.
 */
module MaskMirror {
  import opened Wrappers

  /** The padding array, the lengths array and the host list; None is unset. */
  datatype Padding = Padding(left: Option<seq<int>>, lengths: Option<seq<int>>, list: Option<seq<int>>)

  const UNSET := Padding(None, None, None)

  function Zeros(n: nat): (z: seq<int>)
    ensures |z| == n && forall i :: 0 <= i < n ==> z[i] == 0
  {
    seq(n, _ => 0)
  }

  function Shift(xs: seq<int>, n: int): (ys: seq<int>)
    ensures |ys| == |xs| && forall i :: 0 <= i < |xs| ==> ys[i] == xs[i] - n
  {
    seq(|xs|, i requires 0 <= i < |xs| => xs[i] - n)
  }

  predicate InRange(indices: seq<nat>, xs: Option<seq<int>>) {
    xs.Some? ==> forall i :: 0 <= i < |indices| ==> indices[i] < |xs.value|
  }

  function Pick(xs: seq<int>, indices: seq<nat>): (ys: seq<int>)
    requires InRange(indices, Some(xs))
    ensures |ys| == |indices|
  {
    seq(|indices|, i requires 0 <= i < |indices| => xs[indices[i]])
  }

  // ----- The operations, on values -----

  /** maskless.py:83-95: an empty list counts as no padding. */
  function Init(padding: Option<seq<int>>): Padding {
    if padding.Some? && padding.value != [] then Padding(padding, None, padding) else UNSET
  }

  /** maskless.py:187-191: merging caches that are all empty. */
  function MergeEmpty(batch: nat): Padding {
    Padding(Some(Zeros(batch)), None, Some(Zeros(batch)))
  }

  predicate CanFilter(p: Padding, indices: seq<nat>) {
    InRange(indices, p.left) && InRange(indices, p.lengths) && (p.left.Some? ==> InRange(indices, p.list))
  }

  /** maskless.py:126-134. */
  function Filter(p: Padding, indices: seq<nat>): Padding
    requires CanFilter(p, indices)
  {
    Padding(if p.left.Some? then Some(Pick(p.left.value, indices)) else None,
            if p.lengths.Some? then Some(Pick(p.lengths.value, indices)) else None,
            if p.left.Some? && p.list.Some? then Some(Pick(p.list.value, indices)) else p.list)
  }

  /** Concatenation of two arrays that are both set or both unset. */
  function Cat(a: Option<seq<int>>, b: Option<seq<int>>): Option<seq<int>>
    requires a.Some? <==> b.Some?
  {
    if a.Some? then Some(a.value + b.value) else None
  }

  predicate CanExtend(a: Padding, b: Padding) {
    (a.left.Some? <==> b.left.Some?) && (a.lengths.Some? <==> b.lengths.Some?)
  }

  /** A missing mirror is filled with zeros, one a sequence. */
  function ListOr(list: Option<seq<int>>, batch: nat): seq<int> {
    if list.Some? then list.value else Zeros(batch)
  }

  /** Upstream `batch_size`, taken to be the number of sequences the arrays hold when it is read. */
  function BatchSize(left: Option<seq<int>>): nat {
    if left.Some? then |left.value| else 0
  }

  /** maskless.py:140-157.  The arrays are joined before the source reads self.batch_size, so a
      missing list of its own is filled for both batches. */
  function Extend(a: Padding, b: Padding): Padding
    requires CanExtend(a, b)
  {
    var left := Cat(a.left, b.left);
    Padding(left, Cat(a.lengths, b.lengths),
            if left.Some? || b.left.Some?
            then Some(ListOr(a.list, BatchSize(left)) + ListOr(b.list, BatchSize(b.left))) else None)
  }

  /** maskless.py:169-181. */
  function Finalize(p: Padding): Padding {
    UNSET
  }

  function Advance(p: Padding, n: int): Padding {
    Padding(if p.left.Some? then Some(Shift(p.left.value, n)) else None,
            if p.lengths.Some? then Some(Shift(p.lengths.value, n)) else None,
            if p.left.Some? && p.list.Some? then Some(Shift(p.list.value, n)) else p.list)
  }

  /** maskless.py:115-119: a foreign state replaces the arrays and drops the mirror. */
  function Restore(left: Option<seq<int>>, lengths: Option<seq<int>>): Padding {
    Padding(left, lengths, None)
  }

  /** Upstream `prepare` sets the lengths. */
  function Prepare(p: Padding, lengths: seq<int>): Padding {
    p.(lengths := Some(lengths))
  }

  // ----- The mask -----

  type Mask = seq<seq<bool>>

  function ValidFrom(left: seq<int>, n: nat): (m: Mask)
    ensures |m| == |left| && forall b :: 0 <= b < |m| ==> |m[b]| == n
  {
    seq(|left|, b requires 0 <= b < |left| => seq(n, pos requires 0 <= pos < n => pos >= left[b]))
  }

  /** maskless.py:193-197, before the patch. */
  function OldMask(p: Padding, n: nat): Option<Mask> {
    if p.left.Some? then Some(ValidFrom(p.left.value, n)) else None
  }

  predicate AnyNonzero(xs: seq<int>) {
    exists i :: 0 <= i < |xs| && xs[i] != 0
  }

  predicate Guard(p: Padding) {
    p.left.Some? && p.lengths.None? && p.list.Some? && !AnyNonzero(p.list.value)
  }

  /** maskless.py:45-57. */
  function MakeMask(p: Padding, n: nat): Option<Mask> {
    if Guard(p) then None else OldMask(p, n)
  }

  /** mx.where(mask[..., None], qkv, 0): what a consumer does with the mask. */
  function Where(mask: Option<Mask>, qkv: seq<seq<real>>): seq<seq<real>> {
    if mask.None? then qkv
    else
      seq(|qkv|, b requires 0 <= b < |qkv| =>
        seq(|qkv[b]|, pos requires 0 <= pos < |qkv[b]| =>
          if b < |mask.value| && pos < |mask.value[b]| && !mask.value[b][pos] then 0.0 else qkv[b][pos]))
  }

  predicate AllTrue(m: Mask) {
    forall b, pos :: 0 <= b < |m| && 0 <= pos < |m[b]| ==> m[b][pos]
  }

  // ----- The mirror -----

  /** The list equals the array, or both are unset. */
  predicate Mirrored(p: Padding) {
    p.list == p.left
  }

  /** Weaker: a list that is set equals the array. */
  predicate NeverWrong(p: Padding) {
    p.list.Some? ==> p.list == p.left
  }

  /** How a cache came about, other caches it absorbed included. */
  datatype History =
    | Created(padding: Option<seq<int>>)
    | Merged(batch: nat)
    | Filtered(h: History, indices: seq<nat>)
    | Extended(h: History, other: History)
    | Prepared(h: History, newLengths: seq<int>)
    | Advanced(h: History, n: int)
    | Finalized(h: History)
    | Restored(left: Option<seq<int>>, lengths: Option<seq<int>>)

  ghost predicate Legal(h: History) {
    match h
    case Filtered(g, indices) => Legal(g) && CanFilter(Value(g), indices)
    case Extended(g, o) => Legal(g) && Legal(o) && CanExtend(Value(g), Value(o))
    case Prepared(g, _) => Legal(g)
    case Advanced(g, _) => Legal(g)
    case Finalized(g) => Legal(g)
    case _ => true
  }

  function Value(h: History): Padding {
    match h
    case Created(padding) => Init(padding)
    case Merged(batch) => MergeEmpty(batch)
    case Filtered(g, indices) => if CanFilter(Value(g), indices) then Filter(Value(g), indices) else UNSET
    case Extended(g, o) => if CanExtend(Value(g), Value(o)) then Extend(Value(g), Value(o)) else UNSET
    case Prepared(g, lengths) => Prepare(Value(g), lengths)
    case Advanced(g, n) => Advance(Value(g), n)
    case Finalized(g) => Finalize(Value(g))
    case Restored(left, lengths) => Restore(left, lengths)
  }

  /** Does the history restore a foreign state anywhere? */
  predicate Foreign(h: History) {
    match h
    case Restored(_, _) => true
    case Extended(g, o) => Foreign(g) || Foreign(o)
    case Filtered(g, _) => Foreign(g)
    case Prepared(g, _) => Foreign(g)
    case Advanced(g, _) => Foreign(g)
    case Finalized(g) => Foreign(g)
    case _ => false
  }

  /** Without a foreign restore the mirror is exact after every history. */
  lemma {:induction false} MirrorHolds(h: History)
    requires Legal(h) && !Foreign(h)
    ensures Mirrored(Value(h))
    decreases h
  {
    match h
    case Filtered(g, _) => MirrorHolds(g);
    case Extended(g, o) => MirrorHolds(g); MirrorHolds(o);
    case Prepared(g, _) => MirrorHolds(g);
    case Advanced(g, _) => MirrorHolds(g);
    case Finalized(g) => MirrorHolds(g);
    case _ =>
  }

  predicate Nonpositive(xs: seq<int>) {
    forall i :: 0 <= i < |xs| ==> xs[i] <= 0
  }

  /** A list that is set has an entry for every padding, and bounds it from above. */
  predicate Covers(p: Padding) {
    p.list.Some? ==>
      && p.left.Some? && |p.list.value| == |p.left.value|
      && forall i :: 0 <= i < |p.left.value| ==> p.left.value[i] <= p.list.value[i]
  }

  lemma AllTrueIsIdentity(m: Mask, qkv: seq<seq<real>>)
    requires AllTrue(m)
    ensures Where(Some(m), qkv) == qkv
  {
    var w := Where(Some(m), qkv);
    forall b | 0 <= b < |qkv| ensures w[b] == qkv[b] {}
  }

  lemma ZeroListUnmasks(p: Padding, n: nat)
    requires Covers(p) && Guard(p)
    ensures OldMask(p, n).Some? && AllTrue(OldMask(p, n).value)
  {
    var m := OldMask(p, n).value;
    forall b, pos | 0 <= b < |m| && 0 <= pos < |m[b]| ensures m[b][pos] { assert p.list.value[b] == 0; }
  }

  /** Skipping the mask is the identity wherever the list is right. */
  lemma SkippedMaskIsIdentity(p: Padding, n: nat, qkv: seq<seq<real>>)
    requires NeverWrong(p)
    ensures MakeMask(p, n).None? && OldMask(p, n).Some? ==> AllTrue(OldMask(p, n).value)
    ensures Where(MakeMask(p, n), qkv) == Where(OldMask(p, n), qkv)
  {
    if Guard(p) {
      ZeroListUnmasks(p, n);
      AllTrueIsIdentity(OldMask(p, n).value, qkv);
    }
  }

  // ----- When the guard is safe -----

  /** Covered, or never guarded: the guard needs an array and no lengths. */
  predicate Fine(p: Padding) {
    Covers(p) || p.left.None? || p.lengths.Some?
  }

  /** When joining keeps the guard safe: each side has its list or nothing to mask, and where the
      own list is missing nothing is appended. */
  predicate ExtendOk(a: Padding, b: Padding)
    requires CanExtend(a, b)
  {
    a.left.None? || a.lengths.Some? ||
    (&& (a.list.Some? || (b.left.value == [] && Nonpositive(a.left.value)))
     && (b.list.Some? || Nonpositive(b.left.value)))
  }

  lemma ExtendStaysFineIff(a: Padding, b: Padding)
    requires CanExtend(a, b) && Fine(a) && Fine(b)
    ensures Fine(Extend(a, b)) <==> ExtendOk(a, b)
  {
    if a.left.Some? && a.lengths.None? {
      var x, y := a.left.value, b.left.value;
      JoinCovers(x, y, ListOr(a.list, |x + y|), ListOr(b.list, |y|));
    }
  }

  /** Entry by entry, for two lists of which the second is never short. */
  lemma JoinCovers(x: seq<int>, y: seq<int>, u: seq<int>, v: seq<int>)
    requires |v| == |y| && |u| >= |x|
    ensures (|u + v| == |x + y| && forall i :: 0 <= i < |x + y| ==> (x + y)[i] <= (u + v)[i]) <==>
            && |u| == |x| && (forall i :: 0 <= i < |x| ==> x[i] <= u[i])
            && (forall i :: 0 <= i < |y| ==> y[i] <= v[i])
  {
    if |u| == |x| {
      var s, t := x + y, u + v;
      assert forall i :: 0 <= i < |x| ==> s[i] == x[i] && t[i] == u[i];
      assert forall i :: 0 <= i < |y| ==> s[|x| + i] == y[i] && t[|x| + i] == v[i];
      assert forall i :: |x| <= i < |s| ==> s[i] == y[i - |x|] && t[i] == v[i - |x|];
    }
  }

  /** No consumer sees a difference. */
  ghost predicate Sound(p: Padding) {
    forall n: nat, qkv: seq<seq<real>> :: Where(MakeMask(p, n), qkv) == Where(OldMask(p, n), qkv)
  }

  lemma FineIsSound(p: Padding)
    requires Fine(p)
    ensures Sound(p)
  {
    forall n: nat, qkv: seq<seq<real>> ensures Where(MakeMask(p, n), qkv) == Where(OldMask(p, n), qkv) {
      if Guard(p) {
        ZeroListUnmasks(p, n);
        AllTrueIsIdentity(OldMask(p, n).value, qkv);
      }
    }
  }

  /** At every extend of a history the condition holds. */
  ghost predicate ExtendsOk(h: History) {
    match h
    case Filtered(g, _) => ExtendsOk(g)
    case Extended(g, o) =>
      ExtendsOk(g) && ExtendsOk(o) && (CanExtend(Value(g), Value(o)) ==> ExtendOk(Value(g), Value(o)))
    case Prepared(g, _) => ExtendsOk(g)
    case Advanced(g, _) => ExtendsOk(g)
    case Finalized(g) => ExtendsOk(g)
    case _ => true
  }

  lemma {:induction false} StaysFine(h: History)
    requires Legal(h) && ExtendsOk(h)
    ensures Fine(Value(h))
    decreases h
  {
    match h
    case Filtered(g, indices) => StaysFine(g);
    case Extended(g, o) =>
      StaysFine(g);
      StaysFine(o);
      ExtendStaysFineIff(Value(g), Value(o));
    case Prepared(g, _) => StaysFine(g);
    case Advanced(g, _) => StaysFine(g);
    case Finalized(g) => StaysFine(g);
    case _ =>
  }

  /** Main result: no consumer sees a difference after any history, restores included, in which
      the condition holds at every extend. */
  lemma MasklessIsSound(h: History, n: nat, qkv: seq<seq<real>>)
    requires Legal(h) && ExtendsOk(h)
    ensures Where(MakeMask(Value(h), n), qkv) == Where(OldMask(Value(h), n), qkv)
  {
    StaysFine(h);
    FineIsSound(Value(h));
  }

  /** Without a foreign restore it always does. */
  lemma {:induction false} NoRestoreIsOk(h: History)
    requires Legal(h) && !Foreign(h)
    ensures ExtendsOk(h)
    decreases h
  {
    match h
    case Filtered(g, _) => NoRestoreIsOk(g);
    case Extended(g, o) =>
      NoRestoreIsOk(g);
      NoRestoreIsOk(o);
      MirrorHolds(g);
      MirrorHolds(o);
    case Prepared(g, _) => NoRestoreIsOk(g);
    case Advanced(g, _) => NoRestoreIsOk(g);
    case Finalized(g) => NoRestoreIsOk(g);
    case _ =>
  }

  // ----- What a consumer sees -----

  /** One row a sequence, n positions each. */
  predicate Rectangular(qkv: seq<seq<real>>, batch: nat, n: nat) {
    |qkv| == batch && forall b :: 0 <= b < batch ==> |qkv[b]| == n
  }

  /** Exactly the padding is zeroed: of every sequence the positions before its first token. */
  ghost predicate ZeroesPadding(seen: seq<seq<real>>, left: seq<int>, n: nat, qkv: seq<seq<real>>)
    requires Rectangular(qkv, |left|, n)
  {
    && Rectangular(seen, |left|, n)
    && forall b, pos :: 0 <= b < |left| && 0 <= pos < n ==>
         seen[b][pos] == if pos < left[b] then 0.0 else qkv[b][pos]
  }

  /** Through the mask a consumer sees zeros for the padding and every token as it is. */
  lemma SeenThroughMask(p: Padding, n: nat, qkv: seq<seq<real>>)
    requires Fine(p) && p.left.Some? && Rectangular(qkv, |p.left.value|, n)
    ensures ZeroesPadding(Where(MakeMask(p, n), qkv), p.left.value, n, qkv)
  {
    FineIsSound(p);
    assert Where(MakeMask(p, n), qkv) == Where(OldMask(p, n), qkv);
    ZeroedByOldMask(p.left.value, n, qkv);
  }

  lemma ZeroedByOldMask(left: seq<int>, n: nat, qkv: seq<seq<real>>)
    requires Rectangular(qkv, |left|, n)
    ensures ZeroesPadding(Where(Some(ValidFrom(left, n)), qkv), left, n, qkv)
  {
  }

  /** What is seen is determined by the padding. */
  lemma SameSeen(a: seq<seq<real>>, b: seq<seq<real>>, left: seq<int>, n: nat, qkv: seq<seq<real>>)
    requires Rectangular(qkv, |left|, n) && ZeroesPadding(a, left, n, qkv) && ZeroesPadding(b, left, n, qkv)
    ensures a == b
  {
    forall i | 0 <= i < |left| ensures a[i] == b[i] {
      assert forall pos :: 0 <= pos < n ==> a[i][pos] == b[i][pos];
    }
  }

  /** All sequences without their first k positions. */
  function Later(qkv: seq<seq<real>>, k: nat): (rest: seq<seq<real>>)
    requires forall b :: 0 <= b < |qkv| ==> k <= |qkv[b]|
    ensures |rest| == |qkv| && forall b :: 0 <= b < |qkv| ==> rest[b] == qkv[b][k..]
  {
    seq(|qkv|, b requires 0 <= b < |qkv| => qkv[b][k..])
  }

  /** A text given in two chunks, with an advance in between, is seen as in one. */
  lemma AdvanceIsLater(p: Padding, k: nat, n: nat, qkv: seq<seq<real>>)
    requires Fine(p) && p.left.Some? && Rectangular(qkv, |p.left.value|, k + n)
    ensures Rectangular(Where(MakeMask(p, k + n), qkv), |p.left.value|, k + n)
    ensures Where(MakeMask(Advance(p, k), n), Later(qkv, k)) == Later(Where(MakeMask(p, k + n), qkv), k)
  {
    var left, whole, rest := p.left.value, Where(MakeMask(p, k + n), qkv), Later(qkv, k);
    SeenThroughMask(p, k + n, qkv);
    AdvanceFine(p, k);
    SeenThroughMask(Advance(p, k), n, rest);
    LaterZeroes(whole, left, k, n, qkv);
    SameSeen(Where(MakeMask(Advance(p, k), n), rest), Later(whole, k), Shift(left, k), n, rest);
  }

  lemma AdvanceFine(p: Padding, k: int)
    requires Fine(p)
    ensures Fine(Advance(p, k))
  {
  }

  lemma LaterZeroes(seen: seq<seq<real>>, left: seq<int>, k: nat, n: nat, qkv: seq<seq<real>>)
    requires Rectangular(qkv, |left|, k + n) && ZeroesPadding(seen, left, k + n, qkv)
    ensures Rectangular(Later(qkv, k), |left|, n) && ZeroesPadding(Later(seen, k), Shift(left, k), n, Later(qkv, k))
  {
  }

  /** The chosen sequences are seen as before. */
  lemma FilterIsChoice(p: Padding, indices: seq<nat>, n: nat, qkv: seq<seq<real>>, chosen: seq<seq<real>>)
    requires Fine(p) && p.left.Some? && CanFilter(p, indices) && Rectangular(qkv, |p.left.value|, n)
    requires |chosen| == |indices| && forall i :: 0 <= i < |indices| ==> chosen[i] == qkv[indices[i]]
    ensures var before, after := Where(MakeMask(p, n), qkv), Where(MakeMask(Filter(p, indices), n), chosen);
            && |before| == |qkv| && |after| == |indices|
            && forall i :: 0 <= i < |indices| ==> after[i] == before[indices[i]]
  {
    var left, before := p.left.value, Where(MakeMask(p, n), qkv);
    SeenThroughMask(p, n, qkv);
    FilterFine(p, indices);
    SeenThroughMask(Filter(p, indices), n, chosen);
    var after := Where(MakeMask(Filter(p, indices), n), chosen);
    forall i | 0 <= i < |indices| ensures after[i] == before[indices[i]] {
      assert Filter(p, indices).left.value[i] == left[indices[i]];
    }
  }

  lemma FilterFine(p: Padding, indices: seq<nat>)
    requires Fine(p) && CanFilter(p, indices)
    ensures Fine(Filter(p, indices))
  {
  }

  /** Joined batches are seen one after the other. */
  lemma ExtendIsBoth(a: Padding, b: Padding, n: nat, x: seq<seq<real>>, y: seq<seq<real>>)
    requires CanExtend(a, b) && Fine(a) && Fine(b) && ExtendOk(a, b) && a.left.Some?
    requires Rectangular(x, |a.left.value|, n) && Rectangular(y, |b.left.value|, n)
    ensures Where(MakeMask(Extend(a, b), n), x + y) == Where(MakeMask(a, n), x) + Where(MakeMask(b, n), y)
  {
    var u, v, xy := a.left.value, b.left.value, x + y;
    ExtendStaysFineIff(a, b);
    SeenThroughMask(a, n, x);
    SeenThroughMask(b, n, y);
    SeenThroughMask(Extend(a, b), n, xy);
    JoinZeroes(Where(MakeMask(a, n), x), Where(MakeMask(b, n), y), u, v, n, x, y);
    SameSeen(Where(MakeMask(Extend(a, b), n), xy), Where(MakeMask(a, n), x) + Where(MakeMask(b, n), y), u + v, n, xy);
  }

  lemma JoinZeroes(s: seq<seq<real>>, t: seq<seq<real>>, u: seq<int>, v: seq<int>, n: nat, x: seq<seq<real>>,
                   y: seq<seq<real>>)
    requires Rectangular(x, |u|, n) && Rectangular(y, |v|, n) && ZeroesPadding(s, u, n, x) && ZeroesPadding(t, v, n, y)
    ensures Rectangular(x + y, |u + v|, n) && ZeroesPadding(s + t, u + v, n, x + y)
  {
  }

  // ----- Later runs -----

  datatype Step =
    | Keep(indices: seq<nat>)
    | Append(other: History)
    | SetLengths(newLengths: seq<int>)
    | Move(n: int)
    | Finish
    | Load(left: Option<seq<int>>, lengths: Option<seq<int>>)

  /** A step the cache can take; what it appends is itself in order, and joined in order. */
  ghost predicate StepOk(p: Padding, step: Step) {
    match step
    case Keep(indices) => CanFilter(p, indices)
    case Append(o) => Legal(o) && ExtendsOk(o) && CanExtend(p, Value(o)) && ExtendOk(p, Value(o))
    case _ => true
  }

  function Do(p: Padding, step: Step): Padding {
    match step
    case Keep(indices) => if CanFilter(p, indices) then Filter(p, indices) else p
    case Append(o) => if CanExtend(p, Value(o)) then Extend(p, Value(o)) else p
    case SetLengths(lengths) => Prepare(p, lengths)
    case Move(n) => Advance(p, n)
    case Finish => Finalize(p)
    case Load(left, lengths) => Restore(left, lengths)
  }

  ghost predicate StepsOk(p: Padding, steps: seq<Step>)
    decreases |steps|
  {
    steps == [] || (StepOk(p, steps[0]) && StepsOk(Do(p, steps[0]), steps[1..]))
  }

  function DoAll(p: Padding, steps: seq<Step>): Padding
    decreases |steps|
  {
    if steps == [] then p else DoAll(Do(p, steps[0]), steps[1..])
  }

  /** After no run of further steps does a consumer see a difference. */
  ghost predicate StaysSound(p: Padding) {
    forall steps :: StepsOk(p, steps) ==> Sound(DoAll(p, steps))
  }

  lemma StepFine(p: Padding, step: Step)
    requires Fine(p) && StepOk(p, step)
    ensures Fine(Do(p, step))
  {
    if step.Append? {
      StaysFine(step.other);
      ExtendStaysFineIff(p, Value(step.other));
    }
  }

  lemma {:induction false} StepsFine(p: Padding, steps: seq<Step>)
    requires Fine(p) && StepsOk(p, steps)
    ensures Fine(DoAll(p, steps))
    decreases |steps|
  {
    if steps != [] {
      StepFine(p, steps[0]);
      StepsFine(Do(p, steps[0]), steps[1..]);
    }
  }

  lemma DoOne(p: Padding, s: Step)
    requires StepOk(p, s)
    ensures StepsOk(p, [s]) && DoAll(p, [s]) == Do(p, s)
  {
    var rest: seq<Step> := [s][1..];
    assert rest == [];
    assert DoAll(Do(p, s), rest) == Do(p, s) && StepsOk(Do(p, s), rest);
  }

  lemma DoTwo(p: Padding, s: Step, t: Step)
    requires StepOk(p, s) && StepOk(Do(p, s), t)
    ensures StepsOk(p, [s, t]) && DoAll(p, [s, t]) == Do(Do(p, s), t)
  {
    assert [s, t][1..] == [t];
    DoOne(Do(p, s), t);
  }

  /** One padded sequence, a zero for it, and no lengths: the guard drops its mask. */
  lemma DroppedMask(p: Padding)
    requires p.left.Some? && |p.left.value| == 1 && p.left.value[0] > 0 && p.lengths.None? && p.list == Some([0])
    ensures !Sound(p)
  {
    var qkv := [[1.0]];
    assert MakeMask(p, 1) == None && OldMask(p, 1).value[0][0] == false;
    assert Where(MakeMask(p, 1), qkv)[0][0] == 1.0;
    assert Where(OldMask(p, 1), qkv)[0][0] == 0.0;
  }

  /** An entry below its padding: keep that sequence alone, and advance to the entry. */
  lemma LowEntry(p: Padding, i: nat) returns (steps: seq<Step>)
    requires p.left.Some? && p.lengths.None? && p.list.Some? && i < |p.left.value| == |p.list.value|
    requires p.left.value[i] > p.list.value[i]
    ensures StepsOk(p, steps) && !Sound(DoAll(p, steps))
  {
    var keep, move := Keep([i]), Move(p.list.value[i]);
    var q := Do(p, keep);
    assert q.left.value == [p.left.value[i]] && q.list.value == [p.list.value[i]];
    assert Do(q, move).list.value == [0];
    DroppedMask(Do(q, move));
    DoTwo(p, keep, move);
    steps := [keep, move];
  }

  /** Extending by `tail` and keeping the sequence whose padding is 5 and whose entry is 0. */
  lemma Misplaced(p: Padding, tail: seq<int>, i: nat) returns (steps: seq<Step>)
    requires p.left.Some? && p.lengths.None? && p.list.Some? && tail != []
    requires i < |p.left.value + tail| && i < |p.list.value + tail|
    requires (p.left.value + tail)[i] == 5 && (p.list.value + tail)[i] == 0
    ensures StepsOk(p, steps) && !Sound(DoAll(p, steps))
  {
    var append, keep := Append(Created(Some(tail))), Keep([i]);
    var q := Do(p, append);
    assert q.left.value == p.left.value + tail && q.list.value == p.list.value + tail;
    assert Do(q, keep).left.value == [5] && Do(q, keep).list.value == [0];
    DroppedMask(Do(q, keep));
    DoTwo(p, append, keep);
    steps := [append, keep];
  }

  /** A cache that is not fine has a run of ordinary steps into a dropped mask. */
  lemma UnfineFails(p: Padding) returns (steps: seq<Step>)
    requires !Fine(p)
    ensures StepsOk(p, steps) && !Sound(DoAll(p, steps))
  {
    var n, k := |p.left.value|, |p.list.value|;
    if k == n {
      var i :| 0 <= i < n && p.left.value[i] > p.list.value[i];
      steps := LowEntry(p, i);
    } else if k > n {
      var tail := Zeros(k - n) + [5];
      assert (p.left.value + tail)[k] == tail[k - n] && (p.list.value + tail)[k] == tail[0];
      steps := Misplaced(p, tail, k);
    } else {
      var tail := [5] + Zeros(n - k);
      assert (p.left.value + tail)[n] == tail[0] && (p.list.value + tail)[n] == tail[n - k];
      steps := Misplaced(p, tail, n);
    }
  }

  /** The exact condition for the guard over all later runs. */
  lemma GuardSafeIff(p: Padding)
    ensures StaysSound(p) <==> Fine(p)
  {
    if Fine(p) {
      forall steps | StepsOk(p, steps) ensures Sound(DoAll(p, steps)) {
        StepsFine(p, steps);
        FineIsSound(DoAll(p, steps));
      }
    } else {
      var steps := UnfineFails(p);
    }
  }

  /** ... and for one extend of caches that are in order. */
  lemma ExtendGuardIff(a: Padding, b: Padding)
    requires CanExtend(a, b) && Fine(a) && Fine(b)
    ensures StaysSound(Extend(a, b)) <==> ExtendOk(a, b)
  {
    ExtendStaysFineIff(a, b);
    GuardSafeIff(Extend(a, b));
  }

  // ----- The mirror under extend -----

  predicate Unpadded(left: seq<int>) {
    left == Zeros(|left|)
  }

  /** Extend keeps list and array equal exactly when its own side has a list -- without one the list comes out
      too long, unless nothing is appended to an unpadded batch -- and the other side has one or
      no padding. */
  lemma ExtendKeepsMirrorIff(a: Padding, b: Padding)
    requires a.left.Some? && b.left.Some? && CanExtend(a, b) && NeverWrong(a) && NeverWrong(b)
    ensures Mirrored(Extend(a, b)) <==>
            && (a.list.Some? || (b.left.value == [] && Unpadded(a.left.value)))
            && (b.list.Some? || Unpadded(b.left.value))
  {
    var x, y := a.left.value, b.left.value;
    var u, v := ListOr(a.list, |x + y|), ListOr(b.list, |y|);
    assert |u + v| == |x + y| ==> |u| == |x|;
    if |u| == |x| { assert (u + v)[..|x|] == u && (x + y)[..|x|] == x && (u + v)[|x|..] == v && (x + y)[|x|..] == y; }
  }

  /** Without a list of its own a cache gets one longer than its padding array by the whole
      other batch. */
  lemma OwnListTooLong(a: Padding, b: Padding)
    requires a.left.Some? && b.left.Some? && CanExtend(a, b) && NeverWrong(b) && a.list.None?
    ensures var p := Extend(a, b);
            |p.list.value| == |p.left.value| + |b.left.value|
  {
  }

  /** Where the mirror is lost the guard drops a mask that masks: a restored padding of 3,
      extended with an unpadded cache. */
  lemma RestoreThenExtendIsWrong()
    ensures var h := Extended(Restored(Some([3]), None), Merged(1));
            Legal(h) && MakeMask(Value(h), 4) == None
            && OldMask(Value(h), 4).Some? && !AllTrue(OldMask(Value(h), 4).value)
  {
    var p := Value(Extended(Restored(Some([3]), None), Merged(1)));
    assert p.left.value == [3, 0] && p.list.value == [0, 0, 0];
    assert !OldMask(p, 4).value[0][0];
  }

  function ShiftedHistory(): History {
    Filtered(Extended(Extended(Restored(Some([0, 0]), None), Merged(1)), Created(Some([5]))), [3])
  }

  /** It needs no restored padding: after an unpadded restore and an extend the list is one
      entry too long, a padded sequence appended later has its entry in the wrong place, and
      picking that sequence picks a zero. */
  lemma UnpaddedRestoreIsWrong()
    ensures var h := ShiftedHistory();
            Legal(h) && Value(h).left == Some([5]) && Value(h).list == Some([0])
            && MakeMask(Value(h), 6) == None
            && OldMask(Value(h), 6).Some? && !AllTrue(OldMask(Value(h), 6).value)
  {
    var p := Value(Extended(Restored(Some([0, 0]), None), Merged(1)));
    assert p.left.value == [0, 0, 0] && p.list.value == [0, 0, 0, 0];
    var q := Extend(p, Init(Some([5])));
    assert q.left.value == [0, 0, 0, 5] && q.list.value == [0, 0, 0, 0, 5];
    assert Pick(q.left.value, [3]) == [5] && Pick(q.list.value, [3]) == [0];
    assert !OldMask(Value(ShiftedHistory()), 6).value[0][0];
  }

  // ----- The object -----

  class ArraysCache {
    var left: Option<seq<int>>
    var lengths: Option<seq<int>>
    var list: Option<seq<int>>

    ghost function Held(): Padding
      reads this
    {
      Padding(left, lengths, list)
    }

    constructor (padding: Option<seq<int>>)
      ensures Held() == Init(padding) && Mirrored(Held())
    {
      left, lengths, list := None, None, None;
      new;
      if padding.Some? && padding.value != [] {
        left, list := padding, padding;
      }
    }

    constructor MergedEmpty(batch: nat)
      ensures Held() == MergeEmpty(batch) && Mirrored(Held())
    {
      left, lengths, list := Some(Zeros(batch)), None, Some(Zeros(batch));
    }

    method SetState(newLeft: Option<seq<int>>, newLengths: Option<seq<int>>)
      modifies this
      ensures Held() == Restore(newLeft, newLengths)
    {
      left, lengths := newLeft, newLengths;
      list := None;
    }

    method DoFilter(indices: seq<nat>)
      requires CanFilter(Held(), indices)
      modifies this
      ensures Held() == Filter(old(Held()), indices)
      ensures Mirrored(old(Held())) ==> Mirrored(Held())
    {
      if left.Some? {
        left := Some(Pick(left.value, indices));
        if list.Some? {
          list := Some(Pick(list.value, indices));
        }
      }
      if lengths.Some? {
        lengths := Some(Pick(lengths.value, indices));
      }
    }

    method DoExtend(other: ArraysCache)
      requires other != this && CanExtend(Held(), other.Held())
      modifies this
      ensures Held() == Extend(old(Held()), old(other.Held()))
      ensures other.Held() == old(other.Held())
      ensures Mirrored(old(Held())) && Mirrored(old(other.Held())) ==> Mirrored(Held())
    {
      left := Cat(left, other.left);
      if left.Some? || other.left.Some? {
        var aList := if list.Some? then list.value else Zeros(BatchSize(left));
        var bList := if other.list.Some? then other.list.value else Zeros(BatchSize(other.left));
        list := Some(aList + bList);
      } else {
        list := None;
      }
      lengths := Cat(lengths, other.lengths);
    }

    method DoFinalize()
      modifies this
      ensures Held() == Finalize(old(Held())) && Mirrored(Held())
    {
      lengths, left, list := None, None, None;
    }

    method DoAdvance(n: int)
      modifies this
      ensures Held() == Advance(old(Held()), n)
      ensures Mirrored(old(Held())) ==> Mirrored(Held())
    {
      if lengths.Some? {
        lengths := Some(Shift(lengths.value, n));
      }
      if left.Some? {
        left := Some(Shift(left.value, n));
        if list.Some? {
          list := Some(Shift(list.value, n));
        }
      }
    }

    method Mask(n: nat) returns (mask: Option<Mask>)
      ensures mask == MakeMask(Held(), n)
      ensures NeverWrong(Held()) && mask != OldMask(Held(), n) ==> AllTrue(OldMask(Held(), n).value)
      ensures Fine(Held()) ==>
                if left.Some? then
                  forall qkv :: Rectangular(qkv, |left.value|, n) ==>
                    ZeroesPadding(Where(mask, qkv), left.value, n, qkv)
                else
                  forall qkv: seq<seq<real>> :: Where(mask, qkv) == qkv
    {
      if Fine(Held()) && left.Some? {
        forall qkv | Rectangular(qkv, |left.value|, n)
          ensures ZeroesPadding(Where(MakeMask(Held(), n), qkv), left.value, n, qkv)
        {
          SeenThroughMask(Held(), n, qkv);
        }
      }
      if left.Some? && lengths.None? && list.Some? {
        var any, i := false, 0;
        while i < |list.value| && !any
          invariant i <= |list.value| && (!any ==> forall j :: 0 <= j < i ==> list.value[j] == 0)
          invariant any ==> AnyNonzero(list.value)
        {
          any := list.value[i] != 0;
          i := i + 1;
        }
        if !any {
          return None;
        }
      }
      if left.Some? {
        return Some(ValidFrom(left.value, n));
      }
      mask := None;
    }
  }
}
