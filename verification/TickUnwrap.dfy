/**
 Unwrapping device timestamps that count modulo 2^b (scripts/profile_analyze.py).
 */
module TickUnwrap {
  import opened Arith
  import opened Sequences

  /** The signed step read into a raw difference: in (-half, half]. */
  function SignedStep(prev: int, raw: int, m: nat): (d: int)
    requires m > 0
  {
    var d := (raw - prev) % m;
    if d > m / 2 then d - m else d
  }

  predicate Congruent(a: int, b: int, m: nat)
    requires m > 0
  {
    (a - b) % m == 0
  }

  /** Does every step of a series lie in (-half, half]? */
  predicate SmallSteps(xs: seq<int>, m: nat) {
    forall i :: 0 < i < |xs| ==> -(m as int) < 2 * (xs[i] - xs[i - 1]) <= m
  }

  /** The unwrapped series: starts at the first raw tick, congruent to the ticks, small steps. */
  ghost predicate Unwrapped(out: seq<int>, ticks: seq<int>, m: nat)
    requires m > 0
  {
    && |out| == |ticks|
    && (ticks != [] ==> out[0] == ticks[0])
    && (forall i :: 0 <= i < |ticks| ==> Congruent(out[i], ticks[i], m))
    && SmallSteps(out, m)
  }

  predicate Wide(validBits: nat) {
    validBits >= 64 || validBits == 0
  }

  /** What the source returns for ticks of a given width: wide ones as they are. */
  ghost predicate UnwrapsTo(out: seq<int>, ticks: seq<int>, validBits: nat) {
    if Wide(validBits) then out == ticks else Unwrapped(out, ticks, Pow2(validBits))
  }

  lemma StepIsSmall(prev: int, raw: int, m: nat)
    requires m > 0 && m % 2 == 0
    ensures -(m as int) < 2 * SignedStep(prev, raw, m) <= m
    ensures Congruent(SignedStep(prev, raw, m), raw - prev, m)
  {
    var d := raw - prev;
    assert d == d / m * m + d % m;
    if SignedStep(prev, raw, m) == d % m {
      DivModUnique(-(d / m), 0, m);
      assert d % m - d == -(d / m) * m;
    } else {
      DivModUnique(-(d / m) - 1, 0, m);
      Distribute(-(d / m), -1, m);
      assert d % m - m - d == (-(d / m) - 1) * m;
    }
  }

  lemma CongruentSum(a: int, b: int, c: int, d: int, m: nat)
    requires m > 0 && Congruent(a, b, m) && Congruent(c, d, m)
    ensures Congruent(a + c, b + d, m)
  {
    var p, q := (a - b) / m, (c - d) / m;
    assert a - b == p * m && c - d == q * m;
    Distribute(p, q, m);
    DivModUnique(p + q, 0, m);
  }

  lemma EvenPower(k: nat)
    requires k > 0
    ensures Pow2(k) % 2 == 0
  {
  }

  /** One more tick: the last unwrapped value plus the signed step. */
  lemma UnwrappedNext(out: seq<int>, ticks: seq<int>, i: nat, m: nat)
    requires m > 0 && m % 2 == 0 && 1 <= i < |ticks| && |out| == i && Unwrapped(out, ticks[..i], m)
    ensures Unwrapped(out + [out[i - 1] + SignedStep(ticks[i - 1], ticks[i], m)], ticks[..i + 1], m)
  {
    var d := SignedStep(ticks[i - 1], ticks[i], m);
    assert Congruent(out[i - 1], ticks[..i][i - 1], m);
    StepIsSmall(ticks[i - 1], ticks[i], m);
    CongruentSum(out[i - 1], ticks[i - 1], d, ticks[i] - ticks[i - 1], m);
    forall j | 0 <= j < i ensures Congruent(out[j], ticks[j], m) { assert Congruent(out[j], ticks[..i][j], m); }
  }

  /** Each value is the one before plus the signed step between the raw ticks. */
  ghost predicate StepsBy(out: seq<int>, ticks: seq<int>, m: nat)
    requires m > 0
  {
    && |out| == |ticks| && (out != [] ==> out[0] == ticks[0])
    && forall i :: 0 < i < |out| ==> out[i] == out[i - 1] + SignedStep(ticks[i - 1], ticks[i], m)
  }

  lemma {:induction false} StepsUnwrap(out: seq<int>, ticks: seq<int>, i: nat, m: nat)
    requires m > 0 && m % 2 == 0 && 1 <= i <= |ticks| && StepsBy(out, ticks, m)
    ensures Unwrapped(out[..i], ticks[..i], m)
    decreases i
  {
    if i > 1 {
      StepsUnwrap(out, ticks, i - 1, m);
      UnwrappedNext(out[..i - 1], ticks, i - 1, m);
      TakeNext(out, i - 1);
    }
  }

  /** scripts/profile_analyze.py:60-76. */
  method Unwrap(ticks: seq<int>, validBits: nat) returns (out: seq<int>)
    ensures UnwrapsTo(out, ticks, validBits)
  {
    if ticks == [] {
      return [];
    }
    if validBits >= 64 || validBits == 0 {
      return ticks;
    }
    out := Accumulate(ticks, Pow2(validBits));
    EvenPower(validBits);
    StepsUnwrap(out, ticks, |ticks|, Pow2(validBits));
    assert out[..|ticks|] == out && ticks[..|ticks|] == ticks;
  }

  /** The loop. */
  method Accumulate(ticks: seq<int>, m: nat) returns (out: seq<int>)
    requires m > 0 && ticks != []
    ensures StepsBy(out, ticks, m)
  {
    out := [ticks[0]];
    var delta := 0;
    var i := 1;
    while i < |ticks|
      invariant 1 <= i <= |ticks| && |out| == i && out[0] == ticks[0] && out[i - 1] == ticks[0] + delta
      invariant forall j :: 0 < j < i ==> out[j] == out[j - 1] + SignedStep(ticks[j - 1], ticks[j], m)
    {
      delta := delta + SignedStep(ticks[i - 1], ticks[i], m);
      out := out + [ticks[0] + delta];
      i := i + 1;
    }
  }

  /** Two small steps that agree modulo m are equal. */
  lemma SmallStepUnique(a: int, b: int, m: nat)
    requires m > 0 && Congruent(a, b, m)
    requires -(m as int) < 2 * a <= m && -(m as int) < 2 * b <= m
    ensures a == b
  {
    var q := (a - b) / m;
    assert a - b == q * m;
    MulMonotone(1, q, m);
    MulMonotone(q, -1, m);
  }

  lemma CongruentNegate(a: int, b: int, m: nat)
    requires m > 0 && Congruent(a, b, m)
    ensures Congruent(b, a, m) && Congruent(-a, -b, m)
  {
    var q := (a - b) / m;
    assert a - b == q * m;
    assert b - a == -q * m;
    DivModUnique(-q, 0, m);
  }

  lemma CongruentTrans(a: int, b: int, c: int, m: nat)
    requires m > 0 && Congruent(a, b, m) && Congruent(b, c, m)
    ensures Congruent(a, c, m)
  {
    CongruentSum(a - b, 0, b - c, 0, m);
  }

  /** The step between two entries agrees modulo m in both series. */
  lemma StepsCongruent(a0: int, a1: int, b0: int, b1: int, t0: int, t1: int, m: nat)
    requires m > 0 && Congruent(a0, t0, m) && Congruent(a1, t1, m) && Congruent(b0, t0, m) && Congruent(b1, t1, m)
    ensures Congruent(a1 - a0, b1 - b0, m)
  {
    CongruentNegate(b0, t0, m);
    CongruentNegate(b1, t1, m);
    CongruentTrans(a0, t0, b0, m);
    CongruentTrans(a1, t1, b1, m);
    CongruentNegate(a0, b0, m);
    CongruentSum(a1, b1, -a0, -b0, m);
  }

  lemma {:induction false} RecoversUpTo(out: seq<int>, ticks: seq<int>, truth: seq<int>, m: nat, i: nat)
    requires m > 0 && Unwrapped(out, ticks, m) && |truth| == |ticks| && i < |ticks|
    requires forall j :: 0 <= j < |ticks| ==> Congruent(truth[j], ticks[j], m)
    requires SmallSteps(truth, m)
    ensures out[i] - out[0] == truth[i] - truth[0]
    decreases i
  {
    if i > 0 {
      RecoversUpTo(out, ticks, truth, m, i - 1);
      StepsCongruent(out[i - 1], out[i], truth[i - 1], truth[i], ticks[i - 1], ticks[i], m);
      SmallStepUnique(out[i] - out[i - 1], truth[i] - truth[i - 1], m);
    }
  }

  /** A true series seen through b-bit ticks is recovered, up to its start, exactly when every
      true step lies in (-2^(b-1), 2^(b-1)]. */
  lemma RecoversIffSmallSteps(out: seq<int>, ticks: seq<int>, truth: seq<int>, m: nat)
    requires m > 0 && Unwrapped(out, ticks, m) && |truth| == |ticks|
    requires forall j :: 0 <= j < |ticks| ==> Congruent(truth[j], ticks[j], m)
    ensures SmallSteps(truth, m) <==> forall i :: 0 <= i < |ticks| ==> out[i] - out[0] == truth[i] - truth[0]
  {
    if SmallSteps(truth, m) {
      forall i | 0 <= i < |ticks| ensures out[i] - out[0] == truth[i] - truth[0] {
        RecoversUpTo(out, ticks, truth, m, i);
      }
    }
  }

  /** One output step is nondecreasing exactly when the tick is at most half the range ahead. */
  lemma StepRisesIff(out: seq<int>, ticks: seq<int>, m: nat, i: nat)
    requires m > 0 && m % 2 == 0 && Unwrapped(out, ticks, m) && 0 < i < |ticks|
    ensures out[i - 1] <= out[i] <==> 2 * ((ticks[i] - ticks[i - 1]) % m) <= m
  {
    StepIsSmall(ticks[i - 1], ticks[i], m);
    CongruentNegate(out[i - 1], ticks[i - 1], m);
    CongruentNegate(ticks[i - 1], out[i - 1], m);
    CongruentSum(out[i], ticks[i], -out[i - 1], -ticks[i - 1], m);
    CongruentNegate(SignedStep(ticks[i - 1], ticks[i], m), ticks[i] - ticks[i - 1], m);
    CongruentTrans(out[i] - out[i - 1], ticks[i] - ticks[i - 1], SignedStep(ticks[i - 1], ticks[i], m), m);
    SmallStepUnique(out[i] - out[i - 1], SignedStep(ticks[i - 1], ticks[i], m), m);
  }

  /** Does a tick not fall behind its predecessor? Of wide ticks the number itself decides. */
  predicate Rises(prev: int, raw: int, validBits: nat) {
    if Wide(validBits) then prev <= raw else 2 * ((raw - prev) % Pow2(validBits)) <= Pow2(validBits)
  }

  /** The docstring's "monotonically increasing" holds of an output exactly when no tick is more
      than half the range ahead of its predecessor; where the ticks are returned as they are,
      exactly when they are nondecreasing themselves. */
  lemma NondecreasingIff(out: seq<int>, ticks: seq<int>, validBits: nat)
    requires UnwrapsTo(out, ticks, validBits)
    ensures (forall i :: 0 < i < |out| ==> out[i - 1] <= out[i]) <==>
            (forall i :: 0 < i < |ticks| ==> Rises(ticks[i - 1], ticks[i], validBits))
  {
    forall i | 0 < i < |ticks| ensures out[i - 1] <= out[i] <==> Rises(ticks[i - 1], ticks[i], validBits) {
      if !Wide(validBits) {
        EvenPower(validBits);
        StepRisesIff(out, ticks, Pow2(validBits), i);
      }
    }
  }

  /** A tick that falls from 5 to 3 is read as a step back, not as a wrap: of three bits or more,
      and of ticks whose width is given as 0. */
  lemma StepBackIsKept(out: seq<int>, validBits: nat)
    requires UnwrapsTo(out, [5, 3], validBits) && (validBits == 0 || validBits >= 3)
    ensures out == [5, 3]
  {
    if !Wide(validBits) {
      var m := Pow2(validBits);
      Pow2Monotone(3, validBits);
      assert Pow2(1) == 2 && Pow2(2) == 4 && m >= 8;
      CongruentNegate(out[0], 5, m);
      CongruentSum(out[1], 3, -out[0], -5, m);
      SmallStepUnique(out[1] - out[0], -2, m);
    }
  }
}
