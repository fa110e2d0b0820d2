/**
 The greedy token-and-duration decode loop of harness/ref_trace.py.  The model is a
 parameter: any function from frame, last token and decoder state to a token, a duration
 index and the next state.
 */
module TdtDecode {
  import opened Wrappers
  import opened Arith

  datatype Model<!H> = Model(step: (nat, int, H) -> (int, nat, H), durations: seq<nat>, blank: int, initial: H)

  /** A model answers with indexes into its duration table. */
  ghost predicate WellTyped<H(!new)>(m: Model<H>) {
    forall t: nat, last: int, h: H :: m.step(t, last, h).1 < |m.durations|
  }

  datatype Step = Step(t: nat, token: int, duration: nat)

  function SumDurations(steps: seq<Step>): nat {
    if steps == [] then 0 else SumDurations(steps[..|steps| - 1]) + steps[|steps| - 1].duration
  }

  function Max1(n: int): nat {
    if n >= 1 then n else 1
  }

  /** The loop's variables; `idle` is the source's `new`. */
  datatype Loop<H> = Loop(steps: seq<Step>, t: nat, last: int, hidden: H, idle: nat)

  function Start<H>(m: Model<H>): Loop<H> {
    Loop([], 0, m.blank, m.initial, 0)
  }

  /** ref_trace.py:29-41: one pass through the loop body. */
  function Pass<H>(m: Model<H>, maxSymbols: Option<int>, s: Loop<H>): (r: Loop<H>)
    ensures |r.steps| == |s.steps| + 1 && r.t >= s.t && r.idle == if r.t == s.t then s.idle + 1 else 0
  {
    var (token, dec, h) := m.step(s.t, s.last, s.hidden);
    var duration: nat := if dec < |m.durations| then m.durations[dec] else 0;
    var idle := s.idle + 1;
    var forced := duration == 0 && maxSymbols.Some? && maxSymbols.value <= idle;
    Loop(s.steps + [Step(s.t, token, duration)],
         s.t + duration + (if forced then 1 else 0),
         if token != m.blank then token else s.last,
         if token != m.blank then h else s.hidden,
         if duration != 0 || forced then 0 else idle)
  }

  /** At most `fuel` passes while frames are left. */
  function Passes<H>(m: Model<H>, frames: int, maxSymbols: Option<int>, s: Loop<H>, fuel: nat): Loop<H>
    decreases fuel
  {
    if fuel == 0 || s.t >= frames then s else Passes(m, frames, maxSymbols, Pass(m, maxSymbols, s), fuel - 1)
  }

  /** ref_trace.py:26-41; the source's cap is 400 steps. */
  method Decode<H(!new)>(m: Model<H>, frames: int, maxSymbols: Option<int>, cap: nat) returns (r: Loop<H>)
    requires WellTyped(m)
    ensures r == Passes(m, frames, maxSymbols, Start(m), cap)
    ensures |r.steps| <= cap && (r.t >= frames || |r.steps| == cap)
    ensures IsTrace(m, frames, maxSymbols, cap, r.steps)
  {
    PassesTrace(m, frames, maxSymbols, cap);
    var steps: seq<Step> := [];
    var t: nat, idle: nat := 0, 0;
    var last, hidden := m.blank, m.initial;
    while t < frames && |steps| < cap
      invariant |steps| <= cap
      invariant Passes(m, frames, maxSymbols, Loop(steps, t, last, hidden, idle), cap - |steps|)
                == Passes(m, frames, maxSymbols, Start(m), cap)
      decreases cap - |steps|
    {
      var (token, dec, h) := m.step(t, last, hidden);
      var duration := m.durations[dec];
      steps := steps + [Step(t, token, duration)];
      if token != m.blank {
        last, hidden := token, h;
      }
      t := t + duration;
      idle := idle + 1;
      if duration != 0 {
        idle := 0;
      } else if maxSymbols.Some? && maxSymbols.value <= idle {
        t := t + 1;
        idle := 0;
      }
    }
    r := Loop(steps, t, last, hidden, idle);
  }

  // ----- What the trace records -----

  /** Consecutive zero-duration steps at the end of the trace, counted anew after each
      forced advance. */
  function Idle(steps: seq<Step>, maxSymbols: Option<int>): nat {
    if steps == [] || steps[|steps| - 1].duration != 0 then 0
    else
      var idle := Idle(steps[..|steps| - 1], maxSymbols) + 1;
      if maxSymbols.Some? && maxSymbols.value <= idle then 0 else idle
  }

  /** Number of forced advances: zero-duration steps that complete a full idle stretch. */
  function Forced(steps: seq<Step>, maxSymbols: Option<int>): nat {
    if steps == [] then 0
    else
      var front := steps[..|steps| - 1];
      Forced(front, maxSymbols) +
      (if steps[|steps| - 1].duration == 0 && maxSymbols.Some?
          && maxSymbols.value <= Idle(front, maxSymbols) + 1 then 1 else 0)
  }

  /** The token fed back: the last one that was not blank. */
  function LastToken(steps: seq<Step>, blank: int): int {
    if steps == [] then blank
    else if steps[|steps| - 1].token != blank then steps[|steps| - 1].token
    else LastToken(steps[..|steps| - 1], blank)
  }

  /** Every step was taken at the time its predecessors account for. */
  ghost predicate TimesOk(steps: seq<Step>, frames: int, maxSymbols: Option<int>) {
    forall k :: 0 <= k < |steps| ==>
      steps[k].t == SumDurations(steps[..k]) + Forced(steps[..k], maxSymbols) && steps[k].t < frames
  }

  ghost predicate Recorded<H>(m: Model<H>, frames: int, maxSymbols: Option<int>, s: Loop<H>) {
    && s.t == SumDurations(s.steps) + Forced(s.steps, maxSymbols)
    && s.idle == Idle(s.steps, maxSymbols)
    && s.last == LastToken(s.steps, m.blank)
    && TimesOk(s.steps, frames, maxSymbols)
  }

  lemma TimesAppend(steps: seq<Step>, x: Step, frames: int, maxSymbols: Option<int>)
    requires TimesOk(steps, frames, maxSymbols)
    requires x.t == SumDurations(steps) + Forced(steps, maxSymbols) && x.t < frames
    ensures TimesOk(steps + [x], frames, maxSymbols)
  {
    var all := steps + [x];
    forall k | 0 <= k < |all|
      ensures all[k].t == SumDurations(all[..k]) + Forced(all[..k], maxSymbols) && all[k].t < frames
    {
      assert all[..k] == steps[..k];
      if k == |steps| { assert steps[..k] == steps; }
    }
  }

  lemma OneMore(steps: seq<Step>, x: Step, maxSymbols: Option<int>, blank: int)
    ensures var all, idle := steps + [x], Idle(steps, maxSymbols) + 1;
            var full := maxSymbols.Some? && maxSymbols.value <= idle;
            && SumDurations(all) == SumDurations(steps) + x.duration
            && Idle(all, maxSymbols) == (if x.duration != 0 || full then 0 else idle)
            && Forced(all, maxSymbols) == Forced(steps, maxSymbols) + (if x.duration == 0 && full then 1 else 0)
            && LastToken(all, blank) == (if x.token != blank then x.token else LastToken(steps, blank))
  {
    assert (steps + [x])[..|steps|] == steps;
  }

  lemma PassRecorded<H>(m: Model<H>, frames: int, maxSymbols: Option<int>, s: Loop<H>)
    requires Recorded(m, frames, maxSymbols, s) && s.t < frames
    ensures Recorded(m, frames, maxSymbols, Pass(m, maxSymbols, s))
  {
    var x := Pass(m, maxSymbols, s).steps[|s.steps|];
    TimesAppend(s.steps, x, frames, maxSymbols);
    OneMore(s.steps, x, maxSymbols, m.blank);
  }

  lemma {:induction false} PassesRecorded<H>(m: Model<H>, frames: int, maxSymbols: Option<int>, s: Loop<H>, fuel: nat)
    returns (r: Loop<H>)
    requires Recorded(m, frames, maxSymbols, s)
    ensures r == Passes(m, frames, maxSymbols, s, fuel) && Recorded(m, frames, maxSymbols, r)
    decreases fuel
  {
    if fuel == 0 || s.t >= frames {
      r := s;
    } else {
      var next := Pass(m, maxSymbols, s);
      PassRecorded(m, frames, maxSymbols, s);
      r := PassesRecorded(m, frames, maxSymbols, next, fuel - 1);
    }
  }

  /** Conservation: the final time is the sum of the durations plus the forced advances, and
      so is the time of every step before it. */
  lemma TimeIsAccountedFor<H>(m: Model<H>, frames: int, maxSymbols: Option<int>, cap: nat)
    ensures Recorded(m, frames, maxSymbols, Passes(m, frames, maxSymbols, Start(m), cap))
  {
    var r := PassesRecorded(m, frames, maxSymbols, Start(m), cap);
  }

  // ----- The trace is a run of the model -----

  /** Step k records the model's answer at its frame, for the last token before it and the state
      hs[k]; the answer's state is taken up unless the token is blank. */
  ghost predicate AnswerAt<H>(m: Model<H>, steps: seq<Step>, hs: seq<H>, k: nat)
    requires k < |steps| && |hs| == |steps| + 1
  {
    var (token, dec, h) := m.step(steps[k].t, LastToken(steps[..k], m.blank), hs[k]);
    && steps[k].token == token
    && dec < |m.durations| && steps[k].duration == m.durations[dec]
    && hs[k + 1] == if token != m.blank then h else hs[k]
  }

  ghost predicate Answered<H>(m: Model<H>, steps: seq<Step>, hs: seq<H>) {
    |hs| == |steps| + 1 && hs[0] == m.initial && forall k :: 0 <= k < |steps| ==> AnswerAt(m, steps, hs, k)
  }

  /** The decode's trace: the model's answers, at the times their predecessors account for, as
      long as frames are left and the cap is not reached. */
  ghost predicate IsTrace<H(!new)>(m: Model<H>, frames: int, maxSymbols: Option<int>, cap: nat, steps: seq<Step>) {
    && (exists hs: seq<H> :: Answered(m, steps, hs))
    && TimesOk(steps, frames, maxSymbols)
    && |steps| <= cap
    && (|steps| < cap ==> SumDurations(steps) + Forced(steps, maxSymbols) >= frames)
  }

  lemma AnsweredAppend<H>(m: Model<H>, steps: seq<Step>, hs: seq<H>, x: Step, h: H)
    requires Answered(m, steps, hs) && AnswerAt(m, steps + [x], hs + [h], |steps|)
    ensures Answered(m, steps + [x], hs + [h])
  {
    forall k | 0 <= k < |steps| ensures AnswerAt(m, steps + [x], hs + [h], k) {
      assert AnswerAt(m, steps, hs, k) && (steps + [x])[..k] == steps[..k];
    }
  }

  lemma PassAnswered<H(!new)>(m: Model<H>, maxSymbols: Option<int>, s: Loop<H>, hs: seq<H>)
    requires WellTyped(m) && Answered(m, s.steps, hs) && hs[|s.steps|] == s.hidden
    requires s.last == LastToken(s.steps, m.blank)
    ensures Answered(m, Pass(m, maxSymbols, s).steps, hs + [Pass(m, maxSymbols, s).hidden])
  {
    var next := Pass(m, maxSymbols, s);
    var x := next.steps[|s.steps|];
    assert next.steps == s.steps + [x] && next.steps[..|s.steps|] == s.steps;
    assert m.step(s.t, s.last, s.hidden).1 < |m.durations|;
    AnsweredAppend(m, s.steps, hs, x, next.hidden);
  }

  lemma {:induction false} PassesAnswered<H(!new)>(m: Model<H>, frames: int, maxSymbols: Option<int>, s: Loop<H>,
                                                   fuel: nat, hs: seq<H>)
    returns (r: Loop<H>, gs: seq<H>)
    requires WellTyped(m) && Recorded(m, frames, maxSymbols, s)
    requires Answered(m, s.steps, hs) && hs[|s.steps|] == s.hidden
    ensures r == Passes(m, frames, maxSymbols, s, fuel)
    ensures Answered(m, r.steps, gs) && gs[|r.steps|] == r.hidden
    decreases fuel
  {
    if fuel == 0 || s.t >= frames {
      r, gs := s, hs;
    } else {
      var next := Pass(m, maxSymbols, s);
      PassRecorded(m, frames, maxSymbols, s);
      PassAnswered(m, maxSymbols, s, hs);
      r, gs := PassesAnswered(m, frames, maxSymbols, next, fuel - 1, hs + [next.hidden]);
    }
  }

  /** What the loop returns is such a trace ... */
  lemma PassesTrace<H(!new)>(m: Model<H>, frames: int, maxSymbols: Option<int>, cap: nat)
    requires WellTyped(m)
    ensures IsTrace(m, frames, maxSymbols, cap, Passes(m, frames, maxSymbols, Start(m), cap).steps)
  {
    var r, hs := PassesAnswered(m, frames, maxSymbols, Start(m), cap, [m.initial]);
    TimeIsAccountedFor(m, frames, maxSymbols, cap);
    PassesEnd(m, frames, maxSymbols, Start(m), cap);
    PassesLength(m, frames, maxSymbols, Start(m), cap);
  }

  lemma {:induction false} PassesLength<H>(m: Model<H>, frames: int, maxSymbols: Option<int>, s: Loop<H>, fuel: nat)
    ensures |Passes(m, frames, maxSymbols, s, fuel).steps| <= |s.steps| + fuel
    decreases fuel
  {
    if fuel > 0 && s.t < frames { PassesLength(m, frames, maxSymbols, Pass(m, maxSymbols, s), fuel - 1); }
  }

  /** ... and there is only one. */
  lemma TraceIsUnique<H(!new)>(m: Model<H>, frames: int, maxSymbols: Option<int>, cap: nat, a: seq<Step>, b: seq<Step>)
    requires IsTrace(m, frames, maxSymbols, cap, a) && IsTrace(m, frames, maxSymbols, cap, b)
    ensures a == b
  {
    var hs: seq<H> :| Answered(m, a, hs);
    var gs: seq<H> :| Answered(m, b, gs);
    if |a| <= |b| {
      SameAnswers(m, frames, maxSymbols, a, b, hs, gs, |a|);
      NoLonger(m, frames, maxSymbols, cap, a, b);
    } else {
      SameAnswers(m, frames, maxSymbols, b, a, gs, hs, |b|);
      NoLonger(m, frames, maxSymbols, cap, b, a);
    }
  }

  lemma NoLonger<H(!new)>(m: Model<H>, frames: int, maxSymbols: Option<int>, cap: nat, a: seq<Step>, b: seq<Step>)
    requires IsTrace(m, frames, maxSymbols, cap, a) && IsTrace(m, frames, maxSymbols, cap, b)
    requires |a| <= |b| && a == b[..|a|]
    ensures a == b
  {
    if |a| < |b| { FramesLeft(b, |a|, frames, maxSymbols); }
  }

  lemma FramesLeft(steps: seq<Step>, k: nat, frames: int, maxSymbols: Option<int>)
    requires TimesOk(steps, frames, maxSymbols) && k < |steps|
    ensures SumDurations(steps[..k]) + Forced(steps[..k], maxSymbols) < frames
  {
    assert steps[k].t < frames;
  }

  lemma SameAnswer<H>(m: Model<H>, frames: int, maxSymbols: Option<int>, a: seq<Step>, b: seq<Step>,
                      hs: seq<H>, gs: seq<H>, k: nat)
    requires TimesOk(a, frames, maxSymbols) && TimesOk(b, frames, maxSymbols)
    requires k < |a| && k < |b| && |hs| == |a| + 1 && |gs| == |b| + 1
    requires AnswerAt(m, a, hs, k) && AnswerAt(m, b, gs, k) && a[..k] == b[..k] && hs[k] == gs[k]
    ensures a[k] == b[k] && hs[k + 1] == gs[k + 1]
  {
    assert a[k].t == SumDurations(a[..k]) + Forced(a[..k], maxSymbols);
    assert b[k].t == SumDurations(b[..k]) + Forced(b[..k], maxSymbols);
  }

  lemma AgreeMore<T>(a: seq<T>, b: seq<T>, k: nat)
    requires k < |a| && k < |b| && a[..k] == b[..k] && a[k] == b[k]
    ensures a[..k + 1] == b[..k + 1]
  {
    assert a[..k + 1] == a[..k] + [a[k]] && b[..k + 1] == b[..k] + [b[k]];
  }

  lemma {:induction false} SameAnswers<H>(m: Model<H>, frames: int, maxSymbols: Option<int>, a: seq<Step>, b: seq<Step>,
                                          hs: seq<H>, gs: seq<H>, k: nat)
    requires Answered(m, a, hs) && Answered(m, b, gs)
    requires TimesOk(a, frames, maxSymbols) && TimesOk(b, frames, maxSymbols)
    requires k <= |a| <= |b|
    ensures a[..k] == b[..k] && hs[k] == gs[k]
    decreases k
  {
    if k > 0 {
      SameAnswers(m, frames, maxSymbols, a, b, hs, gs, k - 1);
      SameAnswer(m, frames, maxSymbols, a, b, hs, gs, k - 1);
      AgreeMore(a, b, k - 1);
    }
  }

  // ----- Halting -----

  function Frames(t: int, frames: int): nat {
    if t < 0 || frames < 0 then 0 else if t < frames then t else frames
  }

  /** Steps are paid for: at most `limit` for every frame passed. */
  predicate Paid<H>(frames: int, limit: nat, s: Loop<H>) {
    s.idle < limit && |s.steps| <= Frames(s.t, frames) * limit + s.idle && (s.t >= frames ==> s.idle == 0)
  }

  /** Moving past at least one frame pays for the whole idle stretch. */
  lemma AdvancePays(steps: nat, t: nat, next: nat, frames: int, limit: nat, idle: nat)
    requires idle < limit && t < frames && t < next && steps <= t * limit + idle
    ensures steps + 1 <= Frames(next, frames) * limit
  {
    MulMonotone(t + 1, Frames(next, frames), limit);
    Distribute(t, 1, limit);
  }

  lemma PassPaid<H>(m: Model<H>, frames: int, n: int, s: Loop<H>)
    requires Paid(frames, Max1(n), s) && s.t < frames
    ensures Paid(frames, Max1(n), Pass(m, Some(n), s))
  {
    var s' := Pass(m, Some(n), s);
    assert Frames(s.t, frames) == s.t && |s'.steps| == |s.steps| + 1;
    if s'.t > s.t {
      AdvancePays(|s.steps|, s.t, s'.t, frames, Max1(n), s.idle);
      assert s'.idle == 0;
    } else {
      assert s'.t == s.t && s'.idle == s.idle + 1;
    }
  }

  lemma {:induction false} PassesPaid<H>(m: Model<H>, frames: int, n: int, s: Loop<H>, fuel: nat)
    requires Paid(frames, Max1(n), s)
    ensures Paid(frames, Max1(n), Passes(m, frames, Some(n), s, fuel))
    decreases fuel
  {
    if fuel > 0 && s.t < frames {
      PassPaid(m, frames, n, s);
      PassesPaid(m, frames, n, Pass(m, Some(n), s), fuel - 1);
    }
  }

  lemma {:induction false} PassesEnd<H>(m: Model<H>, frames: int, maxSymbols: Option<int>, s: Loop<H>, fuel: nat)
    ensures var r := Passes(m, frames, maxSymbols, s, fuel);
            r.t >= frames || |r.steps| == |s.steps| + fuel
    decreases fuel
  {
    if fuel > 0 && s.t < frames { PassesEnd(m, frames, maxSymbols, Pass(m, maxSymbols, s), fuel - 1); }
  }

  /** With max_symbols set the loop needs no cap: for any model outputs it has passed the last
      frame after at most frames * max(1, max_symbols) steps. */
  lemma HaltsWithoutCap<H>(m: Model<H>, frames: nat, n: int, cap: nat)
    ensures |Passes(m, frames, Some(n), Start(m), cap).steps| <= frames * Max1(n)
    ensures cap >= frames * Max1(n) ==> Passes(m, frames, Some(n), Start(m), cap).t >= frames
  {
    var r := Passes(m, frames, Some(n), Start(m), cap);
    PassesPaid(m, frames, n, Start(m), cap);
    PassesEnd(m, frames, Some(n), Start(m), cap);
    if r.t < frames {
      MulMonotone(r.t + 1, frames, Max1(n));
      Distribute(r.t, 1, Max1(n));
    } else {
      MulMonotone(Frames(r.t, frames), frames, Max1(n));
    }
  }

  /** Without max_symbols only the cap ends a decode whose answers all have duration zero. */
  lemma {:induction false} OnlyTheCapEnds<H(!new)>(m: Model<H>, frames: int, s: Loop<H>, cap: nat)
    requires s.t < frames
    requires forall t: nat, last: int, h: H ::
               m.step(t, last, h).1 < |m.durations| ==> m.durations[m.step(t, last, h).1] == 0
    ensures var r := Passes(m, frames, None, s, cap);
            r.t == s.t && |r.steps| == |s.steps| + cap
    decreases cap
  {
    if cap > 0 {
      var s' := Pass(m, None, s);
      var dec := m.step(s.t, s.last, s.hidden).1;
      assert dec < |m.durations| ==> m.durations[dec] == 0;
      assert s'.t == s.t && |s'.steps| == |s.steps| + 1;
      OnlyTheCapEnds(m, frames, s', cap - 1);
    }
  }

  /** With it, answers that all have duration zero stay on every frame for max(1, max_symbols)
      steps, and then move on by one. */
  lemma {:induction false} ZeroAnswersMoveOn<H(!new)>(m: Model<H>, frames: int, n: int, s: Loop<H>, fuel: nat)
    requires s.t * Max1(n) + s.idle == |s.steps| && s.idle < Max1(n)
    requires forall t: nat, last: int, h: H ::
               m.step(t, last, h).1 < |m.durations| ==> m.durations[m.step(t, last, h).1] == 0
    ensures var r := Passes(m, frames, Some(n), s, fuel);
            r.t == |r.steps| / Max1(n) && r.idle == |r.steps| % Max1(n)
    decreases fuel
  {
    if fuel == 0 || s.t >= frames {
      DivModUnique(s.t, s.idle, Max1(n));
    } else {
      var next := Pass(m, Some(n), s);
      var dec := m.step(s.t, s.last, s.hidden).1;
      assert dec < |m.durations| ==> m.durations[dec] == 0;
      Distribute(s.t, 1, Max1(n));
      ZeroAnswersMoveOn(m, frames, n, next, fuel - 1);
    }
  }

  /** Some number of steps takes the decode past the last frame. */
  ghost predicate Halts<H>(m: Model<H>, frames: int, maxSymbols: Option<int>) {
    exists cap: nat :: Passes(m, frames, maxSymbols, Start(m), cap).t >= frames
  }

  predicate Positive(durations: seq<nat>) {
    forall i :: 0 <= i < |durations| ==> durations[i] > 0
  }

  /** Every model over this table of durations halts on any number of frames. */
  ghost predicate AlwaysHalts<H(!new)>(durations: seq<nat>, maxSymbols: Option<int>) {
    forall m: Model<H>, frames: int :: WellTyped(m) && m.durations == durations ==> Halts(m, frames, maxSymbols)
  }

  lemma {:induction false} PositiveAdvances<H(!new)>(m: Model<H>, frames: int, maxSymbols: Option<int>, s: Loop<H>,
                                                      fuel: nat)
    requires WellTyped(m) && Positive(m.durations) && frames <= s.t + fuel
    ensures Passes(m, frames, maxSymbols, s, fuel).t >= frames
    decreases fuel
  {
    if fuel > 0 && s.t < frames {
      assert m.step(s.t, s.last, s.hidden).1 < |m.durations|;
      PositiveAdvances(m, frames, maxSymbols, Pass(m, maxSymbols, s), fuel - 1);
    }
  }

  /** A model that always answers with entry i. */
  function Constant<H>(durations: seq<nat>, i: nat, h: H): Model<H> {
    Model((t: nat, last: int, hidden: H) => (0, i, hidden), durations, 0, h)
  }

  lemma ZeroEntryStalls<H(!new)>(durations: seq<nat>, i: nat, h: H)
    requires i < |durations| && durations[i] == 0
    ensures WellTyped(Constant(durations, i, h)) && !Halts(Constant(durations, i, h), 1, None)
  {
    var m := Constant(durations, i, h);
    forall cap: nat ensures Passes(m, 1, None, Start(m), cap).t < 1 { OnlyTheCapEnds(m, 1, Start(m), cap); }
  }

  /** The exact condition: without max_symbols the loop is sure to halt without its cap -- for
      every model over the table and every number of frames -- exactly when no entry of the
      table is zero. */
  lemma HaltsWithoutMaxSymbolsIff<H(!new)>(durations: seq<nat>, h: H)
    ensures AlwaysHalts<H>(durations, None) <==> Positive(durations)
  {
    if Positive(durations) {
      forall m: Model<H>, frames: int | WellTyped(m) && m.durations == durations ensures Halts(m, frames, None) {
        var cap: nat := if frames < 0 then 0 else frames;
        PositiveAdvances(m, frames, None, Start(m), cap);
      }
    } else {
      var i :| 0 <= i < |durations| && durations[i] == 0;
      ZeroEntryStalls(durations, i, h);
    }
  }

  /** With max_symbols it is sure to halt over every table. */
  lemma MaxSymbolsAlwaysHalts<H(!new)>(durations: seq<nat>, n: int)
    ensures AlwaysHalts<H>(durations, Some(n))
  {
    forall m: Model<H>, frames: int | WellTyped(m) && m.durations == durations ensures Halts(m, frames, Some(n)) {
      if frames < 0 {
        assert Passes(m, frames, Some(n), Start(m), 0).t >= frames;
      } else {
        HaltsWithoutCap(m, frames, n, frames * Max1(n));
      }
    }
  }
}
