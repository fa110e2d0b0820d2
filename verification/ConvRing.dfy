/**
 The preallocated convolution window that scripts/patch-mlx-lm-convring.py puts in place of
 concatenate-and-slice, against the block it replaces.  `skip` is the row the compaction
 copies from, relative to the oldest live row: 1 in the source, 0 where the live rows are.
 */
module ConvRing {
  import opened Wrappers

  /** One time step: a vector of channel values for every sequence of the batch. */
  type Step = seq<seq<real>>

  const CAP: nat := 260

  // ----- One ring step on values -----

  /** What the convolution reads, the live rows afterwards and the new offset. */
  datatype Moved = Moved(win: seq<Step>, live: seq<Step>, off: nat)

  /** Assigning `rows` to n rows: a single row is repeated, another count is an error. */
  function Broadcast(rows: seq<Step>, n: nat): Option<seq<Step>> {
    if |rows| == n then Some(rows)
    else if |rows| == 1 then Some(seq(n, _ => rows[0]))
    else None
  }

  /** _ConvRing.step, seen from the live rows.  None is the broadcast error, or a window of which
      the buffer cannot hold the live rows and one more. */
  function RingStep(skip: nat, live: seq<Step>, off: nat, x: Step): Option<Moved>
    requires skip <= 1 <= |live|
  {
    if off + |live| + 1 <= CAP then Some(Moved(live + [x], live[1..] + [x], off + 1))
    else if |live| >= CAP then None
    else
      match Broadcast(live[skip..], |live|)
      case None => None
      case Some(kept) => Some(Moved(kept + [x], kept[1..] + [x], 1))
  }

  /** The concatenate block's window and state for one token. */
  predicate Refines(m: Option<Moved>, live: seq<Step>, x: Step)
    requires |live| >= 1
  {
    m.Some? && m.value.win == live + [x] && m.value.live == live[1..] + [x]
  }

  /** Copying the live rows refines the old block for every window the buffer can hold. */
  lemma IntendedStepRefines(live: seq<Step>, off: nat, x: Step)
    requires 1 <= |live|
    ensures Refines(RingStep(0, live, off, x), live, x) <==> |live| < CAP
  {
    assert live[0..] == live;
  }

  /** As written, the slice copied by the compaction is one row short, whatever the window. */
  lemma CompactionIsShort(live: seq<Step>)
    requires 1 <= |live|
    ensures |live[1..]| == |live| - 1
    ensures Broadcast(live[1..], |live|).Some? <==> |live| == 2
  {
  }

  /** As written, a step meets the old block exactly while no compaction is due -- or, by
      accident, when there are two live rows and they are equal. */
  lemma WrittenStepRefinesIff(live: seq<Step>, off: nat, x: Step)
    requires 1 <= |live|
    ensures Refines(RingStep(1, live, off, x), live, x) <==>
            off + |live| + 1 <= CAP || (|live| == 2 && live[0] == live[1])
  {
    if off + |live| + 1 > CAP && |live| == 2 {
      var kept := Broadcast(live[1..], 2).value;
      assert (kept + [x])[0] == live[1] && (live + [x])[0] == live[0];
      assert kept == [live[1], live[1]];
      if live[0] == live[1] { assert kept == live; }
    }
  }

  // ----- Many ring steps -----

  function RingRun(skip: nat, live: seq<Step>, off: nat, xs: seq<Step>): Option<(seq<seq<Step>>, seq<Step>)>
    requires skip <= 1 <= |live|
    decreases |xs|
  {
    if xs == [] then Some(([], live))
    else
      match RingStep(skip, live, off, xs[0])
      case None => None
      case Some(m) =>
        match RingRun(skip, m.live, m.off, xs[1..])
        case None => None
        case Some((wins, last)) => Some(([m.win] + wins, last))
  }

  /** The windows of a stream: n + 1 consecutive rows each. */
  function Windows(stream: seq<Step>, n: nat, k: nat): seq<seq<Step>>
    requires k + n <= |stream|
  {
    seq(k, i requires 0 <= i < k => stream[i..i + n + 1])
  }

  /** The first window and the rest, which are the windows of the stream one row on. */
  lemma WindowsNext(live: seq<Step>, xs: seq<Step>)
    requires live != [] && xs != []
    ensures var n, next, rest := |live|, live[1..] + [xs[0]], xs[1..];
            && Windows(live + xs, n, |xs|) == [live + [xs[0]]] + Windows(next + rest, n, |rest|)
            && (live + xs)[|xs|..] == (next + rest)[|rest|..]
  {
    var n, next, rest := |live|, live[1..] + [xs[0]], xs[1..];
    Shifted(live, xs);
    var a, b := Windows(live + xs, n, |xs|), Windows(next + rest, n, |rest|);
    assert a[0] == live + [xs[0]];
    forall i | 0 < i < |xs| ensures a[i] == b[i - 1] { Slid(live[0], next + rest, i, n + 1); }
  }

  lemma Shifted(live: seq<Step>, xs: seq<Step>)
    requires live != [] && xs != []
    ensures live + xs == [live[0]] + (live[1..] + [xs[0]] + xs[1..])
  {
  }

  lemma Slid<T>(x: T, s: seq<T>, i: nat, k: nat)
    requires 0 < i && i - 1 + k <= |s|
    ensures ([x] + s)[i..i + k] == s[i - 1..i - 1 + k]
  {
  }

  lemma {:induction false} RingRunIsWindows(skip: nat, live: seq<Step>, off: nat, xs: seq<Step>)
    requires skip <= 1 <= |live|
    requires (skip == 0 && |live| < CAP) || off + |live| + |xs| <= CAP
    ensures RingRun(skip, live, off, xs) == Some((Windows(live + xs, |live|, |xs|), (live + xs)[|xs|..]))
    decreases |xs|
  {
    if xs != [] {
      if skip == 0 { IntendedStepRefines(live, off, xs[0]); } else { WrittenStepRefinesIff(live, off, xs[0]); }
      var m := RingStep(skip, live, off, xs[0]).value;
      assert m.win == live + [xs[0]] && m.live == live[1..] + [xs[0]];
      RingRunIsWindows(skip, m.live, m.off, xs[1..]);
      WindowsNext(live, xs);
    } else {
      assert (live + xs)[|xs|..] == live && Windows(live + xs, |live|, 0) == [];
    }
  }

  /** Any number of decode steps, with the intended copy: every window is n + 1 consecutive
      rows of the stream seed ++ inputs, and the last n rows are kept.  A window as large as the
      buffer allows no step at all. */
  lemma IntendedRunIsWindows(seed: seq<Step>, xs: seq<Step>)
    requires 1 <= |seed|
    ensures |seed| < CAP ==> RingRun(0, seed, 0, xs) == Some((Windows(seed + xs, |seed|, |xs|), (seed + xs)[|xs|..]))
    ensures |seed| >= CAP ==> (RingRun(0, seed, 0, xs).Some? <==> xs == [])
  {
    if |seed| < CAP { RingRunIsWindows(0, seed, 0, xs); }
  }

  lemma {:induction false} WrittenRunFails(live: seq<Step>, off: nat, xs: seq<Step>)
    requires 1 <= |live| && |live| != 2 && off + |live| <= CAP < off + |live| + |xs|
    ensures RingRun(1, live, off, xs) == None
    decreases |xs|
  {
    CompactionIsShort(live);
    if off + |live| + 1 <= CAP {
      var m := RingStep(1, live, off, xs[0]).value;
      WrittenRunFails(m.live, m.off, xs[1..]);
    }
  }

  /** As written, a run after seeding succeeds -- and is then right -- exactly when it has at
      most CAP - n steps; with a kernel of four (n = 3) the 258th token raises. */
  lemma WrittenRunIff(seed: seq<Step>, xs: seq<Step>)
    requires 1 <= |seed| <= CAP && |seed| != 2
    ensures RingRun(1, seed, 0, xs).Some? <==> |xs| <= CAP - |seed|
    ensures |xs| <= CAP - |seed| ==>
              RingRun(1, seed, 0, xs) == Some((Windows(seed + xs, |seed|, |xs|), (seed + xs)[|xs|..]))
  {
    if |xs| <= CAP - |seed| { RingRunIsWindows(1, seed, 0, xs); } else { WrittenRunFails(seed, 0, xs); }
  }

  lemma KernelOfFour(seed: seq<Step>, xs: seq<Step>)
    requires |seed| == 3 && |xs| == 258
    ensures RingRun(1, seed, 0, xs) == None && RingRun(1, seed, 0, xs[..257]).Some?
  {
    WrittenRunIff(seed, xs);
    WrittenRunIff(seed, xs[..257]);
  }

  // ----- The ring itself -----

  class Ring {
    const n: nat
    const skip: nat
    const buf: array<Step>
    var off: nat

    ghost predicate Valid()
      reads this
    {
      1 <= n < CAP && skip <= 1 && buf.Length == CAP && off + n <= CAP
    }

    /** The rows a later step may still read. */
    ghost function Live(): (w: seq<Step>)
      requires Valid()
      reads this, buf
      ensures |w| == n
    {
      buf[off..off + n]
    }

    /** convring.py:20-26. */
    constructor (seed: seq<Step>, skip: nat)
      requires 1 <= |seed| < CAP && skip <= 1
      ensures Valid() && fresh(buf) && n == |seed| && this.skip == skip
      ensures off == 0 && Live() == seed
    {
      n := |seed|;
      this.skip := skip;
      buf := new Step[CAP](i => []);
      off := 0;
      new;
      forall i | 0 <= i < |seed| { buf[i] := seed[i]; }
      assert buf[..|seed|] == seed;
    }

    /** convring.py:29-33; false is the error raised by the assignment, which then did nothing. */
    method Compact() returns (ok: bool)
      requires Valid() && off + n + 1 > CAP
      modifies this`off, buf
      ensures Valid()
      ensures var kept := Broadcast(old(Live())[skip..], n);
              && ok == kept.Some?
              && (ok ==> Live() == kept.value && off == 0)
              && (!ok ==> Live() == old(Live()) && off == old(off))
    {
      var hi := if off + skip + n <= CAP then off + skip + n else CAP;
      var rows := buf[off + skip..hi];
      assert rows == Live()[skip..];
      var kept := Broadcast(rows, n);
      if kept.None? {
        return false;
      }
      forall i | 0 <= i < n { buf[i] := kept.value[i]; }
      off := 0;
      assert buf[..n] == kept.value;
      return true;
    }

    /** convring.py:34-37: the new row, the window and the offset. */
    method Write(x: Step) returns (win: seq<Step>)
      requires Valid() && off + n + 1 <= CAP
      modifies this`off, buf
      ensures Valid() && off == old(off) + 1
      ensures win == old(Live()) + [x] && Live() == old(Live())[1..] + [x]
    {
      ghost var rows := Live();
      buf[off + n] := x;
      win := buf[off..off + n + 1];
      assert win == rows + [x];
      off := off + 1;
      assert Live() == win[1..] == rows[1..] + [x];
    }

    /** convring.py:28-37. */
    method Step(x: Step) returns (win: seq<Step>, ok: bool)
      requires Valid()
      modifies this`off, buf
      ensures Valid()
      ensures var m := RingStep(skip, old(Live()), old(off), x);
              && ok == m.Some?
              && (ok ==> win == m.value.win && Live() == m.value.live && off == m.value.off)
              && (!ok ==> Live() == old(Live()) && off == old(off))
    {
      win, ok := [], true;
      if off + n + 1 > CAP {
        ok := Compact();
        if !ok {
          return;
        }
      }
      win := Write(x);
    }
  }

  // ----- The two blocks -----

  /** What happens to the cache entry: a call of the layer with the (masked) rows of a chunk and
      `cache.lengths`, or other code writing rows over it -- filter, extend, the state setter.
      An entry that is unset counts as zero rows. */
  datatype Event =
    | Forward(x: seq<Step>, lengths: Option<seq<int>>)
    | Replace(rows: seq<Step>)

  predicate Shaped(rows: seq<Step>, batch: nat) {
    forall i :: 0 <= i < |rows| ==> |rows[i]| == batch
  }

  predicate EventOk(e: Event, n: nat, batch: nat) {
    match e
    case Forward(x, lengths) => Shaped(x, batch) && (lengths.Some? ==> |lengths.value| == batch)
    case Replace(rows) => |rows| == n && Shaped(rows, batch)
  }

  predicate EventsOk(events: seq<Event>, n: nat, batch: nat) {
    forall i :: 0 <= i < |events| ==> EventOk(events[i], n, batch)
  }

  function Clip(v: int, hi: nat): (r: nat)
    ensures r <= hi
  {
    if v < 0 then 0 else if v > hi then hi else v
  }

  /** take_along_axis at ends + arange(n), one position list a sequence. */
  function Gather(rows: seq<Step>, lengths: seq<int>, s: nat, n: nat): seq<Step>
    requires |rows| == n + s && Shaped(rows, |lengths|)
  {
    seq(n, j requires 0 <= j < n => seq(|lengths|, b requires 0 <= b < |lengths| => rows[Clip(lengths[b], s) + j][b]))
  }

  /** The cached rows, zeros before the first call. */
  function Rows(state: Option<seq<Step>>, zeros: seq<Step>): seq<Step> {
    if state.Some? then state.value else zeros
  }

  /** What the old block convolves, convring.py:84-95; a replacement convolves nothing. */
  function OldInput(state: Option<seq<Step>>, e: Event, zeros: seq<Step>): seq<Step> {
    if e.Replace? then [] else Rows(state, zeros) + e.x
  }

  /** ... and what it leaves in the cache, convring.py:96-103. */
  function OldState(state: Option<seq<Step>>, e: Event, zeros: seq<Step>, batch: nat): (s: seq<Step>)
    requires Shaped(zeros, batch) && EventOk(e, |zeros|, batch)
    requires state.Some? ==> |state.value| == |zeros| && Shaped(state.value, batch)
    ensures |s| == |zeros| && Shaped(s, batch)
  {
    if e.Replace? then e.rows
    else
      var rows := OldInput(state, e, zeros);
      if e.lengths.Some? then Gather(rows, e.lengths.value, |e.x|, |zeros|) else rows[|rows| - |zeros|..]
  }

  /** A call the ring serves. */
  predicate Decodes(e: Event) {
    e.Forward? && |e.x| == 1 && e.lengths.None?
  }

  /** The rows and the offset of the ring the patch hangs on the cache. */
  datatype Kept = Kept(live: seq<Step>, off: nat)

  /** `cache`: its first entry and its ring, if any. */
  datatype Held = Held(state: Option<seq<Step>>, ring: Option<Kept>)

  predicate HeldOk(h: Held, zeros: seq<Step>, batch: nat) {
    && (h.state.Some? ==> |h.state.value| == |zeros| && Shaped(h.state.value, batch))
    && (h.ring.Some? ==> |h.ring.value.live| == |zeros| && Shaped(h.ring.value.live, batch))
  }

  /** The ring that serves the next decode call: the one held, or one made from the cached rows. */
  function RingOf(h: Held, zeros: seq<Step>): Kept {
    if h.ring.Some? then h.ring.value else Kept(Rows(h.state, zeros), 0)
  }

  /** The ring holds the cached rows. */
  predicate Synced(h: Held, zeros: seq<Step>) {
    RingOf(h, zeros).live == Rows(h.state, zeros)
  }

  /** convring.py:40-82: what the convolution reads and what the cache holds afterwards. */
  function NewBlock(skip: nat, zeros: seq<Step>, batch: nat, h: Held, e: Event): (r: Option<(seq<Step>, Held)>)
    requires skip <= 1 <= |zeros| && Shaped(zeros, batch) && HeldOk(h, zeros, batch) && EventOk(e, |zeros|, batch)
    ensures r.Some? ==> HeldOk(r.value.1, zeros, batch) && (e.Forward? ==> Synced(r.value.1, zeros))
  {
    if e.Replace? then Some(([], h.(state := Some(e.rows))))
    else if Decodes(e) then
      match RingStep(skip, RingOf(h, zeros).live, RingOf(h, zeros).off, e.x[0])
      case None => None
      case Some(m) => Some((m.win, Held(Some(m.live), Some(Kept(m.live, m.off)))))
    else Some((OldInput(h.state, e, zeros), Held(Some(OldState(h.state, e, zeros, batch)), None)))
  }

  // ----- Whole runs of the two blocks -----

  function OldRun(zeros: seq<Step>, batch: nat, state: Option<seq<Step>>, events: seq<Event>)
    : (seq<seq<Step>>, Option<seq<Step>>)
    requires Shaped(zeros, batch) && HeldOk(Held(state, None), zeros, batch) && EventsOk(events, |zeros|, batch)
    decreases |events|
  {
    if events == [] then ([], state)
    else
      var (inputs, last) := OldRun(zeros, batch, Some(OldState(state, events[0], zeros, batch)), events[1..]);
      ([OldInput(state, events[0], zeros)] + inputs, last)
  }

  function NewRun(skip: nat, zeros: seq<Step>, batch: nat, h: Held, events: seq<Event>)
    : Option<(seq<seq<Step>>, Held)>
    requires skip <= 1 <= |zeros| && Shaped(zeros, batch) && HeldOk(h, zeros, batch)
    requires EventsOk(events, |zeros|, batch)
    decreases |events|
  {
    if events == [] then Some(([], h))
    else
      match NewBlock(skip, zeros, batch, h, events[0])
      case None => None
      case Some((input, next)) =>
        match NewRun(skip, zeros, batch, next, events[1..])
        case None => None
        case Some((inputs, last)) => Some(([input] + inputs, last))
  }

  const FRESH: Held := Held(None, None)

  predicate NoReplace(events: seq<Event>) {
    forall i :: 0 <= i < |events| ==> events[i].Forward?
  }

  /** A compaction is due with this event. */
  predicate Due(n: nat, age: nat, e: Event) {
    Decodes(e) && age + n + 1 > CAP
  }

  /** The offset of the ring afterwards; 0 without one. */
  function NextAge(n: nat, age: nat, e: Event): nat {
    if e.Replace? then age else if !Decodes(e) then 0 else if Due(n, age, e) then 1 else age + 1
  }

  /** The ring is never asked for a step beyond its buffer. */
  predicate Fits(n: nat, age: nat, events: seq<Event>)
    decreases |events|
  {
    events == [] || (!Due(n, age, events[0]) && Fits(n, NextAge(n, age, events[0]), events[1..]))
  }

  function AgeOf(h: Held): nat {
    if h.ring.Some? then h.ring.value.off else 0
  }

  /** No event raises before a compaction is due, and the offset moves on. */
  lemma BlockAge(zeros: seq<Step>, batch: nat, h: Held, e: Event)
    requires 1 <= |zeros| && Shaped(zeros, batch) && HeldOk(h, zeros, batch) && EventOk(e, |zeros|, batch)
    requires !Due(|zeros|, AgeOf(h), e)
    ensures var r := NewBlock(1, zeros, batch, h, e);
            r.Some? && AgeOf(r.value.1) == NextAge(|zeros|, AgeOf(h), e)
  {
  }

  /** One event is done as the old block does it. */
  ghost predicate SameStep(skip: nat, zeros: seq<Step>, batch: nat, h: Held, e: Event)
    requires skip <= 1 <= |zeros| && Shaped(zeros, batch) && HeldOk(h, zeros, batch) && EventOk(e, |zeros|, batch)
  {
    var r := NewBlock(skip, zeros, batch, h, e);
    r.Some? && r.value.0 == OldInput(h.state, e, zeros) && r.value.1.state == Some(OldState(h.state, e, zeros, batch))
  }

  /** One call: same input to the convolution, same state, as long as the ring holds the cached
      rows and no compaction is due. */
  lemma BlockRefines(skip: nat, zeros: seq<Step>, batch: nat, h: Held, e: Event)
    requires skip <= 1 <= |zeros| && Shaped(zeros, batch) && HeldOk(h, zeros, batch) && EventOk(e, |zeros|, batch)
    requires Decodes(e) ==> Synced(h, zeros) && ((skip == 0 && |zeros| < CAP) || !Due(|zeros|, AgeOf(h), e))
    ensures SameStep(skip, zeros, batch, h, e)
  {
    if Decodes(e) {
      if skip == 0 { IntendedStepRefines(RingOf(h, zeros).live, AgeOf(h), e.x[0]); }
      DecodeInput(h.state, e, zeros, batch);
    }
  }

  /** The old block's window and state for one token. */
  lemma DecodeInput(state: Option<seq<Step>>, e: Event, zeros: seq<Step>, batch: nat)
    requires 1 <= |zeros| && Shaped(zeros, batch) && HeldOk(Held(state, None), zeros, batch)
    requires EventOk(e, |zeros|, batch) && Decodes(e)
    ensures OldInput(state, e, zeros) == Rows(state, zeros) + [e.x[0]]
    ensures OldState(state, e, zeros, batch) == Rows(state, zeros)[1..] + [e.x[0]]
  {
    var rows := OldInput(state, e, zeros);
    assert e.x == [e.x[0]];
    assert rows[|rows| - |zeros|..] == Rows(state, zeros)[1..] + [e.x[0]];
  }

  // ----- Chunks and padding -----

  /** A chunk given in two calls or in one: the same rows are kept, and convolved. */
  lemma ChunksJoin(state: Option<seq<Step>>, x: seq<Step>, y: seq<Step>, zeros: seq<Step>, batch: nat)
    returns (mid: seq<Step>)
    requires Shaped(zeros, batch) && HeldOk(Held(state, None), zeros, batch)
    requires Shaped(x, batch) && Shaped(y, batch) && Shaped(x + y, batch)
    ensures mid == OldState(state, Forward(x, None), zeros, batch) && HeldOk(Held(Some(mid), None), zeros, batch)
    ensures OldState(Some(mid), Forward(y, None), zeros, batch) == OldState(state, Forward(x + y, None), zeros, batch)
  {
    mid := LastRows(state, x, zeros, batch);
    var apart := LastRows(Some(mid), y, zeros, batch);
    var whole := LastRows(state, x + y, zeros, batch);
    Chunked(Rows(state, zeros), x, y);
  }

  lemma InputsJoin(state: Option<seq<Step>>, x: seq<Step>, y: seq<Step>, zeros: seq<Step>, batch: nat)
    requires Shaped(zeros, batch) && HeldOk(Held(state, None), zeros, batch)
    requires Shaped(x, batch) && Shaped(y, batch) && Shaped(x + y, batch)
    ensures var mid := OldState(state, Forward(x, None), zeros, batch);
            var all := OldInput(state, Forward(x + y, None), zeros);
            && OldInput(state, Forward(x, None), zeros) == all[..|zeros| + |x|]
            && OldInput(Some(mid), Forward(y, None), zeros) == all[|x|..]
  {
    var mid := LastRows(state, x, zeros, batch);
    Chunked(Rows(state, zeros), x, y);
  }

  lemma LastRows(state: Option<seq<Step>>, x: seq<Step>, zeros: seq<Step>, batch: nat) returns (last: seq<Step>)
    requires Shaped(zeros, batch) && HeldOk(Held(state, None), zeros, batch) && Shaped(x, batch)
    ensures last == OldState(state, Forward(x, None), zeros, batch)
    ensures last == (Rows(state, zeros) + x)[|Rows(state, zeros) + x| - |Rows(state, zeros)|..]
    ensures HeldOk(Held(Some(last), None), zeros, batch)
  {
    last := OldState(state, Forward(x, None), zeros, batch);
  }

  lemma Chunked<T>(rows: seq<T>, x: seq<T>, y: seq<T>)
    ensures var all, mid := rows + (x + y), (rows + x)[|rows + x| - |rows|..];
            && rows + x == all[..|rows| + |x|] && mid + y == all[|x|..]
            && (mid + y)[|mid + y| - |rows|..] == all[|all| - |rows|..]
  {
    var all, mid := rows + (x + y), (rows + x)[|x|..];
    assert all == (rows + x) + y;
    assert mid + y == all[|x|..];
    assert (mid + y)[|y|..] == all[|x|..][|y|..];
  }

  /** The number of rows of a chunk that count for a sequence of the given length. */
  function Counted(length: int, rows: nat): (k: nat)
    ensures 0 <= length <= rows ==> k == length
    ensures length < 0 ==> k == 0
    ensures length > rows ==> k == rows
  {
    if length < 0 then 0 else if length > rows then rows else length
  }

  /** `after` is what sequence by sequence the unpadded chunk leaves in the cache. */
  ghost predicate NoTrace(state: Option<seq<Step>>, x: seq<Step>, lengths: seq<int>, zeros: seq<Step>, batch: nat,
                          after: seq<Step>)
    requires Shaped(zeros, batch) && HeldOk(Held(state, None), zeros, batch)
    requires EventOk(Forward(x, Some(lengths)), |zeros|, batch)
  {
    && |after| == |zeros| && Shaped(after, batch)
    && forall b, j :: 0 <= b < batch && 0 <= j < |zeros| ==>
         after[j][b] == OldState(state, Forward(x[..Counted(lengths[b], |x|)], None), zeros, batch)[j][b]
  }

  /** Padding leaves no trace: of every sequence the cached rows are those after its own rows of
      the chunk alone; a negative length counts as none of them, one too large as all. */
  lemma PaddingLeavesNoTrace(state: Option<seq<Step>>, x: seq<Step>, lengths: seq<int>, zeros: seq<Step>, batch: nat)
    requires Shaped(zeros, batch) && HeldOk(Held(state, None), zeros, batch)
    requires EventOk(Forward(x, Some(lengths)), |zeros|, batch)
    ensures NoTrace(state, x, lengths, zeros, batch, OldState(state, Forward(x, Some(lengths)), zeros, batch))
  {
    var after := OldState(state, Forward(x, Some(lengths)), zeros, batch);
    forall b, j | 0 <= b < batch && 0 <= j < |zeros|
      ensures after[j][b] == OldState(state, Forward(x[..Counted(lengths[b], |x|)], None), zeros, batch)[j][b]
    {
      var k := Counted(lengths[b], |x|);
      Gathered(state, x, lengths, zeros, batch, b, j);
      var alone := LastRows(state, x[..k], zeros, batch);
      KeptAt(Rows(state, zeros), x, k, j);
    }
  }

  /** Row j kept for sequence b is the one j behind the first that counts. */
  lemma Gathered(state: Option<seq<Step>>, x: seq<Step>, lengths: seq<int>, zeros: seq<Step>, batch: nat, b: nat, j: nat)
    requires Shaped(zeros, batch) && HeldOk(Held(state, None), zeros, batch)
    requires EventOk(Forward(x, Some(lengths)), |zeros|, batch) && b < batch && j < |zeros|
    ensures Counted(lengths[b], |x|) + j < |Rows(state, zeros) + x|
    ensures |(Rows(state, zeros) + x)[Counted(lengths[b], |x|) + j]| == batch
    ensures OldState(state, Forward(x, Some(lengths)), zeros, batch)[j][b] ==
            (Rows(state, zeros) + x)[Counted(lengths[b], |x|) + j][b]
  {
  }

  /** Row j of the last |rows| rows of a shortened chunk. */
  lemma KeptAt<T>(rows: seq<T>, x: seq<T>, k: nat, j: nat)
    requires k <= |x| && j < |rows|
    ensures var cut := rows + x[..k];
            cut[|cut| - |rows|..][j] == (rows + x)[k + j]
  {
    assert (rows + x)[..|rows| + k] == rows + x[..k];
  }

  // ----- When the two blocks agree -----

  /** They give the convolution the same rows in every call and end in one state. */
  ghost predicate Agree(skip: nat, zeros: seq<Step>, batch: nat, h: Held, events: seq<Event>)
    requires skip <= 1 <= |zeros| && Shaped(zeros, batch) && HeldOk(h, zeros, batch)
    requires EventsOk(events, |zeros|, batch)
  {
    var r, (inputs, state) := NewRun(skip, zeros, batch, h, events), OldRun(zeros, batch, h.state, events);
    r.Some? && r.value.0 == inputs && r.value.1.state == state
  }

  /** The rows a ring feeds the convolution before the new one. */
  function Fed(skip: nat, k: Kept): Option<seq<Step>>
    requires skip <= 1 <= |k.live|
  {
    if k.off + |k.live| + 1 <= CAP then Some(k.live)
    else if |k.live| >= CAP then None
    else Broadcast(k.live[skip..], |k.live|)
  }

  /** Spelled out for the code as written: the ring holds the cached rows and no compaction is
      due, or one is due and both cached rows are the ring's last row. */
  lemma FedIff(k: Kept, rows: seq<Step>)
    requires 1 <= |k.live| == |rows|
    ensures Fed(1, k) == Some(rows) <==>
            if k.off + |rows| + 1 <= CAP then k.live == rows
            else |rows| == 2 && rows[0] == rows[1] == k.live[1]
  {
    if |rows| == 2 && k.off + 3 > CAP {
      var kept := Broadcast(k.live[1..], 2).value;
      assert kept == [k.live[1], k.live[1]] && rows == [rows[0], rows[1]];
    }
  }

  /** The ring after an event that went as in the old block. */
  function NextRing(zeros: seq<Step>, h: Held, e: Event): Option<Kept>
    requires |Rows(h.state, zeros)| >= 1
  {
    if e.Replace? then h.ring
    else if !Decodes(e) then None
    else Some(Kept(Rows(h.state, zeros)[1..] + [e.x[0]], NextAge(|zeros|, AgeOf(h), e)))
  }

  /** At every decode call of the old block's run the ring feeds the rows then cached. */
  predicate Current(skip: nat, zeros: seq<Step>, batch: nat, h: Held, events: seq<Event>)
    requires skip <= 1 <= |zeros| && Shaped(zeros, batch) && HeldOk(h, zeros, batch)
    requires EventsOk(events, |zeros|, batch)
    decreases |events|
  {
    events == [] ||
    (var e := events[0];
     && (Decodes(e) ==> Fed(skip, RingOf(h, zeros)) == Some(Rows(h.state, zeros)))
     && Current(skip, zeros, batch, Held(Some(OldState(h.state, e, zeros, batch)), NextRing(zeros, h, e)), events[1..]))
  }

  /** A decode call goes as in the old block exactly when the ring feeds the cached rows. */
  lemma DecodeIff(skip: nat, zeros: seq<Step>, batch: nat, h: Held, e: Event)
    requires skip <= 1 <= |zeros| && Shaped(zeros, batch) && HeldOk(h, zeros, batch)
    requires EventOk(e, |zeros|, batch) && Decodes(e)
    ensures var r := NewBlock(skip, zeros, batch, h, e);
            if Fed(skip, RingOf(h, zeros)) == Some(Rows(h.state, zeros))
            then SameStep(skip, zeros, batch, h, e) && r.value.1.ring == NextRing(zeros, h, e)
            else r.None? || r.value.0 != OldInput(h.state, e, zeros)
  {
    var k, rows, x := RingOf(h, zeros), Rows(h.state, zeros), e.x[0];
    DecodeInput(h.state, e, zeros, batch);
    var fed := Fed(skip, k);
    if fed.Some? {
      assert RingStep(skip, k.live, k.off, x).value.win == fed.value + [x];
      SameFront(fed.value, rows, x);
    }
  }

  lemma SameFront<T>(a: seq<T>, b: seq<T>, x: T)
    ensures a + [x] == b + [x] <==> a == b
  {
    if a + [x] == b + [x] { assert (a + [x])[..|a|] == a && (b + [x])[..|b|] == b; }
  }

  lemma AgreeNext(skip: nat, zeros: seq<Step>, batch: nat, h: Held, events: seq<Event>)
    requires skip <= 1 <= |zeros| && Shaped(zeros, batch) && HeldOk(h, zeros, batch) && events != []
    requires EventsOk(events, |zeros|, batch) && SameStep(skip, zeros, batch, h, events[0])
    ensures Agree(skip, zeros, batch, h, events) <==>
            Agree(skip, zeros, batch, NewBlock(skip, zeros, batch, h, events[0]).value.1, events[1..])
  {
    var (input, next) := NewBlock(skip, zeros, batch, h, events[0]).value;
    var r := NewRun(skip, zeros, batch, next, events[1..]);
    if r.Some? { SameRest(input, r.value.0, OldRun(zeros, batch, next.state, events[1..]).0); }
  }

  lemma SameRest<T>(x: T, a: seq<T>, b: seq<T>)
    ensures [x] + a == [x] + b <==> a == b
  {
    assert ([x] + a)[1..] == a && ([x] + b)[1..] == b;
  }

  lemma DisagreeNow(skip: nat, zeros: seq<Step>, batch: nat, h: Held, events: seq<Event>)
    requires skip <= 1 <= |zeros| && Shaped(zeros, batch) && HeldOk(h, zeros, batch) && events != []
    requires EventsOk(events, |zeros|, batch)
    requires var r := NewBlock(skip, zeros, batch, h, events[0]);
             r.None? || r.value.0 != OldInput(h.state, events[0], zeros)
    ensures !Agree(skip, zeros, batch, h, events)
  {
    assert OldRun(zeros, batch, h.state, events).0[0] == OldInput(h.state, events[0], zeros);
  }

  /** Main result, for either copy, any window, any mix of calls and any rows written over the
      cache in between: the two blocks agree on a run exactly when at every decode call the ring
      feeds the rows then cached. */
  lemma {:induction false} AgreesIffCurrent(skip: nat, zeros: seq<Step>, batch: nat, h: Held, events: seq<Event>)
    requires skip <= 1 <= |zeros| && Shaped(zeros, batch) && HeldOk(h, zeros, batch)
    requires EventsOk(events, |zeros|, batch)
    ensures Agree(skip, zeros, batch, h, events) <==> Current(skip, zeros, batch, h, events)
    decreases |events|
  {
    if events != [] {
      var e := events[0];
      if Decodes(e) { DecodeIff(skip, zeros, batch, h, e); } else { BlockRefines(skip, zeros, batch, h, e); }
      if Decodes(e) && Fed(skip, RingOf(h, zeros)) != Some(Rows(h.state, zeros)) {
        DisagreeNow(skip, zeros, batch, h, events);
      } else {
        AgreeNext(skip, zeros, batch, h, events);
        AgreesIffCurrent(skip, zeros, batch, NewBlock(skip, zeros, batch, h, e).value.1, events[1..]);
      }
    }
  }

  /** Rows written over the cache while a ring is held, and then a decode call: the ring feeds its
      own rows, with either copy. */
  lemma ReplacedWhileHeld(skip: nat, zeros: seq<Step>, batch: nat, h: Held, rows: seq<Step>, x: Step)
    requires skip <= 1 <= |zeros| && Shaped(zeros, batch) && HeldOk(h, zeros, batch) && |x| == batch
    requires |rows| == |zeros| && Shaped(rows, batch)
    requires h.ring.Some? && AgeOf(h) + |zeros| + 1 <= CAP
    ensures Agree(skip, zeros, batch, h, [Replace(rows), Forward([x], None)]) <==> rows == h.ring.value.live
  {
    var replace, decode := Replace(rows), Forward([x], None);
    assert EventOk(replace, |zeros|, batch) && EventOk(decode, |zeros|, batch);
    var next := Held(Some(rows), h.ring);
    assert [replace, decode][1..] == [decode] && [decode][1..] == [];
    AgreesIffCurrent(skip, zeros, batch, h, [replace, decode]);
    assert Current(skip, zeros, batch, next, [decode]) <==> Fed(skip, h.ring.value) == Some(rows);
  }

  // ----- Without replacements -----

  /** Whenever a compaction falls due in the old block's run, the window is two equal rows. */
  predicate Harmless(zeros: seq<Step>, batch: nat, state: Option<seq<Step>>, age: nat, events: seq<Event>)
    requires Shaped(zeros, batch) && HeldOk(Held(state, None), zeros, batch) && EventsOk(events, |zeros|, batch)
    decreases |events|
  {
    events == [] ||
    (var live, e := Rows(state, zeros), events[0];
     && (Due(|zeros|, age, e) ==> |live| == 2 && live[0] == live[1])
     && Harmless(zeros, batch, Some(OldState(state, e, zeros, batch)), NextAge(|zeros|, age, e), events[1..]))
  }

  /** One call on a ring that holds the cached rows. */
  lemma SyncedNext(zeros: seq<Step>, batch: nat, h: Held, e: Event) returns (next: Held)
    requires 1 <= |zeros| && Shaped(zeros, batch) && HeldOk(h, zeros, batch) && EventOk(e, |zeros|, batch)
    requires Synced(h, zeros) && e.Forward?
    ensures next == Held(Some(OldState(h.state, e, zeros, batch)), NextRing(zeros, h, e))
    ensures HeldOk(next, zeros, batch) && Synced(next, zeros) && AgeOf(next) == NextAge(|zeros|, AgeOf(h), e)
    ensures var rows := Rows(h.state, zeros);
            (Decodes(e) ==> Fed(1, RingOf(h, zeros)) == Some(rows)) <==>
            (Due(|zeros|, AgeOf(h), e) ==> |rows| == 2 && rows[0] == rows[1])
  {
    next := Held(Some(OldState(h.state, e, zeros, batch)), NextRing(zeros, h, e));
    if Decodes(e) { DecodeInput(h.state, e, zeros, batch); }
    FedIff(RingOf(h, zeros), Rows(h.state, zeros));
  }

  lemma {:induction false} CurrentIffHarmless(zeros: seq<Step>, batch: nat, h: Held, events: seq<Event>)
    requires 1 <= |zeros| && Shaped(zeros, batch) && HeldOk(h, zeros, batch) && EventsOk(events, |zeros|, batch)
    requires Synced(h, zeros) && NoReplace(events)
    ensures Current(1, zeros, batch, h, events) <==> Harmless(zeros, batch, h.state, AgeOf(h), events)
    decreases |events|
  {
    if events != [] {
      var next := SyncedNext(zeros, batch, h, events[0]);
      CurrentIffHarmless(zeros, batch, next, events[1..]);
    }
  }

  /** The code as written, for any window and any mix of calls: the two blocks agree exactly when
      every compaction that falls due finds two equal rows. */
  lemma WrittenAgreesIffHarmless(zeros: seq<Step>, batch: nat, h: Held, events: seq<Event>)
    requires 1 <= |zeros| && Shaped(zeros, batch) && HeldOk(h, zeros, batch) && EventsOk(events, |zeros|, batch)
    requires Synced(h, zeros) && NoReplace(events)
    ensures Agree(1, zeros, batch, h, events) <==> Harmless(zeros, batch, h.state, AgeOf(h), events)
  {
    AgreesIffCurrent(1, zeros, batch, h, events);
    CurrentIffHarmless(zeros, batch, h, events);
  }

  lemma {:induction false} RunRefines(skip: nat, zeros: seq<Step>, batch: nat, h: Held, events: seq<Event>)
    requires skip <= 1 <= |zeros| && Shaped(zeros, batch) && HeldOk(h, zeros, batch) && EventsOk(events, |zeros|, batch)
    requires Synced(h, zeros) && NoReplace(events)
    requires (skip == 0 && |zeros| < CAP) || Fits(|zeros|, AgeOf(h), events)
    ensures Agree(skip, zeros, batch, h, events)
    decreases |events|
  {
    if events != [] {
      BlockRefines(skip, zeros, batch, h, events[0]);
      if skip == 1 { BlockAge(zeros, batch, h, events[0]); }
      AgreeNext(skip, zeros, batch, h, events);
      RunRefines(skip, zeros, batch, NewBlock(skip, zeros, batch, h, events[0]).value.1, events[1..]);
    }
  }

  lemma {:induction false} TooWide(zeros: seq<Step>, batch: nat, h: Held, events: seq<Event>)
    requires |zeros| >= CAP && Shaped(zeros, batch) && HeldOk(h, zeros, batch) && EventsOk(events, |zeros|, batch)
    ensures NewRun(0, zeros, batch, h, events).Some? ==> forall i :: 0 <= i < |events| ==> !Decodes(events[i])
    ensures (forall i :: 0 <= i < |events| ==> !Decodes(events[i])) ==> Fits(|zeros|, AgeOf(h), events)
    decreases |events|
  {
    if events != [] && !Decodes(events[0]) {
      TooWide(zeros, batch, NewBlock(0, zeros, batch, h, events[0]).value.1, events[1..]);
      forall i | 0 <= i < |events|
        ensures NewRun(0, zeros, batch, h, events).Some? ==> !Decodes(events[i])
      {
        if i > 0 { assert events[1..][i - 1] == events[i]; }
      }
    }
  }

  /** With the intended copy the patched block is the old block in every mix of prefill and
      decode calls, with or without lengths -- as long as the buffer holds the window, or no call
      needs it. */
  lemma IntendedBlockRefines(zeros: seq<Step>, batch: nat, events: seq<Event>)
    requires 1 <= |zeros| && Shaped(zeros, batch) && EventsOk(events, |zeros|, batch) && NoReplace(events)
    ensures Agree(0, zeros, batch, FRESH, events) <==>
            (|zeros| < CAP || forall i :: 0 <= i < |events| ==> !Decodes(events[i]))
  {
    if |zeros| >= CAP { TooWide(zeros, batch, FRESH, events); }
    if |zeros| < CAP || forall i :: 0 <= i < |events| ==> !Decodes(events[i]) {
      RunRefines(0, zeros, batch, FRESH, events);
    }
  }

  /** As written (n other than 2) a run goes through exactly when no step exceeds the buffer,
      whatever rows are written over the cache. */
  lemma {:induction false} GoesThroughIffFits(zeros: seq<Step>, batch: nat, h: Held, events: seq<Event>)
    requires 1 <= |zeros| && |zeros| != 2 && Shaped(zeros, batch) && HeldOk(h, zeros, batch)
    requires EventsOk(events, |zeros|, batch)
    ensures NewRun(1, zeros, batch, h, events).Some? <==> Fits(|zeros|, AgeOf(h), events)
    decreases |events|
  {
    if events != [] {
      if Due(|zeros|, AgeOf(h), events[0]) {
        CompactionIsShort(RingOf(h, zeros).live);
      } else {
        BlockAge(zeros, batch, h, events[0]);
        GoesThroughIffFits(zeros, batch, NewBlock(1, zeros, batch, h, events[0]).value.1, events[1..]);
      }
    }
  }

  /** How many steps the ring had served just before event j. */
  function Stretch(events: seq<Event>, j: nat, age: nat): nat
    requires j <= |events|
  {
    if j == 0 then age
    else if events[j - 1].Replace? then Stretch(events, j - 1, age)
    else if Decodes(events[j - 1]) then Stretch(events, j - 1, age) + 1
    else 0
  }

  function After(e: Event, age: nat): nat {
    if e.Replace? then age else if Decodes(e) then age + 1 else 0
  }

  lemma {:induction false} StretchShift(events: seq<Event>, j: nat, age: nat)
    requires j < |events|
    ensures Stretch(events, j + 1, age) == Stretch(events[1..], j, After(events[0], age))
    decreases j
  {
    if j > 0 { StretchShift(events, j - 1, age); }
  }

  lemma {:induction false} FitsIffShort(n: nat, age: nat, events: seq<Event>)
    requires age + n <= CAP
    ensures Fits(n, age, events) <==> forall j :: 0 <= j <= |events| ==> Stretch(events, j, age) <= CAP - n
    decreases |events|
  {
    if events != [] {
      var rest, next := events[1..], After(events[0], age);
      assert Stretch(events, 1, age) == next;
      if next + n <= CAP {
        FitsIffShort(n, next, rest);
        if Fits(n, next, rest) {
          forall j | 0 < j <= |events| ensures Stretch(events, j, age) <= CAP - n { StretchShift(events, j - 1, age); }
        } else {
          var j :| 0 <= j <= |rest| && Stretch(rest, j, next) > CAP - n;
          StretchShift(events, j, age);
        }
      }
    }
  }

  /** As written (n other than 2) a run goes through exactly when no stretch of consecutive decode
      calls is longer than CAP - n; without replacements it then is the old block's run. */
  lemma WrittenBlockRefinesIff(zeros: seq<Step>, batch: nat, events: seq<Event>)
    requires 1 <= |zeros| < CAP && |zeros| != 2 && Shaped(zeros, batch) && EventsOk(events, |zeros|, batch)
    ensures var r := NewRun(1, zeros, batch, FRESH, events);
            && (r.Some? <==> forall j :: 0 <= j <= |events| ==> Stretch(events, j, 0) <= CAP - |zeros|)
            && (r.Some? && NoReplace(events) ==> Agree(1, zeros, batch, FRESH, events))
  {
    FitsIffShort(|zeros|, 0, events);
    GoesThroughIffFits(zeros, batch, FRESH, events);
    if Fits(|zeros|, 0, events) && NoReplace(events) { RunRefines(1, zeros, batch, FRESH, events); }
  }

  // ----- The cache -----

  lemma BroadcastShaped(rows: seq<Step>, n: nat, batch: nat)
    requires Shaped(rows, batch)
    ensures Broadcast(rows, n).Some? ==> |Broadcast(rows, n).value| == n && Shaped(Broadcast(rows, n).value, batch)
  {
  }

  /** The state the block stores is the live rows. */
  lemma RingStepKeeps(skip: nat, live: seq<Step>, off: nat, x: Step, batch: nat)
    requires skip <= 1 <= |live| && Shaped(live, batch) && |x| == batch
    ensures var m := RingStep(skip, live, off, x);
            m.Some? ==> |m.value.live| == |live| && Shaped(m.value.live, batch)
                        && |m.value.win| == |live| + 1 && m.value.win[1..] == m.value.live
  {
    BroadcastShaped(live[skip..], |live|, batch);
    var m := RingStep(skip, live, off, x);
    if m.Some? {
      var kept := if off + |live| + 1 <= CAP then live else Broadcast(live[skip..], |live|).value;
      assert m.value.win == kept + [x] && m.value.live == kept[1..] + [x];
    }
  }

  class ConvCache {
    const batch: nat
    const zeros: seq<Step>
    const skip: nat
    var state: Option<seq<Step>>
    var ring: Ring?

    ghost predicate Valid()
      reads this, ring, if ring == null then {} else {ring.buf}
    {
      && skip <= 1 <= |zeros| < CAP && Shaped(zeros, batch)
      && (state.Some? ==> |state.value| == |zeros| && Shaped(state.value, batch))
      && (ring != null ==> ring.Valid() && ring.n == |zeros| && ring.skip == skip && Shaped(ring.Live(), batch))
    }

    ghost function Footprint(): set<object>
      reads this
    {
      {this} + (if ring == null then {} else {ring, ring.buf})
    }

    ghost function Value(): (h: Held)
      reads this, ring, if ring == null then {} else {ring.buf}
      requires Valid()
      ensures HeldOk(h, zeros, batch)
    {
      Held(state, if ring == null then None else Some(Kept(ring.Live(), ring.off)))
    }

    constructor (zeros: seq<Step>, batch: nat, skip: nat)
      requires skip <= 1 <= |zeros| < CAP && Shaped(zeros, batch)
      ensures Valid() && this.zeros == zeros && this.batch == batch && this.skip == skip
      ensures Value() == FRESH
    {
      this.zeros, this.batch, this.skip, state, ring := zeros, batch, skip, None, null;
    }

    /** Other code writing the entry: the ring stays. */
    method Write(rows: seq<Step>)
      requires Valid() && EventOk(Replace(rows), |zeros|, batch)
      modifies this`state
      ensures Valid() && Some(([], Value())) == NewBlock(skip, zeros, batch, old(Value()), Replace(rows))
    {
      state := Some(rows);
    }

    /** The ring branch, once a ring hangs on the cache. */
    method RingBranch(x: Step) returns (input: seq<Step>, ok: bool)
      requires Valid() && ring != null && |x| == batch
      modifies this`state, ring, ring.buf
      ensures Valid() && ring == old(ring)
      ensures var m := RingStep(skip, old(ring.Live()), old(ring.off), x);
              && ok == m.Some?
              && (ok ==>
                    && input == m.value.win
                    && Value() == Held(Some(m.value.live), Some(Kept(m.value.live, m.value.off))))
              && (!ok ==> Value() == old(Value()))
    {
      ghost var m := RingStep(skip, ring.Live(), ring.off, x);
      RingStepKeeps(skip, ring.Live(), ring.off, x, batch);
      input, ok := ring.Step(x);
      if ok {
        assert |input| - |zeros| == 1 && input[1..] == m.value.live == ring.Live();
        state := Some(input[|input| - |zeros|..]);
      }
    }

    /** The ring is dropped by a call it cannot serve, and made for the first one it can. */
    method Prepare(e: Event)
      requires Valid() && e.Forward? && EventOk(e, |zeros|, batch)
      modifies this`ring
      ensures Valid() && (ring != null <==> Decodes(e)) && fresh(Footprint() - old(Footprint()))
      ensures Value() == Held(state, if Decodes(e) then Some(RingOf(old(Value()), zeros)) else None)
    {
      var s := |e.x|;
      if ring != null && (s != 1 || e.lengths.Some?) {
        ring := null;
      }
      if ring == null && s == 1 && e.lengths.None? {
        var seed := if state.Some? then state.value else zeros;
        ring := new Ring(seed, skip);
      }
    }

    /** convring.py:40-82; false is the broadcast error of the ring. */
    method Block(e: Event) returns (input: seq<Step>, ok: bool)
      requires Valid() && e.Forward? && EventOk(e, |zeros|, batch)
      modifies Footprint()
      ensures Valid() && fresh(Footprint() - old(Footprint()))
      ensures var r := NewBlock(skip, zeros, batch, old(Value()), e);
              && ok == r.Some?
              && (ok ==> (input, Value()) == r.value)
              && (!ok ==> Value() == old(Value()))
      ensures e.lengths.Some? ==>
                ok && state.Some? && NoTrace(old(state), e.x, e.lengths.value, zeros, batch, state.value)
    {
      if e.lengths.Some? { PaddingLeavesNoTrace(state, e.x, e.lengths.value, zeros, batch); }
      Prepare(e);
      if ring != null {
        input, ok := RingBranch(e.x[0]);
      } else {
        input, ok := OldInput(state, e, zeros), true;
        state := Some(OldState(state, e, zeros, batch));
      }
    }
  }
}
