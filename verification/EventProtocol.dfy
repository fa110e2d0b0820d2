/**
 The event store, its HTTP handler, a network that may cut a connection at any byte, and
 the reader of EventStream, as one system of steps.  Every schedule of steps is covered.
 */
module EventProtocol {
  import opened Octets
  import opened Sequences
  import opened Wrappers
  import opened EventLog
  import opened EventStream

  /** history.py:91,132: the store keeps this many events; older ones are dropped. */
  const KEPT: nat := 4096

  /** A connection asked for the events after `start`; the handler has written the frames up
      to `sent`, of which the bytes `received` have arrived and `buf` is still unread. */
  datatype Connection = Connection(start: nat, sent: nat, received: Bytes, buf: Bytes)

  /** All events ever emitted, the number already dropped, and the client. */
  datatype System = System(log: seq<Event>, dropped: nat, after: nat, yielded: seq<Event>, conn: Option<Connection>)

  datatype Action = Emit(event: Event) | Open | Send | Deliver(chunk: Bytes) | Close

  ghost predicate Start(s: System) {
    && Numbered(s.log) && s.dropped <= |s.log|
    && s.after == 0 && s.yielded == [] && s.conn == None
  }

  ghost predicate Enabled(c: Codec, s: System, a: Action) {
    match a
    case Emit(e) => e.sequence == Some(|s.log| + 1)
    case Send => s.conn.Some?
    case Deliver(chunk) =>
      && s.conn.Some?
      && s.conn.value.start <= s.conn.value.sent <= |s.log|
      && s.conn.value.received + chunk <= Encode(c, s.log[s.conn.value.start..s.conn.value.sent])
    case _ => true
  }

  function Next(c: Codec, s: System, a: Action): System {
    match a
    case Emit(e) =>
      // deque(maxlen=4096): the oldest event goes when the store is full
      var log := s.log + [e];
      s.(log := log, dropped := if |log| > s.dropped + KEPT then |log| - KEPT else s.dropped)
    case Open =>
      // store.events raises for a cursor out of range or already dropped (history.py:273-277)
      s.(conn := if s.dropped <= s.after <= |s.log| then Some(Connection(s.after, s.after, [], [])) else None)
    case Send =>
      // the handler's own cursor can fall behind as well; it then stops writing
      if s.conn.Some? && s.dropped <= s.conn.value.sent
      then s.(conn := Some(s.conn.value.(sent := |s.log|)))
      else s
    case Deliver(chunk) =>
      if s.conn.None? then s
      else
        var f := Drain(c, s.after, s.conn.value.buf + chunk);
        System(s.log, s.dropped, f.after, s.yielded + f.events,
               if f.ok then Some(s.conn.value.(received := s.conn.value.received + chunk, buf := f.rest)) else None)
    case Close => s.(conn := None)
  }

  ghost predicate Runs(c: Codec, s: System, actions: seq<Action>)
    decreases |actions|
  {
    actions == [] || (Enabled(c, s, actions[0]) && Runs(c, Next(c, s, actions[0]), actions[1..]))
  }

  function Run(c: Codec, s: System, actions: seq<Action>): System
    decreases |actions|
  {
    if actions == [] then s else Run(c, Next(c, s, actions[0]), actions[1..])
  }

  // ----- What a frame looks like to the reader -----

  lemma BlockHasNoSep(c: Codec, e: Event, j: nat)
    requires Sound(c) && j < |Block(c, e)|
    ensures !(Frame(c, e)[j] == NL && Frame(c, e)[j + 1] == NL)
  {
    var id, kind, json := ID_LINE + c.id(e), EVENT_LINE + c.kind(e), DATA_LINE + c.json(e);
    assert NL !in id && NL !in kind && NL !in json;
    assert Frame(c, e) == id + [NL] + kind + [NL] + json + [NL, NL];
    assert kind[0] == 101 && json[0] == 100;
  }

  lemma FrameSep(c: Codec, e: Event, rest: Bytes)
    requires Sound(c)
    ensures FirstSep(Frame(c, e) + rest) == |Block(c, e)|
  {
    var buf, k := Frame(c, e) + rest, |Block(c, e)|;
    forall j | 0 <= j < k ensures !(buf[j] == NL && buf[j + 1] == NL) { BlockHasNoSep(c, e, j); }
    SepAt(buf, k);
  }

  /** An incomplete frame holds no separator. */
  lemma PartialFrame(c: Codec, e: Event, buf: Bytes)
    requires Sound(c) && buf <= Frame(c, e) && |buf| < |Frame(c, e)|
    ensures !HasSep(buf)
  {
    forall j | 0 <= j && j + 1 < |buf| ensures !(buf[j] == NL && buf[j + 1] == NL) { BlockHasNoSep(c, e, j); }
    NoSep(buf);
  }

  lemma BlockLines(c: Codec, e: Event)
    requires Sound(c)
    ensures Lines(Block(c, e)) == [ID_LINE + c.id(e), EVENT_LINE + c.kind(e), DATA_LINE + c.json(e)]
  {
    var id, kind, json := ID_LINE + c.id(e), EVENT_LINE + c.kind(e), DATA_LINE + c.json(e);
    assert NL !in id && NL !in kind && NL !in json;
    assert Block(c, e) == id + [NL] + (kind + [NL] + json);
    FirstLine(id, kind + [NL] + json);
    FirstLine(kind, json);
    FirstLine(json, []);
  }

  /** The next event in sequence is read from its block and moves the cursor by one. */
  lemma ReadBlockOf(c: Codec, e: Event, after: nat)
    requires Sound(c) && e.sequence == Some(after + 1)
    ensures ReadLines(c, after, Lines(Block(c, e))) == Feed(after + 1, [], [e], true)
  {
    BlockLines(c, e);
    var lines := Lines(Block(c, e));
    assert lines[1..][1..] == [lines[2]] && lines[2..][1..] == [];
    assert lines[0][0] == 105 && lines[1][0] == 101;
    assert lines[2][..5] == DATA && lines[2][5..] == [32] + c.json(e);
    assert ReadLines(c, after + 1, []) == Feed(after + 1, [], [], true);
    assert ReadLines(c, after, [lines[2]]) == Feed(after + 1, [], [e], true);
  }

  lemma FirstFrame(c: Codec, e: Event, after: nat, rest: Bytes)
    requires Sound(c) && e.sequence == Some(after + 1)
    ensures Drain(c, after, Frame(c, e) + rest) == Then(Feed(after + 1, [], [e], true), Drain(c, after + 1, rest))
  {
    var buf := Frame(c, e) + rest;
    FrameSep(c, e, rest);
    ReadBlockOf(c, e, after);
    assert buf[..|Block(c, e)|] == Block(c, e) && buf[|Block(c, e)| + 2..] == rest;
    DrainStep(c, after, buf);
  }

  lemma EncodeNext(c: Codec, log: seq<Event>, from: nat, to: nat)
    requires from < to <= |log|
    ensures Encode(c, log[from..to]) == Frame(c, log[from]) + Encode(c, log[from + 1..to])
  {
    assert log[from..to][1..] == log[from + 1..to];
  }

  /** A feed that yielded log[after..k] and keeps no separator. */
  ghost predicate Yields(c: Codec, log: seq<Event>, after: nat, k: nat, buf: Bytes) {
    && after <= k <= |log|
    && var f := Drain(c, after, buf);
       f.ok && f.after == k && f.events == log[after..k] && !HasSep(f.rest)
       && buf == Encode(c, log[after..k]) + f.rest
  }

  lemma YieldsNothing(c: Codec, log: seq<Event>, after: nat, buf: Bytes)
    requires !HasSep(buf) && after <= |log|
    ensures Yields(c, log, after, after, buf)
  {
    assert log[after..after] == [];
    assert [] + buf == buf;
  }

  lemma YieldsOneMore(c: Codec, log: seq<Event>, after: nat, k: nat, rest: Bytes)
    requires Sound(c) && Numbered(log) && after < |log| && Yields(c, log, after + 1, k, rest)
    ensures Yields(c, log, after, k, Frame(c, log[after]) + rest)
  {
    var frame, f := Frame(c, log[after]), Drain(c, after + 1, rest);
    FirstFrame(c, log[after], after, rest);
    EncodeNext(c, log, after, k);
    SliceNext(log, after, k);
    Assoc(frame, Encode(c, log[after + 1..k]), f.rest);
  }

  /** Whatever part of the frames of log[after..sent] the buffer holds, reading it yields the
      events whose frames are complete and keeps the rest. */
  lemma {:induction false} DrainFrames(c: Codec, log: seq<Event>, after: nat, sent: nat, buf: Bytes) returns (k: nat)
    requires Sound(c) && Numbered(log) && after <= sent <= |log|
    requires buf <= Encode(c, log[after..sent])
    ensures k <= sent && Yields(c, log, after, k, buf)
    ensures buf == Encode(c, log[after..sent]) ==> k == sent
    decreases sent - after
  {
    k := after;
    if after == sent {
      assert log[after..sent] == [] && buf == [];
      YieldsNothing(c, log, after, buf);
    } else {
      var frame := Frame(c, log[after]);
      EncodeNext(c, log, after, sent);
      if |buf| < |frame| {
        assert buf <= frame;
        PartialFrame(c, log[after], buf);
        YieldsNothing(c, log, after, buf);
      } else {
        var rest := buf[|frame|..];
        assert buf == frame + rest;
        assert rest <= Encode(c, log[after + 1..sent]);
        k := DrainFrames(c, log, after + 1, sent, rest);
        YieldsOneMore(c, log, after, k, rest);
      }
    }
  }

  // ----- Every run -----

  ghost predicate ConnectionOk(c: Codec, s: System, n: Connection) {
    && n.start <= s.after <= n.sent <= |s.log|
    && n.received == Encode(c, s.log[n.start..s.after]) + n.buf
    && n.received <= Encode(c, s.log[n.start..n.sent])
    && !HasSep(n.buf)
  }

  /** The client has yielded exactly the first `after` events of the log, and holds at most
      one incomplete frame. */
  ghost predicate InStep(c: Codec, s: System) {
    && Numbered(s.log) && s.dropped <= |s.log|
    && s.after <= |s.log| && s.yielded == s.log[..s.after]
    && (s.conn.Some? ==> ConnectionOk(c, s, s.conn.value))
  }

  lemma GrownLog(c: Codec, s: System, e: Event)
    requires InStep(c, s) && s.conn.Some? && e.sequence == Some(|s.log| + 1)
    ensures ConnectionOk(c, Next(c, s, Emit(e)), s.conn.value)
  {
    var n := s.conn.value;
    var log := s.log + [e];
    assert log[n.start..s.after] == s.log[n.start..s.after] && log[n.start..n.sent] == s.log[n.start..n.sent];
  }

  lemma SplitEncode(c: Codec, log: seq<Event>, i: nat, j: nat, k: nat)
    requires i <= j <= k <= |log|
    ensures Encode(c, log[i..k]) == Encode(c, log[i..j]) + Encode(c, log[j..k])
  {
    assert log[i..k] == log[i..j] + log[j..k];
    EncodeAppend(c, log[i..j], log[j..k]);
  }

  lemma Sending(c: Codec, s: System)
    requires InStep(c, s)
    ensures InStep(c, Next(c, s, Send))
  {
    if s.conn.Some? {
      SplitEncode(c, s.log, s.conn.value.start, s.conn.value.sent, |s.log|);
    }
  }

  /** What of the connection's bytes is not yet read continues the frames from `after` on. */
  lemma UnreadBytes(c: Codec, s: System, chunk: Bytes)
    requires InStep(c, s) && Enabled(c, s, Deliver(chunk))
    ensures var n := s.conn.value;
            && n.buf + chunk <= Encode(c, s.log[s.after..n.sent])
            && (n.received + chunk == Encode(c, s.log[n.start..n.sent])
                ==> n.buf + chunk == Encode(c, s.log[s.after..n.sent]))
  {
    var n := s.conn.value;
    var read, unread := Encode(c, s.log[n.start..s.after]), Encode(c, s.log[s.after..n.sent]);
    SplitEncode(c, s.log, n.start, s.after, n.sent);
    Assoc(read, n.buf, chunk);
    Cancel(read, n.buf + chunk, unread);
  }

  lemma Delivered(c: Codec, s: System, chunk: Bytes, k: nat)
    requires InStep(c, s) && s.conn.Some? && Yields(c, s.log, s.after, k, s.conn.value.buf + chunk)
    ensures var n, f := s.conn.value, Drain(c, s.after, s.conn.value.buf + chunk);
            n.received + chunk == Encode(c, s.log[n.start..k]) + f.rest
  {
    var n, f := s.conn.value, Drain(c, s.after, s.conn.value.buf + chunk);
    var read, more := Encode(c, s.log[n.start..s.after]), Encode(c, s.log[s.after..k]);
    SplitEncode(c, s.log, n.start, s.after, k);
    Assoc(read, n.buf, chunk);
    Assoc(read, more, f.rest);
  }

  lemma DeliverResult(c: Codec, s: System, chunk: Bytes) returns (k: nat)
    requires Sound(c) && InStep(c, s) && Enabled(c, s, Deliver(chunk))
    ensures var n := s.conn.value;
            && s.after <= k <= n.sent
            && Yields(c, s.log, s.after, k, n.buf + chunk)
            && (n.received + chunk == Encode(c, s.log[n.start..n.sent]) ==> k == n.sent)
  {
    UnreadBytes(c, s, chunk);
    k := DrainFrames(c, s.log, s.after, s.conn.value.sent, s.conn.value.buf + chunk);
  }

  lemma Delivering(c: Codec, s: System, chunk: Bytes)
    requires Sound(c) && InStep(c, s) && Enabled(c, s, Deliver(chunk))
    ensures InStep(c, Next(c, s, Deliver(chunk)))
    ensures s.after <= Next(c, s, Deliver(chunk)).after
    ensures var n := s.conn.value;
            n.received + chunk == Encode(c, s.log[n.start..n.sent]) ==> Next(c, s, Deliver(chunk)).after == n.sent
  {
    var n := s.conn.value;
    var f := Drain(c, s.after, n.buf + chunk);
    var k := DeliverResult(c, s, chunk);
    Delivered(c, s, chunk, k);
    DeliveredNext(c, s, chunk, k);
    SplitTake(s.log, s.after, k);
    DrainLeavesNoSep(c, s.after, n.buf + chunk);
  }

  /** The state after a delivery, in terms of the events it completes. */
  lemma DeliveredNext(c: Codec, s: System, chunk: Bytes, k: nat)
    requires s.conn.Some? && Yields(c, s.log, s.after, k, s.conn.value.buf + chunk)
    ensures var n, f := s.conn.value, Drain(c, s.after, s.conn.value.buf + chunk);
            Next(c, s, Deliver(chunk)) ==
            System(s.log, s.dropped, k, s.yielded + s.log[s.after..k],
                   Some(Connection(n.start, n.sent, n.received + chunk, f.rest)))
  {
  }

  lemma OneStep(c: Codec, s: System, a: Action)
    requires Sound(c) && InStep(c, s) && Enabled(c, s, a)
    ensures InStep(c, Next(c, s, a))
    ensures s.after <= Next(c, s, a).after && s.log <= Next(c, s, a).log
  {
    match a
    case Emit(e) =>
      if s.conn.Some? { GrownLog(c, s, e); }
      assert (s.log + [e])[..s.after] == s.log[..s.after];
    case Send => Sending(c, s);
    case Deliver(chunk) => Delivering(c, s, chunk);
    case Open =>
      assert s.log[s.after..s.after] == [];
    case Close =>
  }

  lemma {:induction false} Stays(c: Codec, s: System, actions: seq<Action>)
    requires Sound(c) && InStep(c, s) && Runs(c, s, actions)
    ensures InStep(c, Run(c, s, actions))
    ensures s.after <= Run(c, s, actions).after && s.log <= Run(c, s, actions).log
    decreases |actions|
  {
    if actions != [] {
      OneStep(c, s, actions[0]);
      Stays(c, Next(c, s, actions[0]), actions[1..]);
    }
  }

  /** Main result: after every schedule of emitted events, reconnects, cuts and chunk
      boundaries, the events yielded are a prefix of the log -- in order, none missing, none
      twice -- and the cursor is the sequence number of the last of them. */
  lemma PrefixAlways(c: Codec, s: System, actions: seq<Action>)
    requires Sound(c) && Start(s) && Runs(c, s, actions)
    ensures var t := Run(c, s, actions);
            && t.yielded <= t.log && t.after == |t.yielded|
            && (t.yielded != [] ==> t.yielded[|t.yielded| - 1].sequence == Some(t.after))
            && (t.conn.Some? ==> !HasSep(t.conn.value.buf))
  {
    Stays(c, s, actions);
  }

  /** Delivering all that a level connection still owes brings the client level with the log. */
  lemma OwedBytes(c: Codec, s: System) returns (chunk: Bytes)
    requires Sound(c) && InStep(c, s) && s.conn.Some? && s.conn.value.sent == |s.log|
    ensures Enabled(c, s, Deliver(chunk)) && Next(c, s, Deliver(chunk)).yielded == s.log
    ensures Next(c, s, Deliver(chunk)).log == s.log
  {
    var n := s.conn.value;
    var all := Encode(c, s.log[n.start..n.sent]);
    chunk := all[|n.received|..];
    Rejoin(n.received, all);
    Delivering(c, s, chunk);
    OneStep(c, s, Deliver(chunk));
    LevelIsAll(c, Next(c, s, Deliver(chunk)));
  }

  lemma Rejoin(x: Bytes, all: Bytes)
    requires x <= all
    ensures x + all[|x|..] == all
  {
  }

  lemma LevelIsAll(c: Codec, s: System)
    requires InStep(c, s)
    ensures s.after == |s.log| <==> s.yielded == s.log
  {
    if s.yielded == s.log { assert |s.log[..s.after]| == s.after; }
    if s.after == |s.log| { assert s.log[..s.after] == s.log; }
  }

  /** A half-received frame is not lost: cut the connection anywhere, and one that delivers
      all it is asked for brings the client level with the log, provided the store still has
      the events. */
  lemma CatchesUp(c: Codec, s: System) returns (actions: seq<Action>)
    requires Sound(c) && InStep(c, s) && s.dropped <= s.after
    ensures Runs(c, s, actions) && Run(c, s, actions).yielded == s.log == Run(c, s, actions).log
  {
    var s1 := Next(c, s, Close);
    var s2 := Next(c, s1, Open);
    var s3 := Next(c, s2, Send);
    OneStep(c, s, Close);
    OneStep(c, s1, Open);
    OneStep(c, s2, Send);
    var chunk := OwedBytes(c, s3);
    actions := [Close, Open, Send, Deliver(chunk)];
    RunFour(c, s, Close, Open, Send, Deliver(chunk));
  }

  /** An open connection that the server can still serve is enough, whatever the store has
      dropped behind it. */
  lemma InFlightCatchesUp(c: Codec, s: System) returns (actions: seq<Action>)
    requires Sound(c) && InStep(c, s) && s.conn.Some? && s.dropped <= s.conn.value.sent
    ensures Runs(c, s, actions) && Run(c, s, actions).yielded == s.log == Run(c, s, actions).log
  {
    var s1 := Next(c, s, Send);
    OneStep(c, s, Send);
    var chunk := OwedBytes(c, s1);
    actions := [Send, Deliver(chunk)];
    RunOne(c, s, Send, [Deliver(chunk)]);
    RunOne(c, s1, Deliver(chunk), []);
    assert [Send] + [Deliver(chunk)] == actions && [Deliver(chunk)] + [] == [Deliver(chunk)];
  }

  lemma RunFour(c: Codec, s: System, a1: Action, a2: Action, a3: Action, a4: Action)
    requires Enabled(c, s, a1) && Enabled(c, Next(c, s, a1), a2)
    requires Enabled(c, Next(c, Next(c, s, a1), a2), a3)
    requires Enabled(c, Next(c, Next(c, Next(c, s, a1), a2), a3), a4)
    ensures Runs(c, s, [a1, a2, a3, a4])
    ensures Run(c, s, [a1, a2, a3, a4]) == Next(c, Next(c, Next(c, Next(c, s, a1), a2), a3), a4)
  {
    RunOne(c, s, a1, [a2, a3, a4]);
    RunOne(c, Next(c, s, a1), a2, [a3, a4]);
    RunOne(c, Next(c, Next(c, s, a1), a2), a3, [a4]);
    RunOne(c, Next(c, Next(c, Next(c, s, a1), a2), a3), a4, []);
  }

  lemma RunOne(c: Codec, s: System, a: Action, more: seq<Action>)
    requires Enabled(c, s, a)
    ensures Runs(c, s, [a] + more) <==> Runs(c, Next(c, s, a), more)
    ensures Run(c, s, [a] + more) == Run(c, Next(c, s, a), more)
  {
    assert ([a] + more)[1..] == more;
  }

  // ----- The gap -----

  /** The next event has been dropped, and no open connection reaches past what was dropped. */
  predicate Lost(s: System) {
    s.after < s.dropped && (s.conn.Some? ==> s.conn.value.sent < s.dropped)
  }

  lemma LostStays(c: Codec, s: System, a: Action)
    requires Sound(c) && InStep(c, s) && Enabled(c, s, a) && Lost(s)
    ensures Lost(Next(c, s, a))
  {
    if a.Deliver? { var k := DeliverResult(c, s, a.chunk); }
  }

  lemma {:induction false} LostForGood(c: Codec, s: System, actions: seq<Action>)
    requires Sound(c) && InStep(c, s) && Lost(s) && Runs(c, s, actions)
    ensures InStep(c, Run(c, s, actions)) && Lost(Run(c, s, actions))
    decreases |actions|
  {
    if actions != [] {
      OneStep(c, s, actions[0]);
      LostStays(c, s, actions[0]);
      LostForGood(c, Next(c, s, actions[0]), actions[1..]);
    }
  }

  /** Some schedule brings the client level with the log. */
  ghost predicate CanCatchUp(c: Codec, s: System) {
    exists actions :: Runs(c, s, actions) && Run(c, s, actions).yielded == Run(c, s, actions).log
  }

  /** The exact condition, for every reachable state: the client can still catch up unless it is
      lost -- and then no schedule ever brings it level again. */
  lemma CanCatchUpIff(c: Codec, s: System)
    requires Sound(c) && InStep(c, s)
    ensures CanCatchUp(c, s) <==> !Lost(s)
  {
    if s.dropped <= s.after {
      var actions := CatchesUp(c, s);
    } else if s.conn.Some? && s.dropped <= s.conn.value.sent {
      var actions := InFlightCatchesUp(c, s);
    } else {
      forall actions | Runs(c, s, actions) ensures Run(c, s, actions).yielded != Run(c, s, actions).log {
        LostForGood(c, s, actions);
        LevelIsAll(c, Run(c, s, actions));
      }
    }
  }

  /** Once the next event has been dropped and no connection is open, nothing at all is yielded any
      more. */
  lemma {:induction false} StuckAfterGap(c: Codec, s: System, actions: seq<Action>)
    requires Sound(c) && InStep(c, s) && s.after < s.dropped && s.conn == None && Runs(c, s, actions)
    ensures Run(c, s, actions).yielded == s.yielded
    decreases |actions|
  {
    if actions != [] {
      OneStep(c, s, actions[0]);
      StuckAfterGap(c, Next(c, s, actions[0]), actions[1..]);
    }
  }

  // ----- Two runs -----

  const NOTHING := System([], 0, 0, [], None)

  /** n events of no account. */
  function Burst(n: nat): (actions: seq<Action>)
    ensures |actions| == n
  {
    if n == 0 then [] else Burst(n - 1) + [Emit(Event(Some(n), "", Other))]
  }

  lemma {:induction false} RunLast(c: Codec, s: System, actions: seq<Action>, a: Action)
    requires Runs(c, s, actions) && Enabled(c, Run(c, s, actions), a)
    ensures Runs(c, s, actions + [a]) && Run(c, s, actions + [a]) == Next(c, Run(c, s, actions), a)
    decreases |actions|
  {
    if actions == [] {
      RunOne(c, s, a, []);
      assert [a] + [] == [a] && actions + [a] == [a];
    } else {
      RunLast(c, Next(c, s, actions[0]), actions[1..], a);
      assert (actions + [a])[1..] == actions[1..] + [a];
    }
  }

  lemma {:induction false} BurstDrops(c: Codec, n: nat)
    ensures Runs(c, NOTHING, Burst(n))
    ensures var t := Run(c, NOTHING, Burst(n));
            && |t.log| == n && t.dropped == (if n > KEPT then n - KEPT else 0)
            && t.after == 0 && t.yielded == [] && t.conn == None
    decreases n
  {
    if n > 0 {
      BurstDrops(c, n - 1);
      RunLast(c, NOTHING, Burst(n - 1), Emit(Event(Some(n), "", Other)));
    }
  }

  /** Before the client connects the store may take 4096 events, and no more. */
  lemma BurstKeepsIff(c: Codec, n: nat)
    requires Sound(c)
    ensures CanCatchUp(c, Run(c, NOTHING, Burst(n))) <==> n <= 4096
  {
    BurstDrops(c, n);
    Stays(c, NOTHING, Burst(n));
    CanCatchUpIff(c, Run(c, NOTHING, Burst(n)));
  }

  /** A run into the gap: 4097 events before the client connects, and it is lost. */
  lemma BurstLosesClient(c: Codec)
    requires Sound(c)
    ensures Runs(c, NOTHING, Burst(4097)) && Lost(Run(c, NOTHING, Burst(4097)))
    ensures !CanCatchUp(c, Run(c, NOTHING, Burst(4097)))
  {
    BurstDrops(c, 4097);
    Stays(c, NOTHING, Burst(4097));
    CanCatchUpIff(c, Run(c, NOTHING, Burst(4097)));
  }

  /** With the frames already on their way the same drop costs nothing: two events, the first
      dropped from the store, both still to be delivered. */
  lemma InFlightIsNotLost(c: Codec, first: Event, second: Event)
    requires Sound(c) && first.sequence == Some(1) && second.sequence == Some(2)
    ensures var s := System([first, second], 1, 0, [], Some(Connection(0, 2, [], [])));
            s.after < s.dropped && InStep(c, s) && CanCatchUp(c, s)
  {
    var s := System([first, second], 1, 0, [], Some(Connection(0, 2, [], [])));
    assert s.log[..0] == [] && s.log[0..0] == [] && [] + s.conn.value.buf == s.conn.value.received;
    CanCatchUpIff(c, s);
  }
}
