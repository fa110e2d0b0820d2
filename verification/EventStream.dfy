/**
 The event-stream reader of scripts/card_timing_boot.py: bytes arrive in arbitrary pieces
 over connections that may break anywhere, and every reconnect resumes from the last
 sequence number seen.
 */
module EventStream {
  import opened Octets
  import opened Sequences
  import opened Wrappers
  import opened EventLog

  // ----- Framing -----

  /** Position of the first blank-line separator, |buf| when there is none. */
  function FirstSep(buf: Bytes): (k: nat)
    ensures k <= |buf|
    ensures k < |buf| ==> k + 2 <= |buf| && buf[k] == NL && buf[k + 1] == NL
  {
    if |buf| < 2 then |buf|
    else if buf[0] == NL && buf[1] == NL then 0
    else 1 + FirstSep(buf[1..])
  }

  predicate HasSep(buf: Bytes) {
    FirstSep(buf) < |buf|
  }

  lemma {:induction false} SepIsFirst(buf: Bytes, j: nat)
    requires j < FirstSep(buf) && j + 1 < |buf|
    ensures !(buf[j] == NL && buf[j + 1] == NL)
    decreases |buf|
  {
    if j > 0 { SepIsFirst(buf[1..], j - 1); }
  }

  lemma {:induction false} SepAt(buf: Bytes, k: nat)
    requires k + 1 < |buf| && buf[k] == NL && buf[k + 1] == NL
    requires forall j :: 0 <= j < k ==> !(buf[j] == NL && buf[j + 1] == NL)
    ensures FirstSep(buf) == k
    decreases k
  {
    if k > 0 { SepAt(buf[1..], k - 1); }
  }

  lemma {:induction false} NoSep(buf: Bytes)
    requires forall j :: 0 <= j && j + 1 < |buf| ==> !(buf[j] == NL && buf[j + 1] == NL)
    ensures FirstSep(buf) == |buf|
    decreases |buf|
  {
    if |buf| >= 2 { NoSep(buf[1..]); }
  }

  function LineEnd(s: Bytes): (k: nat)
    ensures k <= |s| && (k < |s| ==> s[k] == NL)
    ensures forall i :: 0 <= i < k ==> s[i] != NL
  {
    if s == [] || s[0] == NL then 0 else 1 + LineEnd(s[1..])
  }

  /** bytes.split(b"\n"): always at least one line. */
  function Lines(block: Bytes): seq<Bytes>
    decreases |block|
  {
    var k := LineEnd(block);
    if k == |block| then [block] else [block[..k]] + Lines(block[k + 1..])
  }

  /** A line up to its newline, and a line without one. */
  lemma FirstLine(line: Bytes, rest: Bytes)
    requires NL !in line
    ensures Lines(line + [NL] + rest) == [line] + Lines(rest)
    ensures Lines(line) == [line]
  {
    var s := line + [NL] + rest;
    var k := LineEnd(s);
    assert s[|line|] == NL && forall j :: 0 <= j < |line| ==> s[j] == line[j];
    assert k == |line|;
    assert s[..k] == line && s[k + 1..] == rest;
    assert LineEnd(line) == |line|;
  }

  // ----- What the client does with a buffer -----

  /** Cursor, unread bytes and events yielded; `ok` is false when a data line was not JSON,
      which makes the source drop the connection. */
  datatype Feed = Feed(after: nat, rest: Bytes, events: seq<Event>, ok: bool)

  function Advance(after: nat, e: Event): nat {
    if e.sequence.Some? && e.sequence.value > after then e.sequence.value else after
  }

  function ReadLines(c: Codec, after: nat, lines: seq<Bytes>): Feed
    decreases |lines|
  {
    if lines == [] then Feed(after, [], [], true)
    else if !(DATA <= lines[0]) then ReadLines(c, after, lines[1..])
    else
      match c.parse(lines[0][5..])
      case None => Feed(after, [], [], false)
      case Some(e) =>
        var more := ReadLines(c, Advance(after, e), lines[1..]);
        more.(events := [e] + more.events)
  }

  function Drain(c: Codec, after: nat, buf: Bytes): Feed
    decreases |buf|
  {
    var k := FirstSep(buf);
    if k == |buf| then Feed(after, buf, [], true)
    else
      var block := ReadLines(c, after, Lines(buf[..k]));
      if !block.ok then block.(rest := buf[k + 2..])
      else
        var more := Drain(c, block.after, buf[k + 2..]);
        more.(events := block.events + more.events)
  }

  /** Nothing that is complete stays in the buffer. */
  lemma {:induction false} DrainLeavesNoSep(c: Codec, after: nat, buf: Bytes)
    requires Drain(c, after, buf).ok
    ensures !HasSep(Drain(c, after, buf).rest)
    decreases |buf|
  {
    var k := FirstSep(buf);
    if k < |buf| {
      DrainLeavesNoSep(c, ReadLines(c, after, Lines(buf[..k])).after, buf[k + 2..]);
    }
  }

  lemma SepOfPrefix(x: Bytes, y: Bytes)
    requires HasSep(x)
    ensures FirstSep(x + y) == FirstSep(x)
  {
    var k := FirstSep(x);
    forall j | 0 <= j < k ensures !((x + y)[j] == NL && (x + y)[j + 1] == NL) { SepIsFirst(x, j); }
    SepAt(x + y, k);
  }

  /** Continuing a feed with what a further one reads. */
  function Then(first: Feed, second: Feed): Feed {
    second.(events := first.events + second.events)
  }

  lemma ThenAssociates(f: Feed, g: Feed, h: Feed)
    ensures Then(f, Then(g, h)) == Then(Then(f, g), h)
  {
  }

  /** What the first complete block of a buffer reads as; the rest of the buffer is left. */
  function FirstBlock(c: Codec, after: nat, buf: Bytes): Feed
    requires HasSep(buf)
  {
    var k := FirstSep(buf);
    ReadLines(c, after, Lines(buf[..k])).(rest := buf[k + 2..])
  }

  lemma DrainStep(c: Codec, after: nat, buf: Bytes)
    requires HasSep(buf)
    ensures var block := FirstBlock(c, after, buf);
            Drain(c, after, buf) == if block.ok then Then(block, Drain(c, block.after, block.rest)) else block
  {
  }

  /** Cutting the bytes anywhere changes nothing: what is read from x + y is what is read
      from x followed by what is read from the leftover and y.  No assumption on the bytes. */
  lemma {:induction false} CutAnywhere(c: Codec, after: nat, x: Bytes, y: Bytes)
    requires Drain(c, after, x).ok
    ensures var first := Drain(c, after, x);
            Drain(c, after, x + y) == Then(first, Drain(c, first.after, first.rest + y))
    decreases |x|
  {
    if HasSep(x) {
      var block := FirstBlock(c, after, x);
      BlockOfPrefix(c, after, x, y);
      DrainStep(c, after, x);
      DrainStep(c, after, x + y);
      CutAnywhere(c, block.after, block.rest, y);
      var first := Drain(c, block.after, block.rest);
      ThenAssociates(block, first, Drain(c, first.after, first.rest + y));
    }
  }

  lemma BlockOfPrefix(c: Codec, after: nat, x: Bytes, y: Bytes)
    requires HasSep(x)
    ensures HasSep(x + y)
    ensures var block := FirstBlock(c, after, x);
            FirstBlock(c, after, x + y) == block.(rest := block.rest + y)
  {
    var k := FirstSep(x);
    SepOfPrefix(x, y);
    CutOfSum(x, y, k, k + 2);
  }

  /** What is still to be read completes `goal`. */
  ghost predicate Reaches(goal: Feed, c: Codec, read: seq<Event>, after: nat, buf: Bytes, ok: bool) {
    if ok then goal == Then(Feed(after, [], read, true), Drain(c, after, buf))
    else goal == Feed(after, buf, read, false)
  }

  lemma TakenBlock(goal: Feed, c: Codec, read: seq<Event>, after: nat, buf: Bytes)
    requires HasSep(buf) && Reaches(goal, c, read, after, buf, true)
    ensures var f := FirstBlock(c, after, buf);
            |f.rest| < |buf| && Reaches(goal, c, read + f.events, f.after, f.rest, f.ok)
  {
    var f := FirstBlock(c, after, buf);
    DrainStep(c, after, buf);
    ThenAssociates(Feed(after, [], read, true), f, Drain(c, f.after, f.rest));
  }

  lemma NothingTaken(c: Codec, after: nat, buf: Bytes)
    ensures Reaches(Drain(c, after, buf), c, [], after, buf, true)
  {
  }

  lemma AllTaken(goal: Feed, c: Codec, read: seq<Event>, after: nat, buf: Bytes, ok: bool)
    requires Reaches(goal, c, read, after, buf, ok) && (ok ==> !HasSep(buf))
    ensures goal == Feed(after, buf, read, ok)
  {
  }

  // ----- The reader itself -----

  /** scripts/card_timing_boot.py:37-85, between two reads of the socket. */
  class EventReader {
    const codec: Codec
    var after: nat
    var buf: Bytes
    var yielded: seq<Event>

    constructor (c: Codec)
      ensures codec == c && after == 0 && buf == [] && yielded == []
    {
      codec, after, buf, yielded := c, 0, [], [];
    }

    /** A new connection starts with an empty buffer; the cursor stays. */
    method Connect() returns (cursor: nat)
      modifies this`buf
      ensures buf == [] && cursor == after
    {
      buf := [];
      cursor := after;
    }

    /** The data lines of one complete block. */
    method ReadBlock(lines: seq<Bytes>) returns (ok: bool)
      modifies this`after, this`yielded
      ensures var f := ReadLines(codec, old(after), lines);
              after == f.after && yielded == old(yielded) + f.events && ok == f.ok
    {
      ghost var goal := ReadLines(codec, after, lines);
      ghost var read: seq<Event> := [];
      var i := 0;
      while i < |lines|
        invariant i <= |lines|
        invariant yielded == old(yielded) + read
        invariant goal ==
                  ReadLines(codec, after, lines[i..]).(events := read + ReadLines(codec, after, lines[i..]).events)
      {
        assert lines[i..][1..] == lines[i + 1..];
        if DATA <= lines[i] {
          match codec.parse(lines[i][5..])
          case None =>
            return false;
          case Some(e) =>
            after := Advance(after, e);
            yielded := yielded + [e];
            read := read + [e];
        }
        i := i + 1;
      }
      ok := true;
    }

    /** One turn of the framing loop: the block up to the first separator. */
    method TakeBlock() returns (ok: bool)
      requires HasSep(buf)
      modifies this`after, this`buf, this`yielded
      ensures var f := FirstBlock(codec, old(after), old(buf));
              after == f.after && buf == f.rest && yielded == old(yielded) + f.events && ok == f.ok
    {
      var k := FirstSep(buf);
      var block := buf[..k];
      buf := buf[k + 2..];
      ok := ReadBlock(Lines(block));
    }

    /** One chunk from the socket; false means the connection is given up. */
    method Receive(chunk: Bytes) returns (ok: bool)
      modifies this`after, this`buf, this`yielded
      ensures var f := Drain(codec, old(after), old(buf) + chunk);
              after == f.after && buf == f.rest && yielded == old(yielded) + f.events && ok == f.ok
    {
      buf := buf + chunk;
      ghost var goal := Drain(codec, after, buf);
      ghost var read: seq<Event> := [];
      NothingTaken(codec, after, buf);
      ok := true;
      while ok && HasSep(buf)
        invariant yielded == old(yielded) + read
        invariant Reaches(goal, codec, read, after, buf, ok)
        decreases ok, |buf|
      {
        ghost var step := FirstBlock(codec, after, buf);
        TakenBlock(goal, codec, read, after, buf);
        Assoc(old(yielded), read, step.events);
        ok := TakeBlock();
        read := read + step.events;
      }
      AllTaken(goal, codec, read, after, buf, ok);
    }
  }
}
