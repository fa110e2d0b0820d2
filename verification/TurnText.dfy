/**
 The second client of the event log, wait_for_sse_text in scripts/pair_measure.py: it reads
 line by line, follows one turn and returns that turn's text.
 */
module TurnText {
  import opened Octets
  import opened Sequences
  import opened Wrappers
  import opened EventLog
  import opened EventStream

  /** What the source does not catch: `Crashed` is the JSON error of a line cut short, `Aborted` the
      error of a socket that cannot be opened, is reset or times out. */
  datatype End = Running | Finished(detail: string) | Errored(reason: string) | Crashed | Aborted

  datatype Scan = Scan(cursor: nat, text: string, end: End)

  /** One try at the server: a status other than 200, a stream that ends after `cut` bytes, or one
      whose socket fails there -- before the first byte when no connection is made. */
  datatype Attempt = Refused | Stream(cut: nat) | Torn(cut: nat)

  // ----- What the text should be -----

  function TextIn(log: seq<Event>, turn: string, from: nat, to: nat): string
    requires from <= to <= |log|
  {
    if from == to then ""
    else TextIn(log, turn, from, to - 1)
         + (if log[to - 1].turn == turn && log[to - 1].body.Text? then log[to - 1].body.text else "")
  }

  predicate Ends(e: Event, turn: string) {
    e.turn == turn && (e.body.Done? || e.body.Failed?)
  }

  /** The scan has seen log[from..cursor]: its text is the turn's text there, and it has ended
      exactly when the last event seen is the turn's first terminal event. */
  ghost predicate Exact(log: seq<Event>, turn: string, from: nat, s: Scan) {
    && from <= s.cursor <= |log|
    && s.text == TextIn(log, turn, from, s.cursor)
    && (forall i :: from <= i < s.cursor - 1 ==> !Ends(log[i], turn))
    && (s.end.Running? || s.end.Crashed? || s.end.Aborted? ==> from < s.cursor ==> !Ends(log[s.cursor - 1], turn))
    && (s.end.Finished? ==>
          from < s.cursor && log[s.cursor - 1].turn == turn && log[s.cursor - 1].body == Done(s.end.detail))
    && (s.end.Errored? ==>
          from < s.cursor && log[s.cursor - 1].turn == turn && log[s.cursor - 1].body == Failed(s.end.reason))
  }

  // ----- The client -----

  function Take(turn: string, s: Scan, e: Event): Scan {
    var s := s.(cursor := if e.sequence.Some? then e.sequence.value else s.cursor);
    if e.turn != turn then s
    else
      match e.body
      case Text(t) => s.(text := s.text + t)
      case Done(d) => s.(end := Finished(d))
      case Failed(r) => s.(end := Errored(r))
      case Other => s
  }

  function ScanLines(c: Codec, turn: string, s: Scan, lines: seq<Bytes>): Scan
    decreases |lines|
  {
    if lines == [] || !s.end.Running? then s
    else if !(DATA <= lines[0]) then ScanLines(c, turn, s, lines[1..])
    else
      match c.parse(lines[0][5..])
      case None => s.(end := Crashed)
      case Some(e) => ScanLines(c, turn, Take(turn, s, e), lines[1..])
  }

  function From(log: seq<Event>, cursor: nat): seq<Event> {
    if cursor <= |log| then log[cursor..] else []
  }

  /** The lines the loop gets to see: of a torn stream not the unfinished last one. */
  function Seen(lines: seq<Bytes>, torn: bool): seq<Bytes> {
    if torn && lines != [] then lines[..|lines| - 1] else lines
  }

  /** What a connection broken after `cut` bytes has brought. */
  function Arrived(c: Codec, log: seq<Event>, cursor: nat, cut: nat): Bytes {
    var bytes := Encode(c, From(log, cursor));
    if cut <= |bytes| then bytes[..cut] else bytes
  }

  /** What the inner loop makes of a connection. */
  function Scanned(c: Codec, log: seq<Event>, turn: string, s: Scan, cut: nat, torn: bool): Scan {
    ScanLines(c, turn, s, Seen(Lines(Arrived(c, log, s.cursor, cut)), torn))
  }

  /** The socket error, unless the wait is over before it comes. */
  function Fault(s: Scan): Scan {
    if s.end.Running? then s.(end := Aborted) else s
  }

  /** One pass through the outer loop. */
  function Connection(c: Codec, log: seq<Event>, turn: string, s: Scan, a: Attempt): Scan {
    match a
    case Refused => s
    case Stream(cut) => Scanned(c, log, turn, s, cut, false)
    case Torn(cut) => Fault(Scanned(c, log, turn, s, cut, true))
  }

  /** All attempts, one after the other; what has ended stays as it is. */
  function Follow(c: Codec, log: seq<Event>, turn: string, from: nat, attempts: seq<Attempt>): Scan {
    if attempts == [] then Scan(from, "", Running)
    else Connection(c, log, turn, Follow(c, log, turn, from, attempts[..|attempts| - 1]), attempts[|attempts| - 1])
  }

  /** scripts/pair_measure.py:192-231, against a server whose log is `log`. */
  method WaitForText(c: Codec, log: seq<Event>, turn: string, afterSeq: nat, attempts: seq<Attempt>) returns (s: Scan)
    requires Sound(c) && Numbered(log) && afterSeq <= |log|
    ensures s == Follow(c, log, turn, afterSeq, attempts)
    ensures Exact(log, turn, afterSeq, s)
  {
    s := Scan(afterSeq, "", Running);
    var i := 0;
    while i < |attempts| && s.end.Running?
      invariant i <= |attempts| && s == Follow(c, log, turn, afterSeq, attempts[..i])
    {
      assert attempts[..i + 1][..i] == attempts[..i];
      match attempts[i] {
        case Refused =>
        case Stream(cut) =>
          s := ReadLines(c, turn, s, Lines(Arrived(c, log, s.cursor, cut)));
        case Torn(cut) =>
          s := ReadLines(c, turn, s, Seen(Lines(Arrived(c, log, s.cursor, cut)), true));
          if s.end.Running? {
            s := s.(end := Aborted);
          }
      }
      i := i + 1;
    }
    FollowEnded(c, log, turn, afterSeq, attempts, i);
    FollowIsExact(c, log, turn, afterSeq, attempts);
  }

  /** The inner loop, over the lines of one response. */
  method ReadLines(c: Codec, turn: string, start: Scan, lines: seq<Bytes>) returns (s: Scan)
    ensures s == ScanLines(c, turn, start, lines)
  {
    s := start;
    var j := 0;
    while j < |lines| && s.end.Running?
      invariant j <= |lines|
      invariant ScanLines(c, turn, start, lines) == ScanLines(c, turn, s, lines[j..])
    {
      DropNext(lines, j);
      if DATA <= lines[j] {
        match c.parse(lines[j][5..])
        case None => s := s.(end := Crashed);
        case Some(e) => s := Take(turn, s, e);
      }
      j := j + 1;
    }
  }

  // ----- What one connection does, in terms of where it breaks -----

  /** Bytes of a frame up to and including "data:". */
  function DataAt(c: Codec, e: Event): nat {
    Head(c, e) + 5
  }

  function Head(c: Codec, e: Event): nat {
    |ID_LINE + c.id(e)| + 1 + |EVENT_LINE + c.kind(e)| + 1
  }

  /** Bytes of a frame by which its event is read: the data line, with its newline when the stream
      is torn. */
  function ReadBy(c: Codec, e: Event, torn: bool): nat {
    |Block(c, e)| + (if torn then 1 else 0)
  }

  /** The position after the last event read. */
  function EventsIn(c: Codec, log: seq<Event>, from: nat, cut: nat, torn: bool): (k: nat)
    requires from <= |log|
    ensures from <= k <= |log|
    decreases |log| - from
  {
    if from == |log| || cut < ReadBy(c, log[from], torn) then from
    else if cut < |Frame(c, log[from])| then from + 1
    else EventsIn(c, log, from + 1, cut - |Frame(c, log[from])|, torn)
  }

  /** Just after the turn's first terminal event in log[from..to], else `to`. */
  function StopAt(log: seq<Event>, turn: string, from: nat, to: nat): (k: nat)
    requires from <= to <= |log|
    ensures from <= k <= to
    ensures forall i :: from <= i < k - 1 ==> !Ends(log[i], turn)
    ensures k < to ==> from < k && Ends(log[k - 1], turn)
    decreases |log| - from
  {
    if from == to then from
    else if Ends(log[from], turn) then from + 1
    else StopAt(log, turn, from + 1, to)
  }

  /** The connection breaks at or after the "data:" of an event that is still read, and before
      the end of its JSON. */
  predicate CutsData(c: Codec, log: seq<Event>, turn: string, from: nat, cut: nat)
    requires from <= |log|
    decreases |log| - from
  {
    from < |log| &&
    (if cut < |Frame(c, log[from])| then DataAt(c, log[from]) <= cut < |Block(c, log[from])|
     else !Ends(log[from], turn) && CutsData(c, log, turn, from + 1, cut - |Frame(c, log[from])|))
  }

  /** The same without recursion: the break falls in the data of event k, and no event before k
      ends the turn. */
  ghost predicate CutsDataOf(c: Codec, log: seq<Event>, turn: string, from: nat, cut: nat, k: nat) {
    && from <= k < |log| && (forall i :: from <= i < k ==> !Ends(log[i], turn))
    && DataAt(c, log[k]) <= cut - |Encode(c, log[from..k])| < |Block(c, log[k])|
  }

  // ----- Lines and frames -----

  lemma TakeEvent(log: seq<Event>, turn: string, from: nat, s: Scan)
    requires Numbered(log) && Exact(log, turn, from, s) && s.end.Running? && s.cursor < |log|
    ensures Exact(log, turn, from, Take(turn, s, log[s.cursor])) && Take(turn, s, log[s.cursor]).cursor == s.cursor + 1
    ensures !Take(turn, s, log[s.cursor]).end.Crashed?
  {
  }

  lemma Regroup(id: Bytes, kind: Bytes, json: Bytes, rest: Bytes)
    ensures id + [NL] + kind + [NL] + json + [NL, NL] + rest ==
            id + [NL] + (kind + [NL] + (json + [NL] + ([] + [NL] + rest)))
  {
  }

  lemma FrameIs(c: Codec, e: Event)
    ensures Frame(c, e) ==
            (ID_LINE + c.id(e)) + [NL] + (EVENT_LINE + c.kind(e)) + [NL] + (DATA_LINE + c.json(e)) + [NL, NL]
  {
  }

  lemma TwoLines(a: Bytes, b: Bytes, rest: Bytes)
    requires NL !in a && NL !in b
    ensures Lines(a + [NL] + (b + [NL] + rest)) == [a, b] + Lines(rest)
  {
    FirstLine(b, rest);
    FirstLine(a, b + [NL] + rest);
    Assoc([a], [b], Lines(rest));
  }

  lemma FourCons<T>(a: T, b: T, c: T, d: T, rest: seq<T>)
    ensures [a, b] + ([c, d] + rest) == [a, b, c, d] + rest
  {
  }

  lemma FourLines(id: Bytes, kind: Bytes, json: Bytes, rest: Bytes)
    requires NL !in id && NL !in kind && NL !in json
    ensures Lines(id + [NL] + (kind + [NL] + (json + [NL] + ([] + [NL] + rest)))) == [id, kind, json, []] + Lines(rest)
  {
    TwoLines(json, [], rest);
    TwoLines(id, kind, json + [NL] + ([] + [NL] + rest));
    FourCons(id, kind, json, [], Lines(rest));
  }

  lemma FrameLines(c: Codec, e: Event, rest: Bytes)
    requires Sound(c)
    ensures Lines(Frame(c, e) + rest) ==
            [ID_LINE + c.id(e), EVENT_LINE + c.kind(e), DATA_LINE + c.json(e), []] + Lines(rest)
  {
    var id, kind, json := ID_LINE + c.id(e), EVENT_LINE + c.kind(e), DATA_LINE + c.json(e);
    assert NL !in id && NL !in kind && NL !in json;
    FrameIs(c, e);
    Regroup(id, kind, json, rest);
    FourLines(id, kind, json, rest);
  }

  lemma HeaderLines(c: Codec, e: Event)
    ensures !(DATA <= ID_LINE + c.id(e)) && !(DATA <= EVENT_LINE + c.kind(e))
    ensures DATA <= DATA_LINE + c.json(e) && (DATA_LINE + c.json(e))[5..] == [32] + c.json(e)
  {
    assert (ID_LINE + c.id(e))[0] == 105 && (EVENT_LINE + c.kind(e))[0] == 101;
    assert (DATA_LINE + c.json(e))[..5] == DATA;
  }

  lemma SeenCons(x: Bytes, lines: seq<Bytes>, torn: bool)
    requires lines != []
    ensures Seen([x] + lines, torn) == [x] + Seen(lines, torn)
  {
  }

  lemma SeenAfter(a: seq<Bytes>, lines: seq<Bytes>, torn: bool)
    requires lines != []
    ensures Seen(a + lines, torn) == a + Seen(lines, torn)
  {
  }

  lemma SomeLine(block: Bytes)
    ensures Lines(block) != []
  {
  }

  /** The four lines of a frame are scanned as its event. */
  lemma ScanFour(c: Codec, turn: string, s: Scan, e: Event, tail: seq<Bytes>)
    requires Sound(c) && s.end.Running?
    ensures ScanLines(c, turn, s, [ID_LINE + c.id(e), EVENT_LINE + c.kind(e), DATA_LINE + c.json(e), []] + tail)
            == ScanLines(c, turn, Take(turn, s, e), tail)
  {
    HeaderLines(c, e);
    var id, kind, data := ID_LINE + c.id(e), EVENT_LINE + c.kind(e), DATA_LINE + c.json(e);
    ScanQuiet(c, turn, s, id, [kind, data, []] + tail);
    ScanQuiet(c, turn, s, kind, [data, []] + tail);
    ScanEvent(c, turn, s, e, [[]] + tail);
    ScanQuiet(c, turn, Take(turn, s, e), [], tail);
    assert [id] + ([kind, data, []] + tail) == [id, kind, data, []] + tail;
    assert [kind] + ([data, []] + tail) == [kind, data, []] + tail;
    assert [data] + ([[]] + tail) == [data, []] + tail;
  }

  lemma ScanEvent(c: Codec, turn: string, s: Scan, e: Event, tail: seq<Bytes>)
    requires Sound(c) && s.end.Running?
    ensures ScanLines(c, turn, s, [DATA_LINE + c.json(e)] + tail) == ScanLines(c, turn, Take(turn, s, e), tail)
  {
    HeaderLines(c, e);
    assert ([DATA_LINE + c.json(e)] + tail)[1..] == tail;
  }

  /** A complete frame is scanned as its event, then the rest. */
  lemma ScanFrame(c: Codec, turn: string, s: Scan, e: Event, bytes: Bytes, rest: Bytes, torn: bool)
    requires Sound(c) && s.end.Running? && bytes == Frame(c, e) + rest
    ensures ScanLines(c, turn, s, Seen(Lines(bytes), torn)) ==
            ScanLines(c, turn, Take(turn, s, e), Seen(Lines(rest), torn))
  {
    FrameLines(c, e, rest);
    SomeLine(rest);
    SeenAfter([ID_LINE + c.id(e), EVENT_LINE + c.kind(e), DATA_LINE + c.json(e), []], Lines(rest), torn);
    ScanFour(c, turn, s, e, Seen(Lines(rest), torn));
  }

  /** What `n` bytes of a data line of length `len` come to: too few to be noticed, no JSON, or
      the event; of a torn stream only the whole line counts. */
  function Partial(turn: string, s: Scan, e: Event, n: int, len: nat, torn: bool): Scan {
    if torn then (if n <= len then s else Take(turn, s, e))
    else if n < 5 then s
    else if n < len then s.(end := Crashed)
    else Take(turn, s, e)
  }

  lemma ScanQuiet(c: Codec, turn: string, s: Scan, line: Bytes, rest: seq<Bytes>)
    requires !(DATA <= line)
    ensures ScanLines(c, turn, s, [line] + rest) == ScanLines(c, turn, s, rest)
  {
    assert ([line] + rest)[1..] == rest;
  }

  /** One unfinished line without "data:". */
  lemma ScanStub(c: Codec, turn: string, s: Scan, line: Bytes, torn: bool)
    requires NL !in line && !(DATA <= line)
    ensures ScanLines(c, turn, s, Seen(Lines(line), torn)) == s
  {
    FirstLine(line, []);
    assert [line] == [line] + [];
    ScanQuiet(c, turn, s, line, []);
  }

  /** The data line, perhaps cut, perhaps with its newline. */
  lemma ScanData(c: Codec, turn: string, s: Scan, e: Event, d: Bytes, torn: bool)
    requires Sound(c) && s.end.Running? && d <= DATA_LINE + c.json(e) + [NL]
    ensures ScanLines(c, turn, s, Seen(Lines(d), torn)) == Partial(turn, s, e, |d|, |DATA_LINE + c.json(e)|, torn)
  {
    var data := DATA_LINE + c.json(e);
    HeaderLines(c, e);
    assert NL !in data;
    PrefixPastOne(d, data, NL, []);
    if |d| > |data| {
      assert d == data + [NL] + [];
      FirstLine(data, []);
      ScanEvent(c, turn, s, e, Seen([[]], torn));
      SeenCons(data, [[]], torn);
      ScanQuiet(c, turn, Take(turn, s, e), [], []);
      var last: Bytes := [];
      assert [last] == [last] + [];
    } else {
      FirstLine(d, []);
      if !torn { CutData(c, turn, s, e, d); }
    }
  }

  lemma CutData(c: Codec, turn: string, s: Scan, e: Event, d: Bytes)
    requires Sound(c) && s.end.Running? && d <= DATA_LINE + c.json(e)
    ensures ScanLines(c, turn, s, [d]) == Partial(turn, s, e, |d|, |DATA_LINE + c.json(e)|, false)
  {
    var data := DATA_LINE + c.json(e);
    HeaderLines(c, e);
    assert d == data[..|d|] && [d][1..] == [];
    if |d| >= 5 {
      assert d[5..] == ([32] + c.json(e))[..|d| - 5];
      assert ([32] + c.json(e))[..|c.json(e)| + 1] == [32] + c.json(e);
    }
  }

  lemma ScanKind(c: Codec, turn: string, s: Scan, e: Event, q: Bytes, torn: bool)
    requires Sound(c) && s.end.Running? && q <= EVENT_LINE + c.kind(e) + [NL] + (DATA_LINE + c.json(e) + [NL])
    ensures ScanLines(c, turn, s, Seen(Lines(q), torn)) ==
            Partial(turn, s, e, |q| - |EVENT_LINE + c.kind(e)| - 1, |DATA_LINE + c.json(e)|, torn)
  {
    var kind := EVENT_LINE + c.kind(e);
    HeaderLines(c, e);
    PrefixPastOne(q, kind, NL, DATA_LINE + c.json(e) + [NL]);
    assert NL !in kind;
    if |q| <= |kind| {
      assert !(DATA <= q) by { if q != [] { assert q[0] == 101; } }
      ScanStub(c, turn, s, q, torn);
    } else {
      HeaderThen(c, turn, s, kind, q[|kind| + 1..], torn);
      ScanData(c, turn, s, e, q[|kind| + 1..], torn);
    }
  }

  /** A header line, and what follows it. */
  lemma HeaderThen(c: Codec, turn: string, s: Scan, line: Bytes, more: Bytes, torn: bool)
    requires NL !in line && !(DATA <= line)
    ensures ScanLines(c, turn, s, Seen(Lines(line + [NL] + more), torn)) ==
            ScanLines(c, turn, s, Seen(Lines(more), torn))
  {
    FirstLine(line, more);
    SomeLine(more);
    SeenCons(line, Lines(more), torn);
    ScanQuiet(c, turn, s, line, Seen(Lines(more), torn));
  }

  lemma ScanPartial(c: Codec, turn: string, s: Scan, e: Event, p: Bytes, torn: bool)
    requires Sound(c) && s.end.Running? && p <= Frame(c, e) && |p| < |Frame(c, e)|
    ensures ScanLines(c, turn, s, Seen(Lines(p), torn)) ==
            Partial(turn, s, e, |p| - Head(c, e), |DATA_LINE + c.json(e)|, torn)
  {
    var id := ID_LINE + c.id(e);
    var more := EVENT_LINE + c.kind(e) + [NL] + (DATA_LINE + c.json(e) + [NL]);
    HeaderLines(c, e);
    assert Frame(c, e) == id + [NL] + more + [NL];
    assert NL !in id;
    assert p <= id + [NL] + more;
    PrefixPastOne(p, id, NL, more);
    if |p| <= |id| {
      assert !(DATA <= p) by { if p != [] { assert p[0] == 105; } }
      ScanStub(c, turn, s, p, torn);
    } else {
      HeaderThen(c, turn, s, id, p[|id| + 1..], torn);
      ScanKind(c, turn, s, e, p[|id| + 1..], torn);
    }
  }

  /** The first frame of what arrived: whole, or the last thing there is. */
  lemma FirstArrived(c: Codec, log: seq<Event>, cursor: nat, cut: nat)
    requires cursor < |log|
    ensures var frame, bytes := Frame(c, log[cursor]), Arrived(c, log, cursor, cut);
            if cut < |frame| then bytes <= frame && |bytes| == cut
            else bytes == frame + Arrived(c, log, cursor + 1, cut - |frame|)
  {
    DropNext(log, cursor);
    Shortened(Frame(c, log[cursor]), Encode(c, log[cursor + 1..]), cut);
  }

  lemma Shortened(a: Bytes, b: Bytes, cut: nat)
    ensures cut < |a| ==> (a + b)[..cut] <= a
    ensures |a| <= cut <= |a + b| ==> (a + b)[..cut] == a + b[..cut - |a|]
  {
  }

  // ----- One connection -----

  lemma StepNothing(c: Codec, log: seq<Event>, turn: string, s: Scan, cut: nat, torn: bool)
    requires s.end.Running? && s.cursor == |log|
    ensures Scanned(c, log, turn, s, cut, torn) == s
  {
    assert Arrived(c, log, s.cursor, cut) == [];
    ScanStub(c, turn, s, [], torn);
  }

  /** A connection that breaks in its first frame. */
  lemma StepPart(c: Codec, log: seq<Event>, turn: string, s: Scan, cut: nat, torn: bool)
    requires Sound(c) && s.end.Running? && s.cursor < |log| && cut < |Frame(c, log[s.cursor])|
    ensures var e := log[s.cursor];
            Scanned(c, log, turn, s, cut, torn) ==
            Partial(turn, s, e, cut - Head(c, e), |DATA_LINE + c.json(e)|, torn)
  {
    FirstArrived(c, log, s.cursor, cut);
    ScanPartial(c, turn, s, log[s.cursor], Arrived(c, log, s.cursor, cut), torn);
  }

  /** One that brings a whole frame goes on as a connection of its own, or stops. */
  lemma StepWhole(c: Codec, log: seq<Event>, turn: string, s: Scan, cut: nat, torn: bool)
    requires Sound(c) && Numbered(log) && s.end.Running? && s.cursor < |log| && cut >= |Frame(c, log[s.cursor])|
    ensures var e := log[s.cursor];
            Scanned(c, log, turn, s, cut, torn) == Scanned(c, log, turn, Take(turn, s, e), cut - |Frame(c, e)|, torn)
  {
    TakeMoves(log, turn, s);
    RestOfConnection(c, log, turn, s, cut, torn);
    SameConnection(c, log, turn, s, cut, Take(turn, s, log[s.cursor]), cut - |Frame(c, log[s.cursor])|, torn);
  }

  lemma TakeMoves(log: seq<Event>, turn: string, s: Scan)
    requires Numbered(log) && s.cursor < |log|
    ensures Take(turn, s, log[s.cursor]).cursor == s.cursor + 1
  {
  }

  lemma SameConnection(c: Codec, log: seq<Event>, turn: string, s: Scan, cut: nat, t: Scan, rest: nat, torn: bool)
    requires t.cursor == s.cursor + 1
    requires ScanLines(c, turn, s, Seen(Lines(Arrived(c, log, s.cursor, cut)), torn))
             == ScanLines(c, turn, t, Seen(Lines(Arrived(c, log, s.cursor + 1, rest)), torn))
    ensures Scanned(c, log, turn, s, cut, torn) == Scanned(c, log, turn, t, rest, torn)
  {
  }

  lemma RestOfConnection(c: Codec, log: seq<Event>, turn: string, s: Scan, cut: nat, torn: bool)
    requires Sound(c) && s.end.Running? && s.cursor < |log| && cut >= |Frame(c, log[s.cursor])|
    ensures var e := log[s.cursor];
            ScanLines(c, turn, s, Seen(Lines(Arrived(c, log, s.cursor, cut)), torn)) ==
            ScanLines(c, turn, Take(turn, s, e), Seen(Lines(Arrived(c, log, s.cursor + 1, cut - |Frame(c, e)|)), torn))
  {
    var bytes, rest := FirstWhole(c, log, s.cursor, cut);
    ScanFrame(c, turn, s, log[s.cursor], bytes, rest, torn);
  }

  lemma FirstWhole(c: Codec, log: seq<Event>, cursor: nat, cut: nat) returns (bytes: Bytes, rest: Bytes)
    requires cursor < |log| && cut >= |Frame(c, log[cursor])|
    ensures bytes == Arrived(c, log, cursor, cut)
    ensures rest == Arrived(c, log, cursor + 1, cut - |Frame(c, log[cursor])|)
    ensures bytes == Frame(c, log[cursor]) + rest
  {
    bytes := Arrived(c, log, cursor, cut);
    rest := Arrived(c, log, cursor + 1, cut - |Frame(c, log[cursor])|);
    FirstArrived(c, log, cursor, cut);
  }

  lemma StepEnded(c: Codec, log: seq<Event>, turn: string, s: Scan, cut: nat, torn: bool)
    requires !s.end.Running?
    ensures Scanned(c, log, turn, s, cut, torn) == s
  {
  }

  /** r is what the inner loop makes of s over a connection broken after `cut` bytes, as far as the
      cursor and the end go. */
  ghost predicate ReadAs(c: Codec, log: seq<Event>, turn: string, s: Scan, cut: nat, torn: bool, r: Scan)
    requires s.cursor <= |log|
  {
    && r.cursor == StopAt(log, turn, s.cursor, EventsIn(c, log, s.cursor, cut, torn))
    && (r.end.Crashed? <==> !torn && CutsData(c, log, turn, s.cursor, cut))
    && (r.end.Finished? || r.end.Errored? <==> s.cursor < r.cursor && Ends(log[r.cursor - 1], turn))
    && !r.end.Aborted?
  }

  lemma ReadNothing(c: Codec, log: seq<Event>, turn: string, s: Scan, cut: nat, torn: bool)
    requires s.end.Running? && s.cursor == |log|
    ensures ReadAs(c, log, turn, s, cut, torn, s)
  {
  }

  lemma ReadPart(c: Codec, log: seq<Event>, turn: string, s: Scan, cut: nat, torn: bool)
    requires Numbered(log) && s.end.Running? && s.cursor < |log| && cut < |Frame(c, log[s.cursor])|
    ensures var e := log[s.cursor];
            ReadAs(c, log, turn, s, cut, torn, Partial(turn, s, e, cut - Head(c, e), |DATA_LINE + c.json(e)|, torn))
  {
    FrameSizes(c, log[s.cursor]);
  }

  lemma ReadLast(c: Codec, log: seq<Event>, turn: string, s: Scan, cut: nat, torn: bool)
    requires Numbered(log) && s.end.Running? && s.cursor < |log|
    requires cut >= |Frame(c, log[s.cursor])| && Ends(log[s.cursor], turn)
    ensures ReadAs(c, log, turn, s, cut, torn, Take(turn, s, log[s.cursor]))
  {
    FrameSizes(c, log[s.cursor]);
  }

  lemma ReadMore(c: Codec, log: seq<Event>, turn: string, s: Scan, t: Scan, cut: nat, torn: bool, r: Scan)
    requires s.cursor < |log| && cut >= |Frame(c, log[s.cursor])| && !Ends(log[s.cursor], turn)
    requires t.cursor == s.cursor + 1 && ReadAs(c, log, turn, t, cut - |Frame(c, log[s.cursor])|, torn, r)
    ensures ReadAs(c, log, turn, s, cut, torn, r)
  {
    FrameSizes(c, log[s.cursor]);
  }

  lemma {:induction false} Reading(c: Codec, log: seq<Event>, turn: string, s: Scan, cut: nat, torn: bool)
    returns (r: Scan)
    requires Sound(c) && Numbered(log) && s.end.Running? && s.cursor <= |log|
    ensures r == Scanned(c, log, turn, s, cut, torn) && ReadAs(c, log, turn, s, cut, torn, r)
    decreases |log| - s.cursor
  {
    if s.cursor == |log| {
      r := s;
      StepNothing(c, log, turn, s, cut, torn);
      ReadNothing(c, log, turn, s, cut, torn);
    } else if cut < |Frame(c, log[s.cursor])| {
      r := Partial(turn, s, log[s.cursor], cut - Head(c, log[s.cursor]), |DATA_LINE + c.json(log[s.cursor])|, torn);
      StepPart(c, log, turn, s, cut, torn);
      ReadPart(c, log, turn, s, cut, torn);
    } else {
      var t, rest := Take(turn, s, log[s.cursor]), cut - |Frame(c, log[s.cursor])|;
      StepWhole(c, log, turn, s, cut, torn);
      if Ends(log[s.cursor], turn) {
        r := t;
        StepEnded(c, log, turn, t, rest, torn);
        ReadLast(c, log, turn, s, cut, torn);
      } else {
        r := Reading(c, log, turn, t, rest, torn);
        ReadMore(c, log, turn, s, t, cut, torn, r);
      }
    }
  }

  /** One connection, broken anywhere: the events it delivers whole move the cursor, as far as
      the turn's first terminal event; the loop over its lines raises the JSON error exactly when
      an unbroken socket ends in the data of an event still read, and it ends the wait exactly at
      a terminal event. */
  lemma ConnectionReads(c: Codec, log: seq<Event>, turn: string, s: Scan, cut: nat, torn: bool)
    requires Sound(c) && Numbered(log) && s.end.Running? && s.cursor <= |log|
    ensures ReadAs(c, log, turn, s, cut, torn, Scanned(c, log, turn, s, cut, torn))
  {
    var r := Reading(c, log, turn, s, cut, torn);
  }

  lemma FrameSizes(c: Codec, e: Event)
    ensures |Block(c, e)| == Head(c, e) + |DATA_LINE + c.json(e)| && |Frame(c, e)| == |Block(c, e)| + 2
    ensures DataAt(c, e) < |Block(c, e)|
  {
  }

  lemma PartialIsExact(log: seq<Event>, turn: string, from: nat, s: Scan, n: int, len: nat, torn: bool)
    requires Numbered(log) && Exact(log, turn, from, s) && s.end.Running? && s.cursor < |log|
    ensures Exact(log, turn, from, Partial(turn, s, log[s.cursor], n, len, torn))
  {
    TakeEvent(log, turn, from, s);
  }

  /** The lines of one connection, broken anywhere, keep the scan exact. */
  lemma {:induction false} ScanIsExact(c: Codec, log: seq<Event>, turn: string, from: nat, s: Scan, cut: nat,
                                         torn: bool)
    requires Sound(c) && Numbered(log) && Exact(log, turn, from, s)
    ensures Exact(log, turn, from, Scanned(c, log, turn, s, cut, torn))
    decreases |log| - s.cursor
  {
    if !s.end.Running? {
      StepEnded(c, log, turn, s, cut, torn);
    } else if s.cursor == |log| {
      StepNothing(c, log, turn, s, cut, torn);
    } else {
      var e := log[s.cursor];
      if cut < |Frame(c, e)| {
        StepPart(c, log, turn, s, cut, torn);
        PartialIsExact(log, turn, from, s, cut - Head(c, e), |DATA_LINE + c.json(e)|, torn);
      } else {
        StepWhole(c, log, turn, s, cut, torn);
        TakeEvent(log, turn, from, s);
        ScanIsExact(c, log, turn, from, Take(turn, s, e), cut - |Frame(c, e)|, torn);
      }
    }
  }

  lemma ConnectionIsExact(c: Codec, log: seq<Event>, turn: string, from: nat, s: Scan, a: Attempt)
    requires Sound(c) && Numbered(log) && Exact(log, turn, from, s)
    ensures Exact(log, turn, from, Connection(c, log, turn, s, a))
  {
    match a
    case Refused =>
    case Stream(cut) => ScanIsExact(c, log, turn, from, s, cut, false);
    case Torn(cut) =>
      ScanIsExact(c, log, turn, from, s, cut, true);
      FaultIsExact(log, turn, from, Scanned(c, log, turn, s, cut, true));
  }

  lemma FaultIsExact(log: seq<Event>, turn: string, from: nat, s: Scan)
    requires Exact(log, turn, from, s)
    ensures Exact(log, turn, from, Fault(s))
  {
  }

  // ----- The whole wait -----

  lemma {:induction false} FollowIsExact(c: Codec, log: seq<Event>, turn: string, from: nat, attempts: seq<Attempt>)
    requires Sound(c) && Numbered(log) && from <= |log|
    ensures Exact(log, turn, from, Follow(c, log, turn, from, attempts))
    decreases |attempts|
  {
    if attempts != [] {
      var n := |attempts| - 1;
      FollowIsExact(c, log, turn, from, attempts[..n]);
      ConnectionIsExact(c, log, turn, from, Follow(c, log, turn, from, attempts[..n]), attempts[n]);
    }
  }

  lemma ConnectionEnded(c: Codec, log: seq<Event>, turn: string, s: Scan, a: Attempt)
    requires !s.end.Running?
    ensures Connection(c, log, turn, s, a) == s
  {
    if !a.Refused? { StepEnded(c, log, turn, s, a.cut, a.Torn?); }
  }

  /** Nothing changes once the wait has ended. */
  lemma {:induction false} FollowEnded(c: Codec, log: seq<Event>, turn: string, from: nat, attempts: seq<Attempt>,
                                         i: nat)
    requires i <= |attempts| && (i == |attempts| || !Follow(c, log, turn, from, attempts[..i]).end.Running?)
    ensures Follow(c, log, turn, from, attempts) == Follow(c, log, turn, from, attempts[..i])
    decreases |attempts|
  {
    if i == |attempts| {
      assert attempts[..i] == attempts;
    } else {
      var n := |attempts| - 1;
      assert attempts[..n][..i] == attempts[..i];
      FollowEnded(c, log, turn, from, attempts[..n], i);
      ConnectionEnded(c, log, turn, Follow(c, log, turn, from, attempts[..n]), attempts[n]);
    }
  }

  /** No event the connection still brings ends the turn. */
  ghost predicate NoEnd(c: Codec, log: seq<Event>, turn: string, s: Scan, cut: nat) {
    s.cursor <= |log| && forall i :: s.cursor <= i < EventsIn(c, log, s.cursor, cut, true) ==> !Ends(log[i], turn)
  }

  /** An attempt raises: its stream ends in the data of an event still read (the JSON error), or
      its socket fails and the turn has not ended before. */
  ghost predicate AttemptRaises(c: Codec, log: seq<Event>, turn: string, s: Scan, a: Attempt) {
    s.end.Running? &&
    match a
    case Refused => false
    case Stream(cut) => s.cursor <= |log| && CutsData(c, log, turn, s.cursor, cut)
    case Torn(cut) => NoEnd(c, log, turn, s, cut)
  }

  lemma AttemptRaisesIff(c: Codec, log: seq<Event>, turn: string, s: Scan, a: Attempt)
    requires Sound(c) && Numbered(log) && s.end.Running? && s.cursor <= |log|
    ensures var r := Connection(c, log, turn, s, a);
            && (r.end.Crashed? <==> a.Stream? && AttemptRaises(c, log, turn, s, a))
            && (r.end.Aborted? <==> a.Torn? && AttemptRaises(c, log, turn, s, a))
  {
    match a
    case Refused =>
    case Stream(cut) => var r := Reading(c, log, turn, s, cut, false);
    case Torn(cut) =>
      var r := Reading(c, log, turn, s, cut, true);
      FaultReads(c, log, turn, s, cut, r);
  }

  lemma FaultReads(c: Codec, log: seq<Event>, turn: string, s: Scan, cut: nat, r: Scan)
    requires s.cursor <= |log| && ReadAs(c, log, turn, s, cut, true, r)
    ensures !Fault(r).end.Crashed? && (Fault(r).end.Aborted? <==> NoEnd(c, log, turn, s, cut))
  {
  }

  /** Attempt j is reached and raises. */
  ghost predicate RaisesAt(c: Codec, log: seq<Event>, turn: string, from: nat, attempts: seq<Attempt>, j: nat)
    requires j < |attempts|
  {
    AttemptRaises(c, log, turn, Follow(c, log, turn, from, attempts[..j]), attempts[j])
  }

  predicate Raised(s: Scan) {
    s.end.Crashed? || s.end.Aborted?
  }

  lemma LastRaises(c: Codec, log: seq<Event>, turn: string, from: nat, attempts: seq<Attempt>)
    requires Sound(c) && Numbered(log) && from <= |log| && attempts != []
    ensures var n := |attempts| - 1;
            Raised(Follow(c, log, turn, from, attempts)) <==>
            Raised(Follow(c, log, turn, from, attempts[..n])) || RaisesAt(c, log, turn, from, attempts, n)
  {
    var n := |attempts| - 1;
    var s := Follow(c, log, turn, from, attempts[..n]);
    FollowIsExact(c, log, turn, from, attempts[..n]);
    if s.end.Running? {
      AttemptRaisesIff(c, log, turn, s, attempts[n]);
    } else {
      ConnectionEnded(c, log, turn, s, attempts[n]);
    }
  }

  lemma RaisesEarlier(c: Codec, log: seq<Event>, turn: string, from: nat, attempts: seq<Attempt>, j: nat)
    requires j < |attempts| - 1
    ensures RaisesAt(c, log, turn, from, attempts[..|attempts| - 1], j) <==> RaisesAt(c, log, turn, from, attempts, j)
  {
    assert attempts[..|attempts| - 1][..j] == attempts[..j];
  }

  /** The whole wait raises exactly when some attempt it comes to does. */
  lemma {:induction false} RaisesIff(c: Codec, log: seq<Event>, turn: string, from: nat, attempts: seq<Attempt>)
    requires Sound(c) && Numbered(log) && from <= |log|
    ensures Raised(Follow(c, log, turn, from, attempts)) <==>
            exists j :: 0 <= j < |attempts| && RaisesAt(c, log, turn, from, attempts, j)
    decreases |attempts|
  {
    if attempts != [] {
      var n := |attempts| - 1;
      RaisesIff(c, log, turn, from, attempts[..n]);
      LastRaises(c, log, turn, from, attempts);
      forall j | 0 <= j < n
        ensures RaisesAt(c, log, turn, from, attempts[..n], j) <==> RaisesAt(c, log, turn, from, attempts, j)
      {
        RaisesEarlier(c, log, turn, from, attempts, j);
      }
    }
  }

  /** In terms of positions alone. */
  lemma {:induction false} CutsDataIff(c: Codec, log: seq<Event>, turn: string, from: nat, cut: nat)
    requires from <= |log|
    ensures CutsData(c, log, turn, from, cut) <==> exists k: nat :: CutsDataOf(c, log, turn, from, cut, k)
    decreases |log| - from
  {
    if from < |log| {
      var size := |Frame(c, log[from])|;
      CutsFirst(c, log, turn, from, cut);
      if cut >= size { CutsDataIff(c, log, turn, from + 1, cut - size); }
      if k: nat :| CutsDataOf(c, log, turn, from, cut, k) {
        if k > from { CutsLater(c, log, turn, from, cut, k); }
      }
      if cut >= size && !Ends(log[from], turn) && CutsData(c, log, turn, from + 1, cut - size) {
        var k: nat :| CutsDataOf(c, log, turn, from + 1, cut - size, k);
        CutsLater(c, log, turn, from, cut, k);
      }
    }
  }

  lemma CutsFirst(c: Codec, log: seq<Event>, turn: string, from: nat, cut: nat)
    requires from < |log|
    ensures CutsDataOf(c, log, turn, from, cut, from) <==> DataAt(c, log[from]) <= cut < |Block(c, log[from])|
    ensures |Block(c, log[from])| < |Frame(c, log[from])|
  {
    assert log[from..from] == [];
    FrameSizes(c, log[from]);
  }

  lemma CutsLater(c: Codec, log: seq<Event>, turn: string, from: nat, cut: nat, k: nat)
    requires from < k < |log|
    ensures CutsDataOf(c, log, turn, from, cut, k) <==>
            cut >= |Frame(c, log[from])| && !Ends(log[from], turn)
            && CutsDataOf(c, log, turn, from + 1, cut - |Frame(c, log[from])|, k)
  {
    EncodeFirst(c, log, from, k);
  }

  lemma EncodeFirst(c: Codec, log: seq<Event>, from: nat, k: nat)
    requires from < k <= |log|
    ensures |Encode(c, log[from..k])| == |Frame(c, log[from])| + |Encode(c, log[from + 1..k])|
  {
    assert log[from..k][1..] == log[from + 1..k];
  }

  /** Every event can be cut so: break just after its "data:". */
  lemma EveryEventCanBreak(c: Codec, log: seq<Event>, turn: string, s: Scan)
    requires Sound(c) && Numbered(log) && s.end.Running? && s.cursor < |log|
    ensures Connection(c, log, turn, s, Stream(DataAt(c, log[s.cursor]))) == s.(end := Crashed)
  {
    FrameSizes(c, log[s.cursor]);
    StepPart(c, log, turn, s, DataAt(c, log[s.cursor]), false);
  }

  /** Whole frames up to event k move the cursor to k, or to the turn's first terminal event. */
  lemma {:induction false} WholeFramesCount(c: Codec, log: seq<Event>, from: nat, k: nat, torn: bool)
    requires from <= k <= |log|
    ensures EventsIn(c, log, from, |Encode(c, log[from..k])|, torn) == k
    decreases k - from
  {
    if from < k {
      EncodeFirst(c, log, from, k);
      FrameSizes(c, log[from]);
      WholeFramesCount(c, log, from + 1, k, torn);
    } else if from < |log| {
      FrameSizes(c, log[from]);
      assert log[from..from] == [];
    }
  }

  lemma WholeFramesAreRead(c: Codec, log: seq<Event>, turn: string, s: Scan, k: nat, torn: bool)
    requires Sound(c) && Numbered(log) && s.end.Running? && s.cursor <= k <= |log|
    ensures Scanned(c, log, turn, s, |Encode(c, log[s.cursor..k])|, torn).cursor == StopAt(log, turn, s.cursor, k)
  {
    WholeFramesCount(c, log, s.cursor, k, torn);
    ConnectionReads(c, log, turn, s, |Encode(c, log[s.cursor..k])|, torn);
  }
}
