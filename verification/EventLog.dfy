/**
 The assistant's per-conversation event log and the bytes it is served as: the store of
 serve/mlx_omarchy_assistant/history.py and the event-stream handler of server.py.
 */
module EventLog {
  import opened Octets
  import opened Wrappers

  const NL: byte := 10

  /** "data:", "id: ", "event: " and "data: " in ASCII. */
  const DATA: Bytes := [100, 97, 116, 97, 58]
  const ID_LINE: Bytes := [105, 100, 58, 32]
  const EVENT_LINE: Bytes := [101, 118, 101, 110, 116, 58, 32]
  const DATA_LINE: Bytes := [100, 97, 116, 97, 58, 32]

  function Ascii(text: string): (b: Bytes)
    requires forall i :: 0 <= i < |text| ==> text[i] <= 'z'
    ensures |b| == |text|
  {
    seq(|text|, i requires 0 <= i < |text| => text[i] as byte)
  }

  lemma WireWords()
    ensures [NL] == Ascii("\n") && DATA == Ascii("data:") && ID_LINE == Ascii("id: ")
    ensures EVENT_LINE == Ascii("event: ") && DATA_LINE == Ascii("data: ")
  {
  }

  datatype Body = Text(text: string) | Done(detail: string) | Failed(reason: string) | Other

  datatype Event = Event(sequence: Option<nat>, turn: string, body: Body)

  /** How events are written and read: the JSON codec and the two text fields of a frame. */
  datatype Codec = Codec(json: Event -> Bytes, parse: Bytes -> Option<Event>, id: Event -> Bytes, kind: Event -> Bytes)

  /** A JSON document written by the server has no raw newline and is read back as the same
      event; cut short it is not JSON. */
  ghost predicate Sound(c: Codec) {
    && (forall e :: NL !in c.json(e) && NL !in c.id(e) && NL !in c.kind(e))
    && (forall e :: c.parse([32] + c.json(e)) == Some(e))
    && (forall e, n :: 0 <= n <= |c.json(e)| ==> c.parse(([32] + c.json(e))[..n]) == None)
  }

  /** server.py:567 (one event on the wire, up to its blank line). */
  function Block(c: Codec, e: Event): Bytes {
    ID_LINE + c.id(e) + [NL] + EVENT_LINE + c.kind(e) + [NL] + DATA_LINE + c.json(e)
  }

  function Frame(c: Codec, e: Event): Bytes {
    Block(c, e) + [NL, NL]
  }

  function Encode(c: Codec, events: seq<Event>): Bytes {
    if events == [] then [] else Frame(c, events[0]) + Encode(c, events[1..])
  }

  lemma {:induction false} EncodeAppend(c: Codec, xs: seq<Event>, ys: seq<Event>)
    ensures Encode(c, xs + ys) == Encode(c, xs) + Encode(c, ys)
    decreases |xs|
  {
    if xs == [] {
      assert xs + ys == ys;
    } else {
      assert (xs + ys)[1..] == xs[1..] + ys;
      EncodeAppend(c, xs[1..], ys);
    }
  }

  /** Sequence numbers count up from 1 (history.py:238-241). */
  ghost predicate Numbered(log: seq<Event>) {
    forall i :: 0 <= i < |log| ==> log[i].sequence == Some(i + 1)
  }
}
