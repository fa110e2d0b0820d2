/**
 Any number of `submit` runs (scripts/collect_submit.py) against the server of
 SubmitServer, over a network that may lose requests, lose replies, deliver requests late
 or more than once and damage chunk bodies, with runs that may be cut off at any step and
 a server that may delete unfinished uploads.
 */
module SubmitProtocol {
  import opened Archive
  import opened Octets
  import opened ProofOfWork
  import opened SubmitServer

  const POW_DIFFICULTY: nat := 18

  /** Where a run stands between two network calls. */
  datatype Stage =
    | Probing
    | Initiating(attempt: nat, difficulty: nat)
    | Posting
    | Completing
    | Receipt(deduplicated: bool)
    | SubmitError

  /** `reported` is the list of missing chunks the server answered with, `posted` how many of
      them this run has posted.  `had` (the chunks the server held then) and `undisturbed`
      (no unfinished upload of this archive deleted since) only record history. */
  datatype Submission = Submission(data: Bytes, stage: Stage, reported: seq<nat>, posted: nat,
                                   had: set<nat>, undisturbed: bool)

  datatype World = World(db: Table, runs: seq<Submission>, sent: set<Request>)

  predicate Active(r: Submission) {
    r.stage.Probing? || r.stage.Initiating? || r.stage.Completing?
    || (r.stage.Posting? && r.posted < |r.reported|)
  }

  // ----- The client -----

  /** collect_submit.py:160-183: oversized archives never leave the machine. */
  function Begin(data: Bytes): Submission {
    Submission(data, if |data| > MAX_ARCHIVE_BYTES then SubmitError else Probing, [], 0, {}, false)
  }

  /** collect_submit.py:103-110: the least nonce that meets the difficulty. */
  ghost predicate IsNonce(cfg: Config, sha: Digest, difficulty: nat, n: nat) {
    Meets(Digests(cfg, sha), n, difficulty) && forall k: nat :: k < n ==> !Meets(Digests(cfg, sha), k, difficulty)
  }

  /** The nonce a run sends; a run whose search never ends sends nothing, and 0 stands in. */
  ghost function NonceOf(cfg: Config, sha: Digest, difficulty: nat): nat {
    if exists n: nat :: IsNonce(cfg, sha, difficulty, n) then var n: nat :| IsNonce(cfg, sha, difficulty, n); n else 0
  }

  lemma NonceIs(cfg: Config, sha: Digest, difficulty: nat, n: nat)
    requires IsNonce(cfg, sha, difficulty, n)
    ensures NonceOf(cfg, sha, difficulty) == n
  {
    var m := NonceOf(cfg, sha, difficulty);
    assert IsNonce(cfg, sha, difficulty, m);
    assert !(m < n) && !(n < m);
  }

  /** The difficulty a run ends up proving. */
  function Demand(cfg: Config): nat {
    if cfg.minBits > POW_DIFFICULTY then cfg.minBits else POW_DIFFICULTY
  }

  /** A difficulty some run proves: its own first, and what the server demanded instead. */
  predicate Asked(cfg: Config, difficulty: nat) {
    difficulty == POW_DIFFICULTY || difficulty == Demand(cfg)
  }

  /** The request a run makes next. */
  ghost function RequestOf(cfg: Config, r: Submission): Request
    requires Active(r)
  {
    var sha := cfg.sha(r.data);
    if r.stage.Probing? then Probe(sha)
    else if r.stage.Initiating? then
      Initiate(sha, ShapeOf(cfg, r.data), r.stage.difficulty, NonceOf(cfg, sha, r.stage.difficulty))
    else if r.stage.Completing? then Complete(sha)
    else PutChunk(sha, r.reported[r.posted], Slice(r.data, CHUNK_BYTES, r.reported[r.posted]))
  }

  function Fail(r: Submission): Submission {
    r.(stage := SubmitError)
  }

  /** After the last reported chunk the run completes. */
  function Advance(r: Submission): Submission {
    if r.stage.Posting? && r.posted >= |r.reported| then r.(stage := Completing) else r
  }

  /** What the run makes of a reply; `had` is what the server holds at that moment. */
  function Absorb(r: Submission, reply: Reply, had: set<nat>): Submission
    requires Active(r)
  {
    match r.stage
    case Probing =>
      if reply.Duplicate? then r.(stage := Receipt(true))
      else if reply.NotFound? then r.(stage := Initiating(0, POW_DIFFICULTY))
      else Fail(r)
    case Initiating(attempt, difficulty) =>
      if reply.PowInvalid? && reply.minimum > difficulty && attempt == 0
      then r.(stage := Initiating(1, reply.minimum))
      else if reply.Duplicate? then r.(stage := Receipt(true))
      else if reply.Awaiting? then
        Advance(r.(stage := Posting, reported := reply.missing, posted := 0, had := had, undisturbed := true))
      else Fail(r)
    case Completing =>
      if reply.Accepted? then r.(stage := Receipt(false)) else Fail(r)
    case _ =>
      if reply.Accepted? then Advance(r.(posted := r.posted + 1)) else Fail(r)
  }

  // ----- The system -----

  datatype Action =
    | Start(data: Bytes)
    | Exchange(i: nat)                 // request handled, reply received
    | Cut(i: nat)                      // the run is cut off with its request in flight
    | Late(request: Request)           // a request made earlier is handled (again)
    | Damaged(sha: Digest, idx: nat, bytes: Bytes)
    | Expire(sha: Digest)              // hourly clean-up of unfinished uploads

  ghost predicate Enabled(w: World, a: Action) {
    match a
    case Exchange(i) => i < |w.runs| && Active(w.runs[i])
    case Cut(i) => i < |w.runs| && Active(w.runs[i])
    case Late(r) => r in w.sent
    case Expire(sha) => sha in w.db && !w.db[sha].published
    case _ => true
  }

  function HeldKeys(db: Table, sha: Digest): set<nat> {
    if sha in db then db[sha].chunks.Keys else {}
  }

  function Disturb(cfg: Config, runs: seq<Submission>, sha: Digest): (rs: seq<Submission>)
    ensures |rs| == |runs|
  {
    seq(|runs|, i requires 0 <= i < |runs| =>
      if cfg.sha(runs[i].data) == sha then runs[i].(undisturbed := false) else runs[i])
  }

  ghost function Next(cfg: Config, w: World, a: Action): World {
    match a
    case Start(data) => w.(runs := w.runs + [Begin(data)])
    case Exchange(i) =>
      if i < |w.runs| && Active(w.runs[i]) then
        var request := RequestOf(cfg, w.runs[i]);
        var (db, reply) := Handle(cfg, w.db, request);
        World(db, w.runs[i := Absorb(w.runs[i], reply, HeldKeys(w.db, request.sha))], w.sent + {request})
      else w
    case Cut(i) =>
      if i < |w.runs| && Active(w.runs[i]) then
        World(w.db, w.runs[i := Fail(w.runs[i])], w.sent + {RequestOf(cfg, w.runs[i])})
      else w
    case Late(r) => w.(db := Handle(cfg, w.db, r).0)
    case Damaged(sha, idx, bytes) => w.(db := Handle(cfg, w.db, PutChunk(sha, idx, bytes)).0)
    case Expire(sha) => w.(db := map s | s in w.db && s != sha :: w.db[s], runs := Disturb(cfg, w.runs, sha))
  }

  ghost predicate Runs(cfg: Config, w: World, actions: seq<Action>)
    decreases |actions|
  {
    actions == [] || (Enabled(w, actions[0]) && Runs(cfg, Next(cfg, w, actions[0]), actions[1..]))
  }

  ghost function Run(cfg: Config, w: World, actions: seq<Action>): World
    decreases |actions|
  {
    if actions == [] then w else Run(cfg, Next(cfg, w, actions[0]), actions[1..])
  }

  const EMPTY := World(map[], [], {})

  /** The network may deliver any request ever made, at any time after it was made. */
  lemma MayComeLate(cfg: Config, w: World, a: Action)
    requires Enabled(w, a)
    ensures w.sent <= Next(cfg, w, a).sent
    ensures a.Exchange? || a.Cut? ==> Enabled(Next(cfg, w, a), Late(RequestOf(cfg, w.runs[a.i])))
  {
  }

  // ----- What always holds -----

  /** A run that has had its list of missing chunks. */
  predicate Listed(r: Submission) {
    r.stage.Posting? || r.stage.Completing?
  }

  ghost predicate RunOk(cfg: Config, db: Table, r: Submission) {
    var sha := cfg.sha(r.data);
    && (r.stage.Initiating? ==>
          Asked(cfg, r.stage.difficulty) && (r.stage.attempt == 0 ==> r.stage.difficulty == POW_DIFFICULTY))
    && (r.stage.Posting? ==> r.posted < |r.reported|)
    && (r.stage.Completing? ==> r.posted == |r.reported|)
    && (r.stage.Receipt? ==> sha in db && db[sha].published)
    && (Listed(r) ==> forall i :: 0 <= i < |r.reported| ==> r.reported[i] !in r.had)
    && (Listed(r) && r.undisturbed ==>
          && sha in db
          && (forall i :: i in r.had ==> i in db[sha].chunks)
          && (forall i :: 0 <= i < r.posted ==> r.reported[i] in db[sha].chunks)
          && (forall i :: 0 <= i < |r.reported| ==> r.reported[i] < db[sha].shape.count)
          && (forall i: nat :: i < db[sha].shape.count ==> i in r.had || i in r.reported))
  }

  /** An initiate call of this client: the archive's shape, and the nonce found for it. */
  ghost predicate Sent(cfg: Config, r: Request) {
    Honest(cfg, r) && (r.Initiate? ==> Asked(cfg, r.difficulty) && r.nonce == NonceOf(cfg, r.sha, r.difficulty))
  }

  ghost predicate Safe(cfg: Config, w: World) {
    && Genuine(cfg, w.db)
    && (forall r :: r in w.sent ==> Sent(cfg, r))
    && (forall i :: 0 <= i < |w.runs| ==> RunOk(cfg, w.db, w.runs[i]))
  }

  lemma RequestIsSent(cfg: Config, db: Table, r: Submission)
    requires NoCollisions(cfg) && Active(r) && RunOk(cfg, db, r)
    ensures Sent(cfg, RequestOf(cfg, r))
  {
  }

  /** Other runs are not hurt by a table that only grows. */
  lemma RunSurvives(cfg: Config, before: Table, after: Table, r: Submission)
    requires Grows(before, after) && RunOk(cfg, before, r)
    ensures RunOk(cfg, after, r)
  {
  }

  lemma ListGiven(cfg: Config, db: Table, r: Submission)
    requires NoCollisions(cfg) && Genuine(cfg, db) && r.stage.Initiating?
    requires Handle(cfg, db, RequestOf(cfg, r)).1.Awaiting?
    ensures var (after, reply) := Handle(cfg, db, RequestOf(cfg, r));
            var sha := cfg.sha(r.data);
            && sha in after && after[sha].chunks.Keys == HeldKeys(db, sha)
            && reply.missing == Missing(after[sha].chunks, after[sha].shape.count)
  {
    if cfg.sha(r.data) in db { assert Fits(cfg, db[cfg.sha(r.data)], r.data); }
  }

  lemma AbsorbedList(cfg: Config, db: Table, r: Submission, had: set<nat>, missing: seq<nat>)
    requires var sha := cfg.sha(r.data);
             sha in db && db[sha].chunks.Keys == had && missing == Missing(db[sha].chunks, db[sha].shape.count)
    ensures RunOk(cfg, db,
                  Advance(r.(stage := Posting, reported := missing, posted := 0, had := had, undisturbed := true)))
  {
    var row := db[cfg.sha(r.data)];
    MissingHas(row.chunks, row.shape.count);
    assert forall i :: 0 <= i < |missing| ==> missing[i] in missing;
  }

  lemma AbsorbedPost(cfg: Config, db: Table, r: Submission)
    requires Active(r) && RunOk(cfg, db, r) && r.stage.Posting?
    ensures var (after, reply) := Handle(cfg, db, RequestOf(cfg, r));
            reply.Accepted? ==> RunOk(cfg, after, Advance(r.(posted := r.posted + 1)))
  {
    var request := RequestOf(cfg, r);
    var (after, reply) := Handle(cfg, db, request);
    HandleGrows(cfg, db, request);
    RunSurvives(cfg, db, after, r);
    if reply.Accepted? { assert r.reported[r.posted] in after[cfg.sha(r.data)].chunks; }
  }

  lemma AbsorbedOk(cfg: Config, db: Table, r: Submission)
    requires NoCollisions(cfg) && Genuine(cfg, db) && Active(r) && RunOk(cfg, db, r)
    ensures var request := RequestOf(cfg, r);
            var (after, reply) := Handle(cfg, db, request);
            RunOk(cfg, after, Absorb(r, reply, HeldKeys(db, request.sha)))
  {
    var (after, reply) := Handle(cfg, db, RequestOf(cfg, r));
    if r.stage.Initiating? {
      if reply.Awaiting? {
        ListGiven(cfg, db, r);
        AbsorbedList(cfg, after, r, HeldKeys(db, cfg.sha(r.data)), reply.missing);
      }
    } else if r.stage.Posting? {
      AbsorbedPost(cfg, db, r);
    }
  }

  lemma Exchanging(cfg: Config, w: World, i: nat)
    requires NoCollisions(cfg) && Safe(cfg, w) && Enabled(w, Exchange(i))
    ensures Safe(cfg, Next(cfg, w, Exchange(i)))
  {
    var r := w.runs[i];
    var request := RequestOf(cfg, r);
    RequestIsSent(cfg, w.db, r);
    HandleKeepsGenuineIff(cfg, w.db, request);
    HandleGrows(cfg, w.db, request);
    AbsorbedOk(cfg, w.db, r);
    var w' := Next(cfg, w, Exchange(i));
    forall j | 0 <= j < |w'.runs| ensures RunOk(cfg, w'.db, w'.runs[j]) {
      if j != i { RunSurvives(cfg, w.db, w'.db, w.runs[j]); }
    }
  }

  lemma Handling(cfg: Config, w: World, request: Request)
    requires NoCollisions(cfg) && Safe(cfg, w) && Honest(cfg, request)
    ensures Safe(cfg, w.(db := Handle(cfg, w.db, request).0))
  {
    HandleKeepsGenuineIff(cfg, w.db, request);
    HandleGrows(cfg, w.db, request);
    forall j | 0 <= j < |w.runs| ensures RunOk(cfg, Handle(cfg, w.db, request).0, w.runs[j]) {
      RunSurvives(cfg, w.db, Handle(cfg, w.db, request).0, w.runs[j]);
    }
  }

  lemma Expiring(cfg: Config, w: World, sha: Digest)
    requires Safe(cfg, w) && Enabled(w, Expire(sha))
    ensures Safe(cfg, Next(cfg, w, Expire(sha)))
  {
    var w' := Next(cfg, w, Expire(sha));
    forall j | 0 <= j < |w'.runs| ensures RunOk(cfg, w'.db, w'.runs[j]) {
      assert RunOk(cfg, w.db, w.runs[j]);
    }
    forall s, data | s in w'.db && cfg.sha(data) == s ensures Fits(cfg, w'.db[s], data) {
      assert Fits(cfg, w.db[s], data);
    }
  }

  lemma StepIsSafe(cfg: Config, w: World, a: Action)
    requires NoCollisions(cfg) && Safe(cfg, w) && Enabled(w, a)
    ensures Safe(cfg, Next(cfg, w, a))
  {
    match a
    case Start(data) =>
    case Exchange(i) => Exchanging(cfg, w, i);
    case Cut(i) => RequestIsSent(cfg, w.db, w.runs[i]);
    case Late(r) => Handling(cfg, w, r);
    case Damaged(sha, idx, bytes) => Handling(cfg, w, PutChunk(sha, idx, bytes));
    case Expire(sha) => Expiring(cfg, w, sha);
  }

  lemma {:induction false} RunIsSafe(cfg: Config, w: World, actions: seq<Action>)
    requires NoCollisions(cfg) && Safe(cfg, w) && Runs(cfg, w, actions)
    ensures Safe(cfg, Run(cfg, w, actions))
    decreases |actions|
  {
    if actions != [] {
      StepIsSafe(cfg, w, actions[0]);
      RunIsSafe(cfg, Next(cfg, w, actions[0]), actions[1..]);
    }
  }

  // ----- Main results -----

  /** After any schedule every chunk held for an archive is the slice of that archive at its
      index. */
  lemma ChunksAreSlices(cfg: Config, actions: seq<Action>, data: Bytes, i: nat)
    requires NoCollisions(cfg) && Runs(cfg, EMPTY, actions)
    ensures var db := Run(cfg, EMPTY, actions).db;
            cfg.sha(data) in db && i in db[cfg.sha(data)].chunks ==>
              i < ChunkCount(|data|, CHUNK_BYTES) && db[cfg.sha(data)].chunks[i].bytes == Slice(data, CHUNK_BYTES, i)
  {
    RunIsSafe(cfg, EMPTY, actions);
    var db := Run(cfg, EMPTY, actions).db;
    if cfg.sha(data) in db { assert Fits(cfg, db[cfg.sha(data)], data); }
  }

  /** A run that holds a receipt, deduplicated or not, has its archive published: the stored
      chunks in order are the archive. */
  lemma ReceiptMeansStored(cfg: Config, actions: seq<Action>, k: nat)
    requires NoCollisions(cfg) && Runs(cfg, EMPTY, actions)
    requires k < |Run(cfg, EMPTY, actions).runs| && Run(cfg, EMPTY, actions).runs[k].stage.Receipt?
    ensures var w := Run(cfg, EMPTY, actions);
            var data := w.runs[k].data;
            && cfg.sha(data) in w.db && w.db[cfg.sha(data)].published
            && var row := w.db[cfg.sha(data)];
               Full(row) && Join(Pieces(row)) == data
  {
    RunIsSafe(cfg, EMPTY, actions);
    var w := Run(cfg, EMPTY, actions);
    var data := w.runs[k].data;
    assert RunOk(cfg, w.db, w.runs[k]);
    PublishedIsArchive(cfg, w.db[cfg.sha(data)], data);
  }

  /** Except when an unfinished upload is deleted, a step never makes a chunk missing. */
  lemma MissingNeverGrows(cfg: Config, w: World, a: Action, sha: Digest)
    requires Enabled(w, a) && a != Expire(sha) && sha in w.db
    ensures var w' := Next(cfg, w, a);
            && sha in w'.db && w'.db[sha].shape == w.db[sha].shape
            && forall i :: i in Missing(w'.db[sha].chunks, w.db[sha].shape.count) ==>
                 i in Missing(w.db[sha].chunks, w.db[sha].shape.count)
  {
    var w' := Next(cfg, w, a);
    match a {
      case Exchange(i) => HandleGrows(cfg, w.db, RequestOf(cfg, w.runs[i]));
      case Late(r) => HandleGrows(cfg, w.db, r);
      case Damaged(s, idx, bytes) => HandleGrows(cfg, w.db, PutChunk(s, idx, bytes));
      case _ =>
    }
    MissingHas(w.db[sha].chunks, w.db[sha].shape.count);
    MissingHas(w'.db[sha].chunks, w.db[sha].shape.count);
  }

  /** A run never posts a chunk the server already held when it gave the run its list. */
  lemma PostsOnlyMissing(cfg: Config, w: World, i: nat)
    requires Safe(cfg, w) && Enabled(w, Exchange(i)) && w.runs[i].stage.Posting?
    ensures var request := RequestOf(cfg, w.runs[i]);
            request.PutChunk? && request.idx in w.runs[i].reported && request.idx !in w.runs[i].had
  {
    assert RunOk(cfg, w.db, w.runs[i]);
  }

  lemma SomeElement(m: seq<nat>)
    ensures m != [] ==> exists x: nat :: x in m
  {
    if m != [] { assert m[0] in m; }
  }

  lemma NothingMissing(cfg: Config, db: Table, r: Submission)
    requires RunOk(cfg, db, r) && r.stage.Completing? && r.undisturbed && Fits(cfg, db[cfg.sha(r.data)], r.data)
    ensures var row := db[cfg.sha(r.data)];
            Missing(row.chunks, |row.shape.hashes|) == []
  {
    var row := db[cfg.sha(r.data)];
    MissingHas(row.chunks, |row.shape.hashes|);
    forall j: nat | j < row.shape.count ensures j in row.chunks {
      if j !in r.had {
        var k :| 0 <= k < |r.reported| && r.reported[k] == j;
      }
    }
    SomeElement(Missing(row.chunks, |row.shape.hashes|));
  }

  lemma CompletingFits(cfg: Config, db: Table, sha: Digest, data: Bytes)
    requires sha in db && Fits(cfg, db[sha], data) && Missing(db[sha].chunks, |db[sha].shape.hashes|) == []
    ensures HandleComplete(db, Complete(sha)).1 == Accepted
  {
    var row := db[sha];
    assert forall i :: i in row.chunks ==> i < |row.shape.hashes| && row.shape.hashes[i] == row.chunks[i].hash;
  }

  /** If no clean-up hit its archive, a run that reaches the last call is never told that
      chunks are missing: the upload is published. */
  lemma CompleteSucceeds(cfg: Config, w: World, i: nat)
    requires NoCollisions(cfg) && Safe(cfg, w) && Enabled(w, Exchange(i))
    requires w.runs[i].stage.Completing? && w.runs[i].undisturbed
    ensures Next(cfg, w, Exchange(i)).runs[i].stage == Receipt(false)
  {
    var r := w.runs[i];
    assert RunOk(cfg, w.db, r);
    assert Fits(cfg, w.db[cfg.sha(r.data)], r.data);
    NothingMissing(cfg, w.db, r);
    CompletingFits(cfg, w.db, cfg.sha(r.data), r.data);
  }

  // ----- Which receipt -----

  /** An exchange ends a run with "deduplicated" exactly when the run asks and the archive is
      published already, and then changes nothing; with "not deduplicated" exactly when the run
      completes and the server accepts, and then the archive is published. */
  lemma WhichReceipt(cfg: Config, w: World, i: nat)
    requires Safe(cfg, w) && Enabled(w, Exchange(i))
    ensures var r, w' := w.runs[i], Next(cfg, w, Exchange(i));
            var sha, stage := cfg.sha(r.data), w'.runs[i].stage;
            && (stage == Receipt(true) <==>
                  && sha in w.db && w.db[sha].published
                  && (r.stage.Probing? || (r.stage.Initiating? && InitiateAllowed(cfg, r))))
            && (stage == Receipt(true) ==> w'.db == w.db)
            && (stage == Receipt(false) <==>
                  r.stage.Completing? && Handle(cfg, w.db, Complete(sha)).1 == Accepted)
            && (stage == Receipt(false) ==> sha in w'.db && w'.db[sha].published)
  {
    assert RunOk(cfg, w.db, w.runs[i]);
  }

  /** The server would take the initiate call the run makes next. */
  ghost predicate InitiateAllowed(cfg: Config, r: Submission)
    requires r.stage.Initiating?
  {
    var sha, difficulty := cfg.sha(r.data), r.stage.difficulty;
    ShapeAllowed(ShapeOf(cfg, r.data)) && PowOk(cfg, sha, NonceOf(cfg, sha, difficulty), difficulty)
  }

  // ----- Re-running finishes the upload -----

  /** n exchanges of one run with nothing in between. */
  ghost function Drive(cfg: Config, w: World, i: nat, n: nat): World
    decreases n
  {
    if n == 0 then w else Drive(cfg, Next(cfg, w, Exchange(i)), i, n - 1)
  }

  ghost predicate Finishes(cfg: Config, w: World, i: nat, n: nat) {
    var t := Drive(cfg, w, i, n);
    i < |t.runs| && t.runs[i].stage.Receipt?
  }

  lemma FinishesLater(cfg: Config, w: World, i: nat, n: nat)
    requires Finishes(cfg, Next(cfg, w, Exchange(i)), i, n)
    ensures Finishes(cfg, w, i, n + 1)
  {
  }

  /** Posting the reported chunks one after the other, then completing. */
  lemma {:induction false} PostingFinishes(cfg: Config, w: World, i: nat) returns (n: nat)
    requires NoCollisions(cfg) && Safe(cfg, w) && i < |w.runs|
    requires var r := w.runs[i]; Active(r) && Listed(r) && r.undisturbed && !w.db[cfg.sha(r.data)].published
    ensures Finishes(cfg, w, i, n) && n <= |w.runs[i].reported| - w.runs[i].posted + 1
    decreases |w.runs[i].reported| - w.runs[i].posted
  {
    var r := w.runs[i];
    var w' := Next(cfg, w, Exchange(i));
    StepIsSafe(cfg, w, Exchange(i));
    if r.stage.Completing? {
      CompleteSucceeds(cfg, w, i);
      assert Finishes(cfg, w', i, 0);
      FinishesLater(cfg, w, i, 0);
      n := 1;
    } else {
      assert RunOk(cfg, w.db, r);
      assert Fits(cfg, w.db[cfg.sha(r.data)], r.data);
      PostAccepted(cfg, w, i);
      n := PostingFinishes(cfg, w', i);
      FinishesLater(cfg, w, i, n);
      n := n + 1;
    }
  }

  lemma PostAccepted(cfg: Config, w: World, i: nat)
    requires NoCollisions(cfg) && Safe(cfg, w) && i < |w.runs|
    requires var r := w.runs[i]; Active(r) && r.stage.Posting? && r.undisturbed && !w.db[cfg.sha(r.data)].published
    requires w.runs[i].reported[w.runs[i].posted] < ChunkCount(|w.runs[i].data|, CHUNK_BYTES)
    ensures var w' := Next(cfg, w, Exchange(i));
            var r := w.runs[i];
            && w'.runs[i] == Advance(r.(posted := r.posted + 1))
            && cfg.sha(r.data) in w'.db && !w'.db[cfg.sha(r.data)].published
  {
    var r := w.runs[i];
    var idx := r.reported[r.posted];
    assert RunOk(cfg, w.db, r);
    assert Fits(cfg, w.db[cfg.sha(r.data)], r.data);
    SliceLength(r.data, CHUNK_BYTES, idx);
  }

  lemma CountInRange(data: Bytes)
    requires 0 < |data| <= MAX_ARCHIVE_BYTES
    ensures 1 <= ChunkCount(|data|, CHUNK_BYTES) <= MAX_CHUNKS
  {
  }

  lemma {:induction false} MissingLength(chunks: map<nat, Stored>, count: nat)
    ensures |Missing(chunks, count)| <= count
    decreases count
  {
    if count > 0 { MissingLength(chunks, count - 1); }
  }

  /** A run that has its receipt, or the list of chunks to post. */
  ghost predicate Answered(cfg: Config, w: World, i: nat) {
    i < |w.runs| &&
    var r := w.runs[i];
    || r.stage == Receipt(true)
    || (Active(r) && Listed(r) && r.undisturbed && cfg.sha(r.data) in w.db && !w.db[cfg.sha(r.data)].published
        && |r.reported| - r.posted <= MAX_CHUNKS)
  }

  /** A well-proved initiate call is answered with the missing chunks or with "duplicate". */
  lemma InitiateAnswered(cfg: Config, w: World, i: nat)
    requires NoCollisions(cfg) && Safe(cfg, w) && i < |w.runs| && w.runs[i].stage.Initiating?
    requires 0 < |w.runs[i].data| <= MAX_ARCHIVE_BYTES
    requires var sha, difficulty := cfg.sha(w.runs[i].data), w.runs[i].stage.difficulty;
             PowOk(cfg, sha, NonceOf(cfg, sha, difficulty), difficulty)
    ensures Answered(cfg, Next(cfg, w, Exchange(i)), i)
  {
    var r := w.runs[i];
    var sha := cfg.sha(r.data);
    CountInRange(r.data);
    if sha in w.db { assert Fits(cfg, w.db[sha], r.data); }
    var chunks := if sha in w.db then w.db[sha].chunks else map[];
    MissingLength(chunks, ChunkCount(|r.data|, CHUNK_BYTES));
  }

  lemma InitiatingFinishes(cfg: Config, w: World, i: nat) returns (n: nat)
    requires NoCollisions(cfg) && Safe(cfg, w) && i < |w.runs| && w.runs[i].stage.Initiating?
    requires 0 < |w.runs[i].data| <= MAX_ARCHIVE_BYTES
    requires var sha, difficulty := cfg.sha(w.runs[i].data), w.runs[i].stage.difficulty;
             PowOk(cfg, sha, NonceOf(cfg, sha, difficulty), difficulty)
    ensures Finishes(cfg, w, i, n) && n <= MAX_CHUNKS + 2
  {
    InitiateAnswered(cfg, w, i);
    StepIsSafe(cfg, w, Exchange(i));
    n := AnsweredFinishes(cfg, Next(cfg, w, Exchange(i)), i);
    FinishesLater(cfg, w, i, n);
    n := n + 1;
  }

  lemma AnsweredFinishes(cfg: Config, w: World, i: nat) returns (n: nat)
    requires NoCollisions(cfg) && Safe(cfg, w) && Answered(cfg, w, i)
    ensures Finishes(cfg, w, i, n) && n <= MAX_CHUNKS + 1
  {
    if w.runs[i].stage.Receipt? {
      n := 0;
      assert Finishes(cfg, w, i, 0);
    } else {
      n := PostingFinishes(cfg, w, i);
    }
  }

  /** What the service accepts at all: an archive of an allowed size whose least nonce for the
      difficulty demanded is short enough. */
  ghost predicate Acceptable(cfg: Config, data: Bytes) {
    var sha := cfg.sha(data);
    0 < |data| <= MAX_ARCHIVE_BYTES && PowOk(cfg, sha, NonceOf(cfg, sha, Demand(cfg)), Demand(cfg))
  }

  /** In figures: up to 8 MiB, a server that asks for at most 64 zero bits, and a nonce of at most
      32 digits that has as many as the larger of 18 and what the server asks for. */
  lemma AcceptableIff(cfg: Config, data: Bytes)
    ensures var sha := cfg.sha(data);
            var bits := if cfg.minBits > 18 then cfg.minBits else 18;
            var nonce := NonceOf(cfg, sha, bits);
            Acceptable(cfg, data) <==>
              && 0 < |data| <= 8 * 1024 * 1024 && cfg.minBits <= 64
              && nonce < 100_000_000_000_000_000_000_000_000_000_000 && Meets(Digests(cfg, sha), nonce, bits)
  {
  }

  /** A stiffer difficulty is learned from the refusal and met at the second attempt. */
  lemma FirstAttemptFinishes(cfg: Config, w: World, i: nat) returns (n: nat)
    requires NoCollisions(cfg) && Safe(cfg, w) && i < |w.runs|
    requires w.runs[i].stage == Initiating(0, POW_DIFFICULTY) && Acceptable(cfg, w.runs[i].data)
    ensures Finishes(cfg, w, i, n) && n <= MAX_CHUNKS + 3
  {
    if cfg.minBits <= POW_DIFFICULTY {
      n := InitiatingFinishes(cfg, w, i);
    } else {
      CountInRange(w.runs[i].data);
      var w' := Next(cfg, w, Exchange(i));
      StepIsSafe(cfg, w, Exchange(i));
      assert w'.runs[i].stage == Initiating(1, cfg.minBits);
      n := InitiatingFinishes(cfg, w', i);
      FinishesLater(cfg, w, i, n);
      n := n + 1;
    }
  }

  /** Whatever went wrong before -- crashes, losses, partial uploads, clean-up -- a new run
      that is left alone ends with a receipt after at most 15 calls. */
  lemma ReRunFinishes(cfg: Config, w: World, data: Bytes) returns (n: nat)
    requires NoCollisions(cfg) && Safe(cfg, w) && Acceptable(cfg, data)
    ensures Finishes(cfg, Next(cfg, w, Start(data)), |w.runs|, n) && n <= 15
  {
    var i := |w.runs|;
    var w1 := Next(cfg, w, Start(data));
    StepIsSafe(cfg, w, Start(data));
    var w2 := Next(cfg, w1, Exchange(i));
    StepIsSafe(cfg, w1, Exchange(i));
    if w2.runs[i].stage.Receipt? {
      n := 0;
      assert Finishes(cfg, w2, i, 0);
    } else {
      n := FirstAttemptFinishes(cfg, w2, i);
    }
    FinishesLater(cfg, w1, i, n);
    n := n + 1;
  }

  lemma RefusedInitiate(cfg: Config, db: Table, r: Request, data: Bytes)
    requires Sent(cfg, r) && !Acceptable(cfg, data) && cfg.sha(data) !in db
    ensures cfg.sha(data) !in Handle(cfg, db, r).0
  {
  }

  lemma {:induction false} NeverStored(cfg: Config, w: World, actions: seq<Action>, data: Bytes)
    requires NoCollisions(cfg) && Safe(cfg, w) && Runs(cfg, w, actions)
    requires !Acceptable(cfg, data) && cfg.sha(data) !in w.db
    ensures cfg.sha(data) !in Run(cfg, w, actions).db
    decreases |actions|
  {
    if actions != [] {
      StepIsSafe(cfg, w, actions[0]);
      match actions[0] {
        case Exchange(i) =>
          RequestIsSent(cfg, w.db, w.runs[i]);
          RefusedInitiate(cfg, w.db, RequestOf(cfg, w.runs[i]), data);
        case Late(r) => RefusedInitiate(cfg, w.db, r, data);
        case _ =>
      }
      NeverStored(cfg, Next(cfg, w, actions[0]), actions[1..], data);
    }
  }

  /** The condition is exact: for an archive that is empty or too large, a server that asks for
      more than 64 bits, or a nonce of more than 32 digits, no schedule ever gives a receipt. */
  lemma UnacceptableNeverReceipt(cfg: Config, actions: seq<Action>, k: nat)
    requires NoCollisions(cfg) && Runs(cfg, EMPTY, actions) && k < |Run(cfg, EMPTY, actions).runs|
    requires !Acceptable(cfg, Run(cfg, EMPTY, actions).runs[k].data)
    ensures !Run(cfg, EMPTY, actions).runs[k].stage.Receipt?
  {
    var w := Run(cfg, EMPTY, actions);
    NeverStored(cfg, EMPTY, actions, w.runs[k].data);
    RunIsSafe(cfg, EMPTY, actions);
    assert RunOk(cfg, w.db, w.runs[k]);
  }
}
