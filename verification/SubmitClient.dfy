/**
 `submit` itself (scripts/collect_submit.py), call by call, against a service no one else is
 talking to: it walks the protocol of SubmitProtocol and ends with a receipt.
 */
module SubmitClient {
  import opened Archive
  import opened Octets
  import opened Positional
  import opened ProofOfWork
  import opened SubmitServer
  import opened SubmitProtocol

  class Service {
    const cfg: Config
    var db: Table

    constructor (cfg: Config)
      ensures this.cfg == cfg && db == map[]
    {
      this.cfg, db := cfg, map[];
    }

    method Call(r: Request) returns (reply: Reply)
      modifies this
      ensures (db, reply) == Handle(cfg, old(db), r)
    {
      var (after, answer) := Handle(cfg, db, r);
      db, reply := after, answer;
    }
  }

  /** One run, begun on a given table. */
  function Lone(db: Table, data: Bytes): World {
    World(db, [Begin(data)], {})
  }

  /** After n exchanges the lone run is r and the table is db. */
  ghost predicate At(cfg: Config, start: World, n: nat, db: Table, r: Submission) {
    var w := Drive(cfg, start, 0, n);
    w.db == db && w.runs == [r]
  }

  lemma {:induction false} DriveOnce(cfg: Config, w: World, i: nat, n: nat)
    ensures Drive(cfg, w, i, n + 1) == Next(cfg, Drive(cfg, w, i, n), Exchange(i))
    decreases n
  {
    if n > 0 { DriveOnce(cfg, Next(cfg, w, Exchange(i)), i, n - 1); }
  }

  lemma Exchanged(cfg: Config, start: World, n: nat, db: Table, r: Submission)
    requires At(cfg, start, n, db, r) && Active(r)
    ensures var request := RequestOf(cfg, r);
            var (after, reply) := Handle(cfg, db, request);
            At(cfg, start, n + 1, after, Absorb(r, reply, HeldKeys(db, request.sha)))
  {
    DriveOnce(cfg, start, 0, n);
  }

  /** One network call of the run. */
  method Send(service: Service, request: Request, ghost start: World, ghost n: nat, ghost r: Submission)
    returns (reply: Reply, ghost next: Submission)
    requires At(service.cfg, start, n, service.db, r) && Active(r) && request == RequestOf(service.cfg, r)
    modifies service
    ensures (service.db, reply) == Handle(service.cfg, old(service.db), request)
    ensures next == Absorb(r, reply, HeldKeys(old(service.db), request.sha))
    ensures At(service.cfg, start, n + 1, service.db, next)
  {
    Exchanged(service.cfg, start, n, service.db, r);
    next := Absorb(r, Handle(service.cfg, service.db, request).1, HeldKeys(service.db, request.sha));
    reply := service.Call(request);
  }

  predicate ChunksOf(cfg: Config, data: Bytes, chunks: seq<Chunk>) {
    && |chunks| == ChunkCount(|data|, CHUNK_BYTES)
    && forall i :: 0 <= i < |chunks| ==>
         chunks[i] == Chunk(i, Slice(data, CHUNK_BYTES, i), cfg.sha(Slice(data, CHUNK_BYTES, i)))
  }

  /** The declaration the client sends, built from its chunks. */
  function Declared(data: Bytes, chunks: seq<Chunk>): Shape {
    Shape(|data|, CHUNK_BYTES, |chunks|, seq(|chunks|, i requires 0 <= i < |chunks| => chunks[i].hash))
  }

  lemma DeclaredIsShape(cfg: Config, data: Bytes, chunks: seq<Chunk>)
    requires ChunksOf(cfg, data, chunks)
    ensures Declared(data, chunks) == ShapeOf(cfg, data)
  {
    assert Declared(data, chunks).hashes == ShapeOf(cfg, data).hashes;
  }

  lemma ReportedInRange(cfg: Config, db: Table, r: Request)
    requires r.Initiate? && Handle(cfg, db, r).1.Awaiting?
    ensures forall i :: 0 <= i < |Handle(cfg, db, r).1.missing| ==> Handle(cfg, db, r).1.missing[i] < r.shape.count
  {
    var held := if r.sha in db then db[r.sha].chunks else map[];
    var missing := Missing(held, r.shape.count);
    MissingHas(held, r.shape.count);
    forall i | 0 <= i < |missing| ensures missing[i] < r.shape.count { assert missing[i] in missing; }
  }

  /** The search for a nonce ends: digests are hexadecimal, and some nonce meets the difficulty
      demanded in the end. */
  ghost predicate Solvable(cfg: Config, sha: Digest) {
    (forall n: nat :: AllHex(cfg.pow(sha, n))) && exists n: nat :: Meets(Digests(cfg, sha), n, Demand(cfg))
  }

  /** collect_submit.py:103-110 for one archive: the nonce the run sends. */
  method Solve(cfg: Config, sha: Digest, difficulty: nat) returns (nonce: nat)
    requires Solvable(cfg, sha) && Asked(cfg, difficulty)
    ensures nonce == NonceOf(cfg, sha, difficulty) && Meets(Digests(cfg, sha), nonce, difficulty)
  {
    ghost var some: nat :| Meets(Digests(cfg, sha), some, Demand(cfg));
    nonce := SolvePow(Digests(cfg, sha), difficulty, some);
    NonceIs(cfg, sha, difficulty, nonce);
  }

  /** The server has published the archive. */
  predicate Published(cfg: Config, db: Table, data: Bytes) {
    cfg.sha(data) in db && db[cfg.sha(data)].published
  }

  /** One attempt: its nonce and its call. */
  method PostInitiate(service: Service, data: Bytes, chunks: seq<Chunk>, attempt: nat, difficulty: nat,
                      ghost start: World, ghost n: nat, ghost r: Submission)
    returns (reply: Reply, ghost next: Submission)
    requires At(service.cfg, start, n, service.db, r) && r.data == data && r.stage == Initiating(attempt, difficulty)
    requires attempt < 2 && Asked(service.cfg, difficulty)
    requires ChunksOf(service.cfg, data, chunks) && Solvable(service.cfg, service.cfg.sha(data))
    modifies service
    ensures At(service.cfg, start, n + 1, service.db, next) && next.data == data
    ensures reply.PowInvalid? && reply.minimum > difficulty && attempt == 0 ==>
              next.stage == Initiating(1, reply.minimum) && Asked(service.cfg, reply.minimum)
    ensures reply.Awaiting? ==>
              && (forall i :: 0 <= i < |reply.missing| ==> reply.missing[i] < |chunks|)
              && next.reported == reply.missing && next.posted == 0
              && next.stage == if reply.missing == [] then Completing else Posting
    ensures reply.Duplicate? ==> next.stage == Receipt(true) && Published(service.cfg, old(service.db), data)
    ensures !reply.Awaiting? ==> service.db == old(service.db)
    ensures reply.Awaiting? || reply.Duplicate? ==> Acceptable(service.cfg, data)
    ensures !reply.Awaiting? && !reply.Duplicate?
            && !(reply.PowInvalid? && reply.minimum > difficulty && attempt == 0) ==>
              next.stage == SubmitError
  {
    var sha := service.cfg.sha(data);
    DeclaredIsShape(service.cfg, data, chunks);
    var nonce := Solve(service.cfg, sha, difficulty);
    var request := Initiate(sha, Declared(data, chunks), difficulty, nonce);
    ghost var db := service.db;
    reply, next := Send(service, request, start, n, r);
    if reply.Awaiting? { ReportedInRange(service.cfg, db, request); }
  }

  /** collect_submit.py:190-228: at most two attempts, the second at the demanded difficulty. */
  method InitiateUpload(service: Service, data: Bytes, chunks: seq<Chunk>,
                        ghost start: World, ghost n: nat, ghost r: Submission)
    returns (reply: Reply, ghost n': nat, ghost next: Submission)
    requires At(service.cfg, start, n, service.db, r) && r.data == data && r.stage == Initiating(0, POW_DIFFICULTY)
    requires ChunksOf(service.cfg, data, chunks) && Solvable(service.cfg, service.cfg.sha(data))
    modifies service
    ensures At(service.cfg, start, n', service.db, next) && next.data == data
    ensures reply.Awaiting? ==>
              && (forall i :: 0 <= i < |reply.missing| ==> reply.missing[i] < |chunks|)
              && next.reported == reply.missing && next.posted == 0
              && next.stage == if reply.missing == [] then Completing else Posting
    ensures reply.Duplicate? ==> next.stage == Receipt(true) && Published(service.cfg, old(service.db), data)
    ensures !reply.Awaiting? ==> service.db == old(service.db)
    ensures reply.Awaiting? || reply.Duplicate? ==> Acceptable(service.cfg, data)
    ensures !reply.Awaiting? && !reply.Duplicate? ==> next.stage == SubmitError
  {
    var difficulty, attempt := POW_DIFFICULTY, 0;
    n', next := n, r;
    reply := NotFound;
    while attempt < 2
      invariant attempt <= 2 && next.data == data && At(service.cfg, start, n', service.db, next)
      invariant attempt < 2 ==> next.stage == Initiating(attempt, difficulty) && Asked(service.cfg, difficulty)
      invariant attempt == 2 ==> reply.PowInvalid? && next.stage == SubmitError
      invariant service.db == old(service.db)
    {
      reply, next := PostInitiate(service, data, chunks, attempt, difficulty, start, n', next);
      n' := n' + 1;
      if reply.PowInvalid? && reply.minimum > difficulty {
        difficulty, attempt := reply.minimum, attempt + 1;
        continue;
      }
      break;
    }
  }

  /** collect_submit.py:239-253: the reported chunks, in order; false at the first refusal. */
  method PostChunks(service: Service, data: Bytes, chunks: seq<Chunk>, missing: seq<nat>,
                    ghost start: World, ghost n: nat, ghost r: Submission)
    returns (ok: bool, ghost n': nat, ghost next: Submission)
    requires At(service.cfg, start, n, service.db, r) && r.data == data && r.reported == missing && r.posted == 0
    requires r.stage == if missing == [] then Completing else Posting
    requires ChunksOf(service.cfg, data, chunks) && forall i :: 0 <= i < |missing| ==> missing[i] < |chunks|
    modifies service
    ensures At(service.cfg, start, n', service.db, next) && next.data == data
    ensures next.stage == if ok then Completing else SubmitError
  {
    var sha := service.cfg.sha(data);
    var j := 0;
    n', next := n, r;
    while j < |missing|
      invariant j <= |missing| && At(service.cfg, start, n', service.db, next)
      invariant next.data == data && next.reported == missing && next.posted == j
      invariant next.stage == if j < |missing| then Posting else Completing
    {
      var reply;
      reply, next := Send(service, PutChunk(sha, missing[j], chunks[missing[j]].bytes), start, n', next);
      n' := n' + 1;
      if !reply.Accepted? {
        ok := false;
        return;
      }
      j := j + 1;
    }
    ok := true;
  }

  /** A run goes on to look for a nonce unless the archive is too large or published already. */
  predicate Searches(cfg: Config, db: Table, data: Bytes) {
    |data| <= MAX_ARCHIVE_BYTES && !Published(cfg, db, data)
  }

  /** collect_submit.py:153-266.  The receipt or error is the one the protocol's lone run comes
      to.  A receipt says "deduplicated" exactly for an archive that was published before, which
      changes nothing; any other is uploaded and published exactly when it is acceptable, the
      table being genuine. */
  method Submit(service: Service, data: Bytes) returns (stage: Stage, ghost n: nat)
    requires Searches(service.cfg, service.db, data) ==> Solvable(service.cfg, service.cfg.sha(data))
    modifies service
    ensures exists r :: At(service.cfg, Lone(old(service.db), data), n, service.db, r) && r.stage == stage && !Active(r)
    ensures stage == Receipt(true) <==> |data| <= MAX_ARCHIVE_BYTES && Published(service.cfg, old(service.db), data)
    ensures !Searches(service.cfg, old(service.db), data) || !Acceptable(service.cfg, data) ==>
              stage != Receipt(false) && service.db == old(service.db)
    ensures NoCollisions(service.cfg) && Genuine(service.cfg, old(service.db)) ==>
              (stage == Receipt(false) <==>
                 Searches(service.cfg, old(service.db), data) && Acceptable(service.cfg, data))
    ensures NoCollisions(service.cfg) && Genuine(service.cfg, old(service.db)) && Acceptable(service.cfg, data) ==>
              stage.Receipt? && Published(service.cfg, service.db, data)
  {
    ghost var start := Lone(service.db, data);
    ghost var r;
    stage, n, r := Walk(service, data);
    LoneFinishes(service.cfg, start, old(service.db), data, n, service.db, r);
  }

  method Walk(service: Service, data: Bytes) returns (stage: Stage, ghost n: nat, ghost r: Submission)
    requires Searches(service.cfg, service.db, data) ==> Solvable(service.cfg, service.cfg.sha(data))
    modifies service
    ensures At(service.cfg, Lone(old(service.db), data), n, service.db, r)
    ensures r.stage == stage && r.data == data && !Active(r)
    ensures stage == Receipt(true) <==> |data| <= MAX_ARCHIVE_BYTES && Published(service.cfg, old(service.db), data)
    ensures !Searches(service.cfg, old(service.db), data) || !Acceptable(service.cfg, data) ==>
              stage != Receipt(false) && service.db == old(service.db)
    ensures stage.Receipt? || stage == SubmitError
  {
    ghost var start := Lone(service.db, data);
    n, r := 0, Begin(data);
    if |data| > MAX_ARCHIVE_BYTES {
      return SubmitError, n, r;
    }
    var sha := service.cfg.sha(data);
    var chunks := ChunkArchive(data, CHUNK_BYTES, service.cfg.sha);
    var reply;
    reply, r := Send(service, Probe(sha), start, n, r);
    n := n + 1;
    if reply.Duplicate? {
      return Receipt(true), n, r;
    }
    if !reply.NotFound? {
      return SubmitError, n, r;
    }
    stage, n, r := Upload(service, data, chunks, start, n, r);
  }

  /** What follows an archive the server does not have. */
  method Upload(service: Service, data: Bytes, chunks: seq<Chunk>,
                ghost start: World, ghost m: nat, ghost s: Submission)
    returns (stage: Stage, ghost n: nat, ghost r: Submission)
    requires At(service.cfg, start, m, service.db, s) && s.data == data && s.stage == Initiating(0, POW_DIFFICULTY)
    requires ChunksOf(service.cfg, data, chunks) && Solvable(service.cfg, service.cfg.sha(data))
    modifies service
    ensures At(service.cfg, start, n, service.db, r) && r.stage == stage && r.data == data && !Active(r)
    ensures stage == Receipt(true) ==> Published(service.cfg, old(service.db), data)
    ensures !Acceptable(service.cfg, data) ==> stage == SubmitError && service.db == old(service.db)
    ensures stage.Receipt? || stage == SubmitError
  {
    var reply;
    reply, n, r := InitiateUpload(service, data, chunks, start, m, s);
    if reply.Duplicate? {
      return Receipt(true), n, r;
    }
    if !reply.Awaiting? {
      return SubmitError, n, r;
    }
    var ok;
    ok, n, r := PostChunks(service, data, chunks, reply.missing, start, n, r);
    if !ok {
      return SubmitError, n, r;
    }
    stage, r := PostComplete(service, data, start, n, r);
    n := n + 1;
  }

  /** collect_submit.py:249-266: the last call. */
  method PostComplete(service: Service, data: Bytes, ghost start: World, ghost n: nat, ghost r: Submission)
    returns (stage: Stage, ghost next: Submission)
    requires At(service.cfg, start, n, service.db, r) && r.data == data && r.stage == Completing
    modifies service
    ensures At(service.cfg, start, n + 1, service.db, next) && next.stage == stage && next.data == data
    ensures stage == Receipt(false) || stage == SubmitError
  {
    var reply;
    reply, next := Send(service, Complete(service.cfg.sha(data)), start, n, r);
    stage := if reply.Accepted? then Receipt(false) else SubmitError;
  }

  // ----- A lone run ends with a receipt -----

  lemma {:induction false} Resting(cfg: Config, w: World, i: nat, n: nat)
    requires i < |w.runs| && !Active(w.runs[i])
    ensures Drive(cfg, w, i, n) == w
    decreases n
  {
    if n > 0 { Resting(cfg, w, i, n - 1); }
  }

  /** A run comes to rest in one state only. */
  lemma {:induction false} OneRest(cfg: Config, w: World, i: nat, m: nat, n: nat)
    requires i < |Drive(cfg, w, i, m).runs| && !Active(Drive(cfg, w, i, m).runs[i])
    requires i < |Drive(cfg, w, i, n).runs| && !Active(Drive(cfg, w, i, n).runs[i])
    ensures Drive(cfg, w, i, m) == Drive(cfg, w, i, n)
    decreases m
  {
    if m == 0 {
      Resting(cfg, w, i, n);
    } else if n == 0 {
      Resting(cfg, w, i, m);
    } else {
      var next := BothDrive(cfg, w, i, m, n);
      OneRest(cfg, next, i, m - 1, n - 1);
    }
  }

  lemma BothDrive(cfg: Config, w: World, i: nat, m: nat, n: nat) returns (next: World)
    requires m > 0 && n > 0
    ensures Drive(cfg, w, i, m) == Drive(cfg, next, i, m - 1) && Drive(cfg, w, i, n) == Drive(cfg, next, i, n - 1)
  {
    next := Next(cfg, w, Exchange(i));
  }

  lemma {:induction false} DriveIsSafe(cfg: Config, w: World, i: nat, n: nat)
    requires NoCollisions(cfg) && Safe(cfg, w)
    ensures Safe(cfg, Drive(cfg, w, i, n))
    decreases n
  {
    if n > 0 {
      if Enabled(w, Exchange(i)) { StepIsSafe(cfg, w, Exchange(i)); }
      DriveIsSafe(cfg, Next(cfg, w, Exchange(i)), i, n - 1);
    }
  }

  lemma LoneFinishes(cfg: Config, start: World, before: Table, data: Bytes, n: nat, after: Table, r: Submission)
    requires start == Lone(before, data) && At(cfg, start, n, after, r) && !Active(r) && r.data == data
    ensures NoCollisions(cfg) && Genuine(cfg, before) && Acceptable(cfg, data) ==>
              r.stage.Receipt? && cfg.sha(data) in after && after[cfg.sha(data)].published
  {
    if NoCollisions(cfg) && Genuine(cfg, before) && Acceptable(cfg, data) {
      var w := World(before, [], {});
      assert Next(cfg, w, Start(data)) == start;
      var m := ReRunFinishes(cfg, w, data);
      OneRest(cfg, start, 0, m, n);
      StepIsSafe(cfg, w, Start(data));
      DriveIsSafe(cfg, start, 0, n);
      assert RunOk(cfg, after, r);
    }
  }
}
