/**
 The upload endpoints of services/community-data (routes.ts, store.ts, validate.ts) as a
 function on the submissions table, for summaries the server stores unchanged.
 */
module SubmitServer {
  import opened Archive
  import opened Octets
  import opened ProofOfWork

  datatype Stored = Stored(hash: Digest, bytes: Bytes)

  /** What an initiate call declares about the archive. */
  datatype Shape = Shape(total: nat, size: nat, count: nat, hashes: seq<Digest>)

  datatype Row = Row(shape: Shape, published: bool, chunks: map<nat, Stored>)

  type Table = map<Digest, Row>

  datatype Request =
    | Probe(sha: Digest)
    | Initiate(sha: Digest, shape: Shape, difficulty: nat, nonce: nat)
    | PutChunk(sha: Digest, idx: nat, bytes: Bytes)
    | Complete(sha: Digest)

  datatype Reply =
    | NotFound
    | Duplicate
    | PowInvalid(minimum: nat)
    | Awaiting(missing: seq<nat>)
    | Accepted
    | Incomplete(missing: seq<nat>)
    | Rejected

  const MAX_POW_BITS: nat := 64

  /** A nonce has at most 32 digits (pow.ts:26). */
  const NONCE_LIMIT: nat := 100_000_000_000_000_000_000_000_000_000_000

  /** The hash of an archive or chunk, the required zero bits, and the hash of "<sha>:<nonce>". */
  datatype Config = Config(sha: Bytes -> Digest, minBits: nat, pow: (Digest, nat) -> string)

  function Digests(cfg: Config, sha: Digest): nat -> string {
    (nonce: nat) => cfg.pow(sha, nonce)
  }

  /** pow.ts:18-41. */
  predicate PowOk(cfg: Config, sha: Digest, nonce: nat, difficulty: nat) {
    nonce < NONCE_LIMIT && cfg.minBits <= difficulty <= MAX_POW_BITS && Meets(Digests(cfg, sha), nonce, difficulty)
  }

  /** validate.ts:36-68. */
  predicate ShapeAllowed(s: Shape) {
    && 0 < s.total <= MAX_ARCHIVE_BYTES
    && 0 < s.size <= CHUNK_BYTES
    && s.count == ChunkCount(s.total, s.size)
    && s.count <= MAX_CHUNKS
    && |s.hashes| == s.count
  }

  /** In chunks of one byte an archive may have up to eleven bytes, with a hash for each. */
  lemma OneByteChunks(total: nat, hashes: seq<Digest>)
    ensures ShapeAllowed(Shape(total, 1, total, hashes)) <==> 1 <= total <= 11 && |hashes| == total
  {
  }

  /** store.ts:244-255: the indexes below `count` not stored, ascending. */
  function Missing(chunks: map<nat, Stored>, count: nat): seq<nat> {
    if count == 0 then []
    else Missing(chunks, count - 1) + (if count - 1 in chunks then [] else [count - 1])
  }

  lemma {:induction false} MissingHas(chunks: map<nat, Stored>, count: nat)
    ensures forall i: nat :: i in Missing(chunks, count) <==> i < count && i !in chunks
    decreases count
  {
    if count > 0 {
      MissingHas(chunks, count - 1);
      var m, last := Missing(chunks, count - 1), count - 1;
      assert forall i :: i in Missing(chunks, count) <==> i in m || (i == last && last !in chunks);
    }
  }

  lemma {:induction false} MissingAscends(chunks: map<nat, Stored>, count: nat)
    ensures forall i, j :: 0 <= i < j < |Missing(chunks, count)| ==>
              Missing(chunks, count)[i] < Missing(chunks, count)[j]
    decreases count
  {
    if count > 0 {
      MissingAscends(chunks, count - 1);
      MissingHas(chunks, count - 1);
      var m := Missing(chunks, count - 1);
      assert forall i :: 0 <= i < |m| ==> m[i] in m;
    }
  }

  /** routes.ts:76-237. */
  function HandleInitiate(cfg: Config, db: Table, r: Request): (Table, Reply)
    requires r.Initiate?
  {
    if !ShapeAllowed(r.shape) then (db, Rejected)
    else if !PowOk(cfg, r.sha, r.nonce, r.difficulty) then (db, PowInvalid(cfg.minBits))
    else if r.sha in db then
      var row := db[r.sha];
      if row.published then (db, Duplicate)
      else if (row.shape.total, row.shape.size, row.shape.count) != (r.shape.total, r.shape.size, r.shape.count)
      then (db, Rejected)
      else (db, Awaiting(Missing(row.chunks, r.shape.count)))
    else (db[r.sha := Row(r.shape, false, map[])], Awaiting(Missing(map[], r.shape.count)))
  }

  /** routes.ts:239-281 with store.ts:261-284. */
  function HandleChunk(cfg: Config, db: Table, r: Request): (Table, Reply)
    requires r.PutChunk?
  {
    if r.sha !in db then (db, NotFound)
    else
      var row := db[r.sha];
      if row.published || r.idx >= row.shape.count || |r.bytes| > CHUNK_BYTES then (db, Rejected)
      else if |r.bytes| != ExpectedLength(row.shape.total, row.shape.size, r.idx) then (db, Rejected)
      else if r.idx < |row.shape.hashes| && row.shape.hashes[r.idx] != cfg.sha(r.bytes) then (db, Rejected)
      else if r.idx !in row.chunks then
        (db[r.sha := row.(chunks := row.chunks[r.idx := Stored(cfg.sha(r.bytes), r.bytes)])], Accepted)
      else if row.chunks[r.idx].hash == cfg.sha(r.bytes) then (db, Accepted)
      else (db, Rejected)
  }

  /** routes.ts:283-341 with store.ts:292-329. */
  function HandleComplete(db: Table, r: Request): (Table, Reply)
    requires r.Complete?
  {
    if r.sha !in db then (db, NotFound)
    else
      var row := db[r.sha];
      if row.published then (db, Accepted)
      else if Missing(row.chunks, |row.shape.hashes|) != [] then
        (db, Incomplete(Missing(row.chunks, |row.shape.hashes|)))
      else if exists i :: i in row.chunks && (i >= |row.shape.hashes| || row.shape.hashes[i] != row.chunks[i].hash)
      then (db, Rejected)
      else (db[r.sha := row.(published := true)], Accepted)
  }

  function Handle(cfg: Config, db: Table, r: Request): (Table, Reply) {
    match r
    case Probe(sha) => (db, if sha in db && db[sha].published then Duplicate else NotFound)
    case Initiate(_, _, _, _) => HandleInitiate(cfg, db, r)
    case PutChunk(_, _, _) => HandleChunk(cfg, db, r)
    case Complete(_) => HandleComplete(db, r)
  }

  // ----- What the table may hold -----

  /** Different byte strings have different digests. */
  ghost predicate NoCollisions(cfg: Config) {
    forall x: Bytes, y: Bytes :: cfg.sha(x) == cfg.sha(y) ==> x == y
  }

  /** The shape a client declares for `data` (collect_submit.py:194-199). */
  function ShapeOf(cfg: Config, data: Bytes): (s: Shape)
    ensures s.count == |s.hashes|
  {
    var n := ChunkCount(|data|, CHUNK_BYTES);
    Shape(|data|, CHUNK_BYTES, n, Hashes(cfg.sha, Slices(data, CHUNK_BYTES, n)))
  }

  ghost predicate Fits(cfg: Config, row: Row, data: Bytes) {
    && row.shape == ShapeOf(cfg, data)
    && (forall i :: i in row.chunks ==>
          i < row.shape.count
          && row.chunks[i] == Stored(cfg.sha(Slice(data, CHUNK_BYTES, i)), Slice(data, CHUNK_BYTES, i)))
    && (row.published ==> forall i :: 0 <= i < row.shape.count ==> i in row.chunks)
  }

  /** Every row holds slices of the archive its key is the digest of. */
  ghost predicate Genuine(cfg: Config, db: Table) {
    forall sha, data :: sha in db && cfg.sha(data) == sha ==> Fits(cfg, db[sha], data)
  }

  /** A declaration is the shape of the archive it names. */
  ghost predicate Declares(cfg: Config, sha: Digest, shape: Shape) {
    forall data :: cfg.sha(data) == sha ==> shape == ShapeOf(cfg, data)
  }

  /** An initiate call declares the archive it names.  Chunk bodies are unrestricted, so damaged
      or foreign bytes are included. */
  ghost predicate Honest(cfg: Config, r: Request) {
    r.Initiate? ==> Declares(cfg, r.sha, r.shape)
  }

  /** Is this the first accepted initiate call for its key? */
  predicate MakesRow(cfg: Config, db: Table, r: Request) {
    r.Initiate? && r.sha !in db && ShapeAllowed(r.shape) && PowOk(cfg, r.sha, r.nonce, r.difficulty)
  }

  /** Of all requests exactly a first initiate call with a false declaration makes a row that is
      not its archive's. */
  lemma HandleKeepsGenuineIff(cfg: Config, db: Table, r: Request)
    requires NoCollisions(cfg) && Genuine(cfg, db)
    ensures Genuine(cfg, Handle(cfg, db, r).0) <==> (MakesRow(cfg, db, r) ==> Declares(cfg, r.sha, r.shape))
  {
    var db' := Handle(cfg, db, r).0;
    if MakesRow(cfg, db, r) && !Declares(cfg, r.sha, r.shape) {
      var data :| cfg.sha(data) == r.sha && r.shape != ShapeOf(cfg, data);
      assert !Fits(cfg, db'[r.sha], data);
    } else {
      forall sha, data | sha in db' && cfg.sha(data) == sha ensures Fits(cfg, db'[sha], data) {
        if sha in db { assert Fits(cfg, db[sha], data); }
        if sha == r.sha { RowKeepsFitting(cfg, db, r, data); }
      }
    }
  }

  lemma RowKeepsFitting(cfg: Config, db: Table, r: Request, data: Bytes)
    requires NoCollisions(cfg) && cfg.sha(data) == r.sha
    requires MakesRow(cfg, db, r) ==> Declares(cfg, r.sha, r.shape)
    requires r.sha in db ==> Fits(cfg, db[r.sha], data)
    requires r.sha in Handle(cfg, db, r).0
    ensures Fits(cfg, Handle(cfg, db, r).0[r.sha], data)
  {
    match r
    case Probe(_) =>
    case Initiate(_, _, _, _) =>
    case PutChunk(sha, idx, bytes) => {
      if sha in db && idx < |db[sha].shape.hashes| {
        // the declared hash pins the bytes
        assert db[sha].shape.hashes[idx] == cfg.sha(Slice(data, CHUNK_BYTES, idx));
      }
    }
    case Complete(sha) =>
      if sha in db { MissingHas(db[sha].chunks, |db[sha].shape.hashes|); }
  }

  /** Handling a request never loses a chunk, a row or a publication. */
  ghost predicate Grows(before: Table, after: Table) {
    forall sha :: sha in before ==>
      && sha in after && after[sha].shape == before[sha].shape
      && (before[sha].published ==> after[sha] == before[sha])
      && (forall i :: i in before[sha].chunks ==>
            i in after[sha].chunks && after[sha].chunks[i] == before[sha].chunks[i])
  }

  lemma HandleGrows(cfg: Config, db: Table, r: Request)
    ensures Grows(db, Handle(cfg, db, r).0)
  {
  }

  predicate Full(row: Row) {
    forall i :: 0 <= i < row.shape.count ==> i in row.chunks
  }

  /** The stored chunks in order. */
  function Pieces(row: Row): (ps: seq<Bytes>)
    requires Full(row)
    ensures |ps| == row.shape.count
  {
    seq(row.shape.count, i requires 0 <= i < row.shape.count => row.chunks[i].bytes)
  }

  /** A published row's chunks, in order, are the archive. */
  lemma PublishedIsArchive(cfg: Config, row: Row, data: Bytes)
    requires Fits(cfg, row, data) && row.published
    ensures Full(row) && Join(Pieces(row)) == data
  {
    assert Pieces(row) == Slices(data, CHUNK_BYTES, row.shape.count);
    JoinAll(data, CHUNK_BYTES);
  }

  /** What a reply says is true of the table after it; what is refused changes nothing. */
  lemma RepliesAreTrue(cfg: Config, db: Table, r: Request)
    ensures var (after, reply) := Handle(cfg, db, r);
            match reply
            case Awaiting(missing) =>
              && r.sha in after && !after[r.sha].published
              && missing == Missing(after[r.sha].chunks, after[r.sha].shape.count)
            case Incomplete(missing) =>
              && r.sha in after && !after[r.sha].published && missing != []
              && missing == Missing(after[r.sha].chunks, |after[r.sha].shape.hashes|)
            case Duplicate => after == db && r.sha in db && db[r.sha].published
            case NotFound => after == db && (r.sha in db ==> r.Probe? && !db[r.sha].published)
            case Accepted =>
              && r.sha in after
              && (r.Complete? ==> after[r.sha].published)
              && (r.PutChunk? ==>
                    r.idx in after[r.sha].chunks && after[r.sha].chunks[r.idx].hash == cfg.sha(r.bytes))
            case _ => after == db
  {
  }

  // ----- Whatever is declared -----

  /** A row holds what its own declaration says, whoever made it. */
  ghost predicate Consistent(cfg: Config, row: Row) {
    && ShapeAllowed(row.shape)
    && (forall i :: i in row.chunks ==>
          && i < row.shape.count
          && row.chunks[i].hash == cfg.sha(row.chunks[i].bytes) == row.shape.hashes[i]
          && |row.chunks[i].bytes| == ExpectedLength(row.shape.total, row.shape.size, i))
    && (row.published ==> Full(row))
  }

  ghost predicate AllConsistent(cfg: Config, db: Table) {
    forall sha :: sha in db ==> Consistent(cfg, db[sha])
  }

  /** Every request at all, false declarations included, keeps every row true to its own
      declaration. */
  lemma HandleKeepsConsistent(cfg: Config, db: Table, r: Request)
    requires AllConsistent(cfg, db)
    ensures AllConsistent(cfg, Handle(cfg, db, r).0)
  {
    var db' := Handle(cfg, db, r).0;
    forall sha | sha in db' ensures Consistent(cfg, db'[sha]) {
      if sha in db && db'[sha] != db[sha] {
        assert Consistent(cfg, db[sha]);
        if r.Complete? { MissingHas(db[sha].chunks, |db[sha].shape.hashes|); }
      }
    }
  }

  /** A published row joins to an archive exactly when its declaration, with the size it was
      made for, was the archive's. */
  lemma PublishedIsArchiveIff(cfg: Config, row: Row, data: Bytes)
    requires NoCollisions(cfg) && Consistent(cfg, row) && row.published
    ensures Join(Pieces(row)) == data <==>
            && row.shape.total == |data|
            && row.shape.hashes == Hashes(cfg.sha, Slices(data, row.shape.size, row.shape.count))
  {
    var total, size, pieces := row.shape.total, row.shape.size, Pieces(row);
    HashesAreOfPieces(cfg, row);
    CountCovers(total, size);
    SlicesOfJoin(pieces, total, size);
    if total == |data| && row.shape.hashes == Hashes(cfg.sha, Slices(data, size, row.shape.count)) {
      SameHashes(cfg, pieces, Slices(data, size, row.shape.count));
      JoinAll(data, size);
    }
  }

  lemma Replaced(sha: Digest, before: Row, after: Row)
    ensures map[sha := before][sha := after] == map[sha := after]
  {
  }

  /** A false declaration is served: the key of [7], initiated with the shape of [8], takes the
      chunk [8] and is published. */
  lemma FalseDeclaration(cfg: Config, nonce: nat, difficulty: nat)
    requires PowOk(cfg, cfg.sha([7]), nonce, difficulty)
    ensures var sha := cfg.sha([7]);
            var (db1, reply1) := Handle(cfg, map[], Initiate(sha, ShapeOf(cfg, [8]), difficulty, nonce));
            var (db2, reply2) := Handle(cfg, db1, PutChunk(sha, 0, [8]));
            var (db3, reply3) := Handle(cfg, db2, Complete(sha));
            && reply1 == Awaiting([0]) && reply2 == Accepted && reply3 == Accepted
            && sha in db3 && db3[sha].published && Full(db3[sha]) && Join(Pieces(db3[sha])) == [8] != [7]
  {
    var data: Bytes, sha := [8], cfg.sha([7]);
    var shape := ShapeOf(cfg, data);
    assert ChunkCount(1, CHUNK_BYTES) == 1 && Slice(data, CHUNK_BYTES, 0) == data;
    assert shape == Shape(1, CHUNK_BYTES, 1, [cfg.sha(data)]);
    var none: map<nat, Stored> := map[];
    assert Missing(none, 0) == [] && Missing(none, 1) == [0];
    var row1 := Row(shape, false, none);
    assert Handle(cfg, map[], Initiate(sha, shape, difficulty, nonce)) == (map[sha := row1], Awaiting([0]));
    var row2 := Row(shape, false, map[0 := Stored(cfg.sha(data), data)]);
    assert ExpectedLength(1, CHUNK_BYTES, 0) == 1;
    Replaced(sha, row1, row2);
    assert row1.(chunks := none[0 := Stored(cfg.sha(data), data)]) == row2;
    assert Handle(cfg, map[sha := row1], PutChunk(sha, 0, data)) == (map[sha := row2], Accepted);
    assert Missing(row2.chunks, 0) == [] && Missing(row2.chunks, 1) == [];
    var row3 := row2.(published := true);
    Replaced(sha, row2, row3);
    assert forall i :: i in row2.chunks ==> i == 0;
    assert Handle(cfg, map[sha := row2], Complete(sha)) == (map[sha := row3], Accepted);
    assert Pieces(row3) == [data];
    assert Join([data]) == data;
  }

  lemma HashesAreOfPieces(cfg: Config, row: Row)
    requires Consistent(cfg, row) && row.published
    ensures row.shape.hashes == Hashes(cfg.sha, Pieces(row))
  {
    var pieces := Pieces(row);
    forall i | 0 <= i < row.shape.count ensures row.shape.hashes[i] == cfg.sha(pieces[i]) { assert i in row.chunks; }
  }

  lemma SameHashes(cfg: Config, a: seq<Bytes>, b: seq<Bytes>)
    requires NoCollisions(cfg) && Hashes(cfg.sha, a) == Hashes(cfg.sha, b)
    ensures a == b
  {
    assert |a| == |b|;
    forall i | 0 <= i < |a| ensures a[i] == b[i] {
      assert Hashes(cfg.sha, a)[i] == cfg.sha(a[i]) && Hashes(cfg.sha, b)[i] == cfg.sha(b[i]);
    }
  }

  /** The documented answer to a chunk posted again, success, is given exactly until the
      archive is published; afterwards the server refuses it. */
  lemma RepostIff(cfg: Config, db: Table, sha: Digest, i: nat)
    requires sha in db && Consistent(cfg, db[sha]) && i in db[sha].chunks
    ensures var (after, reply) := HandleChunk(cfg, db, PutChunk(sha, i, db[sha].chunks[i].bytes));
            && after == db
            && (reply == Accepted <==> !db[sha].published)
            && (reply == Rejected <==> db[sha].published)
  {
  }

  /** The one-byte archive [7], published, and its only chunk posted again. */
  lemma RepostRefused(cfg: Config)
    ensures var data: Bytes := [7];
            var sha := cfg.sha(data);
            var row := Row(ShapeOf(cfg, data), true, map[0 := Stored(sha, data)]);
            && Consistent(cfg, row)
            && HandleChunk(cfg, map[sha := row], PutChunk(sha, 0, data)).1 == Rejected
  {
    var data: Bytes := [7];
    assert ChunkCount(1, CHUNK_BYTES) == 1;
    assert Slice(data, CHUNK_BYTES, 0) == data;
    assert ShapeOf(cfg, data).hashes == [cfg.sha(data)];
  }
}
