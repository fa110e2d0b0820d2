/**
 The per-subset tallies, latency percentiles and transcript merge of corpus/score.py.
 Text normalisation is a parameter: a function from text to its list of words.
 */
module Scoring {
  import opened Wrappers
  import EditDistance

  type Word = string

  datatype Sample = Sample(utt: string, subset: string, reference: string)

  /** One transcript row; `hypothesis` and `latency` may be absent or null. */
  datatype Row = Row(utt: string, hypothesis: Option<string>, latency: Option<real>)

  // ----- Reference table -----

  /** Python dict insertion: an existing key keeps its place and takes the new value. */
  function Put(refs: seq<Sample>, s: Sample): seq<Sample> {
    if refs == [] then [s]
    else if refs[0].utt == s.utt then [s] + refs[1..]
    else [refs[0]] + Put(refs[1..], s)
  }

  /** corpus/score.py:70. */
  function Refs(samples: seq<Sample>): seq<Sample> {
    if samples == [] then [] else Put(Refs(samples[..|samples| - 1]), samples[|samples| - 1])
  }

  predicate Distinct(refs: seq<Sample>) {
    forall i, j :: 0 <= i < j < |refs| ==> refs[i].utt != refs[j].utt
  }

  lemma {:induction false} PutHas(refs: seq<Sample>, s: Sample)
    requires Distinct(refs)
    ensures forall x :: x in Put(refs, s) <==> x == s || (x in refs && x.utt != s.utt)
    decreases |refs|
  {
    if refs != [] {
      var rest := refs[1..];
      assert forall x :: x in refs <==> x == refs[0] || x in rest;
      assert forall x :: x in rest ==> x.utt != refs[0].utt;
      PutHas(rest, s);
    }
  }

  lemma {:induction false} PutDistinct(refs: seq<Sample>, s: Sample)
    requires Distinct(refs)
    ensures Distinct(Put(refs, s))
    ensures forall x :: x in Put(refs, s) <==> x == s || (x in refs && x.utt != s.utt)
    decreases |refs|
  {
    PutHas(refs, s);
    if refs != [] {
      PutHas(refs[1..], s);
      PutDistinct(refs[1..], s);
    }
  }

  ghost predicate LastOfItsKey(samples: seq<Sample>, x: Sample) {
    exists i :: 0 <= i < |samples| && samples[i] == x && forall j :: i < j < |samples| ==> samples[j].utt != x.utt
  }

  lemma LastOfMore(front: seq<Sample>, s: Sample, x: Sample)
    ensures LastOfItsKey(front + [s], x) <==> x == s || (LastOfItsKey(front, x) && x.utt != s.utt)
  {
    var samples := front + [s];
    if LastOfItsKey(samples, x) && x != s {
      var i :| 0 <= i < |samples| && samples[i] == x && forall j :: i < j < |samples| ==> samples[j].utt != x.utt;
      assert front[i] == x && samples[|front|].utt != x.utt;
      forall j | i < j < |front| ensures front[j].utt != x.utt { assert samples[j].utt != x.utt; }
    }
    if LastOfItsKey(front, x) && x.utt != s.utt {
      var i :| 0 <= i < |front| && front[i] == x && forall j :: i < j < |front| ==> front[j].utt != x.utt;
      assert samples[i] == x;
    }
    assert samples[|front|] == s;
  }

  /** Every clip is scored once, with the last manifest entry given for it. */
  lemma {:induction false} RefsKeepLast(samples: seq<Sample>)
    ensures Distinct(Refs(samples))
    ensures forall x :: x in Refs(samples) <==> LastOfItsKey(samples, x)
    decreases |samples|
  {
    if samples != [] {
      var front, s := samples[..|samples| - 1], samples[|samples| - 1];
      RefsKeepLast(front);
      PutDistinct(Refs(front), s);
      assert samples == front + [s];
      forall x ensures x in Refs(samples) <==> LastOfItsKey(samples, x) { LastOfMore(front, s, x); }
    }
  }

  // ----- Tallies -----

  datatype Bucket = Bucket(n: nat, scored: nat, refWords: nat, edits: nat, empty: nat, errors: nat,
                           latencies: seq<real>)

  const EMPTY := Bucket(0, 0, 0, 0, 0, 0, [])

  datatype Scorer = Scorer(rows: map<string, Row>, words: string -> seq<Word>) {

    predicate Refused(s: Sample) {
      s.utt !in rows || rows[s.utt].hypothesis.None?
    }

    function RefWords(s: Sample): seq<Word> {
      words(s.reference)
    }

    /** A missing transcript reads as no words. */
    function HypWords(s: Sample): seq<Word> {
      if Refused(s) then [] else words(rows[s.utt].hypothesis.value)
    }

    function Latency(s: Sample): seq<real> {
      if Refused(s) || rows[s.utt].latency.None? then [] else [rows[s.utt].latency.value]
    }
  }

  function Flag(b: bool): nat {
    if b then 1 else 0
  }

  /** What a bucket counts. */
  datatype Measure = Clips | Scored | Refusals | ReferenceWords | WordEdits | EmptyTranscripts

  function Amount(m: Measure, c: Sample, sc: Scorer): nat {
    match m
    case Clips => 1
    case Scored => Flag(!sc.Refused(c))
    case Refusals => Flag(sc.Refused(c))
    case ReferenceWords => |sc.RefWords(c)|
    case WordEdits => EditDistance.Dist(sc.RefWords(c), sc.HypWords(c))
    case EmptyTranscripts => Flag(!sc.Refused(c) && sc.HypWords(c) == [])
  }

  /** Sum of a measure over the clips of one subset. */
  function Total(m: Measure, clips: seq<Sample>, subset: string, sc: Scorer): nat {
    if clips == [] then 0
    else
      var c := clips[|clips| - 1];
      Total(m, clips[..|clips| - 1], subset, sc) + (if c.subset == subset then Amount(m, c, sc) else 0)
  }

  function Latencies(clips: seq<Sample>, subset: string, sc: Scorer): seq<real> {
    if clips == [] then []
    else
      var c := clips[|clips| - 1];
      Latencies(clips[..|clips| - 1], subset, sc) + (if c.subset == subset then sc.Latency(c) else [])
  }

  function Tally(clips: seq<Sample>, subset: string, sc: Scorer): Bucket {
    Bucket(Total(Clips, clips, subset, sc), Total(Scored, clips, subset, sc),
           Total(ReferenceWords, clips, subset, sc), Total(WordEdits, clips, subset, sc),
           Total(EmptyTranscripts, clips, subset, sc), Total(Refusals, clips, subset, sc),
           Latencies(clips, subset, sc))
  }

  ghost predicate Occurs(clips: seq<Sample>, subset: string) {
    exists c :: c in clips && c.subset == subset
  }

  lemma {:induction false} NoClips(m: Measure, clips: seq<Sample>, subset: string, sc: Scorer)
    requires !Occurs(clips, subset)
    ensures Total(m, clips, subset, sc) == 0 && Latencies(clips, subset, sc) == []
    decreases |clips|
  {
    if clips != [] {
      assert clips[|clips| - 1] in clips;
      NoClips(m, clips[..|clips| - 1], subset, sc);
    }
  }

  lemma NothingYet(clips: seq<Sample>, subset: string, sc: Scorer)
    requires !Occurs(clips, subset)
    ensures Tally(clips, subset, sc) == EMPTY
  {
    forall m: Measure ensures Total(m, clips, subset, sc) == 0 && Latencies(clips, subset, sc) == [] {
      NoClips(m, clips, subset, sc);
    }
  }

  /** One more clip changes its own subset only. */
  lemma TallyMore(before: seq<Sample>, c: Sample, subset: string, sc: Scorer)
    ensures Tally(before + [c], subset, sc) ==
            if c.subset == subset then Plus(Tally(before, subset, sc), c, sc) else Tally(before, subset, sc)
  {
    var all := before + [c];
    assert all[..|all| - 1] == before && all[|all| - 1] == c;
    assert forall m: Measure :: Total(m, all, subset, sc) ==
                                Total(m, before, subset, sc) + (if c.subset == subset then Amount(m, c, sc) else 0);
  }

  lemma OccursMore(before: seq<Sample>, c: Sample, subset: string)
    ensures Occurs(before + [c], subset) <==> Occurs(before, subset) || c.subset == subset
  {
    var all := before + [c];
    assert c in all && forall x :: x in before ==> x in all;
  }

  /** `out` holds the tally of every subset that occurs, and nothing else. */
  ghost predicate ScoredBy(out: map<string, Bucket>, clips: seq<Sample>, sc: Scorer) {
    && (forall s :: s in out <==> Occurs(clips, s))
    && (forall s :: s in out ==> out[s] == Tally(clips, s, sc))
  }

  lemma ScoredNext(out: map<string, Bucket>, before: seq<Sample>, c: Sample, sc: Scorer, b: Bucket)
    requires ScoredBy(out, before, sc)
    requires b == Plus(if c.subset in out then out[c.subset] else EMPTY, c, sc)
    ensures ScoredBy(out[c.subset := b], before + [c], sc)
  {
    if c.subset !in out { NothingYet(before, c.subset, sc); }
    forall s ensures
        (Occurs(before + [c], s) <==> s in out || s == c.subset)
        && Tally(before + [c], s, sc) ==
           (if s == c.subset then Plus(Tally(before, s, sc), c, sc) else Tally(before, s, sc))
    {
      TallyMore(before, c, s, sc);
      OccursMore(before, c, s);
    }
  }

  lemma ScoredMore(out: map<string, Bucket>, clips: seq<Sample>, i: nat, sc: Scorer, b: Bucket)
    requires i < |clips| && ScoredBy(out, clips[..i], sc)
    requires b == Plus(if clips[i].subset in out then out[clips[i].subset] else EMPTY, clips[i], sc)
    ensures ScoredBy(out[clips[i].subset := b], clips[..i + 1], sc)
  {
    ScoredNext(out, clips[..i], clips[i], sc, b);
    assert clips[..i + 1] == clips[..i] + [clips[i]];
  }

  /** corpus/score.py:69-89. */
  method Score(samples: seq<Sample>, sc: Scorer) returns (out: map<string, Bucket>)
    ensures ScoredBy(out, Refs(samples), sc)
  {
    var clips := Refs(samples);
    out := map[];
    var i := 0;
    while i < |clips|
      invariant i <= |clips|
      invariant ScoredBy(out, clips[..i], sc)
    {
      var c := clips[i];
      var b := AddClip(if c.subset in out then out[c.subset] else EMPTY, c, sc);
      ScoredMore(out, clips, i, sc, b);
      out := out[c.subset := b];
      i := i + 1;
    }
    assert clips[..i] == clips;
  }

  function Plus(b: Bucket, c: Sample, sc: Scorer): Bucket {
    Bucket(b.n + Amount(Clips, c, sc), b.scored + Amount(Scored, c, sc),
           b.refWords + Amount(ReferenceWords, c, sc), b.edits + Amount(WordEdits, c, sc),
           b.empty + Amount(EmptyTranscripts, c, sc), b.errors + Amount(Refusals, c, sc),
           b.latencies + sc.Latency(c))
  }

  /** The body of the loop: one clip joins its bucket. */
  method AddClip(b: Bucket, c: Sample, sc: Scorer) returns (r: Bucket)
    ensures r == Plus(b, c, sc)
  {
    r := b.(n := b.n + 1);
    var ref := sc.words(c.reference);
    if c.utt !in sc.rows || sc.rows[c.utt].hypothesis.None? {
      EditDistance.RefusedCost(ref);
      r := r.(errors := r.errors + 1, refWords := r.refWords + |ref|, edits := r.edits + |ref|);
      return;
    }
    var hyp := sc.words(sc.rows[c.utt].hypothesis.value);
    var cost := EditDistance.Edits(ref, hyp);
    r := r.(scored := r.scored + 1, refWords := r.refWords + |ref|, edits := r.edits + cost);
    r := r.(empty := r.empty + Flag(hyp == []));
    if sc.rows[c.utt].latency.Some? {
      r := r.(latencies := r.latencies + [sc.rows[c.utt].latency.value]);
    }
  }

  /** In every bucket each clip is either scored or an error, and no counter runs ahead of it. */
  lemma {:induction false} Conserved(clips: seq<Sample>, subset: string, sc: Scorer)
    ensures var b := Tally(clips, subset, sc);
            && b.n == b.scored + b.errors
            && b.empty <= b.scored && |b.latencies| <= b.scored
    decreases |clips|
  {
    if clips != [] { Conserved(clips[..|clips| - 1], subset, sc); }
  }

  // ----- What the counters mean -----

  /** The denominator of the word error rate does not depend on the transcripts. */
  lemma {:induction false} ReferenceWordsFixed(clips: seq<Sample>, subset: string, sc: Scorer, rows: map<string, Row>)
    ensures Total(ReferenceWords, clips, subset, sc) == Total(ReferenceWords, clips, subset, sc.(rows := rows))
    ensures Total(Clips, clips, subset, sc) == Total(Clips, clips, subset, sc.(rows := rows))
    decreases |clips|
  {
    if clips != [] { ReferenceWordsFixed(clips[..|clips| - 1], subset, sc, rows); }
  }

  /** In a bucket of refusals every clip is an error and every reference word an edit. */
  lemma {:induction false} AllRefused(clips: seq<Sample>, subset: string, sc: Scorer)
    requires forall c :: c in clips && c.subset == subset ==> sc.Refused(c)
    ensures var b := Tally(clips, subset, sc);
            b.errors == b.n && b.edits == b.refWords && b.scored == b.empty == 0 && b.latencies == []
    decreases |clips|
  {
    if clips != [] {
      var c := clips[|clips| - 1];
      assert c in clips;
      EditDistance.RefusedCost(sc.RefWords(c));
      AllRefused(clips[..|clips| - 1], subset, sc);
    }
  }

  /** A transcript that is not refused and has the reference's words, or a refusal of nothing. */
  predicate Perfect(c: Sample, sc: Scorer) {
    sc.RefWords(c) == sc.HypWords(c)
  }

  /** A bucket has no edits exactly when every clip's transcript has the reference's words. */
  lemma {:induction false} NoEditsIff(clips: seq<Sample>, subset: string, sc: Scorer)
    ensures Tally(clips, subset, sc).edits == 0 <==> forall c :: c in clips && c.subset == subset ==> Perfect(c, sc)
    decreases |clips|
  {
    if clips != [] {
      var front, c := clips[..|clips| - 1], clips[|clips| - 1];
      NoEditsIff(front, subset, sc);
      EditDistance.ZeroIffEqual(sc.RefWords(c), sc.HypWords(c));
      assert clips == front + [c];
    }
  }

  /** It has no errors exactly when no clip is refused, and no empty transcripts exactly when
      every clip that is not refused has a word. */
  lemma {:induction false} NoErrorsIff(clips: seq<Sample>, subset: string, sc: Scorer)
    ensures Tally(clips, subset, sc).errors == 0 <==> forall c :: c in clips && c.subset == subset ==> !sc.Refused(c)
    ensures Tally(clips, subset, sc).empty == 0 <==>
            forall c :: c in clips && c.subset == subset && !sc.Refused(c) ==> sc.HypWords(c) != []
    decreases |clips|
  {
    if clips != [] {
      var front, c := clips[..|clips| - 1], clips[|clips| - 1];
      NoErrorsIff(front, subset, sc);
      assert clips == front + [c];
    }
  }

  /** What one clip adds: its own amounts. */
  lemma OneClip(c: Sample, sc: Scorer)
    ensures Tally([c], c.subset, sc) ==
            if c.utt in sc.rows && sc.rows[c.utt].hypothesis.Some? then
              var ref, hyp := sc.words(c.reference), sc.words(sc.rows[c.utt].hypothesis.value);
              var latency := sc.rows[c.utt].latency;
              Bucket(1, 1, |ref|, EditDistance.Dist(ref, hyp), if hyp == [] then 1 else 0, 0,
                     if latency.Some? then [latency.value] else [])
            else
              Bucket(1, 0, |sc.words(c.reference)|, |sc.words(c.reference)|, 0, 1, [])
  {
    TallyMore([], c, c.subset, sc);
    assert [] + [c] == [c];
    EditDistance.RefusedCost(sc.words(c.reference));
  }

  function Sum(a: Bucket, b: Bucket): Bucket {
    Bucket(a.n + b.n, a.scored + b.scored, a.refWords + b.refWords, a.edits + b.edits, a.empty + b.empty,
           a.errors + b.errors, a.latencies + b.latencies)
  }

  /** A bucket is what its clips add up to, in any division of the clips. */
  lemma {:induction false} TallyAdds(a: seq<Sample>, b: seq<Sample>, subset: string, sc: Scorer)
    ensures Tally(a + b, subset, sc) == Sum(Tally(a, subset, sc), Tally(b, subset, sc))
    decreases |b|
  {
    if b == [] {
      assert a + b == a;
    } else {
      var front, c := b[..|b| - 1], b[|b| - 1];
      TallyAdds(a, front, subset, sc);
      TallyMore(a + front, c, subset, sc);
      TallyMore(front, c, subset, sc);
      SumPlus(Tally(a, subset, sc), Tally(front, subset, sc), c, sc);
      assert a + b == a + front + [c] && b == front + [c];
    }
  }

  lemma SumPlus(a: Bucket, b: Bucket, c: Sample, sc: Scorer)
    ensures Sum(a, Plus(b, c, sc)) == Plus(Sum(a, b), c, sc)
  {
    assert a.latencies + (b.latencies + sc.Latency(c)) == a.latencies + b.latencies + sc.Latency(c);
  }

  // ----- Percentiles -----

  function CountAtMost(xs: seq<real>, v: real): nat {
    if xs == [] then 0 else CountAtMost(xs[1..], v) + Flag(xs[0] <= v)
  }

  predicate Ascending(xs: seq<real>) {
    forall i, j :: 0 <= i < j < |xs| ==> xs[i] <= xs[j]
  }

  function InsertInto(x: real, xs: seq<real>): seq<real> {
    if xs == [] || x <= xs[0] then [x] + xs else [xs[0]] + InsertInto(x, xs[1..])
  }

  function Sort(xs: seq<real>): seq<real> {
    if xs == [] then [] else InsertInto(xs[0], Sort(xs[1..]))
  }

  lemma {:induction false} InsertIntoKeeps(x: real, xs: seq<real>, v: real)
    requires Ascending(xs)
    ensures Ascending(InsertInto(x, xs)) && |InsertInto(x, xs)| == |xs| + 1
    ensures CountAtMost(InsertInto(x, xs), v) == CountAtMost(xs, v) + Flag(x <= v)
    ensures forall y :: y in InsertInto(x, xs) <==> y == x || y in xs
    decreases |xs|
  {
    if xs == [] || x <= xs[0] {
      assert ([x] + xs)[1..] == xs;
    } else {
      InsertIntoKeeps(x, xs[1..], v);
      var rest := InsertInto(x, xs[1..]);
      assert ([xs[0]] + rest)[1..] == rest;
      assert xs == [xs[0]] + xs[1..];
      forall y | y in rest ensures xs[0] <= y { if y != x { assert y in xs[1..]; } }
    }
  }

  lemma {:induction false} SortKeeps(xs: seq<real>, v: real)
    ensures Ascending(Sort(xs)) && |Sort(xs)| == |xs|
    ensures CountAtMost(Sort(xs), v) == CountAtMost(xs, v)
    ensures forall y :: y in Sort(xs) <==> y in xs
    decreases |xs|
  {
    if xs != [] {
      SortKeeps(xs[1..], v);
      InsertIntoKeeps(xs[0], Sort(xs[1..]), v);
      assert xs == [xs[0]] + xs[1..];
    }
  }

  /** In an ascending list exactly a prefix is at most `v`. */
  lemma {:induction false} CountIsPrefix(xs: seq<real>, v: real, k: nat)
    requires Ascending(xs) && k <= |xs|
    ensures k < |xs| && v < xs[k] ==> CountAtMost(xs, v) <= k
    ensures 0 < k && xs[k - 1] <= v ==> k <= CountAtMost(xs, v)
    decreases |xs|
  {
    if xs != [] {
      if k > 0 {
        CountIsPrefix(xs[1..], v, k - 1);
        assert k > 1 ==> xs[1..][k - 2] == xs[k - 1];
        assert k < |xs| ==> xs[1..][k - 1] == xs[k];
        assert xs[0] <= xs[k - 1];
      } else {
        CountIsPrefix(xs[1..], v, 0);
        assert |xs| > 1 ==> xs[0] <= xs[1..][0];
      }
    }
  }

  /** Is `v` the least sample with at least `percent` per cent of the samples at or below it? */
  ghost predicate IsPercentile(v: real, xs: seq<real>, percent: nat) {
    && v in xs
    && 100 * CountAtMost(xs, v) >= percent * |xs|
    && forall u :: u in xs && 100 * CountAtMost(xs, u) >= percent * |xs| ==> v <= u
  }

  /** There is one such value. */
  lemma PercentileIsUnique(u: real, v: real, xs: seq<real>, percent: nat)
    requires IsPercentile(u, xs, percent) && IsPercentile(v, xs, percent)
    ensures u == v
  {
  }

  /** The rank of a percentile among n samples, rounded up. */
  predicate IsRank(rank: int, percent: nat, n: nat) {
    1 <= rank <= n && 100 * (rank - 1) < percent * n <= 100 * rank
  }

  lemma RankIsPercentile(xs: seq<real>, percent: nat, rank: int)
    requires IsRank(rank, percent, |xs|)
    ensures |Sort(xs)| == |xs| && IsPercentile(Sort(xs)[rank - 1], xs, percent)
  {
    var s := Sort(xs);
    SortKeeps(xs, 0.0);
    var v := s[rank - 1];
    SortKeeps(xs, v);
    CountIsPrefix(s, v, rank);
    forall u | u in xs && 100 * CountAtMost(xs, u) >= percent * |xs| ensures v <= u {
      SortKeeps(xs, u);
      CountIsPrefix(s, u, rank - 1);
    }
  }

  function MidRank(n: int): int {
    (n + 1) / 2
  }

  function HighRank(n: int): int {
    -((-n * 95) / 100)
  }

  lemma RanksOf(n: int)
    requires n > 0
    ensures IsRank(MidRank(n), 50, n) && IsRank(HighRank(n), 95, n)
  {
  }

  /** Both indexes are in range and mark what they are meant to mark. */
  lemma MidSample(xs: seq<real>)
    requires xs != []
    ensures |Sort(xs)| == |xs| && 1 <= MidRank(|xs|) <= |xs| && IsPercentile(Sort(xs)[MidRank(|xs|) - 1], xs, 50)
  {
    var rank := MidRank(|xs|);
    RanksOf(|xs|);
    RankIsPercentile(xs, 50, rank);
  }

  lemma HighSample(xs: seq<real>)
    requires xs != []
    ensures |Sort(xs)| == |xs| && 1 <= HighRank(|xs|) <= |xs| && IsPercentile(Sort(xs)[HighRank(|xs|) - 1], xs, 95)
  {
    var rank := HighRank(|xs|);
    RanksOf(|xs|);
    RankIsPercentile(xs, 95, rank);
  }

  lemma SortLength(xs: seq<real>)
    ensures |Sort(xs)| == |xs|
  {
    SortKeeps(xs, 0.0);
  }

  /** corpus/score.py:93-96: `//` floors, so the second index rounds up. */
  method Percentiles(latencies: seq<real>) returns (p50: Option<real>, p95: Option<real>)
    ensures latencies == [] <==> p50.None?
    ensures latencies == [] <==> p95.None?
    ensures p50.Some? ==> IsPercentile(p50.value, latencies, 50)
    ensures p95.Some? ==> IsPercentile(p95.value, latencies, 95)
  {
    var lat := Sort(latencies);
    SortLength(latencies);
    p50, p95 := None, None;
    if lat != [] {
      MidSample(latencies);
      HighSample(latencies);
      p50, p95 := Some(lat[MidRank(|lat|) - 1]), Some(lat[HighRank(|lat|) - 1]);
    }
  }

  // ----- Merging transcript files -----

  /** The rows for one clip, in the order the merge considers them. */
  function Candidates(first: seq<Row>, extras: seq<Row>, utt: string): seq<Row> {
    LastFor(first, utt) + AllFor(extras, utt)
  }

  function LastFor(rows: seq<Row>, utt: string): seq<Row> {
    if rows == [] then []
    else if rows[|rows| - 1].utt == utt then [rows[|rows| - 1]]
    else LastFor(rows[..|rows| - 1], utt)
  }

  function AllFor(rows: seq<Row>, utt: string): seq<Row> {
    if rows == [] then []
    else
      var r := rows[|rows| - 1];
      AllFor(rows[..|rows| - 1], utt) + (if r.utt == utt then [r] else [])
  }

  /** The merge rule: the first row with a transcript, or the last row when none has one. */
  ghost predicate Wins(r: Row, candidates: seq<Row>) {
    exists k :: 0 <= k < |candidates| && candidates[k] == r
      && (forall j :: 0 <= j < k ==> candidates[j].hypothesis.None?)
      && (r.hypothesis.None? ==> k == |candidates| - 1)
  }

  lemma NextCandidate(r: Row, candidates: seq<Row>, next: Row)
    requires Wins(r, candidates)
    ensures Wins(if r.hypothesis.None? then next else r, candidates + [next])
  {
    var all := candidates + [next];
    var k :| 0 <= k < |candidates| && candidates[k] == r
      && (forall j :: 0 <= j < k ==> candidates[j].hypothesis.None?)
      && (r.hypothesis.None? ==> k == |candidates| - 1);
    assert all[k] == r && all[|candidates|] == next;
  }

  function Concat(files: seq<seq<Row>>): seq<Row> {
    if files == [] then [] else Concat(files[..|files| - 1]) + files[|files| - 1]
  }

  ghost predicate Merged(m: map<string, Row>, first: seq<Row>, extras: seq<Row>) {
    forall utt :: (utt in m <==> Candidates(first, extras, utt) != [])
               && (utt in m ==> m[utt].utt == utt && Wins(m[utt], Candidates(first, extras, utt)))
  }

  /** Within the first file a later row replaces an earlier one. */
  lemma Seeded(m: map<string, Row>, rows: seq<Row>, r: Row)
    requires Merged(m, rows, [])
    ensures Merged(m[r.utt := r], rows + [r], [])
  {
    var all := rows + [r];
    assert all[..|all| - 1] == rows;
    forall utt
      ensures Candidates(all, [], utt) == if utt == r.utt then [r] else Candidates(rows, [], utt)
    {
    }
    assert [r][0] == r && Wins(r, [r]);
  }

  lemma OneMoreCandidate(first: seq<Row>, extras: seq<Row>, r: Row, utt: string)
    ensures Candidates(first, extras + [r], utt) ==
            Candidates(first, extras, utt) + (if utt == r.utt then [r] else [])
  {
    var all := extras + [r];
    assert all[..|all| - 1] == extras;
  }

  lemma ExtendedAt(m: map<string, Row>, first: seq<Row>, extras: seq<Row>, r: Row)
    requires Merged(m, first, extras)
    ensures Wins(if r.utt !in m || m[r.utt].hypothesis.None? then r else m[r.utt],
                 Candidates(first, extras + [r], r.utt))
  {
    OneMoreCandidate(first, extras, r, r.utt);
    var seen := Candidates(first, extras, r.utt);
    if r.utt in m {
      NextCandidate(m[r.utt], seen, r);
    } else {
      assert seen == [] && seen + [r] == [r];
      assert [r][0] == r && Wins(r, [r]);
    }
  }

  /** A later file's row is taken only where there is no transcript yet. */
  lemma Extended(m: map<string, Row>, first: seq<Row>, extras: seq<Row>, r: Row)
    requires Merged(m, first, extras)
    ensures Merged(if r.utt !in m || m[r.utt].hypothesis.None? then m[r.utt := r] else m, first, extras + [r])
  {
    var next := if r.utt !in m || m[r.utt].hypothesis.None? then m[r.utt := r] else m;
    forall utt
      ensures utt in next <==> Candidates(first, extras + [r], utt) != []
      ensures utt in next ==> next[utt].utt == utt && Wins(next[utt], Candidates(first, extras + [r], utt))
    {
      OneMoreCandidate(first, extras, r, utt);
      if utt == r.utt {
        ExtendedAt(m, first, extras, r);
      } else {
        assert Candidates(first, extras + [r], utt) == Candidates(first, extras, utt);
      }
    }
  }

  /** corpus/score.py:102-108: the first file seeds the table, later files fill gaps. */
  method Merge(files: seq<seq<Row>>) returns (merged: map<string, Row>)
    requires files != []
    ensures Merged(merged, files[0], Concat(files[1..]))
  {
    merged := Seed(files[0]);
    var f := 1;
    while f < |files|
      invariant 1 <= f <= |files|
      invariant Merged(merged, files[0], Concat(files[1..f]))
    {
      ConcatNext(files, f);
      merged := FillGaps(merged, files[0], Concat(files[1..f]), files[f]);
      f := f + 1;
    }
    assert files[1..f] == files[1..];
  }

  /** score.py:103-104: the first file is the table. */
  method Seed(first: seq<Row>) returns (merged: map<string, Row>)
    ensures Merged(merged, first, [])
  {
    merged := map[];
    var i := 0;
    while i < |first|
      invariant i <= |first|
      invariant Merged(merged, first[..i], [])
    {
      Seeded(merged, first[..i], first[i]);
      assert first[..i] + [first[i]] == first[..i + 1];
      merged := merged[first[i].utt := first[i]];
      i := i + 1;
    }
    assert first[..i] == first;
  }

  lemma ConcatNext(files: seq<seq<Row>>, f: nat)
    requires 1 <= f < |files|
    ensures Concat(files[1..f + 1]) == Concat(files[1..f]) + files[f]
  {
    assert files[1..f + 1][..f - 1] == files[1..f];
  }

  lemma TakeMore<T>(done: seq<T>, extra: seq<T>, j: nat)
    requires j < |extra|
    ensures done + extra[..j + 1] == done + extra[..j] + [extra[j]]
  {
  }

  method FillGaps(start: map<string, Row>, ghost first: seq<Row>, ghost done: seq<Row>, extra: seq<Row>)
    returns (merged: map<string, Row>)
    requires Merged(start, first, done)
    ensures Merged(merged, first, done + extra)
  {
    merged := start;
    var j := 0;
    assert done + extra[..0] == done;
    while j < |extra|
      invariant j <= |extra|
      invariant Merged(merged, first, done + extra[..j])
    {
      var r := extra[j];
      TakeMore(done, extra, j);
      Extended(merged, first, done + extra[..j], r);
      if r.utt !in merged || merged[r.utt].hypothesis.None? {
        merged := merged[r.utt := r];
      }
      j := j + 1;
    }
    assert extra[..j] == extra;
  }
}
