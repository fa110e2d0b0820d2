/**
 scripts/chain_census.py: cutting a dispatch sequence into maximal chains of linked
 elementwise dispatches, and assigning dispatches to decode-token windows.
 */
module ChainCensus {
  import opened Text
  import opened Wrappers

  /** A dispatch event: kernel id, element count and buffer bindings (the third is written). */
  datatype Dispatch = Dispatch(kernel: nat, n: int, bindings: seq<int>)

  const ELEMENTWISE: seq<string> := ["Elementwise", "Cast", "CopyGeneral", "Select", "Compare", "LogicalOr", "Fill"]

  predicate StartsWith(name: string, prefix: string) {
    |prefix| <= |name| && name[..|prefix|] == prefix
  }

  /** chain_census.py:62-63. */
  predicate IsElementwise(name: string) {
    exists i :: 0 <= i < |ELEMENTWISE| && StartsWith(name, ELEMENTWISE[i])
  }

  function KernelName(names: seq<string>, e: nat): string {
    if e < |names| then names[e] else "K" + Decimal(e)
  }

  /** The test the chains are built with: is this dispatch's kernel elementwise? */
  function Fusable(names: seq<string>): Dispatch -> bool {
    (d: Dispatch) => IsElementwise(KernelName(names, d.kernel))
  }

  /** chain_census.py:183-190: `a` writes a buffer that `b` reads, at the same count. */
  predicate Linked(a: Dispatch, b: Dispatch) {
    && a.n == b.n
    && |a.bindings| >= 3 && |b.bindings| >= 1
    && (b.bindings[0] == a.bindings[2] || (|b.bindings| >= 2 && b.bindings[1] == a.bindings[2]))
  }

  /** The same as the source has it: the third binding of `a` is among the first two of `b`. */
  lemma LinkedIff(a: Dispatch, b: Dispatch)
    ensures Linked(a, b) <==>
            && a.n == b.n && |a.bindings| >= 3
            && exists i :: 0 <= i < 2 && i < |b.bindings| && b.bindings[i] == a.bindings[2]
  {
    if Linked(a, b) {
      assert b.bindings[0] == a.bindings[2] || b.bindings[1] == a.bindings[2];
    }
  }

  /** Seven families of kernel names count as elementwise. */
  lemma FamiliesIff(name: string)
    ensures IsElementwise(name) <==>
            || "Elementwise" <= name || "Cast" <= name || "CopyGeneral" <= name || "Select" <= name
            || "Compare" <= name || "LogicalOr" <= name || "Fill" <= name
  {
    forall prefix: string ensures StartsWith(name, prefix) <==> prefix <= name {}
    assert ELEMENTWISE[0] == "Elementwise" && ELEMENTWISE[1] == "Cast" && ELEMENTWISE[2] == "CopyGeneral";
    assert ELEMENTWISE[3] == "Select" && ELEMENTWISE[4] == "Compare" && ELEMENTWISE[5] == "LogicalOr";
    assert ELEMENTWISE[6] == "Fill";
  }

  /** A kernel without a name is never elementwise. */
  lemma UnnamedBreaksChains(names: seq<string>, d: Dispatch)
    ensures Fusable(names)(d) ==> d.kernel < |names|
    ensures Fusable(names)(d) <==> d.kernel < |names| && IsElementwise(names[d.kernel])
  {
    if d.kernel >= |names| {
      var name := KernelName(names, d.kernel);
      FamiliesIff(name);
      assert name[0] == 'K';
      forall prefix: string | prefix != "" && prefix <= name ensures prefix[0] == 'K' {}
    }
  }

  // ----- What a chain is -----

  predicate Chained(f: Dispatch -> bool, s: seq<Dispatch>, lo: nat, hi: nat)
    requires lo <= hi <= |s|
  {
    && (forall i :: lo <= i < hi ==> f(s[i]))
    && (forall i :: lo < i < hi ==> Linked(s[i - 1], s[i]))
  }

  /** A chained stretch of at least two dispatches that cannot be extended on either side. */
  predicate MaximalChain(f: Dispatch -> bool, s: seq<Dispatch>, lo: nat, hi: nat) {
    && lo + 2 <= hi <= |s|
    && Chained(f, s, lo, hi)
    && (lo == 0 || !Chained(f, s, lo - 1, hi))
    && (hi == |s| || !Chained(f, s, lo, hi + 1))
  }

  // ----- The same, joint by joint -----

  /** Positions i - 1 and i belong to one chain. */
  predicate Joint(f: Dispatch -> bool, s: seq<Dispatch>, i: nat) {
    0 < i < |s| && f(s[i - 1]) && f(s[i]) && Linked(s[i - 1], s[i])
  }

  function Joints(f: Dispatch -> bool, s: seq<Dispatch>): (js: seq<bool>)
    ensures |js| == |s| + 1
    ensures forall i :: 0 <= i <= |s| ==> js[i] == Joint(f, s, i)
  {
    seq(|s| + 1, i requires 0 <= i <= |s| => Joint(f, s, i))
  }

  predicate All(js: seq<bool>, lo: nat, hi: nat)
    requires hi <= |js|
  {
    forall i :: lo < i < hi ==> js[i]
  }

  predicate MaximalIn(js: seq<bool>, lo: nat, hi: nat) {
    lo + 2 <= hi < |js| && All(js, lo, hi) && !js[lo] && !js[hi]
  }

  lemma ChainedIsJointed(f: Dispatch -> bool, s: seq<Dispatch>, lo: nat, hi: nat)
    requires lo + 2 <= hi <= |s|
    ensures Chained(f, s, lo, hi) <==> All(Joints(f, s), lo, hi)
  {
    var js := Joints(f, s);
    if All(js, lo, hi) {
      forall i | lo <= i < hi ensures f(s[i]) {
        assert if i == lo then js[i + 1] else js[i];
      }
      forall i | lo < i < hi ensures Linked(s[i - 1], s[i]) { assert js[i]; }
    }
  }

  lemma Grown(js: seq<bool>, lo: nat, hi: nat)
    requires lo + 2 <= hi < |js|
    ensures lo > 0 ==> (All(js, lo - 1, hi) <==> js[lo] && All(js, lo, hi))
    ensures All(js, lo, hi + 1) <==> js[hi] && All(js, lo, hi)
  {
  }

  lemma MaximalIsJointed(f: Dispatch -> bool, s: seq<Dispatch>, lo: nat, hi: nat)
    ensures MaximalChain(f, s, lo, hi) <==> MaximalIn(Joints(f, s), lo, hi)
  {
    var js := Joints(f, s);
    if lo + 2 <= hi <= |s| {
      ChainedIsJointed(f, s, lo, hi);
      Grown(js, lo, hi);
      if lo > 0 { ChainedIsJointed(f, s, lo - 1, hi); } else { assert !js[0]; }
      if hi < |s| { ChainedIsJointed(f, s, lo, hi + 1); } else { assert !js[|s|]; }
    }
  }

  // ----- The loop, on joints -----

  /** Bounds of the maximal stretches that end by `upTo`: exactly those, in order. */
  ghost predicate Settled(js: seq<bool>, bounds: seq<(nat, nat)>, upTo: nat) {
    && (forall lo: nat, hi: nat :: (lo, hi) in bounds <==> MaximalIn(js, lo, hi) && hi <= upTo)
    && (forall j, k :: 0 <= j < k < |bounds| ==> bounds[j].1 <= bounds[k].0)
  }

  /** The positions lo..i are jointed and nothing before them joins on. */
  ghost predicate OpenRun(js: seq<bool>, lo: nat, i: nat) {
    lo <= i < |js| && All(js, lo, i) && !js[lo]
  }

  ghost function Flushed(bounds: seq<(nat, nat)>, lo: nat, i: nat): seq<(nat, nat)> {
    if i - lo >= 2 then bounds + [(lo, i)] else bounds
  }

  /** A maximal stretch that ends inside the run is the run. */
  lemma OnlyRun(js: seq<bool>, lo: nat, i: nat, l: nat, h: nat)
    requires OpenRun(js, lo, i) && MaximalIn(js, l, h) && lo < h <= i
    ensures l == lo && h == i
  {
  }

  /** Closing the run settles everything up to i. */
  lemma Flush(js: seq<bool>, bounds: seq<(nat, nat)>, lo: nat, i: nat)
    requires OpenRun(js, lo, i) && Settled(js, bounds, lo) && !js[i]
    ensures Settled(js, Flushed(bounds, lo, i), i)
  {
    var bs := Flushed(bounds, lo, i);
    forall l: nat, h: nat ensures (l, h) in bs <==> MaximalIn(js, l, h) && h <= i {
      if MaximalIn(js, l, h) && lo < h <= i { OnlyRun(js, lo, i, l, h); }
      assert (l, h) in bs <==> (l, h) in bounds || (i - lo >= 2 && l == lo && h == i);
    }
    forall j, k | 0 <= j < k < |bs| ensures bs[j].1 <= bs[k].0 {
      if k == |bounds| { assert (bounds[j].0, bounds[j].1) in bounds; }
    }
  }

  lemma SkipOne(js: seq<bool>, bounds: seq<(nat, nat)>, i: nat)
    requires i + 1 < |js| && !js[i] && Settled(js, bounds, i)
    ensures Settled(js, bounds, i + 1)
  {
    forall l: nat, h: nat ensures MaximalIn(js, l, h) && h <= i + 1 ==> h <= i {
      if MaximalIn(js, l, h) { assert l < h - 1 ==> js[h - 1]; }
    }
  }

  // ----- The method -----

  /** The chains lie at these bounds. */
  ghost predicate CutAt(s: seq<Dispatch>, chains: seq<seq<Dispatch>>, bounds: seq<(nat, nat)>) {
    && |chains| == |bounds|
    && forall k :: 0 <= k < |bounds| ==> bounds[k].0 <= bounds[k].1 <= |s| && chains[k] == s[bounds[k].0..bounds[k].1]
  }

  /** The bounds are exactly those of the maximal chains, in order and disjoint. */
  ghost predicate Exact(f: Dispatch -> bool, s: seq<Dispatch>, bounds: seq<(nat, nat)>) {
    && (forall lo: nat, hi: nat :: (lo, hi) in bounds <==> MaximalChain(f, s, lo, hi))
    && (forall j, k :: 0 <= j < k < |bounds| ==> bounds[j].1 <= bounds[k].0)
  }

  lemma SettledIsExact(f: Dispatch -> bool, s: seq<Dispatch>, bounds: seq<(nat, nat)>)
    requires Settled(Joints(f, s), bounds, |s|)
    ensures Exact(f, s, bounds)
  {
    forall lo: nat, hi: nat ensures (lo, hi) in bounds <==> MaximalChain(f, s, lo, hi) {
      MaximalIsJointed(f, s, lo, hi);
    }
  }

  /** The state between two dispatches: the open run lo..i and everything before it. */
  ghost predicate Cutting(f: Dispatch -> bool, s: seq<Dispatch>, chains: seq<seq<Dispatch>>,
                          bounds: seq<(nat, nat)>, lo: nat, i: nat)
  {
    && lo <= i <= |s|
    && (if lo == i then i == 0 || !f(s[i - 1]) else f(s[i - 1]))
    && OpenRun(Joints(f, s), lo, i)
    && CutAt(s, chains, bounds) && Settled(Joints(f, s), bounds, lo)
  }

  /** A run is kept when it has at least two dispatches. */
  function Keep(chains: seq<seq<Dispatch>>, run: seq<Dispatch>): seq<seq<Dispatch>> {
    if |run| >= 2 then chains + [run] else chains
  }

  lemma FlushCuts(f: Dispatch -> bool, s: seq<Dispatch>, chains: seq<seq<Dispatch>>,
                  bounds: seq<(nat, nat)>, lo: nat, i: nat)
    requires Cutting(f, s, chains, bounds, lo, i) && !Joint(f, s, i)
    ensures CutAt(s, Keep(chains, s[lo..i]), Flushed(bounds, lo, i))
    ensures Settled(Joints(f, s), Flushed(bounds, lo, i), i)
  {
    Flush(Joints(f, s), bounds, lo, i);
  }

  lemma Skips(f: Dispatch -> bool, s: seq<Dispatch>, chains: seq<seq<Dispatch>>, bounds: seq<(nat, nat)>, i: nat)
    requires i < |s| && !f(s[i]) && CutAt(s, chains, bounds) && Settled(Joints(f, s), bounds, i)
    ensures Cutting(f, s, chains, bounds, i + 1, i + 1)
  {
    SkipOne(Joints(f, s), bounds, i);
  }

  lemma Extends(f: Dispatch -> bool, s: seq<Dispatch>, chains: seq<seq<Dispatch>>,
                bounds: seq<(nat, nat)>, lo: nat, i: nat)
    requires Cutting(f, s, chains, bounds, lo, i) && i < |s| && f(s[i]) && (lo < i ==> Linked(s[i - 1], s[i]))
    ensures Cutting(f, s, chains, bounds, lo, i + 1)
  {
  }

  lemma Restarts(f: Dispatch -> bool, s: seq<Dispatch>, chains: seq<seq<Dispatch>>, bounds: seq<(nat, nat)>, i: nat)
    requires 0 < i < |s| && f(s[i]) && !Joint(f, s, i) && CutAt(s, chains, bounds) && Settled(Joints(f, s), bounds, i)
    ensures Cutting(f, s, chains, bounds, i, i + 1)
  {
  }

  /** A dispatch that is not elementwise closes the run. */
  lemma Closes(f: Dispatch -> bool, s: seq<Dispatch>, chains: seq<seq<Dispatch>>,
               bounds: seq<(nat, nat)>, lo: nat, i: nat)
    requires Cutting(f, s, chains, bounds, lo, i) && i < |s| && !f(s[i])
    ensures Cutting(f, s, Keep(chains, s[lo..i]), Flushed(bounds, lo, i), i + 1, i + 1)
  {
    FlushCuts(f, s, chains, bounds, lo, i);
    Skips(f, s, Keep(chains, s[lo..i]), Flushed(bounds, lo, i), i);
  }

  /** An elementwise one that is not linked to the last of the run starts a new run. */
  lemma Splits(f: Dispatch -> bool, s: seq<Dispatch>, chains: seq<seq<Dispatch>>,
               bounds: seq<(nat, nat)>, lo: nat, i: nat)
    requires Cutting(f, s, chains, bounds, lo, i) && lo < i < |s| && f(s[i]) && !Linked(s[i - 1], s[i])
    ensures Cutting(f, s, Keep(chains, s[lo..i]), Flushed(bounds, lo, i), i, i + 1)
  {
    FlushCuts(f, s, chains, bounds, lo, i);
    Restarts(f, s, Keep(chains, s[lo..i]), Flushed(bounds, lo, i), i);
  }

  /** What the loop holds after i dispatches. */
  ghost predicate State(f: Dispatch -> bool, s: seq<Dispatch>, chains: seq<seq<Dispatch>>, run: seq<Dispatch>,
                        bounds: seq<(nat, nat)>, lo: nat, i: nat)
  {
    lo <= i <= |s| && run == s[lo..i] && Cutting(f, s, chains, bounds, lo, i)
  }

  lemma RunIs(f: Dispatch -> bool, s: seq<Dispatch>, chains: seq<seq<Dispatch>>, run: seq<Dispatch>,
              bounds: seq<(nat, nat)>, lo: nat, i: nat)
    requires State(f, s, chains, run, bounds, lo, i)
    ensures lo <= i <= |s| && run == s[lo..i] && Cutting(f, s, chains, bounds, lo, i)
    ensures run != [] ==> lo < i && run[|run| - 1] == s[i - 1]
    ensures run == [] ==> lo == i
    ensures i < |s| ==> s[lo..i + 1] == run + [s[i]]
  {
  }

  lemma Starts(f: Dispatch -> bool, s: seq<Dispatch>)
    ensures State(f, s, [], [], [], 0, 0)
  {
  }

  /** One turn of the loop. */
  method Consider(f: Dispatch -> bool, ghost s: seq<Dispatch>, chains: seq<seq<Dispatch>>, run: seq<Dispatch>,
                  ev: Dispatch, ghost bounds: seq<(nat, nat)>, ghost lo: nat, ghost i: nat)
    returns (chains': seq<seq<Dispatch>>, run': seq<Dispatch>, ghost bounds': seq<(nat, nat)>, ghost lo': nat)
    requires State(f, s, chains, run, bounds, lo, i) && i < |s| && ev == s[i]
    ensures State(f, s, chains', run', bounds', lo', i + 1)
  {
    chains', run', bounds', lo' := chains, run, bounds, lo;
    RunIs(f, s, chains, run, bounds, lo, i);
    if !f(ev) {
      Closes(f, s, chains, bounds, lo, i);
      chains', run', bounds', lo' := Keep(chains, run), [], Flushed(bounds, lo, i), i + 1;
      return;
    }
    if run != [] && !Linked(run[|run| - 1], ev) {
      Splits(f, s, chains, bounds, lo, i);
      chains', run', bounds', lo' := Keep(chains, run), [], Flushed(bounds, lo, i), i;
    } else {
      Extends(f, s, chains, bounds, lo, i);
    }
    run' := run' + [ev];
  }

  /** All maximal chains of the sequence, in order. */
  ghost predicate AllChains(f: Dispatch -> bool, s: seq<Dispatch>, chains: seq<seq<Dispatch>>) {
    exists bounds: seq<(nat, nat)> :: CutAt(s, chains, bounds) && Exact(f, s, bounds)
  }

  ghost predicate InSequence(bounds: seq<(nat, nat)>) {
    && (forall k :: 0 <= k < |bounds| ==> bounds[k].0 < bounds[k].1)
    && (forall j, k :: 0 <= j < k < |bounds| ==> bounds[j].1 <= bounds[k].0)
  }

  lemma FirstBound(a: seq<(nat, nat)>, b: seq<(nat, nat)>)
    requires InSequence(a) && InSequence(b) && a != [] && b != [] && a[0] in b && b[0] in a
    ensures a[0] == b[0]
  {
    var j :| 0 <= j < |a| && a[j] == b[0];
    var k :| 0 <= k < |b| && b[k] == a[0];
  }

  lemma WithoutFirst(a: seq<(nat, nat)>)
    requires InSequence(a) && a != []
    ensures InSequence(a[1..]) && forall x :: x in a[1..] <==> x in a && x != a[0]
  {
    forall x ensures x in a[1..] <==> x in a && x != a[0] {
      if x in a && x != a[0] {
        var k :| 0 <= k < |a| && a[k] == x;
        assert a[1..][k - 1] == x;
      }
    }
  }

  /** Bounds in sequence are determined by which they are. */
  lemma {:induction false} SameBounds(a: seq<(nat, nat)>, b: seq<(nat, nat)>)
    requires InSequence(a) && InSequence(b) && forall x :: x in a <==> x in b
    ensures a == b
    decreases |a|
  {
    assert (b != [] ==> b[0] in b) && (a != [] ==> a[0] in a);
    if a != [] {
      FirstBound(a, b);
      WithoutFirst(a);
      WithoutFirst(b);
      SameBounds(a[1..], b[1..]);
      assert a == [a[0]] + a[1..] && b == [b[0]] + b[1..];
    }
  }

  /** A sequence has one census. */
  lemma OneCensus(f: Dispatch -> bool, s: seq<Dispatch>, x: seq<seq<Dispatch>>, y: seq<seq<Dispatch>>)
    requires AllChains(f, s, x) && AllChains(f, s, y)
    ensures x == y
  {
    var a: seq<(nat, nat)> :| CutAt(s, x, a) && Exact(f, s, a);
    var b: seq<(nat, nat)> :| CutAt(s, y, b) && Exact(f, s, b);
    ExactInSequence(f, s, a);
    ExactInSequence(f, s, b);
    ExactAgree(f, s, a, b);
    SameBounds(a, b);
    SameCut(s, x, y, a);
  }

  lemma ExactInSequence(f: Dispatch -> bool, s: seq<Dispatch>, a: seq<(nat, nat)>)
    requires Exact(f, s, a)
    ensures InSequence(a)
  {
    forall k | 0 <= k < |a| ensures a[k].0 < a[k].1 { assert (a[k].0, a[k].1) in a; }
  }

  lemma ExactAgree(f: Dispatch -> bool, s: seq<Dispatch>, a: seq<(nat, nat)>, b: seq<(nat, nat)>)
    requires Exact(f, s, a) && Exact(f, s, b)
    ensures forall p :: p in a <==> p in b
  {
    forall p: (nat, nat) ensures p in a <==> p in b {
      var (lo, hi) := p;
      assert (lo, hi) in a <==> MaximalChain(f, s, lo, hi);
    }
  }

  lemma SameCut(s: seq<Dispatch>, x: seq<seq<Dispatch>>, y: seq<seq<Dispatch>>, bounds: seq<(nat, nat)>)
    requires CutAt(s, x, bounds) && CutAt(s, y, bounds)
    ensures x == y
  {
  }

  /** chain_census.py:173-198. */
  method ChainsFor(f: Dispatch -> bool, s: seq<Dispatch>) returns (chains: seq<seq<Dispatch>>)
    ensures AllChains(f, s, chains)
  {
    chains := [];
    var run: seq<Dispatch> := [];
    var i := 0;
    ghost var lo := 0;
    ghost var bounds: seq<(nat, nat)> := [];
    Starts(f, s);
    while i < |s|
      invariant i <= |s| && State(f, s, chains, run, bounds, lo, i)
    {
      chains, run, bounds, lo := Consider(f, s, chains, run, s[i], bounds, lo, i);
      i := i + 1;
    }
    RunIs(f, s, chains, run, bounds, lo, i);
    FlushCuts(f, s, chains, bounds, lo, i);
    chains, bounds := Keep(chains, run), Flushed(bounds, lo, i);
    SettledIsExact(f, s, bounds);
  }

  /** The same for dispatches whose kernels are named. */
  method ChainsOf(names: seq<string>, s: seq<Dispatch>) returns (chains: seq<seq<Dispatch>>)
    ensures AllChains(Fusable(names), s, chains)
  {
    chains := ChainsFor(Fusable(names), s);
  }

  // ----- Token windows -----

  /** A decode token's time window; the last one is open-ended. */
  datatype Window = Window(token: nat, lo: int, hi: Option<int>)

  predicate Inside(w: Window, t: int) {
    w.lo <= t && (w.hi.None? || t < w.hi.value)
  }

  function NextMarker(toks: seq<int>, i: nat): Option<int> {
    if i < |toks| then Some(toks[i]) else None
  }

  /** Token i's window runs from its marker to the next; token 0's from decode_start. */
  ghost predicate AreWindows(ws: seq<Window>, starts: seq<int>, toks: seq<int>) {
    var first := if starts == [] then 0 else 1;
    && |ws| == first + |toks|
    && (first == 1 ==> ws[0] == Window(0, starts[0], NextMarker(toks, 0)))
    && forall i :: 0 <= i < |toks| ==> ws[first + i] == Window(i + 1, toks[i], NextMarker(toks, i + 1))
  }

  /** chain_census.py:96-111. */
  method TokenBounds(starts: seq<int>, toks: seq<int>) returns (ws: seq<Window>)
    ensures AreWindows(ws, starts, toks)
  {
    ws := [];
    if starts != [] {
      ws := [Window(0, starts[0], if toks != [] then Some(toks[0]) else None)];
    }
    var i := 0;
    while i < |toks|
      invariant i <= |toks|
      invariant var first := if starts == [] then 0 else 1;
                && |ws| == first + i
                && (first == 1 ==> ws[0] == Window(0, starts[0], NextMarker(toks, 0)))
                && forall j :: 0 <= j < i ==> ws[first + j] == Window(j + 1, toks[j], NextMarker(toks, j + 1))
    {
      var hi := if i + 1 < |toks| then Some(toks[i + 1]) else None;
      ws := ws + [Window(i + 1, toks[i], hi)];
      i := i + 1;
    }
  }

  /** chain_census.py:113-120: the first window that holds the submission time. */
  method TokenOf(ws: seq<Window>, t: int) returns (token: Option<nat>)
    ensures token.Some? ==> exists i :: 0 <= i < |ws| && Inside(ws[i], t) && ws[i].token == token.value
                                        && forall j :: 0 <= j < i ==> !Inside(ws[j], t)
    ensures token.None? ==> forall i :: 0 <= i < |ws| ==> !Inside(ws[i], t)
  {
    var i := 0;
    while i < |ws|
      invariant i <= |ws| && forall j :: 0 <= j < i ==> !Inside(ws[j], t)
    {
      if Inside(ws[i], t) {
        return Some(ws[i].token);
      }
      i := i + 1;
    }
    token := None;
  }

  predicate Ascending(ts: seq<int>) {
    forall i, j :: 0 <= i < j < |ts| ==> ts[i] <= ts[j]
  }

  /** Markers in time order: decode starts before its first token. */
  predicate InOrder(starts: seq<int>, toks: seq<int>) {
    Ascending(toks) && (starts != [] && toks != [] ==> starts[0] <= toks[0])
  }

  /** How many token markers lie at or before t. */
  function Seen(toks: seq<int>, t: int): nat {
    if toks == [] then 0 else Seen(toks[..|toks| - 1], t) + (if toks[|toks| - 1] <= t then 1 else 0)
  }

  lemma {:induction false} SeenSplits(toks: seq<int>, t: int)
    requires Ascending(toks)
    ensures Seen(toks, t) <= |toks|
    ensures forall i :: 0 <= i < |toks| ==> (toks[i] <= t <==> i < Seen(toks, t))
    decreases |toks|
  {
    if toks != [] {
      SeenSplits(toks[..|toks| - 1], t);
      assert forall i :: 0 <= i < |toks| - 1 ==> toks[..|toks| - 1][i] == toks[i];
    }
  }

  /** With markers in order a time at or after decode_start lies in exactly one window, that of
      the token counted by the markers seen; an earlier time lies in none. */
  lemma ExactlyOneWindow(ws: seq<Window>, starts: seq<int>, toks: seq<int>, t: int, i: nat)
    requires AreWindows(ws, starts, toks) && InOrder(starts, toks) && starts != [] && i < |ws|
    ensures Inside(ws[i], t) <==> starts[0] <= t && i == Seen(toks, t)
    ensures ws[i].token == i && Seen(toks, t) < |ws|
  {
    SeenSplits(toks, t);
    if i > 0 { assert ws[1 + (i - 1)] == Window(i, toks[i - 1], NextMarker(toks, i)); }
  }
}
