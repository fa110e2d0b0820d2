/**
 The process-tree closure and memory totals of scripts/pair_memory_common.py, for a fixed
 child relation: a table from pid to the pids read from its `children` file.
 */
module ProcessTree {
  import opened Wrappers

  type Pid = nat
  type Children = map<Pid, seq<Pid>>

  /** A missing file reads as no children. */
  function ChildList(c: Children, p: Pid): seq<Pid> {
    if p in c then c[p] else []
  }

  /** A walk down the tree from `root` that ends at `p`. */
  ghost predicate Walk(c: Children, root: Pid, path: seq<Pid>, p: Pid)
    decreases |path|
  {
    if path == [] then root == p
    else path[|path| - 1] == p && exists q :: Walk(c, root, path[..|path| - 1], q) && p in ChildList(c, q)
  }

  ghost predicate Reachable(c: Children, root: Pid, p: Pid) {
    exists path :: Walk(c, root, path, p)
  }

  lemma ReachableChild(c: Children, root: Pid, q: Pid, p: Pid)
    requires Reachable(c, root, q) && p in ChildList(c, q)
    ensures Reachable(c, root, p)
  {
    var path :| Walk(c, root, path, q);
    assert (path + [p])[..|path|] == path;
    assert Walk(c, root, path + [p], p);
  }

  ghost predicate Closed(c: Children, s: set<Pid>) {
    forall q, p :: q in s && p in ChildList(c, q) ==> p in s
  }

  lemma {:induction false} WalkStaysIn(c: Children, root: Pid, path: seq<Pid>, p: Pid, s: set<Pid>)
    requires Walk(c, root, path, p) && root in s && Closed(c, s)
    ensures p in s
    decreases |path|
  {
    if path != [] {
      var q :| Walk(c, root, path[..|path| - 1], q) && p in ChildList(c, q);
      WalkStaysIn(c, root, path[..|path| - 1], q, s);
    }
  }

  /** All pids the table mentions. */
  function Mentioned(c: Children): set<Pid> {
    set q, p | q in c && p in c[q] :: p
  }

  predicate ChildrenIn(c: Children, q: Pid, s: set<Pid>) {
    forall i :: 0 <= i < |ChildList(c, q)| ==> ChildList(c, q)[i] in s
  }

  /** What holds between reads: everything seen is reachable, and only the pids still pending
      may have unseen children. */
  ghost predicate Growing(c: Children, root: Pid, seen: set<Pid>, pending: set<Pid>) {
    && root in seen && seen <= Mentioned(c) + {root}
    && (forall p :: p in seen ==> Reachable(c, root, p))
    && (forall q :: q in seen ==> q in pending || ChildrenIn(c, q, seen))
  }

  lemma SeeOne(c: Children, root: Pid, seen: set<Pid>, pending: set<Pid>, p: Pid, i: nat)
    requires Growing(c, root, seen, pending) && p in seen && i < |ChildList(c, p)|
    ensures var ci := ChildList(c, p)[i];
            Growing(c, root, seen + {ci}, pending + {ci})
  {
    ReachableChild(c, root, p, ChildList(c, p)[i]);
  }

  lemma NoLongerPending(c: Children, root: Pid, seen: set<Pid>, pending: set<Pid>, p: Pid)
    requires Growing(c, root, seen, pending) && ChildrenIn(c, p, seen)
    ensures Growing(c, root, seen, pending - {p})
  {
  }

  /** One `children` file: pids not seen before are marked seen and kept for the next round. */
  method ReadChildren(c: Children, ghost root: Pid, p: Pid, seen: set<Pid>, found: seq<Pid>, ghost pending: set<Pid>)
    returns (seen': set<Pid>, found': seq<Pid>, ghost pending': set<Pid>)
    requires Growing(c, root, seen, pending) && p in seen
    ensures seen <= seen' && found <= found' && ((found' == found && seen' == seen) || |seen| < |seen'|)
    ensures forall x :: x in found' ==> x in found || x in seen'
    ensures forall x :: x in pending' ==> x in found' || (x in pending && x != p)
    ensures Growing(c, root, seen', pending')
  {
    seen', found' := seen, found;
    ghost var now := pending;
    var data := ChildList(c, p);
    var i := 0;
    while i < |data|
      invariant i <= |data|
      invariant seen <= seen' && found <= found' && ((found' == found && seen' == seen) || |seen| < |seen'|)
      invariant forall x :: x in found' ==> x in found || x in seen'
      invariant forall x :: x in now ==> x in found' || x in pending
      invariant forall j :: 0 <= j < i ==> data[j] in seen'
      invariant Growing(c, root, seen', now)
    {
      var ci := data[i];
      if ci !in seen' {
        SeeOne(c, root, seen', now, p, i);
        assert |seen' + {ci}| == |seen'| + 1;
        seen', found', now := seen' + {ci}, found' + [ci], now + {ci};
      }
      i := i + 1;
    }
    pending' := if p in found' then now else now - {p};
    NoLongerPending(c, root, seen', now, p);
  }

  lemma NothingPending(c: Children, root: Pid, seen: set<Pid>, pending: set<Pid>)
    requires Growing(c, root, seen, pending) && pending == {}
    ensures forall p :: p in seen <==> Reachable(c, root, p)
  {
    forall p | Reachable(c, root, p) ensures p in seen {
      var path :| Walk(c, root, path, p);
      WalkStaysIn(c, root, path, p, seen);
    }
  }

  lemma RoomLeft(all: set<Pid>, before: set<Pid>, after: set<Pid>)
    requires before <= after <= all
    ensures |before| < |after| ==> |all - after| < |all - before|
  {
    assert |all - after| == |all| - |after| && |all - before| == |all| - |before|;
  }

  lemma Started(c: Children, pid: Pid)
    ensures Growing(c, pid, {pid}, {pid})
  {
    assert Walk(c, pid, [], pid);
  }

  /** One round over the frontier. */
  method ReadRound(c: Children, ghost root: Pid, frontier: seq<Pid>, seen: set<Pid>, ghost pending: set<Pid>)
    returns (seen': set<Pid>, found: seq<Pid>, ghost pending': set<Pid>)
    requires Growing(c, root, seen, pending)
    requires forall x :: x in frontier ==> x in seen
    requires forall x :: x in pending ==> x in frontier
    ensures seen <= seen' && ((found == [] && seen' == seen) || |seen| < |seen'|)
    ensures forall x :: x in found ==> x in seen'
    ensures forall x :: x in pending' ==> x in found
    ensures Growing(c, root, seen', pending')
  {
    seen', found := seen, [];
    ghost var now := pending;
    var j := 0;
    while j < |frontier|
      invariant j <= |frontier| && seen <= seen' && ((found == [] && seen' == seen) || |seen| < |seen'|)
      invariant Growing(c, root, seen', now)
      invariant forall x :: x in found ==> x in seen'
      invariant forall x :: x in now ==> x in found || x in frontier[j..]
    {
      assert frontier[j] in frontier;
      assert frontier[j..] == [frontier[j]] + frontier[j + 1..];
      seen', found, now := ReadChildren(c, root, frontier[j], seen', found, now);
      j := j + 1;
    }
    pending' := now;
  }

  /** scripts/pair_memory_common.py:43-61. */
  method ChildrenOf(c: Children, pid: Pid) returns (seen: set<Pid>)
    ensures forall p :: p in seen <==> Reachable(c, pid, p)
  {
    seen := {pid};
    var frontier := [pid];
    ghost var pending := {pid};
    ghost var all := Mentioned(c) + {pid};
    Started(c, pid);
    while frontier != []
      invariant Growing(c, pid, seen, pending)
      invariant forall x :: x in frontier ==> x in seen
      invariant forall x :: x in pending ==> x in frontier
      decreases |all - seen|, |frontier|
    {
      ghost var before := seen;
      seen, frontier, pending := ReadRound(c, pid, frontier, seen, pending);
      RoomLeft(all, before, seen);
    }
    NothingPending(c, pid, seen, pending);
  }

  // ----- Totals -----

  ghost function Sum(s: set<Pid>, f: Pid -> nat): nat
    decreases s
  {
    if s == {} then 0 else var p :| p in s; f(p) + Sum(s - {p}, f)
  }

  lemma {:induction false} SumSplit(s: set<Pid>, p: Pid, f: Pid -> nat)
    requires p in s
    ensures Sum(s, f) == f(p) + Sum(s - {p}, f)
    decreases s
  {
    var q :| q in s && Sum(s, f) == f(q) + Sum(s - {q}, f);
    if q != p {
      SumSplit(s - {q}, p, f);
      SumSplit(s - {p}, q, f);
      assert s - {q} - {p} == s - {p} - {q};
    }
  }

  function Known(v: Option<nat>): nat {
    if v.Some? then v.value else 0
  }

  /** What is read of one process; a file that cannot be read gives None. */
  datatype Memory = Memory(rss: Option<nat>, pss: Option<nat>)

  ghost function Rss(f: Pid -> Memory): Pid -> nat {
    (p: Pid) => Known(f(p).rss)
  }

  ghost function Pss(f: Pid -> Memory): Pid -> nat {
    (p: Pid) => Known(f(p).pss)
  }

  /** The processes counted: the tree below the assistant, or the stand-in pid 0. */
  ghost predicate Counted(c: Children, assistant: Pid, includeStub: bool, p: Pid) {
    (if assistant != 0 then Reachable(c, assistant, p) else p == 0) && (p != 0 || includeStub)
  }

  lemma AddOne(before: set<Pid>, p: Pid, f: Pid -> nat)
    requires p !in before
    ensures Sum(before + {p}, f) == Sum(before, f) + f(p)
  {
    SumSplit(before + {p}, p, f);
    assert before + {p} - {p} == before;
  }

  /** One process joins the totals. */
  method AddProcess(read: Pid -> Memory, p: Pid, rss: nat, pss: nat, seen: map<Pid, Memory>)
    returns (rss': nat, pss': nat, seen': map<Pid, Memory>)
    requires p !in seen && rss == Sum(seen.Keys, Rss(read)) && pss == Sum(seen.Keys, Pss(read))
    ensures seen' == seen[p := read(p)]
    ensures rss' == Sum(seen'.Keys, Rss(read)) && pss' == Sum(seen'.Keys, Pss(read))
  {
    var m := read(p);
    rss', pss', seen' := rss, pss, seen[p := m];
    if m.rss.Some? {
      rss' := rss' + m.rss.value;
    }
    if m.pss.Some? {
      pss' := pss' + m.pss.value;
    }
    AddOne(seen.Keys, p, Rss(read));
    AddOne(seen.Keys, p, Pss(read));
    assert seen'.Keys == seen.Keys + {p};
  }

  /** scripts/pair_memory_common.py:131-144: both memory totals over the tree, in whatever order
      the set is walked.  Pid 0 stands for "no process yet". */
  method Sample(c: Children, assistant: Pid, read: Pid -> Memory, includeStub: bool)
    returns (rssTotal: nat, pssTotal: nat, perPid: map<Pid, Memory>)
    ensures forall p :: p in perPid <==> Counted(c, assistant, includeStub, p)
    ensures forall p :: p in perPid ==> perPid[p] == read(p)
    ensures rssTotal == Sum(perPid.Keys, Rss(read)) && pssTotal == Sum(perPid.Keys, Pss(read))
  {
    var pids: set<Pid> := {0};
    if assistant != 0 {
      pids := ChildrenOf(c, assistant);
    }
    rssTotal, pssTotal, perPid := 0, 0, map[];
    var todo := pids;
    while todo != {}
      invariant todo <= pids && perPid.Keys <= pids - todo
      invariant forall p :: p in pids - todo && (p != 0 || includeStub) ==> p in perPid
      invariant forall p :: p in perPid ==> perPid[p] == read(p) && (p != 0 || includeStub)
      invariant rssTotal == Sum(perPid.Keys, Rss(read)) && pssTotal == Sum(perPid.Keys, Pss(read))
      decreases todo
    {
      var p :| p in todo;
      todo := todo - {p};
      if p == 0 && !includeStub {
        continue;
      }
      rssTotal, pssTotal, perPid := AddProcess(read, p, rssTotal, pssTotal, perPid);
    }
  }
}
