/** The dependency graph as the scanner stores it, and the depth-capped breadth-first
    pass that flags the files near an entrypoint. */
module CriticalPath {
  import opened Repository

  datatype CodeContext = CodeContext(
    downstream: seq<Path>,
    upstream: seq<Path>,
    onCriticalPath: bool,
    callerCount: nat
  )

  type Contexts = map<Path, CodeContext>

  /** Hops an entrypoint's flag travels. */
  const DEPTH_CAP: nat := 2

  // ---------------------------------------------------------------------------
  // Reference definition: walks through the dependency relation
  // ---------------------------------------------------------------------------

  ghost predicate Imports(contexts: Contexts, p: Path, q: Path) {
    p in contexts && q in contexts[p].downstream
  }

  /** `w` lists consecutive files, each importing the next. */
  ghost predicate IsWalk(contexts: Contexts, w: seq<Path>) {
    && w != []
    && forall i :: 0 <= i < |w| - 1 ==> Imports(contexts, w[i], w[i + 1])
  }

  /** Some walk from `src` to `dst` crosses exactly `hops` dependencies. */
  ghost predicate WalkOf(contexts: Contexts, src: Path, dst: Path, hops: nat) {
    exists w :: IsWalk(contexts, w) && |w| == hops + 1 && w[0] == src && w[hops] == dst
  }

  ghost predicate ReachesWithin(contexts: Contexts, src: Path, dst: Path, cap: nat) {
    exists hops: nat :: hops <= cap && WalkOf(contexts, src, dst, hops)
  }

  /** `hops` is the length of a shortest walk from `src` to `dst`. */
  ghost predicate IsDistance(contexts: Contexts, src: Path, dst: Path, hops: nat) {
    && WalkOf(contexts, src, dst, hops)
    && forall k: nat :: WalkOf(contexts, src, dst, k) ==> hops <= k
  }

  lemma WalkStart(contexts: Contexts, src: Path)
    ensures WalkOf(contexts, src, src, 0)
  {
    assert IsWalk(contexts, [src]);
  }

  lemma WalkExtend(contexts: Contexts, src: Path, mid: Path, dst: Path, hops: nat)
    requires WalkOf(contexts, src, mid, hops) && Imports(contexts, mid, dst)
    ensures WalkOf(contexts, src, dst, hops + 1)
  {
    var w :| IsWalk(contexts, w) && |w| == hops + 1 && w[0] == src && w[hops] == mid;
    var w' := w + [dst];
    assert IsWalk(contexts, w');
  }

  /** The last dependency of a walk. */
  lemma WalkLast(contexts: Contexts, src: Path, dst: Path, hops: nat) returns (mid: Path)
    requires WalkOf(contexts, src, dst, hops + 1)
    ensures WalkOf(contexts, src, mid, hops) && Imports(contexts, mid, dst)
  {
    var w :| IsWalk(contexts, w) && |w| == hops + 2 && w[0] == src && w[hops + 1] == dst;
    mid := w[hops];
    assert Imports(contexts, w[hops], w[hops + 1]);
    assert IsWalk(contexts, w[..hops + 1]);
  }

  /** Walks see only the dependency lists, so flags and callers do not matter. */
  lemma {:induction false} WalksAgree(a: Contexts, b: Contexts, src: Path, dst: Path, hops: nat)
    requires forall p, q :: Imports(a, p, q) == Imports(b, p, q)
    ensures WalkOf(a, src, dst, hops) == WalkOf(b, src, dst, hops)
  {
    if WalkOf(a, src, dst, hops) {
      var w :| IsWalk(a, w) && |w| == hops + 1 && w[0] == src && w[hops] == dst;
      assert IsWalk(b, w);
    }
    if WalkOf(b, src, dst, hops) {
      var w :| IsWalk(b, w) && |w| == hops + 1 && w[0] == src && w[hops] == dst;
      assert IsWalk(a, w);
    }
  }

  lemma ReachAgrees(a: Contexts, b: Contexts)
    requires SameDependencies(a, b)
    ensures forall src, dst, cap: nat :: ReachesWithin(a, src, dst, cap) == ReachesWithin(b, src, dst, cap)
  {
    forall src, dst, cap: nat
      ensures ReachesWithin(a, src, dst, cap) == ReachesWithin(b, src, dst, cap)
    {
      forall hops: nat
        ensures WalkOf(a, src, dst, hops) == WalkOf(b, src, dst, hops)
      {
        WalksAgree(a, b, src, dst, hops);
      }
    }
  }

  ghost predicate SameDependencies(a: Contexts, b: Contexts) {
    a.Keys == b.Keys && forall p :: p in a ==> a[p].downstream == b[p].downstream
  }

  // ---------------------------------------------------------------------------
  // The breadth-first pass
  // ---------------------------------------------------------------------------

  /** Every path the search can meet. */
  ghost function Universe(contexts: Contexts, entry: Path): set<Path> {
    {entry} + contexts.Keys + (set p, q | p in contexts && q in contexts[p].downstream :: q)
  }

  /** A search entry: the file and the depth it was queued at. */
  datatype Entry = Entry(path: Path, depth: nat)

  /** What the loop keeps about the queue: depths never decrease from front to back,
      and the back is at most one level below the front. */
  ghost predicate QueueLevelled(queue: seq<Entry>, cap: nat) {
    && (forall i, j :: 0 <= i < j < |queue| ==> queue[i].depth <= queue[j].depth <= queue[i].depth + 1)
    && (forall e :: e in queue ==> e.depth <= cap)
  }

  /** The depth recorded at first pop never exceeds the depth of any entry still queued. */
  ghost predicate SettledBeforeQueue(depthOf: map<Path, nat>, queue: seq<Entry>) {
    forall p, e :: p in depthOf && e in queue ==> depthOf[p] <= e.depth
  }

  /** `q` has been settled at depth at most `d`, or waits in the queue at depth at most `d`. */
  ghost predicate Accounted(depthOf: map<Path, nat>, queue: seq<Entry>, q: Path, d: nat) {
    || (q in depthOf && depthOf[q] <= d)
    || (exists e :: e in queue && e.path == q && e.depth <= d)
  }

  /** Every dependency of a settled file above the cap is accounted for one level deeper. */
  ghost predicate Expanded(contexts: Contexts, depthOf: map<Path, nat>, queue: seq<Entry>, cap: nat) {
    forall p, q :: p in depthOf && depthOf[p] < cap && Imports(contexts, p, q)
      ==> Accounted(depthOf, queue, q, depthOf[p] + 1)
  }

  ghost predicate Sound(contexts: Contexts, entry: Path, depthOf: map<Path, nat>, queue: seq<Entry>, cap: nat) {
    && (forall p :: p in depthOf ==> depthOf[p] <= cap && WalkOf(contexts, entry, p, depthOf[p]))
    && (forall e :: e in queue ==> WalkOf(contexts, entry, e.path, e.depth))
  }

  /** Once the queue is empty every walk within the cap has been followed to its end,
      and no walk is shorter than the recorded depth. */
  lemma {:induction false} SearchComplete(contexts: Contexts, entry: Path, depthOf: map<Path, nat>, cap: nat,
                                          dst: Path, hops: nat)
    requires entry in depthOf && depthOf[entry] == 0
    requires Expanded(contexts, depthOf, [], cap)
    requires hops <= cap && WalkOf(contexts, entry, dst, hops)
    ensures dst in depthOf && depthOf[dst] <= hops
    decreases hops
  {
    if hops == 0 {
      var w :| IsWalk(contexts, w) && |w| == 1 && w[0] == entry && w[0] == dst;
    } else {
      var mid := WalkLast(contexts, entry, dst, hops - 1);
      SearchComplete(contexts, entry, depthOf, cap, mid, hops - 1);
      assert Accounted(depthOf, [], dst, depthOf[mid] + 1);
    }
  }

  lemma SearchExact(contexts: Contexts, entry: Path, depthOf: map<Path, nat>, cap: nat)
    requires entry in depthOf && depthOf[entry] == 0
    requires Expanded(contexts, depthOf, [], cap)
    requires Sound(contexts, entry, depthOf, [], cap)
    ensures forall p :: p in depthOf <==> ReachesWithin(contexts, entry, p, cap)
    ensures forall p :: p in depthOf ==> IsDistance(contexts, entry, p, depthOf[p])
  {
    forall p
      ensures p in depthOf <==> ReachesWithin(contexts, entry, p, cap)
      ensures p in depthOf ==> IsDistance(contexts, entry, p, depthOf[p])
    {
      if p in depthOf {
        forall k: nat | WalkOf(contexts, entry, p, k)
          ensures depthOf[p] <= k
        {
          if k <= cap {
            SearchComplete(contexts, entry, depthOf, cap, p, k);
          }
        }
      }
      if ReachesWithin(contexts, entry, p, cap) {
        var hops: nat :| hops <= cap && WalkOf(contexts, entry, p, hops);
        SearchComplete(contexts, entry, depthOf, cap, p, hops);
      }
    }
  }

  /** Contexts after the files in `flagged` were put on the critical path. */
  function WithFlags(contexts: Contexts, flagged: set<Path>): Contexts {
    map p | p in contexts :: if p in flagged then contexts[p].(onCriticalPath := true) else contexts[p]
  }

  /** What the search loop keeps. */
  ghost predicate SearchInv(contexts: Contexts, entry: Path, depthOf: map<Path, nat>, queue: seq<Entry>, cap: nat) {
    && depthOf.Keys <= Universe(contexts, entry)
    && (forall e :: e in queue ==> e.path in Universe(contexts, entry))
    && QueueLevelled(queue, cap)
    && SettledBeforeQueue(depthOf, queue)
    && Sound(contexts, entry, depthOf, queue, cap)
    && Expanded(contexts, depthOf, queue, cap)
    && (if depthOf == map[] then queue == [Entry(entry, 0)] else entry in depthOf && depthOf[entry] == 0)
  }

  lemma StartInv(contexts: Contexts, entry: Path, cap: nat)
    ensures SearchInv(contexts, entry, map[], [Entry(entry, 0)], cap)
    ensures WithFlags(contexts, {}) == contexts
  {
    WalkStart(contexts, entry);
  }

  lemma FrontBounded(contexts: Contexts, entry: Path, depthOf: map<Path, nat>, queue: seq<Entry>, cap: nat)
    requires queue != [] && SearchInv(contexts, entry, depthOf, queue, cap)
    ensures queue[0].path in Universe(contexts, entry) && queue[0].depth <= cap
  {
  }

  /** Dropping the front entry is harmless when its file is already settled: it was settled no deeper. */
  lemma PopKeepsInv(contexts: Contexts, entry: Path, depthOf: map<Path, nat>, queue: seq<Entry>, cap: nat)
    requires queue != [] && SearchInv(contexts, entry, depthOf, queue, cap)
    requires queue[0].path in depthOf
    ensures SearchInv(contexts, entry, depthOf, queue[1..], cap)
  {
    forall p, q | p in depthOf && depthOf[p] < cap && Imports(contexts, p, q)
      ensures Accounted(depthOf, queue[1..], q, depthOf[p] + 1)
    {
      AccountedAfterPop(depthOf, depthOf, queue, queue[1..], q, depthOf[p] + 1);
    }
  }

  /** An accounted file stays accounted when the front of the queue is settled at its own depth. */
  lemma AccountedAfterPop(before: map<Path, nat>, after: map<Path, nat>, queue: seq<Entry>, queue': seq<Entry>,
                          q: Path, d: nat)
    requires queue != [] && queue[1..] <= queue'
    requires Accounted(before, queue, q, d)
    requires forall p :: p in before ==> p in after && after[p] == before[p]
    requires queue[0].path in after && after[queue[0].path] <= queue[0].depth
    ensures Accounted(after, queue', q, d)
  {
    if !(q in before && before[q] <= d) {
      var e :| e in queue && e.path == q && e.depth <= d;
      if e != queue[0] {
        assert e in queue[1..];
      }
    }
  }

  /** Settling the front entry and queueing its open dependencies keeps every dependency accounted for. */
  lemma SettleKeepsExpanded(contexts: Contexts, depthOf: map<Path, nat>, queue: seq<Entry>, added: seq<Entry>, cap: nat)
    requires queue != [] && queue[0].path !in depthOf && SettledBeforeQueue(depthOf, queue)
    requires Expanded(contexts, depthOf, queue, cap)
    requires queue[0].depth < cap ==> forall q :: Imports(contexts, queue[0].path, q) ==>
      q in depthOf || q == queue[0].path || Entry(q, queue[0].depth + 1) in added
    ensures Expanded(contexts, depthOf[queue[0].path := queue[0].depth], queue[1..] + added, cap)
  {
    var path, depth, queue' := queue[0].path, queue[0].depth, queue[1..] + added;
    var settled := depthOf[path := depth];
    forall p, q | p in settled && settled[p] < cap && Imports(contexts, p, q)
      ensures Accounted(settled, queue', q, settled[p] + 1)
    {
      if p == path {
        if q in depthOf {
          assert depthOf[q] <= queue[0].depth;
        } else if q != path {
          assert Entry(q, depth + 1) in queue';
        }
      } else {
        AccountedAfterPop(depthOf, settled, queue, queue', q, depthOf[p] + 1);
      }
    }
  }

  /** One full step of the search: settle the front entry, queue its open dependencies. */
  lemma SettleKeepsInv(contexts: Contexts, entry: Path, depthOf: map<Path, nat>, queue: seq<Entry>, added: seq<Entry>,
                       cap: nat)
    requires queue != [] && SearchInv(contexts, entry, depthOf, queue, cap)
    requires queue[0].path !in depthOf
    requires forall e :: e in added ==>
      queue[0].depth < cap && e.depth == queue[0].depth + 1 && Imports(contexts, queue[0].path, e.path)
    requires queue[0].depth < cap ==> forall q :: Imports(contexts, queue[0].path, q) ==>
      q in depthOf || q == queue[0].path || Entry(q, queue[0].depth + 1) in added
    ensures SearchInv(contexts, entry, depthOf[queue[0].path := queue[0].depth], queue[1..] + added, cap)
  {
    SettleKeepsExpanded(contexts, depthOf, queue, added, cap);
    SettleKeepsSound(contexts, entry, depthOf, queue, added, cap);
    LevelledAppend(queue[1..], added, queue[0].depth, cap);
  }

  lemma SettleKeepsSound(contexts: Contexts, entry: Path, depthOf: map<Path, nat>, queue: seq<Entry>,
                         added: seq<Entry>, cap: nat)
    requires queue != [] && queue[0].depth <= cap && Sound(contexts, entry, depthOf, queue, cap)
    requires forall e :: e in added ==> e.depth == queue[0].depth + 1 && Imports(contexts, queue[0].path, e.path)
    ensures Sound(contexts, entry, depthOf[queue[0].path := queue[0].depth], queue[1..] + added, cap)
  {
    assert queue[0] in queue;
    forall e | e in queue[1..] + added
      ensures WalkOf(contexts, entry, e.path, e.depth)
    {
      if e in added {
        WalkExtend(contexts, entry, queue[0].path, e.path, queue[0].depth);
      }
    }
  }

  /** Entries one level below the popped one go to the back without breaking the order. */
  lemma LevelledAppend(rest: seq<Entry>, added: seq<Entry>, depth: nat, cap: nat)
    requires QueueLevelled(rest, cap)
    requires forall e :: e in rest ==> depth <= e.depth <= depth + 1
    requires forall e :: e in added ==> depth < cap && e.depth == depth + 1
    ensures QueueLevelled(rest + added, cap)
  {
  }

  lemma FlagOne(contexts: Contexts, flagged: set<Path>, path: Path)
    ensures WithFlags(contexts, flagged + {path}) ==
      var c := WithFlags(contexts, flagged);
      if path in c then c[path := c[path].(onCriticalPath := true)] else c
    ensures forall q :: Imports(WithFlags(contexts, flagged), path, q) == Imports(contexts, path, q)
  {
  }

  /** Owner of the context dictionary that the passes of the scanner update in place. */
  class ContextGraph {
    var contexts: Contexts

    constructor ()
      ensures contexts == map[]
    {
      contexts := map[];
    }

    /** Flags exactly the files within `cap` hops of `entry`; everything else about every
        context stays. The ghost result gives each visited file its true distance. */
    method MarkCriticalPathBfs(entry: Path, cap: nat) returns (ghost depthOf: map<Path, nat>)
      modifies this
      ensures contexts.Keys == old(contexts).Keys
      ensures forall p :: p in contexts ==>
        contexts[p] == old(contexts)[p].(onCriticalPath :=
          old(contexts)[p].onCriticalPath
          || (entry in old(contexts) && ReachesWithin(old(contexts), entry, p, cap)))
      ensures entry in old(contexts) ==>
        && (forall p :: p in depthOf <==> ReachesWithin(old(contexts), entry, p, cap))
        && (forall p :: p in depthOf ==> IsDistance(old(contexts), entry, p, depthOf[p]))
    {
      depthOf := map[];
      if entry !in contexts {
        return;
      }
      depthOf := Search(entry, cap);
      SearchExact(old(contexts), entry, depthOf, cap);
    }

    /** The search loop: FIFO queue, files settled at first pop, depths past the cap never queued. */
    method Search(entry: Path, cap: nat) returns (ghost depthOf: map<Path, nat>)
      modifies this
      ensures contexts == WithFlags(old(contexts), depthOf.Keys)
      ensures SearchInv(old(contexts), entry, depthOf, [], cap)
    {
      hide SearchInv;
      depthOf := map[];
      var queue := [Entry(entry, 0)];
      var visited: set<Path> := {};
      StartInv(contexts, entry, cap);
      while queue != []
        invariant contexts == WithFlags(old(contexts), visited)
        invariant visited == depthOf.Keys
        invariant SearchInv(old(contexts), entry, depthOf, queue, cap)
        decreases Universe(old(contexts), entry) - visited, |queue|
      {
        FrontBounded(old(contexts), entry, depthOf, queue, cap);
        var path, depth := queue[0].path, queue[0].depth;
        if path in visited || depth > cap {
          PopKeepsInv(old(contexts), entry, depthOf, queue, cap);
          queue := queue[1..];
        } else {
          FlagOne(old(contexts), visited, path);
          visited := visited + {path};
          var added := Visit(path, depth, cap, visited);
          SettleKeepsInv(old(contexts), entry, depthOf, queue, added, cap);
          depthOf, queue := depthOf[path := depth], queue[1..] + added;
        }
      }
    }

    /** First visit of a file: flags it and hands back its open dependencies one level deeper. */
    method Visit(path: Path, depth: nat, cap: nat, visited: set<Path>) returns (added: seq<Entry>)
      modifies this
      ensures contexts == if path in old(contexts) then
        old(contexts)[path := old(contexts)[path].(onCriticalPath := true)] else old(contexts)
      ensures forall e :: e in added ==> depth < cap && e.depth == depth + 1 && Imports(old(contexts), path, e.path)
      ensures depth < cap ==> forall q :: Imports(old(contexts), path, q) ==>
        q in visited || Entry(q, depth + 1) in added
    {
      added := [];
      if path in contexts {
        contexts := contexts[path := contexts[path].(onCriticalPath := true)];
        if depth < cap {
          added := Enqueue(contexts[path].downstream, depth + 1, visited);
        }
      }
    }

    /** The dependencies not yet visited, in order, as entries of depth `depth`. */
    method Enqueue(deps: seq<Path>, depth: nat, visited: set<Path>) returns (added: seq<Entry>)
      ensures forall e :: e in added ==> e.depth == depth && e.path in deps && e.path !in visited
      ensures forall q :: q in deps ==> q in visited || Entry(q, depth) in added
    {
      added := [];
      for i := 0 to |deps|
        invariant forall e :: e in added ==> e.depth == depth && e.path in deps && e.path !in visited
        invariant forall q :: q in deps[..i] ==> q in visited || Entry(q, depth) in added
      {
        if deps[i] !in visited {
          added := added + [Entry(deps[i], depth)];
        }
      }
    }
  }
}
