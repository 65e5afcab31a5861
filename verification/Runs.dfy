/** The scheduler as a state machine over what has completed and which chunks are in flight,
    and what holds in every run of it, for every order of completions. */
module Runs {
  import opened Collections
  import opened Graphs
  import opened GraphHelpers
  import opened Chunks

  datatype Config = Config(
    adj: Graph,
    weight: WeightFn,
    targets: set<nat>,
    need: set<nat>,
    desc: seq<nat>,
    cap: int,
    nParallel: nat)

  /** The part of a configuration that single steps rely on. */
  ghost predicate SoundConfig(g: Config) {
    && ValidGraph(g.adj)
    && InRange(g.adj, g.need)
    && |g.desc| == |g.adj|
    && g.cap > 0 && g.nParallel > 0
  }

  /** A configuration as the precomputations deliver it. */
  ghost predicate ValidConfig(g: Config) {
    && SoundConfig(g)
    && Acyclic(g.adj)
    && InRange(g.adj, g.targets)
    && g.need == AncestorsOrSelf(g.adj, g.targets)
    && forall v :: 0 <= v < |g.adj| ==> g.desc[v] == |Descendants(g.adj, v)|
  }

  /** What the scheduler's environment sees: a chunk handed to `run`, or the chunk in one of the
      in-flight slots finishing. */
  datatype Event = Launched(chunk: seq<nat>) | Finished(slot: nat)

  datatype Progress = Progress(completed: set<nat>, flight: seq<seq<nat>>)

  ghost function Step(s: Progress, e: Event): Progress {
    match e
    case Launched(chunk) => s.(flight := s.flight + [chunk])
    case Finished(k) =>
      if k < |s.flight| then
        Progress(s.completed + Elements(s.flight[k]), s.flight[..k] + s.flight[k + 1..])
      else s
  }

  ghost function After(log: seq<Event>): Progress {
    if log == [] then Progress({}, []) else Step(After(log[..|log| - 1]), log[|log| - 1])
  }

  ghost function Context(g: Config, s: Progress): ChunkContext {
    ChunkContext(g.adj, g.weight, g.cap, g.desc, g.need, s.completed)
  }

  ghost predicate IsInFlight(s: Progress, u: nat) {
    exists k :: 0 <= k < |s.flight| && u in s.flight[k]
  }

  /** Needed nodes that are neither finished nor in flight and wait for nothing. */
  ghost function Available(g: Config, s: Progress): set<nat> {
    set v: nat | v in g.need && v !in s.completed && !IsInFlight(s, v) && AllPredecessorsIn(g.adj, s.completed, v)
  }

  ghost predicate Enabled(g: Config, s: Progress, e: Event) {
    match e
    case Launched(chunk) =>
      |s.flight| < g.nParallel && chunk != [] && GreedyChunk(Context(g, s), Available(g, s), chunk)
    case Finished(k) => k < |s.flight|
  }

  /** Every event of the log was enabled when it happened. */
  ghost predicate IsRun(g: Config, log: seq<Event>) {
    log == [] ||
    (IsRun(g, log[..|log| - 1]) && Enabled(g, After(log[..|log| - 1]), log[|log| - 1]))
  }

  lemma RunExtends(g: Config, log: seq<Event>, e: Event)
    requires IsRun(g, log) && Enabled(g, After(log), e)
    ensures IsRun(g, log + [e]) && After(log + [e]) == Step(After(log), e)
  {
    assert (log + [e])[..|log|] == log;
  }

  /** Each event of a run happened at the end of a shorter run. */
  lemma {:induction false} RunPrefix(g: Config, log: seq<Event>, i: nat)
    requires IsRun(g, log) && i < |log|
    ensures IsRun(g, log[..i]) && Enabled(g, After(log[..i]), log[i])
    decreases |log|
  {
    if i < |log| - 1 {
      RunPrefix(g, log[..|log| - 1], i);
      assert log[..|log| - 1][..i] == log[..i];
    }
  }

  // ---------- the invariant ----------

  /** Every predecessor of a member has completed or stands earlier in the chunk. */
  ghost predicate PredecessorsSettled(adj: Graph, completed: set<nat>, chunk: seq<nat>) {
    forall i: nat, u: nat :: i < |chunk| && Edge(adj, u, chunk[i]) ==> u in completed || u in chunk[..i]
  }

  ghost predicate GoodChunk(g: Config, completed: set<nat>, chunk: seq<nat>) {
    && chunk != [] && NoDuplicates(chunk)
    && Elements(chunk) <= g.need && Elements(chunk) !! completed
    && PredecessorsSettled(g.adj, completed, chunk)
    && Weight(g.weight, chunk) <= g.cap
  }

  ghost predicate Inv(g: Config, s: Progress) {
    && s.completed <= g.need && ClosedUnderPredecessors(g.adj, s.completed)
    && |s.flight| <= g.nParallel
    && (forall k :: 0 <= k < |s.flight| ==> GoodChunk(g, s.completed, s.flight[k]))
    && (forall k, l :: 0 <= k < l < |s.flight| ==> Elements(s.flight[k]) !! Elements(s.flight[l]))
  }

  /** An unfinished predecessor of an in-flight node is in flight in the same chunk. */
  lemma ChunkHoldsPredecessors(g: Config, s: Progress, k: nat, u: nat, v: nat)
    requires Inv(g, s) && k < |s.flight| && v in s.flight[k]
    requires Edge(g.adj, u, v) && u !in s.completed
    ensures u in s.flight[k]
  {
    var i :| 0 <= i < |s.flight[k]| && s.flight[k][i] == v;
    assert GoodChunk(g, s.completed, s.flight[k]);
  }

  /** An edge from one in-flight chunk never leads into another one. */
  lemma {:induction false} NoEdgeAcrossChunks(g: Config, s: Progress, k: nat, u: nat, v: nat)
    requires Inv(g, s) && k < |s.flight| && u in s.flight[k]
    requires Edge(g.adj, u, v) && IsInFlight(s, v)
    ensures v in s.flight[k]
  {
    var l :| 0 <= l < |s.flight| && v in s.flight[l];
    assert GoodChunk(g, s.completed, s.flight[k]);
    assert u in Elements(s.flight[k]);
    ChunkHoldsPredecessors(g, s, l, u, v);
    assert u in Elements(s.flight[l]);
  }

  lemma FlightMeansOpen(g: Config, s: Progress)
    requires Inv(g, s) && s.flight != []
    ensures s.completed != g.need
  {
    assert GoodChunk(g, s.completed, s.flight[0]);
    assert s.flight[0][0] in Elements(s.flight[0]);
  }

  /** The lookahead never reaches into another chunk in flight, and it only takes needed nodes
      whose predecessors are settled. */
  lemma {:induction false} GreedyMembers(g: Config, s: Progress, chunk: seq<nat>, i: nat)
    requires Inv(g, s) && GreedySoFar(Context(g, s), Available(g, s), chunk) && i < |chunk|
    ensures chunk[i] in g.need && chunk[i] !in s.completed && !IsInFlight(s, chunk[i])
    ensures AllPredecessorsIn(g.adj, s.completed + Elements(chunk[..i]), chunk[i])
    decreases i
  {
    var c := Context(g, s);
    assert BestFit(c, Available(g, s), chunk[..i], chunk[i]);
    if chunk[i] !in Available(g, s) {
      assert Unlocked(c, chunk[..i], chunk[i]);
      var u :| u in chunk[..i] && Edge(g.adj, u, chunk[i]);
      var j :| 0 <= j < i && chunk[j] == u;
      GreedyMembers(g, s, chunk, j);
      if k :| 0 <= k < |s.flight| && chunk[i] in s.flight[k] {
        ChunkHoldsPredecessors(g, s, k, u, chunk[i]);
      }
    }
  }

  /** The incremental frontier of the lookahead is exactly the set of needed nodes that are
      neither finished, in flight nor chosen already and whose predecessors are all settled. */
  lemma {:induction false} FrontierMeaning(g: Config, s: Progress, chunk: seq<nat>, v: nat)
    requires SoundConfig(g) && Inv(g, s) && GreedySoFar(Context(g, s), Available(g, s), chunk)
    ensures v in Frontier(Context(g, s), Available(g, s), chunk) <==>
            && v in g.need && v !in s.completed && !IsInFlight(s, v) && v !in chunk
            && AllPredecessorsIn(g.adj, s.completed + Elements(chunk), v)
  {
    var c := Context(g, s);
    forall u | u in chunk
      ensures u !in s.completed && !IsInFlight(s, u)
    {
      var i :| 0 <= i < |chunk| && chunk[i] == u;
      GreedyMembers(g, s, chunk, i);
    }
    if Unlocked(c, chunk, v) && IsInFlight(s, v) {
      var u :| u in chunk && Edge(g.adj, u, v);
      var k :| 0 <= k < |s.flight| && v in s.flight[k];
      ChunkHoldsPredecessors(g, s, k, u, v);
    }
    if AllPredecessorsIn(g.adj, s.completed + Elements(chunk), v) && !AllPredecessorsIn(g.adj, s.completed, v) {
      var u: nat :| Edge(g.adj, u, v) && u !in s.completed;
      assert u in chunk;
    }
  }

  lemma LaunchedChunkIsGood(g: Config, s: Progress, chunk: seq<nat>)
    requires Inv(g, s) && Enabled(g, s, Launched(chunk))
    ensures GoodChunk(g, s.completed, chunk)
    ensures forall u :: u in chunk ==> !IsInFlight(s, u)
  {
    GreedyChunkBasics(Context(g, s), Available(g, s), chunk);
    forall i: nat | i < |chunk|
      ensures chunk[i] in g.need && chunk[i] !in s.completed && !IsInFlight(s, chunk[i])
      ensures AllPredecessorsIn(g.adj, s.completed + Elements(chunk[..i]), chunk[i])
    {
      GreedyMembers(g, s, chunk, i);
    }
  }

  lemma InvLaunch(g: Config, s: Progress, chunk: seq<nat>)
    requires Inv(g, s) && Enabled(g, s, Launched(chunk))
    ensures Inv(g, Step(s, Launched(chunk)))
  {
    LaunchedChunkIsGood(g, s, chunk);
    var t := Step(s, Launched(chunk));
    forall k, l | 0 <= k < l < |t.flight|
      ensures Elements(t.flight[k]) !! Elements(t.flight[l])
    {
      if l == |s.flight| {
        forall u | u in Elements(t.flight[k])
          ensures u !in Elements(chunk)
        {
          assert IsInFlight(s, u);
        }
      }
    }
  }

  lemma InvFinish(g: Config, s: Progress, k: nat)
    requires Inv(g, s) && k < |s.flight|
    ensures Inv(g, Step(s, Finished(k)))
  {
    var t := Step(s, Finished(k));
    var chunk := s.flight[k];
    assert GoodChunk(g, s.completed, chunk);
    forall u: nat, v: nat | v in t.completed && Edge(g.adj, u, v)
      ensures u in t.completed
    {
      if v !in s.completed {
        var i :| 0 <= i < |chunk| && chunk[i] == v;
      }
    }
    forall l | 0 <= l < |t.flight|
      ensures GoodChunk(g, t.completed, t.flight[l])
    {
      var m := if l < k then l else l + 1;
      assert t.flight[l] == s.flight[m] && GoodChunk(g, s.completed, s.flight[m]);
    }
  }

  lemma {:induction false} InvHolds(g: Config, log: seq<Event>)
    requires SoundConfig(g) && IsRun(g, log)
    ensures Inv(g, After(log))
    decreases |log|
  {
    if log != [] {
      var front, e := log[..|log| - 1], log[|log| - 1];
      InvHolds(g, front);
      match e
      case Launched(chunk) => InvLaunch(g, After(front), chunk);
      case Finished(k) => InvFinish(g, After(front), k);
    }
  }

  // ---------- what holds in every run ----------

  /** Precedence: when a chunk is launched, every predecessor of each of its nodes has completed
      or stands earlier in that same chunk. */
  lemma Precedence(g: Config, log: seq<Event>, i: nat, j: nat, u: nat)
    requires SoundConfig(g) && IsRun(g, log)
    requires i < |log| && log[i].Launched? && j < |log[i].chunk|
    requires Edge(g.adj, u, log[i].chunk[j])
    ensures u in After(log[..i]).completed || u in log[i].chunk[..j]
  {
    RunPrefix(g, log, i);
    InvHolds(g, log[..i]);
    LaunchedChunkIsGood(g, After(log[..i]), log[i].chunk);
  }

  /** All nodes handed to `run`, in order. */
  ghost function AllLaunched(log: seq<Event>): seq<nat> {
    if log == [] then [] else
      var front := AllLaunched(log[..|log| - 1]);
      match log[|log| - 1]
      case Launched(chunk) => front + chunk
      case Finished(_) => front
  }

  ghost function LaunchCount(log: seq<Event>): nat {
    if log == [] then 0
    else LaunchCount(log[..|log| - 1]) + if log[|log| - 1].Launched? then 1 else 0
  }

  ghost function FinishCount(log: seq<Event>): nat {
    if log == [] then 0
    else FinishCount(log[..|log| - 1]) + if log[|log| - 1].Finished? then 1 else 0
  }

  lemma AppendDistinct(a: seq<nat>, b: seq<nat>)
    requires NoDuplicates(a) && NoDuplicates(b) && forall u :: u in b ==> u !in a
    ensures NoDuplicates(a + b)
  {
    var c := a + b;
    forall i, j | 0 <= i < j < |c|
      ensures c[i] != c[j]
    {
      if i < |a| <= j {
        assert b[j - |a|] in b;
      }
    }
  }

  lemma FlightAfterLaunch(s: Progress, chunk: seq<nat>, u: nat)
    ensures IsInFlight(Step(s, Launched(chunk)), u) <==> IsInFlight(s, u) || u in chunk
  {
    var t := Step(s, Launched(chunk));
    assert t.flight[|s.flight|] == chunk;
    if IsInFlight(s, u) {
      var k :| 0 <= k < |s.flight| && u in s.flight[k];
      assert u in t.flight[k];
    }
  }

  lemma FlightBeforeFinish(s: Progress, k: nat, u: nat)
    requires k < |s.flight|
    ensures IsInFlight(s, u) <==> IsInFlight(Step(s, Finished(k)), u) || u in s.flight[k]
  {
    var t := Step(s, Finished(k));
    if IsInFlight(s, u) && u !in s.flight[k] {
      var m :| 0 <= m < |s.flight| && u in s.flight[m];
      assert u in t.flight[if m < k then m else m - 1];
    }
    if IsInFlight(t, u) {
      var l :| 0 <= l < |t.flight| && u in t.flight[l];
      assert u in s.flight[if l < k then l else l + 1];
    }
  }

  /** At most once and conservation: no node is launched twice, and what was launched is exactly
      what has completed or is in flight. */
  lemma {:induction false} LaunchedAtMostOnce(g: Config, log: seq<Event>)
    requires SoundConfig(g) && IsRun(g, log)
    ensures NoDuplicates(AllLaunched(log))
    ensures forall u :: u in AllLaunched(log) <==> u in After(log).completed || IsInFlight(After(log), u)
    decreases |log|
  {
    if log != [] {
      var front, e := log[..|log| - 1], log[|log| - 1];
      LaunchedAtMostOnce(g, front);
      InvHolds(g, front);
      match e
      case Launched(chunk) =>
        LaunchedChunkIsGood(g, After(front), chunk);
        forall u { FlightAfterLaunch(After(front), chunk, u); }
        AppendDistinct(AllLaunched(front), chunk);
      case Finished(k) =>
        forall u { FlightBeforeFinish(After(front), k, u); }
    }
  }

  /** The priority respects the graph: the tail of an edge always comes before its head. */
  lemma PriorityIsTopological(g: Config, s: Progress, u: nat, v: nat)
    requires ValidConfig(g) && Edge(g.adj, u, v)
    ensures Precedes(Context(g, s), u, v) && !Precedes(Context(g, s), v, u)
  {
    EdgeReaches(g.adj, u, v);
    ReachesInRange(g.adj, u, v);
    DescendantCountDrops(g.adj, u, v);
  }

  lemma {:induction false} CountLaunches(g: Config, log: seq<Event>)
    requires IsRun(g, log)
    ensures LaunchCount(log) <= |AllLaunched(log)|
    ensures FinishCount(log) + |After(log).flight| == LaunchCount(log)
    decreases |log|
  {
    if log != [] {
      CountLaunches(g, log[..|log| - 1]);
    }
  }

  /** At most n chunks are ever launched (so the n-slot completion channel never blocks a sender),
      and no more than that can finish. */
  lemma LaunchesBounded(g: Config, log: seq<Event>)
    requires SoundConfig(g) && IsRun(g, log)
    ensures LaunchCount(log) <= |g.need| <= |g.adj|
    ensures FinishCount(log) + |After(log).flight| == LaunchCount(log)
  {
    LaunchedAtMostOnce(g, log);
    InvHolds(g, log);
    CountLaunches(g, log);
    ElementsSize(AllLaunched(log));
    forall u | u in AllLaunched(log)
      ensures u in g.need
    {
      if IsInFlight(After(log), u) {
        var k :| 0 <= k < |After(log).flight| && u in After(log).flight[k];
        assert GoodChunk(g, After(log).completed, After(log).flight[k]);
        assert u in Elements(After(log).flight[k]);
      }
    }
    SubsetSize(Elements(AllLaunched(log)), g.need);
    BoundedSetSize(g.need, |g.adj|);
  }

  ghost function FlightWeight(weight: WeightFn, flight: seq<seq<nat>>): int {
    if flight == [] then 0
    else FlightWeight(weight, flight[..|flight| - 1]) + Weight(weight, flight[|flight| - 1])
  }

  lemma OneMoreTimes(n: nat, c: int)
    ensures (n + 1) * c == n * c + c
  {
  }

  lemma {:induction false} FlightWeightBound(weight: WeightFn, cap: int, flight: seq<seq<nat>>)
    requires forall k :: 0 <= k < |flight| ==> Weight(weight, flight[k]) <= cap
    ensures FlightWeight(weight, flight) <= |flight| * cap
  {
    if flight != [] {
      var front := flight[..|flight| - 1];
      FlightWeightBound(weight, cap, front);
      OneMoreTimes(|front|, cap);
    }
  }

  lemma ProductGrows(a: nat, b: nat, c: nat)
    requires a <= b
    ensures a * c <= b * c
  {
    assert (b - a) * c >= 0;
  }

  /** In-flight chunks are pairwise disjoint and never weigh more than nParallel * cap together. */
  lemma {:induction false} FlightIsBounded(g: Config, log: seq<Event>)
    requires SoundConfig(g) && IsRun(g, log)
    ensures |After(log).flight| <= g.nParallel
    ensures FlightWeight(g.weight, After(log).flight) <= g.nParallel * g.cap
    ensures forall k, l :: 0 <= k < l < |After(log).flight| ==>
              Elements(After(log).flight[k]) !! Elements(After(log).flight[l])
  {
    InvHolds(g, log);
    var flight := After(log).flight;
    forall k | 0 <= k < |flight|
      ensures Weight(g.weight, flight[k]) <= g.cap
    {
      assert GoodChunk(g, After(log).completed, flight[k]);
    }
    FlightWeightBound(g.weight, g.cap, flight);
    ProductGrows(|flight|, g.nParallel, g.cap);
  }

  /** Coverage: once all targets have completed, exactly the needed nodes have completed and
      nothing is in flight. */
  lemma Coverage(g: Config, log: seq<Event>)
    requires ValidConfig(g) && IsRun(g, log) && g.targets <= After(log).completed
    ensures After(log).completed == AncestorsOrSelf(g.adj, g.targets)
    ensures After(log).flight == []
  {
    InvHolds(g, log);
    var s := After(log);
    AncestorsLeast(g.adj, g.targets, s.completed);
    if s.flight != [] {
      FlightMeansOpen(g, s);
    }
  }

  lemma {:induction false} MostDescendants(g: Config, s: set<nat>) returns (v: nat)
    requires s != {}
    ensures v in s && forall u :: u in s ==> |Descendants(g.adj, u)| <= |Descendants(g.adj, v)|
    decreases s
  {
    v :| v in s;
    if s != {v} {
      var w := MostDescendants(g, s - {v});
      if |Descendants(g.adj, w)| > |Descendants(g.adj, v)| {
        v := w;
      }
    }
  }

  /** Progress: while a target is open and nothing is in flight, some node is available. */
  lemma NoDeadlock(g: Config, log: seq<Event>)
    requires ValidConfig(g) && IsRun(g, log)
    requires !(g.targets <= After(log).completed) && After(log).flight == []
    ensures Available(g, After(log)) != {}
  {
    var s := After(log);
    var open := g.need - s.completed;
    var t :| t in g.targets && t !in s.completed;
    assert t in open;
    var v := MostDescendants(g, open);
    AncestorsClosed(g.adj, g.targets);
    forall u: nat | Edge(g.adj, u, v)
      ensures u in s.completed
    {
      DescendantCountDrops(g.adj, u, v);
      assert u in g.need;
    }
    assert v in Available(g, s);
  }

  lemma {:induction false} WeightNonNegative(weight: WeightFn, chunk: seq<nat>)
    requires forall x :: weight(x) >= 0
    ensures Weight(weight, chunk) >= 0
  {
    if chunk != [] {
      WeightNonNegative(weight, chunk[..|chunk| - 1]);
    }
  }

  lemma {:induction false} WeightCoversMember(weight: WeightFn, chunk: seq<nat>, u: nat)
    requires (forall x :: weight(x) >= 0) && u in chunk
    ensures Weight(weight, chunk) >= weight(u)
  {
    var front := chunk[..|chunk| - 1];
    if u in front {
      WeightCoversMember(weight, front, u);
    }
    WeightNonNegative(weight, front);
  }

  lemma {:induction false} NeverLaunched(g: Config, log: seq<Event>, v: nat)
    requires SoundConfig(g) && IsRun(g, log)
    requires forall u :: g.weight(u) >= 0
    requires g.weight(v) > g.cap
    ensures v !in AllLaunched(log)
    decreases |log|
  {
    if log != [] {
      var front, e := log[..|log| - 1], log[|log| - 1];
      NeverLaunched(g, front, v);
      if e.Launched? && v in e.chunk {
        InvHolds(g, front);
        LaunchedChunkIsGood(g, After(front), e.chunk);
        WeightCoversMember(g.weight, e.chunk, v);
      }
    }
  }

  /** A needed node that alone exceeds the bound is never launched, so the targets never all
      complete (weights being non-negative). */
  lemma {:induction false} HeavyNeverCompletes(g: Config, log: seq<Event>, v: nat)
    requires ValidConfig(g) && IsRun(g, log)
    requires forall u :: g.weight(u) >= 0
    requires v in g.need && g.weight(v) > g.cap
    ensures !(g.targets <= After(log).completed)
  {
    NeverLaunched(g, log, v);
    LaunchedAtMostOnce(g, log);
    if g.targets <= After(log).completed {
      Coverage(g, log);
    }
  }
}
