/** The event-driven scheduler: counters and ready set updated in place, driven by the
    completions of the chunks it has launched. */
module Scheduler {
  import opened Options
  import opened Collections
  import opened Graphs
  import opened GraphHelpers
  import opened Chunks
  import opened Runs

  datatype Params = Params(adj: Graph, weightOf: WeightFn, targets: set<nat>, capPerChunk: int, nParallel: int)

  /** Everything outside the scheduler's control: whether the i-th launch fails (a refused
      reservation or an error from `run`), whether the context is cancelled before the i-th
      completion is received, and which in-flight chunk finishes next. */
  datatype Environment = Environment(
    launchFails: nat -> bool,
    cancelled: nat -> bool,
    nextToFinish: (nat, nat) -> nat)

  datatype Outcome =
    | Done
    | CapacityNotPositive
    | CycleDetected
    | NodesExceedCapacity(nodes: set<nat>)
    | LaunchFailed(chunk: seq<nat>)
    | Cancelled
    | Deadlock

  ghost predicate ValidParams(p: Params) {
    ValidGraph(p.adj) && InRange(p.adj, p.targets)
  }

  /** The run-time configuration that the precomputations produce. */
  ghost function ConfigOf(p: Params): Config
    requires ValidParams(p)
  {
    Config(p.adj, p.weightOf, p.targets, AncestorsOrSelf(p.adj, p.targets),
           seq(|p.adj|, v requires 0 <= v < |p.adj| => |Descendants(p.adj, v)|),
           p.capPerChunk, if p.nParallel <= 0 then 1 else p.nParallel)
  }

  datatype Attempt = Progressed | Nothing | Failed(error: Outcome)

  // ---------- what the code does next ----------

  /** The launch loop can do no more: all slots are taken or nothing is available. */
  ghost predicate Maximal(g: Config, s: Progress) {
    |s.flight| == g.nParallel || Available(g, s) == {}
  }

  /** e happens next after log: launches come first, as long as they succeed; a completion is
      received only when no more can be launched and some target is open, and it is the one that
      the environment chooses. */
  ghost predicate Heeds(g: Config, env: Environment, log: seq<Event>, e: Event) {
    var s := After(log);
    match e
    case Launched(_) => !env.launchFails(|log|)
    case Finished(k) =>
      && Maximal(g, s) && !(g.targets <= s.completed) && !env.cancelled(|log|)
      && s.flight != [] && k == env.nextToFinish(|log|, |s.flight|) % |s.flight|
  }

  /** Every event of the log heeded the environment when it happened. */
  ghost predicate Follows(g: Config, env: Environment, log: seq<Event>) {
    log == [] ||
    (Follows(g, env, log[..|log| - 1]) && Heeds(g, env, log[..|log| - 1], log[|log| - 1]))
  }

  lemma FollowsExtends(g: Config, env: Environment, log: seq<Event>, e: Event)
    requires Follows(g, env, log) && Heeds(g, env, log, e)
    ensures Follows(g, env, log + [e])
  {
    assert (log + [e])[..|log|] == log;
  }

  /** Why a run ends with r after log. */
  ghost predicate Stops(g: Config, log: seq<Event>, env: Environment, r: Outcome) {
    var s := After(log);
    match r
    case Done => Maximal(g, s) && g.targets <= s.completed
    case NodesExceedCapacity(nodes) =>
      && |s.flight| < g.nParallel
      && nodes != {} && nodes == Available(g, s) && forall u :: u in nodes ==> g.weight(u) > g.cap
    case LaunchFailed(chunk) => env.launchFails(|log|) && Enabled(g, s, Launched(chunk))
    case Cancelled => Maximal(g, s) && !(g.targets <= s.completed) && env.cancelled(|log|)
    case _ => false
  }

  // ---------- booking a completed chunk ----------

  /** While the chunk is being booked: outside the chunk, the ready set is right. */
  ghost predicate ReadyOutside(g: Config, s: Progress, chunk: seq<nat>, completed: set<nat>, ready: set<nat>) {
    forall v: nat :: v !in completed && v !in chunk ==>
      (v in ready <==> v in g.need && !IsInFlight(s, v) && AllPredecessorsIn(g.adj, completed, v))
  }

  lemma PromotionKeepsReady(g: Config, s: Progress, k: nat, before: set<nat>, was: set<nat>, u: nat, ready: set<nat>)
    requires Inv(g, s) && k < |s.flight| && u in s.flight[k] && u !in before && u < |g.adj|
    requires ReadyOutside(g, s, s.flight[k], before, was)
    requires forall v: nat :: v in ready <==>
      (v in was || (v in g.adj[u] && v in g.need && v !in before + {u} && AllPredecessorsIn(g.adj, before + {u}, v)))
    ensures ReadyOutside(g, s, s.flight[k], before + {u}, ready)
  {
    forall v: nat | v !in before + {u} && v !in s.flight[k]
      ensures v in ready <==> v in g.need && !IsInFlight(s, v) && AllPredecessorsIn(g.adj, before + {u}, v)
    {
      if Edge(g.adj, u, v) && IsInFlight(s, v) {
        NoEdgeAcrossChunks(g, s, k, u, v);
      }
    }
  }

  lemma FreedSlot(g: Config, s: Progress, k: nat, completed: set<nat>, ready: set<nat>)
    requires Inv(g, s) && k < |s.flight| && completed == s.completed + Elements(s.flight[k])
    requires ReadyOutside(g, s, s.flight[k], completed, ready)
    ensures ready - completed == Available(g, Step(s, Finished(k)))
    ensures s.completed < completed
  {
    forall v: nat | v !in completed
      ensures v in ready <==> v in Available(g, Step(s, Finished(k)))
    {
      FlightBeforeFinish(s, k, v);
    }
    assert GoodChunk(g, s.completed, s.flight[k]);
    assert s.flight[k][0] in Elements(s.flight[k]);
  }

  // ---------- the scheduler ----------

  class State {
    const g: Config
    var indeg: array<int>
    var ready: set<nat>
    var completed: set<nat>
    var inflight: int
    /** The chunks whose completion is still to come. */
    var flight: seq<seq<nat>>
    /** What the environment has seen so far. */
    var log: seq<Event>

    ghost predicate Valid()
      reads this, indeg
    {
      && SoundConfig(g) && IsRun(g, log)
      && After(log) == Progress(completed, flight)
      && inflight == |flight|
      && indeg.Length == |g.adj|
      && (forall v: nat :: v < |g.adj| ==> indeg[v] == Pending(g.adj, completed, v))
      && ready - completed == Available(g, Progress(completed, flight))
    }

    /** The launch loop has done all it can. */
    ghost predicate Settled()
      reads this
    {
      Maximal(g, After(log))
    }

    constructor (g: Config, indeg: array<int>)
      requires SoundConfig(g) && indeg.Length == |g.adj|
      requires forall v: nat :: v < |g.adj| ==> indeg[v] == Pending(g.adj, {}, v)
      ensures Valid() && this.g == g && this.indeg == indeg
      ensures log == []
    {
      this.g := g;
      this.indeg := indeg;
      completed, inflight, flight, log := {}, 0, [], [];
      new;
      ready := {};
      for u := 0 to |g.adj|
        invariant forall v: nat {:trigger v in ready} :: v in ready <==> v < u && indeg[v] == 0 && v in g.need
        invariant unchanged(indeg) && this.indeg == indeg && this.g == g
        invariant completed == {} && inflight == 0 && flight == [] && log == []
      {
        if indeg[u] == 0 && u in g.need {
          ready := ready + {u};
        }
      }
      forall v: nat { PendingZero(g.adj, {}, v); }
    }

    /** Packs and launches one more chunk: `Launched` it, found `Nothing` to launch, or failed. */
    method LaunchOne(env: Environment) returns (r: Attempt)
      requires Valid() && inflight < g.nParallel && Follows(g, env, log)
      modifies `ready, `inflight, `flight, `log
      ensures IsRun(g, log) && Follows(g, env, log)
      ensures r.Progressed? ==> && Valid() && inflight == old(inflight) + 1 && |flight| == |old(flight)| + 1
                                && log == old(log) + [Launched(flight[|flight| - 1])]
      ensures r.Nothing? ==> Valid() && inflight == old(inflight) && log == old(log) && Available(g, After(log)) == {}
      ensures r.Failed? ==> log == old(log) && !r.error.Done? && Stops(g, log, env, r.error)
    {
      InvHolds(g, log);
      ghost var available := Available(g, After(log));
      var cands := Enumerate(ready - completed);
      assert forall u :: u in cands <==> u in Elements(cands);
      if |cands| == 0 {
        assert available == {};
        return Nothing;
      }
      var c := ChunkContext(g.adj, g.weight, g.cap, g.desc, g.need, completed);
      assert c == Context(g, After(log));
      var chunk := BuildChunkDesc(c, cands, indeg);
      if |chunk| == 0 {
        var heavy := set u | u in cands && g.weight(u) > g.cap;
        forall u | u in cands
          ensures u in heavy
        {
          EmptyChunkMeansAllHeavy(c, Elements(cands), u);
        }
        if heavy != {} {
          assert heavy == available;
          return Failed(NodesExceedCapacity(heavy));
        }
        assert available == heavy;
        return Nothing;
      }
      ready := ready - set u | u in chunk;
      assert (set u | u in chunk) == Elements(chunk);
      if env.launchFails(|log|) {
        return Failed(LaunchFailed(chunk));
      }
      FollowsExtends(g, env, log, Launched(chunk));
      NoteLaunch(chunk);
      return Progressed;
    }

    /** Books a chunk that `run` has accepted. */
    method NoteLaunch(chunk: seq<nat>)
      requires SoundConfig(g) && IsRun(g, log) && After(log) == Progress(completed, flight)
      requires Enabled(g, After(log), Launched(chunk)) && inflight == |flight|
      requires indeg.Length == |g.adj|
      requires forall v: nat :: v < |g.adj| ==> indeg[v] == Pending(g.adj, completed, v)
      requires ready - completed == Available(g, Progress(completed, flight)) - Elements(chunk)
      modifies `inflight, `flight, `log
      ensures Valid()
      ensures inflight == old(inflight) + 1 && flight == old(flight) + [chunk] && log == old(log) + [Launched(chunk)]
    {
      ghost var s := Progress(completed, flight);
      RunExtends(g, log, Launched(chunk));
      forall u { FlightAfterLaunch(s, chunk, u); }
      flight := flight + [chunk];
      inflight := inflight + 1;
      log := log + [Launched(chunk)];
    }

    /** Launches chunks until the parallelism bound is reached or nothing is available. */
    method TryLaunch(env: Environment) returns (err: Option<Outcome>)
      requires Valid() && Follows(g, env, log)
      modifies `ready, `inflight, `flight, `log
      ensures IsRun(g, log) && Follows(g, env, log) && old(log) <= log
      ensures err.None? ==> Valid() && Settled()
      ensures completed == old(completed)
      ensures err.Some? ==> !err.value.Done? && Stops(g, log, env, err.value)
    {
      InvHolds(g, log);
      while inflight < g.nParallel
        invariant Valid() && inflight <= g.nParallel
        invariant Follows(g, env, log) && old(log) <= log
        decreases g.nParallel - inflight
      {
        var attempt := LaunchOne(env);
        match attempt
        case Progressed =>
        case Nothing => break;
        case Failed(error) => return Some(error);
      }
      return None;
    }

    /** Marks one node of the chunk in slot k as completed and relaxes its edges. */
    method FinishNode(ghost s: Progress, ghost k: nat, u: nat)
      requires SoundConfig(g) && indeg.Length == |g.adj|
      requires Inv(g, s) && k < |s.flight| && u in s.flight[k] && u < |g.adj| && u !in completed
      requires forall v: nat :: v < |g.adj| ==> indeg[v] == Pending(g.adj, completed, v)
      requires ReadyOutside(g, s, s.flight[k], completed, ready)
      modifies `ready, `completed, indeg
      ensures completed == old(completed) + {u}
      ensures forall v: nat :: v < |g.adj| ==> indeg[v] == Pending(g.adj, completed, v)
      ensures ReadyOutside(g, s, s.flight[k], completed, ready)
    {
      ghost var before, was := completed, ready;
      completed := completed + {u};
      ready := ReleaseEdges(g.adj, indeg, u, before, g.need, completed, {}, ready);
      forall v: nat
        ensures Pending(g.adj, before + {u}, v) == 0 <==> AllPredecessorsIn(g.adj, before + {u}, v)
      {
        PendingZero(g.adj, before + {u}, v);
      }
      PromotionKeepsReady(g, s, k, before, was, u, ready);
    }

    /** Receives the completion of some in-flight chunk. */
    method Receive(env: Environment)
      requires Valid() && Settled() && flight != []
      requires Follows(g, env, log) && !(g.targets <= completed) && !env.cancelled(|log|)
      modifies `ready, `completed, `inflight, `flight, `log, indeg
      ensures Valid() && Follows(g, env, log)
      ensures log == old(log) + [Finished(env.nextToFinish(|old(log)|, |old(flight)|) % |old(flight)|)]
      ensures old(completed) < completed
    {
      InvHolds(g, log);
      var k := env.nextToFinish(|log|, |flight|) % |flight|;
      var chunk := flight[k];
      ghost var s := Progress(completed, flight);
      assert GoodChunk(g, completed, chunk);
      RunExtends(g, log, Finished(k));
      FollowsExtends(g, env, log, Finished(k));
      inflight := inflight - 1;
      flight := flight[..k] + flight[k + 1..];
      log := log + [Finished(k)];
      FinishChunk(s, k, chunk);
      FreedSlot(g, s, k, completed, ready);
    }

    method FinishChunk(ghost s: Progress, ghost k: nat, chunk: seq<nat>)
      requires SoundConfig(g) && indeg.Length == |g.adj|
      requires Inv(g, s) && k < |s.flight| && s.flight[k] == chunk && completed == s.completed
      requires forall v: nat :: v < |g.adj| ==> indeg[v] == Pending(g.adj, completed, v)
      requires ready - completed == Available(g, s)
      modifies `ready, `completed, indeg
      ensures completed == s.completed + Elements(chunk)
      ensures forall v: nat :: v < |g.adj| ==> indeg[v] == Pending(g.adj, completed, v)
      ensures ReadyOutside(g, s, chunk, completed, ready)
    {
      assert GoodChunk(g, s.completed, s.flight[k]);
      forall v: nat | v !in completed && v !in chunk
        ensures v in ready <==> v in g.need && !IsInFlight(s, v) && AllPredecessorsIn(g.adj, completed, v)
      {
        assert v in ready <==> v in ready - completed;
      }
      for i := 0 to |chunk|
        invariant completed == s.completed + Elements(chunk[..i])
        invariant forall v: nat :: v < |g.adj| ==> indeg[v] == Pending(g.adj, completed, v)
        invariant ReadyOutside(g, s, chunk, completed, ready)
      {
        var u := chunk[i];
        assert u in Elements(chunk);
        assert Elements(chunk[..i + 1]) == Elements(chunk[..i]) + {u};
        if u !in completed {
          FinishNode(s, k, u);
        }
      }
      assert chunk[..|chunk|] == chunk;
    }

    /** One turn of the event loop, while some target is open. */
    method AwaitCompletion(env: Environment) returns (stop: Option<Outcome>)
      requires Valid() && ValidConfig(g) && !(g.targets <= completed) && Settled() && Follows(g, env, log)
      modifies this, indeg
      ensures IsRun(g, log) && Follows(g, env, log) && old(log) <= log
      ensures stop.None? ==> Valid() && Settled() && indeg == old(indeg) && old(completed) < completed
      ensures stop.Some? ==> !stop.value.Done? && Stops(g, log, env, stop.value)
    {
      if inflight == 0 {
        var err := TryLaunch(env);
        if err.Some? {
          return err;
        }
        if inflight == 0 {
          NoDeadlock(g, log);
          return Some(Deadlock);
        }
      }
      if env.cancelled(|log|) {
        return Some(Cancelled);
      }
      Receive(env);
      stop := TryLaunch(env);
    }

    /** The event loop: launch, then receive completions until every target has completed. */
    method Run(env: Environment) returns (r: Outcome)
      requires Valid() && ValidConfig(g) && Follows(g, env, log)
      modifies this, indeg
      ensures IsRun(g, log) && Follows(g, env, log) && old(log) <= log
      ensures Stops(g, log, env, r)
    {
      var stop := TryLaunch(env);
      if stop.Some? {
        return stop.value;
      }
      while !(g.targets <= completed)
        invariant Valid() && Settled() && indeg == old(indeg)
        invariant Follows(g, env, log) && old(log) <= log
        decreases g.need - completed
      {
        ghost var before := completed;
        stop := AwaitCompletion(env);
        if stop.Some? {
          return stop.value;
        }
        InvHolds(g, log);
      }
      return Done;
    }
  }

  /** How a call may end, and with which log: validation errors before anything is launched,
      otherwise a run of the state machine that heeds the environment at each event and ends with
      every target completed or for cause. */
  ghost predicate Result(p: Params, env: Environment, r: Outcome, log: seq<Event>)
    requires ValidParams(p)
  {
    if p.capPerChunk <= 0 then r == CapacityNotPositive && log == []
    else if !Acyclic(p.adj) then r == CycleDetected && log == []
    else
      && ValidConfig(ConfigOf(p)) && IsRun(ConfigOf(p), log) && Follows(ConfigOf(p), env, log)
      && Stops(ConfigOf(p), log, env, r)
  }

  /** Runs the ancestors of the targets in weight-bounded chunks. The log is what the environment
      saw: the chunks handed to `run` and the completions received. */
  method ScheduleHeavierStart(p: Params, env: Environment) returns (r: Outcome, log: seq<Event>)
    requires ValidParams(p)
    ensures Result(p, env, r, log)
  {
    if p.capPerChunk <= 0 {
      return CapacityNotPositive, [];
    }
    var nParallel := if p.nParallel <= 0 then 1 else p.nParallel;
    var need := ComputeNeededNodes(p.adj, p.targets);
    var indeg := ComputeIndegrees(p.adj);
    var desc := DescendantCounts(p.adj);
    if desc.None? {
      return CycleDetected, [];
    }
    assert desc.value == ConfigOf(p).desc;
    var s := new State(Config(p.adj, p.weightOf, p.targets, need, desc.value, p.capPerChunk, nParallel), indeg);
    r := s.Run(env);
    log := s.log;
  }

  // ---------- the contract determines what happens ----------

  /** The first node of a chunk that can be launched was available and fits on its own. */
  lemma FirstFits(g: Config, s: Progress, chunk: seq<nat>)
    requires Enabled(g, s, Launched(chunk))
    ensures chunk[0] in Available(g, s) && g.weight(chunk[0]) <= g.cap && !Maximal(g, s)
  {
    assert chunk[..0] == [];
    assert BestFit(Context(g, s), Available(g, s), chunk[..0], chunk[0]);
  }

  /** At most one event can come next. */
  lemma NextEventUnique(g: Config, env: Environment, log: seq<Event>, d: Event, e: Event)
    requires Enabled(g, After(log), d) && Heeds(g, env, log, d)
    requires Enabled(g, After(log), e) && Heeds(g, env, log, e)
    ensures d == e
  {
    var s := After(log);
    if d.Launched? {
      FirstFits(g, s, d.chunk);
      if e.Launched? {
        GreedyChunkUnique(Context(g, s), Available(g, s), d.chunk, e.chunk);
      }
    }
    if e.Launched? {
      FirstFits(g, s, e.chunk);
    }
  }

  /** Where a run may stop, it may not go on. */
  lemma StopIsFinal(g: Config, env: Environment, log: seq<Event>, r: Outcome, e: Event)
    requires Stops(g, log, env, r)
    ensures !(Enabled(g, After(log), e) && Heeds(g, env, log, e))
  {
    if e.Launched? && Enabled(g, After(log), e) {
      FirstFits(g, After(log), e.chunk);
    }
    if r.LaunchFailed? {
      FirstFits(g, After(log), r.chunk);
    }
  }

  /** Where a run may stop, it may stop in one way only. */
  lemma StopUnique(g: Config, env: Environment, log: seq<Event>, q: Outcome, r: Outcome)
    requires Stops(g, log, env, q) && Stops(g, log, env, r)
    ensures q == r
  {
    var s := After(log);
    if q.LaunchFailed? {
      FirstFits(g, s, q.chunk);
      if r.LaunchFailed? {
        GreedyChunkUnique(Context(g, s), Available(g, s), q.chunk, r.chunk);
      }
    }
    if r.LaunchFailed? {
      FirstFits(g, s, r.chunk);
    }
  }

  lemma {:induction false} FollowsPrefix(g: Config, env: Environment, log: seq<Event>, i: nat)
    requires Follows(g, env, log) && i < |log|
    ensures Follows(g, env, log[..i]) && Heeds(g, env, log[..i], log[i])
    decreases |log|
  {
    if i < |log| - 1 {
      FollowsPrefix(g, env, log[..|log| - 1], i);
      assert log[..|log| - 1][..i] == log[..i];
    }
  }

  /** A run of the state machine that heeds the environment. */
  ghost predicate IsCodeRun(g: Config, env: Environment, log: seq<Event>) {
    IsRun(g, log) && Follows(g, env, log)
  }

  lemma EventsAgree(g: Config, env: Environment, a: seq<Event>, b: seq<Event>, i: nat)
    requires IsCodeRun(g, env, a) && IsCodeRun(g, env, b)
    requires i < |a| && i < |b| && a[..i] == b[..i]
    ensures a[i] == b[i]
  {
    RunPrefix(g, a, i);
    RunPrefix(g, b, i);
    FollowsPrefix(g, env, a, i);
    FollowsPrefix(g, env, b, i);
    NextEventUnique(g, env, a[..i], a[i], b[i]);
  }

  lemma {:induction false} RunsAgree(g: Config, env: Environment, a: seq<Event>, b: seq<Event>, i: nat)
    requires IsCodeRun(g, env, a) && IsCodeRun(g, env, b)
    requires i <= |a| && i <= |b|
    ensures a[..i] == b[..i]
    decreases i
  {
    if i > 0 {
      RunsAgree(g, env, a, b, i - 1);
      EventsAgree(g, env, a, b, i - 1);
      assert a[..i] == a[..i - 1] + [a[i - 1]];
      assert b[..i] == b[..i - 1] + [b[i - 1]];
    }
  }

  lemma StoppedRunIsLongest(g: Config, env: Environment, a: seq<Event>, q: Outcome, b: seq<Event>)
    requires IsCodeRun(g, env, a) && Stops(g, a, env, q) && IsCodeRun(g, env, b)
    ensures b <= a
  {
    if |a| < |b| {
      RunsAgree(g, env, a, b, |a|);
      assert b[..|a|] == a;
      RunPrefix(g, b, |a|);
      FollowsPrefix(g, env, b, |a|);
      StopIsFinal(g, env, a, q, b[|a|]);
    } else {
      RunsAgree(g, env, a, b, |b|);
    }
  }

  lemma StoppedRunsSame(g: Config, env: Environment, a: seq<Event>, q: Outcome, b: seq<Event>, r: Outcome)
    requires IsCodeRun(g, env, a) && Stops(g, a, env, q) && IsCodeRun(g, env, b) && Stops(g, b, env, r)
    ensures a == b && q == r
  {
    StoppedRunIsLongest(g, env, a, q, b);
    StoppedRunIsLongest(g, env, b, r, a);
    PrefixesOfEachOther(a, b);
    StopUnique(g, env, a, q, r);
  }

  /** The environment determines what is launched, when, and how the call ends; neither the order
      of a map nor anything else is left open. */
  lemma {:induction false} ResultUnique(p: Params, env: Environment, q: Outcome, a: seq<Event>, r: Outcome, b: seq<Event>)
    requires ValidParams(p) && Result(p, env, q, a) && Result(p, env, r, b)
    ensures q == r && a == b
  {
    if p.capPerChunk > 0 && Acyclic(p.adj) {
      StoppedRunsSame(ConfigOf(p), env, a, q, b, r);
    }
  }

  // ---------- what a result means ----------

  /** On success exactly the ancestors-or-selves of the targets have completed, nothing is in
      flight, and no more chunks were launched or received than there are such nodes. */
  lemma {:induction false} DoneMeansCovered(p: Params, env: Environment, r: Outcome, log: seq<Event>)
    requires ValidParams(p) && Result(p, env, r, log) && r.Done?
    ensures After(log) == Progress(AncestorsOrSelf(p.adj, p.targets), [])
    ensures FinishCount(log) == LaunchCount(log) <= |AncestorsOrSelf(p.adj, p.targets)|
  {
    Coverage(ConfigOf(p), log);
    LaunchesBounded(ConfigOf(p), log);
  }

  /** Progress: on an acyclic graph, if launches succeed, nothing is cancelled and every needed
      node fits a chunk on its own, the call ends with success; it never ends in the deadlock
      error, whatever the environment does. */
  lemma {:induction false} ScheduleProgress(p: Params, env: Environment, r: Outcome, log: seq<Event>)
    requires ValidParams(p) && Result(p, env, r, log)
    ensures r != Deadlock
    ensures p.capPerChunk > 0 && Acyclic(p.adj)
      && (forall i: nat :: !env.launchFails(i)) && (forall i: nat :: !env.cancelled(i))
      && (forall u :: u in AncestorsOrSelf(p.adj, p.targets) ==> p.weightOf(u) <= p.capPerChunk)
      ==> r == Done
  {
    if p.capPerChunk > 0 && Acyclic(p.adj) && r.NodesExceedCapacity? {
      var u :| u in r.nodes;
      assert u in ConfigOf(p).need && p.weightOf(u) > p.capPerChunk;
    }
  }

  /** With a needed node that is too heavy for any chunk, the call never succeeds. */
  lemma {:induction false} HeavyNodeBlocksSuccess(p: Params, env: Environment, r: Outcome, log: seq<Event>, v: nat)
    requires ValidParams(p) && Result(p, env, r, log)
    requires forall u :: p.weightOf(u) >= 0
    requires v in AncestorsOrSelf(p.adj, p.targets) && p.weightOf(v) > p.capPerChunk
    ensures r != Done
  {
    if p.capPerChunk > 0 && Acyclic(p.adj) {
      HeavyNeverCompletes(ConfigOf(p), log, v);
    }
  }

  /** A chunk whose launch failed had been packed by the same rules: its nodes had never been
      launched before and their predecessors were settled. */
  lemma {:induction false} FailedChunkWasSafe(p: Params, env: Environment, r: Outcome, log: seq<Event>, j: nat, u: nat)
    requires ValidParams(p) && Result(p, env, r, log) && r.LaunchFailed? && j < |r.chunk|
    ensures r.chunk[j] !in AllLaunched(log)
    ensures Edge(p.adj, u, r.chunk[j]) ==> u in After(log).completed || u in r.chunk[..j]
  {
    InvHolds(ConfigOf(p), log);
    LaunchedChunkIsGood(ConfigOf(p), After(log), r.chunk);
    LaunchedAtMostOnce(ConfigOf(p), log);
    assert r.chunk[j] in Elements(r.chunk);
  }

  // ---------- a result in terms of the parameters ----------

  /** A node that could be launched once the nodes in `taken` and `chosen` have been launched, with
      those in `settled` and `chosen` taken as finished. */
  ghost predicate Waiting(p: Params, taken: seq<nat>, settled: set<nat>, chosen: seq<nat>, v: nat)
    requires ValidParams(p)
  {
    && v in AncestorsOrSelf(p.adj, p.targets) && v !in taken && v !in chosen
    && forall u: nat :: Edge(p.adj, u, v) ==> u in settled || u in chosen
  }

  lemma PrefixIsRun(p: Params, env: Environment, r: Outcome, log: seq<Event>, i: nat)
    requires ValidParams(p) && Result(p, env, r, log) && i <= |log| && log != []
    ensures p.capPerChunk > 0 && Acyclic(p.adj) && ValidConfig(ConfigOf(p))
    ensures IsRun(ConfigOf(p), log[..i]) && Inv(ConfigOf(p), After(log[..i]))
    ensures i < |log| ==> Enabled(ConfigOf(p), After(log[..i]), log[i]) && Heeds(ConfigOf(p), env, log[..i], log[i])
  {
    var g := ConfigOf(p);
    if i < |log| {
      RunPrefix(g, log, i);
      FollowsPrefix(g, env, log, i);
    } else {
      assert log[..i] == log;
    }
    InvHolds(g, log[..i]);
  }

  /** At every moment at most max(1, nParallel) chunks are in flight, and together they weigh at
      most that many times the bound. */
  lemma {:induction false} ParallelismBounded(p: Params, env: Environment, r: Outcome, log: seq<Event>, i: nat)
    requires ValidParams(p) && Result(p, env, r, log) && i <= |log| && p.capPerChunk > 0
    ensures var m := if p.nParallel > 1 then p.nParallel else 1;
      && |After(log[..i]).flight| <= m
      && FlightWeight(p.weightOf, After(log[..i]).flight) <= m * p.capPerChunk
  {
    if log == [] {
      ProductGrows(0, if p.nParallel > 1 then p.nParallel else 1, p.capPerChunk);
    } else {
      PrefixIsRun(p, env, r, log, i);
      FlightIsBounded(ConfigOf(p), log[..i]);
    }
  }

  /** The nodes that are available are those that wait for nothing. */
  lemma AvailableAreWaiting(p: Params, log: seq<Event>, v: nat)
    requires ValidParams(p) && SoundConfig(ConfigOf(p)) && IsRun(ConfigOf(p), log)
    ensures v in Available(ConfigOf(p), After(log)) <==> Waiting(p, AllLaunched(log), After(log).completed, [], v)
  {
    LaunchedAtMostOnce(ConfigOf(p), log);
  }

  /** A completion is awaited only with max(1, nParallel) chunks in flight or with no needed node
      left that has not been launched and whose predecessors have all finished. */
  lemma {:induction false} ParallelismUsed(p: Params, env: Environment, r: Outcome, log: seq<Event>, i: nat)
    requires ValidParams(p) && Result(p, env, r, log) && i < |log| && log[i].Finished?
    ensures var m := if p.nParallel > 1 then p.nParallel else 1;
      || |After(log[..i]).flight| == m
      || forall v :: !Waiting(p, AllLaunched(log[..i]), After(log[..i]).completed, [], v)
  {
    PrefixIsRun(p, env, r, log, i);
    forall v
      ensures v in Available(ConfigOf(p), After(log[..i])) <==>
              Waiting(p, AllLaunched(log[..i]), After(log[..i]).completed, [], v)
    {
      AvailableAreWaiting(p, log[..i], v);
    }
  }

  lemma FrontierIsWaiting(p: Params, log: seq<Event>, chosen: seq<nat>, v: nat)
    requires ValidParams(p) && SoundConfig(ConfigOf(p)) && IsRun(ConfigOf(p), log) && Inv(ConfigOf(p), After(log))
    requires var g, s := ConfigOf(p), After(log); GreedySoFar(Context(g, s), Available(g, s), chosen)
    ensures var g, s := ConfigOf(p), After(log);
      v in Frontier(Context(g, s), Available(g, s), chosen) <==> Waiting(p, AllLaunched(log), s.completed, chosen, v)
  {
    LaunchedAtMostOnce(ConfigOf(p), log);
    FrontierMeaning(ConfigOf(p), After(log), chosen, v);
  }

  lemma GreedyPrefix(c: ChunkContext, cands: set<nat>, chunk: seq<nat>, j: nat)
    requires GreedySoFar(c, cands, chunk) && j <= |chunk|
    ensures GreedySoFar(c, cands, chunk[..j])
  {
    forall i | 0 <= i < j
      ensures BestFit(c, cands, chunk[..j][..i], chunk[..j][i])
    {
      assert chunk[..j][..i] == chunk[..i];
    }
  }

  /** Each member of a launched chunk waited for nothing but earlier members and finished nodes, and
      fitted. Any other such node that fitted has fewer descendants, or as many and is heavier, or
      agrees in both and has the larger id. */
  lemma {:induction false} LaunchedMember(p: Params, env: Environment, r: Outcome, log: seq<Event>, i: nat, j: nat, x: nat)
    requires ValidParams(p) && Result(p, env, r, log) && i < |log| && log[i].Launched? && j < |log[i].chunk|
    ensures var u, before := log[i].chunk[j], log[i].chunk[..j];
      var taken, settled := AllLaunched(log[..i]), After(log[..i]).completed;
      && Waiting(p, taken, settled, before, u) && Weight(p.weightOf, before) + p.weightOf(u) <= p.capPerChunk
      && (Waiting(p, taken, settled, before, x) && Weight(p.weightOf, before) + p.weightOf(x) <= p.capPerChunk && x != u ==>
          var du, dx := |Descendants(p.adj, u)|, |Descendants(p.adj, x)|;
          du > dx || (du == dx && p.weightOf(u) < p.weightOf(x)) || (du == dx && p.weightOf(u) == p.weightOf(x) && u < x))
  {
    PrefixIsRun(p, env, r, log, i);
    var g, s, chunk := ConfigOf(p), After(log[..i]), log[i].chunk;
    var c, cands := Context(g, s), Available(g, s);
    GreedyPrefix(c, cands, chunk, j);
    FrontierIsWaiting(p, log[..i], chunk[..j], chunk[j]);
    FrontierIsWaiting(p, log[..i], chunk[..j], x);
    MemberFitted(c, cands, chunk, j);
    if Waiting(p, AllLaunched(log[..i]), s.completed, chunk[..j], x) && Weight(g.weight, chunk[..j]) + g.weight(x) <= g.cap && x != chunk[j] {
      MemberComesFirst(c, cands, chunk, j, x);
    }
  }

  /** A launched chunk is not empty, and no node that waits for nothing else would still fit. */
  lemma {:induction false} LaunchedChunkIsFull(p: Params, env: Environment, r: Outcome, log: seq<Event>, i: nat, x: nat)
    requires ValidParams(p) && Result(p, env, r, log) && i < |log| && log[i].Launched?
    ensures log[i].chunk != []
    ensures Waiting(p, AllLaunched(log[..i]), After(log[..i]).completed, log[i].chunk, x) ==>
              Weight(p.weightOf, log[i].chunk) + p.weightOf(x) > p.capPerChunk
  {
    PrefixIsRun(p, env, r, log, i);
    FrontierIsWaiting(p, log[..i], log[i].chunk, x);
  }

  /** Launches are attempted and completions awaited as the environment has it: nothing follows a
      failed launch or a cancellation, and the completion is the one it picks. */
  lemma {:induction false} EnvironmentHeeded(p: Params, env: Environment, r: Outcome, log: seq<Event>, i: nat)
    requires ValidParams(p) && Result(p, env, r, log) && i < |log|
    ensures log[i].Launched? ==> !env.launchFails(i)
    ensures log[i].Finished? ==>
      var s := After(log[..i]);
      && !env.cancelled(i) && !(p.targets <= s.completed)
      && s.flight != [] && log[i].slot == env.nextToFinish(i, |s.flight|) % |s.flight|
  {
    PrefixIsRun(p, env, r, log, i);
  }

  /** What each outcome says about the run. */
  lemma {:induction false} OutcomeMeans(p: Params, env: Environment, r: Outcome, log: seq<Event>)
    requires ValidParams(p) && Result(p, env, r, log)
    ensures r.CapacityNotPositive? <==> p.capPerChunk <= 0
    ensures r.CycleDetected? <==> p.capPerChunk > 0 && !Acyclic(p.adj)
    ensures r.CapacityNotPositive? || r.CycleDetected? ==> log == []
    ensures r.Done? ==> p.targets <= After(log).completed
    ensures r.Cancelled? ==>
      && env.cancelled(|log|) && !(p.targets <= After(log).completed)
      && (|After(log).flight| == (if p.nParallel > 1 then p.nParallel else 1) ||
          forall v :: !Waiting(p, AllLaunched(log), After(log).completed, [], v))
    ensures r.LaunchFailed? ==> env.launchFails(|log|)
    ensures r.NodesExceedCapacity? ==> r.nodes != {} && forall v ::
      && (v in r.nodes <==> Waiting(p, AllLaunched(log), After(log).completed, [], v))
      && (v in r.nodes ==> p.weightOf(v) > p.capPerChunk)
  {
    if r.NodesExceedCapacity? || r.Cancelled? {
      forall v
        ensures v in Available(ConfigOf(p), After(log)) <==> Waiting(p, AllLaunched(log), After(log).completed, [], v)
      {
        AvailableAreWaiting(p, log, v);
      }
    }
  }
}
