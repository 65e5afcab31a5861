/** The graph precomputations of the scheduler. */
module GraphHelpers {
  import opened Collections
  import opened Graphs
  import opened Options
  import BitSets

  // ---------- in-degrees and the reversed graph ----------

  method ComputeIndegrees(adj: Graph) returns (indeg: array<int>)
    requires ValidGraph(adj)
    ensures fresh(indeg) && indeg.Length == |adj|
    ensures forall v: nat :: v < |adj| ==> indeg[v] == Pending(adj, {}, v)
  {
    indeg := new int[|adj|](_ => 0);
    for u := 0 to |adj|
      invariant forall v: nat :: v < |adj| ==> indeg[v] == PendingBelow(adj, {}, v, u)
    {
      for i := 0 to |adj[u]|
        invariant forall v: nat :: v < |adj| ==>
          indeg[v] == PendingBelow(adj, {}, v, u) + Occurrences(adj[u], i, v)
      {
        var v := adj[u][i];
        indeg[v] := indeg[v] + 1;
      }
    }
  }

  /** rev holds every edge of the first k nodes, turned round, with its multiplicity. */
  ghost predicate ReversedBelow(adj: Graph, rev: seq<seq<nat>>, k: nat)
    requires |rev| == |adj|
  {
    forall u: nat, v: nat {:trigger Occurrences(rev[v], |rev[v]|, u)} :: u < |adj| && v < |adj| ==>
      Occurrences(rev[v], |rev[v]|, u) == if u < k then Multiplicity(adj, u, v) else 0
  }

  lemma {:induction false} OccurrencesOfPrefix(s: seq<nat>, y: nat, k: nat, v: nat)
    requires k <= |s|
    ensures Occurrences(s + [y], k, v) == Occurrences(s, k, v)
  {
    if k > 0 {
      OccurrencesOfPrefix(s, y, k - 1, v);
    }
  }

  lemma OccurrencesAppend(s: seq<nat>, y: nat, v: nat)
    ensures Occurrences(s + [y], |s + [y]|, v) == Occurrences(s, |s|, v) + if y == v then 1 else 0
  {
    OccurrencesOfPrefix(s, y, |s|, v);
  }

  method BuildReverseGraph(adj: Graph) returns (rev: Graph)
    requires ValidGraph(adj)
    ensures |rev| == |adj| && ValidGraph(rev)
    ensures forall u: nat, v: nat :: u < |adj| && v < |adj| ==> Multiplicity(rev, v, u) == Multiplicity(adj, u, v)
  {
    rev := seq(|adj|, _ => []);
    assert forall v: nat :: v < |adj| ==> |rev[v]| == 0;
    for u := 0 to |adj|
      invariant |rev| == |adj| && ValidGraph(rev)
      invariant ReversedBelow(adj, rev, u)
    {
      ghost var before := rev;
      assert forall v: nat :: Occurrences(adj[u], 0, v) == 0;
      for i := 0 to |adj[u]|
        invariant |rev| == |adj| && ValidGraph(rev)
        invariant forall x: nat, v: nat {:trigger Occurrences(rev[v], |rev[v]|, x)} :: x < |adj| && v < |adj| ==>
          Occurrences(rev[v], |rev[v]|, x) ==
          Occurrences(before[v], |before[v]|, x) + if x == u then Occurrences(adj[u], i, v) else 0
      {
        var v := adj[u][i];
        forall x: nat { OccurrencesAppend(rev[v], u, x); }
        rev := rev[v := rev[v] + [u]];
      }
    }
  }

  lemma ReverseEdges(adj: Graph, rev: Graph)
    requires ValidGraph(adj) && ValidGraph(rev) && |rev| == |adj|
    requires forall u: nat, v: nat :: u < |adj| && v < |adj| ==> Multiplicity(rev, v, u) == Multiplicity(adj, u, v)
    ensures forall u: nat, v: nat :: Edge(rev, v, u) <==> Edge(adj, u, v)
  {
    forall u: nat, v: nat
      ensures Edge(rev, v, u) <==> Edge(adj, u, v)
    {
      if u < |adj| && v < |adj| {
        MultiplicityPositive(rev, v, u);
        MultiplicityPositive(adj, u, v);
      }
    }
  }

  // ---------- releasing the edges of a finished node ----------

  /** Takes away the edges that leave u and adds to `ready` each needed node that thereby loses
      its last pending edge, unless it is completed or already chosen. */
  method ReleaseEdges(adj: Graph, indeg: array<int>, u: nat, ghost done: set<nat>,
                      need: set<nat>, completed: set<nat>, chosen: set<nat>, ready: set<nat>)
    returns (next: set<nat>)
    requires ValidGraph(adj) && indeg.Length == |adj| && u < |adj| && u !in done
    requires forall v: nat :: v < |adj| ==> indeg[v] == Pending(adj, done, v)
    modifies indeg
    ensures forall v: nat :: v < |adj| ==> indeg[v] == Pending(adj, done + {u}, v)
    ensures forall v: nat :: v in next <==>
      (v in ready || (v in adj[u] && v in need && v !in completed && v !in chosen && Pending(adj, done + {u}, v) == 0))
  {
    next := ready;
    var k := 0;
    while k < |adj[u]|
      invariant 0 <= k <= |adj[u]|
      invariant forall v: nat :: v < |adj| ==> indeg[v] == Pending(adj, done, v) - Occurrences(adj[u], k, v)
      invariant forall v: nat :: v in next <==>
        (v in ready ||
          (v < |adj| && (exists i :: 0 <= i < k && adj[u][i] == v) && v in need && v !in completed && v !in chosen && indeg[v] == 0))
    {
      var v := adj[u][k];
      PendingFinish(adj, done, u, v);
      OccurrencesGrow(adj[u], k + 1, |adj[u]|, v);
      indeg[v] := indeg[v] - 1;
      if indeg[v] == 0 {
        if v in completed || v !in need || v in chosen {
        } else {
          next := next + {v};
        }
      }
      k := k + 1;
    }
    forall v: nat | v < |adj|
      ensures Pending(adj, done, v) - Multiplicity(adj, u, v) == Pending(adj, done + {u}, v)
    {
      PendingFinish(adj, done, u, v);
    }
  }

  // ---------- the nodes that the targets need ----------

  ghost predicate ReachesSome(adj: Graph, u: nat, targets: set<nat>) {
    exists t :: t in targets && Reaches(adj, u, t)
  }

  /** The targets and everything from which a target can be reached. */
  ghost function AncestorsOrSelf(adj: Graph, targets: set<nat>): set<nat> {
    targets + set u: nat | u < |adj| && ReachesSome(adj, u, targets)
  }

  ghost predicate InRange(adj: Graph, s: set<nat>) {
    forall x :: x in s ==> x < |adj|
  }

  lemma AncestorsClosed(adj: Graph, targets: set<nat>)
    ensures ClosedUnderPredecessors(adj, AncestorsOrSelf(adj, targets))
  {
    forall u: nat, v: nat | v in AncestorsOrSelf(adj, targets) && Edge(adj, u, v)
      ensures u in AncestorsOrSelf(adj, targets)
    {
      EdgeReaches(adj, u, v);
      if v !in targets {
        var t :| t in targets && Reaches(adj, v, t);
        ReachesTransitive(adj, u, v, t);
      }
    }
  }

  /** Any predecessor-closed set holding w holds everything on a path to w. */
  lemma {:induction false} ClosedHoldsPath(adj: Graph, s: set<nat>, p: seq<nat>)
    requires ClosedUnderPredecessors(adj, s) && IsPath(adj, p) && p[|p| - 1] in s
    ensures p[0] in s
    decreases |p|
  {
    if |p| > 1 {
      var q := p[..|p| - 1];
      assert Edge(adj, p[|p| - 2], p[|p| - 1]);
      assert forall i :: 0 <= i < |q| - 1 ==> Edge(adj, p[i], p[i + 1]);
      ClosedHoldsPath(adj, s, q);
    }
  }

  /** AncestorsOrSelf is the least set that holds the targets and is closed under predecessors. */
  lemma AncestorsLeast(adj: Graph, targets: set<nat>, s: set<nat>)
    requires targets <= s && ClosedUnderPredecessors(adj, s)
    ensures AncestorsOrSelf(adj, targets) <= s
  {
    forall u | u in AncestorsOrSelf(adj, targets)
      ensures u in s
    {
      if u !in targets {
        var t :| t in targets && Reaches(adj, u, t);
        var p :| |p| >= 2 && PathFromTo(adj, p, u, t);
        ClosedHoldsPath(adj, s, p);
      }
    }
  }

  lemma QueueFits(adj: Graph, q: seq<nat>)
    requires NoDuplicates(q) && InRange(adj, Elements(q))
    ensures |q| <= |adj|
  {
    ElementsSize(q);
    BoundedSetSize(Elements(q), |adj|);
  }

  /** The breadth-first collection: `bound` is any predecessor-closed set around the targets. */
  method CollectAncestors(adj: Graph, rev: Graph, targets: set<nat>, ghost bound: set<nat>) returns (need: set<nat>)
    requires ValidGraph(rev) && |rev| == |adj| && InRange(adj, targets)
    requires forall u: nat, v: nat :: Edge(rev, v, u) <==> Edge(adj, u, v)
    requires targets <= bound && ClosedUnderPredecessors(adj, bound)
    ensures targets <= need <= bound && ClosedUnderPredecessors(adj, need) && InRange(adj, need)
  {
    need := {};
    var q: seq<nat> := [];
    var rest := targets;
    while rest != {}
      invariant need + rest == targets && need !! rest
      invariant Elements(q) == need && NoDuplicates(q)
    {
      var t :| t in rest;
      rest := rest - {t};
      need := need + {t};
      q := q + [t];
    }
    var i := 0;
    while i < |q|
      invariant 0 <= i <= |q|
      invariant targets <= need <= bound && InRange(adj, need)
      invariant Elements(q) == need && NoDuplicates(q)
      invariant forall j, u: nat :: 0 <= j < i && Edge(rev, q[j], u) ==> u in need
      decreases |adj| - i
    {
      QueueFits(adj, q);
      var t := q[i];
      assert t in need;
      var k := 0;
      while k < |rev[t]|
        invariant 0 <= k <= |rev[t]|
        invariant i < |q| && t == q[i]
        invariant targets <= need <= bound && InRange(adj, need)
        invariant Elements(q) == need && NoDuplicates(q)
        invariant forall j, u: nat :: 0 <= j < i && Edge(rev, q[j], u) ==> u in need
        invariant forall l :: 0 <= l < k ==> rev[t][l] in need
      {
        var p := rev[t][k];
        assert Edge(rev, t, p);
        if p !in need {
          need := need + {p};
          q := q + [p];
        }
        k := k + 1;
      }
      i := i + 1;
    }
  }

  method ComputeNeededNodes(adj: Graph, targets: set<nat>) returns (need: set<nat>)
    requires ValidGraph(adj) && InRange(adj, targets)
    ensures need == AncestorsOrSelf(adj, targets)
    ensures InRange(adj, need)
  {
    var rev := BuildReverseGraph(adj);
    ReverseEdges(adj, rev);
    AncestorsClosed(adj, targets);
    need := CollectAncestors(adj, rev, targets, AncestorsOrSelf(adj, targets));
    AncestorsLeast(adj, targets, need);
  }

  // ---------- topological order ----------

  /** Every predecessor of a listed node is listed before it. */
  ghost predicate PredecessorsFirst(adj: Graph, order: seq<nat>) {
    forall j: nat, u: nat :: j < |order| && Edge(adj, u, order[j]) ==> u in order[..j]
  }

  ghost predicate TopologicalOrder(adj: Graph, order: seq<nat>) {
    && |order| == |adj| && NoDuplicates(order) && InRange(adj, Elements(order))
    && forall i, j :: 0 <= i < |order| && 0 <= j < |order| && Edge(adj, order[i], order[j]) ==> i < j
  }

  /** A duplicate-free list of all nodes in range, predecessors first, is a topological order. */
  lemma PredecessorsFirstIsTopological(adj: Graph, order: seq<nat>)
    requires |order| == |adj| && NoDuplicates(order) && InRange(adj, Elements(order))
    requires PredecessorsFirst(adj, order)
    ensures TopologicalOrder(adj, order)
  {
    forall i, j | 0 <= i < |order| && 0 <= j < |order| && Edge(adj, order[i], order[j])
      ensures i < j
    {
      assert order[i] in order[..j];
      var k :| 0 <= k < j && order[k] == order[i];
    }
  }

  /** Along a path, positions in a topological order strictly increase. */
  lemma {:induction false} PathClimbs(adj: Graph, order: seq<nat>, p: seq<nat>, i: nat, j: nat)
    requires PredecessorsFirst(adj, order) && NoDuplicates(order)
    requires IsPath(adj, p) && |p| >= 2
    requires i < |order| && order[i] == p[0]
    requires j < |order| && order[j] == p[|p| - 1]
    ensures i < j
    decreases |p|
  {
    var u := p[|p| - 2];
    assert Edge(adj, p[|p| - 2], p[|p| - 1]);
    assert u in order[..j];
    var k :| 0 <= k < j && order[k] == u;
    if |p| > 2 {
      var q := p[..|p| - 1];
      assert forall x :: 0 <= x < |q| - 1 ==> Edge(adj, p[x], p[x + 1]);
      PathClimbs(adj, order, q, i, k);
    }
  }

  lemma AllListed(adj: Graph, order: seq<nat>, v: nat)
    requires |order| == |adj| && NoDuplicates(order) && InRange(adj, Elements(order)) && v < |adj|
    ensures v in order
  {
    if v !in order {
      ElementsSize(order + [v]);
      assert Elements(order + [v]) == Elements(order) + {v};
      BoundedSetSize(Elements(order + [v]), |adj|);
    }
  }

  lemma TopologicalIsAcyclic(adj: Graph, order: seq<nat>)
    requires ValidGraph(adj)
    requires |order| == |adj| && NoDuplicates(order) && InRange(adj, Elements(order))
    requires PredecessorsFirst(adj, order)
    ensures Acyclic(adj)
  {
    forall v: nat
      ensures !Reaches(adj, v, v)
    {
      if Reaches(adj, v, v) {
        ReachesInRange(adj, v, v);
        AllListed(adj, order, v);
        var i :| 0 <= i < |order| && order[i] == v;
        var p :| |p| >= 2 && PathFromTo(adj, p, v, v);
        PathClimbs(adj, order, p, i, i);
      }
    }
  }

  ghost predicate HasPredecessorIn(adj: Graph, r: set<nat>, v: nat) {
    exists u: nat :: u in r && Edge(adj, u, v)
  }

  ghost predicate NoSource(adj: Graph, r: set<nat>) {
    forall v {:trigger HasPredecessorIn(adj, r, v)} :: v in r ==> HasPredecessorIn(adj, r, v)
  }

  lemma PathCons(adj: Graph, u: nat, q: seq<nat>)
    requires IsPath(adj, q) && Edge(adj, u, q[0])
    ensures IsPath(adj, [u] + q)
  {
    var p := [u] + q;
    forall i | 0 <= i < |p| - 1
      ensures Edge(adj, p[i], p[i + 1])
    {
      if i > 0 {
        assert Edge(adj, q[i - 1], q[i - 1 + 1]);
      }
    }
  }

  /** The stretch of a path between two visits of the same node is a cycle. */
  lemma RepeatMeansCycle(adj: Graph, p: seq<nat>, i: nat, j: nat)
    requires IsPath(adj, p) && i < j < |p| && p[i] == p[j] < |adj|
    ensures !Acyclic(adj)
  {
    var c := p[i..j + 1];
    forall k | 0 <= k < |c| - 1
      ensures Edge(adj, c[k], c[k + 1])
    {
      assert Edge(adj, p[i + k], p[i + k + 1]);
    }
    assert PathFromTo(adj, c, p[i], p[i]);
    assert Reaches(adj, p[i], p[i]);
  }

  /** Walks k edges backwards without leaving r. */
  lemma {:induction false} WalkBack(adj: Graph, r: set<nat>, k: nat) returns (p: seq<nat>)
    requires ValidGraph(adj) && r != {} && InRange(adj, r)
    requires NoSource(adj, r)
    ensures |p| == k + 1 && IsPath(adj, p) && Elements(p) <= r
  {
    if k == 0 {
      var v :| v in r;
      p := [v];
    } else {
      var q := WalkBack(adj, r, k - 1);
      assert q[0] in Elements(q);
      assert HasPredecessorIn(adj, r, q[0]);
      var u: nat :| u in r && Edge(adj, u, q[0]);
      PathCons(adj, u, q);
      p := [u] + q;
    }
  }

  /** If every node of a non-empty set has a predecessor in the set, there is a cycle. */
  lemma NoSourceMeansCycle(adj: Graph, r: set<nat>)
    requires ValidGraph(adj) && r != {} && InRange(adj, r)
    requires NoSource(adj, r)
    ensures !Acyclic(adj)
  {
    var p := WalkBack(adj, r, |r|);
    if NoDuplicates(p) {
      ElementsSize(p);
      SubsetSize(Elements(p), r);
    }
    var i, j :| 0 <= i < j < |p| && p[i] == p[j];
    assert p[i] in Elements(p);
    RepeatMeansCycle(adj, p, i, j);
  }

  lemma {:induction false} RangeSize(s: set<nat>, n: nat)
    requires forall x: nat :: x < n ==> x in s
    ensures |s| >= n
  {
    if n > 0 {
      var t := s - {n - 1};
      RangeSize(t, n - 1);
    }
  }

  lemma SomeNodeLeft(done: set<nat>, n: nat) returns (v: nat)
    requires |done| < n
    ensures v < n && v !in done
  {
    if forall x: nat :: x < n ==> x in done {
      RangeSize(done, n);
    }
    v :| v < n && v !in done;
  }

  /** Some node has to come first: a non-empty set without an outside edge has a cycle. */
  lemma LeftoverMeansCycle(adj: Graph, done: set<nat>)
    requires ValidGraph(adj) && InRange(adj, done) && |done| < |adj|
    requires forall v: nat {:trigger AllPredecessorsIn(adj, done, v)} :: v < |adj| && v !in done ==>
      !AllPredecessorsIn(adj, done, v)
    ensures !Acyclic(adj)
  {
    var r := set v: nat | v < |adj| && v !in done;
    var w := SomeNodeLeft(done, |adj|);
    assert w in r;
    forall v | v in r
      ensures HasPredecessorIn(adj, r, v)
    {
      assert !AllPredecessorsIn(adj, done, v);
      var u: nat :| Edge(adj, u, v) && u !in done;
      assert u in r;
    }
    NoSourceMeansCycle(adj, r);
  }

  /** A counter that reaches zero while the edges of u are taken away has no edge left at all. */
  lemma CountdownMeansReleased(adj: Graph, done: set<nat>, u: nat, k: nat, v: nat)
    requires u < |adj| && u !in done && k < |adj[u]|
    requires Pending(adj, done, v) == Occurrences(adj[u], k + 1, v)
    ensures AllPredecessorsIn(adj, done + {u}, v)
  {
    PendingFinish(adj, done, u, v);
    OccurrencesGrow(adj[u], k + 1, |adj[u]|, v);
    PendingZero(adj, done + {u}, v);
  }

  lemma ReleasedNodeMayFollow(adj: Graph, q: seq<nat>, order: seq<nat>, v: nat)
    requires PredecessorsFirst(adj, q) && order <= q
    requires AllPredecessorsIn(adj, Elements(order), v)
    ensures PredecessorsFirst(adj, q + [v])
  {
    var q' := q + [v];
    forall j: nat, u: nat | j < |q'| && Edge(adj, u, q'[j])
      ensures u in q'[..j]
    {
      if j < |q| {
        assert u in q[..j] && q'[..j] == q[..j];
      } else {
        assert u in Elements(order) && q'[..j] == q;
      }
    }
  }

  lemma QueueReleased(adj: Graph, done: set<nat>, u: nat, k: nat, v: nat, queue: seq<nat>, order: seq<nat>)
    requires u < |adj| && u !in done && k < |adj[u]| && v < |adj|
    requires Pending(adj, done, v) == Occurrences(adj[u], k + 1, v)
    requires PredecessorsFirst(adj, queue) && order <= queue && Elements(order) == done + {u}
    requires NoDuplicates(queue) && InRange(adj, Elements(queue)) && v !in queue
    ensures PredecessorsFirst(adj, queue + [v])
    ensures NoDuplicates(queue + [v]) && InRange(adj, Elements(queue + [v]))
  {
    CountdownMeansReleased(adj, done, u, k, v);
    ReleasedNodeMayFollow(adj, queue, order, v);
    assert Elements(queue + [v]) == Elements(queue) + {v};
  }

  /** Takes away the edges that leave u, queueing each node that loses its last pending edge. */
  method ReleaseSuccessors(adj: Graph, indeg: array<int>, u: nat, ghost done: set<nat>, ghost order: seq<nat>, q: seq<nat>)
    returns (queue: seq<nat>)
    requires ValidGraph(adj) && indeg.Length == |adj| && u < |adj| && u !in done
    requires Elements(order) == done + {u} && order <= q
    requires NoDuplicates(q) && InRange(adj, Elements(q))
    requires forall v: nat :: v < |adj| ==> indeg[v] == Pending(adj, done, v)
    requires forall v: nat :: v < |adj| ==> (v in q <==> indeg[v] == 0)
    requires PredecessorsFirst(adj, q)
    modifies indeg
    ensures q <= queue
    ensures NoDuplicates(queue) && InRange(adj, Elements(queue))
    ensures forall v: nat :: v < |adj| ==> indeg[v] == Pending(adj, done + {u}, v)
    ensures forall v: nat :: v < |adj| ==> (v in queue <==> indeg[v] == 0)
    ensures PredecessorsFirst(adj, queue)
  {
    queue := q;
    var k := 0;
    while k < |adj[u]|
      invariant 0 <= k <= |adj[u]|
      invariant q <= queue
      invariant NoDuplicates(queue) && InRange(adj, Elements(queue))
      invariant forall v: nat :: v < |adj| ==> indeg[v] == Pending(adj, done, v) - Occurrences(adj[u], k, v)
      invariant forall v: nat :: v < |adj| ==> (v in queue <==> indeg[v] == 0)
      invariant PredecessorsFirst(adj, queue)
    {
      var v := adj[u][k];
      PendingFinish(adj, done, u, v);
      OccurrencesGrow(adj[u], k + 1, |adj[u]|, v);
      indeg[v] := indeg[v] - 1;
      if indeg[v] == 0 {
        QueueReleased(adj, done, u, k, v, queue, order);
        queue := queue + [v];
      }
      k := k + 1;
    }
    forall v: nat { PendingFinish(adj, done, u, v); }
  }

  lemma SourcesFirst(adj: Graph, q: seq<nat>)
    requires forall v: nat :: v in q ==> Pending(adj, {}, v) == 0
    ensures PredecessorsFirst(adj, q)
  {
    forall j: nat, u: nat | j < |q|
      ensures !Edge(adj, u, q[j])
    {
      PendingZero(adj, {}, q[j]);
    }
  }

  /** Kahn's algorithm: `Some` of a topological order, or `None` exactly when there is a cycle. */
  method ToposortAny(adj: Graph) returns (r: Option<seq<nat>>)
    requires ValidGraph(adj)
    ensures r.Some? <==> Acyclic(adj)
    ensures r.Some? ==> TopologicalOrder(adj, r.value)
  {
    var indeg := ComputeIndegrees(adj);
    var q: seq<nat> := [];
    for u := 0 to |adj|
      invariant NoDuplicates(q)
      invariant forall v: nat :: v in q <==> v < u && indeg[v] == 0
    {
      if indeg[u] == 0 {
        q := q + [u];
      }
    }
    SourcesFirst(adj, q);
    var order: seq<nat> := [];
    assert Elements(order) == {};
    var i := 0;
    while i < |q|
      invariant 0 <= i <= |q| && order == q[..i]
      invariant NoDuplicates(q) && InRange(adj, Elements(q))
      invariant forall v: nat :: v < |adj| ==> indeg[v] == Pending(adj, Elements(order), v)
      invariant forall v: nat :: v < |adj| ==> (v in q <==> indeg[v] == 0)
      invariant PredecessorsFirst(adj, q)
      decreases |adj| - i
    {
      QueueFits(adj, q);
      var u := q[i];
      assert u in Elements(q) && q[..i + 1] == q[..i] + [u];
      ghost var done := Elements(order);
      order := order + [u];
      assert Elements(order) == done + {u};
      q := ReleaseSuccessors(adj, indeg, u, done, order, q);
      i := i + 1;
    }
    assert order == q;
    if |order| != |adj| {
      ElementsSize(order);
      QueueFits(adj, order);
      forall v: nat {:trigger AllPredecessorsIn(adj, Elements(order), v)} | v < |adj| && v !in Elements(order)
        ensures !AllPredecessorsIn(adj, Elements(order), v)
      {
        PendingZero(adj, Elements(order), v);
      }
      LeftoverMeansCycle(adj, Elements(order));
      return None;
    }
    TopologicalIsAcyclic(adj, order);
    PredecessorsFirstIsTopological(adj, order);
    return Some(order);
  }

  // ---------- descendant counts ----------

  ghost predicate BitsAre(b: nat, s: set<nat>) {
    forall i: nat :: i in s <==> BitSets.Has(b, i)
  }

  ghost predicate UnderSomeChild(adj: Graph, children: seq<nat>, x: nat) {
    exists u :: u in children && x in DescendantsOrSelf(adj, u)
  }

  ghost function ChildDescendants(adj: Graph, children: seq<nat>): set<nat> {
    set x: nat | x < |adj| && UnderSomeChild(adj, children, x)
  }

  lemma AllChildren(adj: Graph, v: nat)
    requires ValidGraph(adj) && v < |adj|
    ensures ChildDescendants(adj, adj[v]) == Descendants(adj, v)
  {
    forall x: nat | x < |adj|
      ensures UnderSomeChild(adj, adj[v], x) <==> x in Descendants(adj, v)
    {
      DescendantsByChildren(adj, v, x);
    }
  }

  lemma UnderOneMoreChild(adj: Graph, children: seq<nat>, k: nat, x: nat)
    requires k < |children|
    ensures UnderSomeChild(adj, children[..k + 1], x) <==>
            UnderSomeChild(adj, children[..k], x) || x in DescendantsOrSelf(adj, children[k])
  {
    assert children[..k + 1] == children[..k] + [children[k]];
    if UnderSomeChild(adj, children[..k], x) {
      var u :| u in children[..k] && x in DescendantsOrSelf(adj, u);
      assert u in children[..k + 1];
    }
    if x in DescendantsOrSelf(adj, children[k]) {
      assert children[k] in children[..k + 1];
    }
  }

  lemma AddChild(adj: Graph, children: seq<nat>, k: nat, b: nat, c: nat)
    requires k < |children| && children[k] < |adj|
    requires BitsAre(b, ChildDescendants(adj, children[..k]))
    requires BitsAre(c, Descendants(adj, children[k]))
    ensures BitsAre(BitSets.SetBit(BitSets.Or(b, c), children[k]), ChildDescendants(adj, children[..k + 1]))
  {
    var u := children[k];
    forall x: nat
      ensures x in ChildDescendants(adj, children[..k + 1]) <==> BitSets.Has(BitSets.SetBit(BitSets.Or(b, c), u), x)
    {
      BitSets.SetBitHas(BitSets.Or(b, c), u, x);
      BitSets.OrHas(b, c, x);
      UnderOneMoreChild(adj, children, k, x);
    }
  }

  /** The union over the children of v of the child itself and its set. */
  method UniteChildren(adj: Graph, sets: array<nat>, v: nat) returns (b: nat)
    requires ValidGraph(adj) && v < |adj| && sets.Length == |adj|
    requires forall u :: u in adj[v] ==> BitsAre(sets[u], Descendants(adj, u))
    ensures BitsAre(b, Descendants(adj, v))
  {
    b := 0;
    BitSets.EmptyHasNothing();
    var k := 0;
    while k < |adj[v]|
      invariant 0 <= k <= |adj[v]|
      invariant BitsAre(b, ChildDescendants(adj, adj[v][..k]))
    {
      var u := adj[v][k];
      AddChild(adj, adj[v], k, b, sets[u]);
      b := BitSets.Or(b, sets[u]);
      b := BitSets.SetBit(b, u);
      k := k + 1;
    }
    assert adj[v][..k] == adj[v];
    AllChildren(adj, v);
  }

  lemma ChildListedLater(adj: Graph, topo: seq<nat>, i: nat, u: nat)
    requires TopologicalOrder(adj, topo) && i < |topo| && Edge(adj, topo[i], u) && u < |adj|
    ensures u in topo[i + 1..]
  {
    AllListed(adj, topo, u);
    var j :| 0 <= j < |topo| && topo[j] == u;
    assert Edge(adj, topo[i], topo[j]);
    assert u == topo[i + 1..][j - i - 1];
  }

  /** The number of distinct nodes reachable from each node by at least one edge, or `None` when
      the graph has a cycle. */
  method DescendantCounts(adj: Graph) returns (r: Option<seq<nat>>)
    requires ValidGraph(adj)
    ensures r.Some? <==> Acyclic(adj)
    ensures r.Some? ==> |r.value| == |adj| && forall v :: 0 <= v < |adj| ==> r.value[v] == |Descendants(adj, v)|
  {
    var t := ToposortAny(adj);
    if t.None? {
      return None;
    }
    var topo := t.value;
    var sets := new nat[|adj|](_ => 0);
    var i := |adj|;
    while i > 0
      invariant 0 <= i <= |adj|
      invariant forall x :: x in topo[i..] ==> x < |adj| && BitsAre(sets[x], Descendants(adj, x))
    {
      i := i - 1;
      var v := topo[i];
      assert v in Elements(topo) && topo[i..] == [v] + topo[i + 1..];
      assert forall x :: x in topo[i + 1..] ==> BitsAre(sets[x], Descendants(adj, x));
      forall u | u in adj[v]
        ensures u in topo[i + 1..]
      {
        assert Edge(adj, v, u);
        ChildListedLater(adj, topo, i, u);
      }
      var b := UniteChildren(adj, sets, v);
      assert v !in topo[i + 1..];
      sets[v] := b;
    }
    forall v: nat | v < |adj|
      ensures BitsAre(sets[v], Descendants(adj, v))
    {
      AllListed(adj, topo, v);
      assert topo[0..] == topo;
    }
    var out := new nat[|adj|](_ => 0);
    for v := 0 to |adj|
      invariant forall x: nat :: x < |adj| ==> BitsAre(sets[x], Descendants(adj, x))
      invariant forall x :: 0 <= x < v ==> out[x] == |Descendants(adj, x)|
    {
      out[v] := BitSets.PopulationCount(sets[v], Descendants(adj, v));
    }
    return Some(out[..]);
  }
}
