/** Directed graphs as adjacency lists: `adj[u]` lists the heads of the edges leaving `u`.
    Parallel edges are allowed; an edge u->v means that u must finish before v. */
module Graphs {
  import opened Collections

  type Graph = seq<seq<nat>>

  /** Every edge ends at a node of the graph. */
  ghost predicate ValidGraph(adj: Graph) {
    forall u, i :: 0 <= u < |adj| && 0 <= i < |adj[u]| ==> adj[u][i] < |adj|
  }

  ghost predicate Edge(adj: Graph, u: nat, v: nat) {
    u < |adj| && v in adj[u]
  }

  // ---------- paths, reachability, cycles ----------

  ghost predicate IsPath(adj: Graph, p: seq<nat>) {
    |p| > 0 && p[0] < |adj| && forall i :: 0 <= i < |p| - 1 ==> Edge(adj, p[i], p[i + 1])
  }

  ghost predicate PathFromTo(adj: Graph, p: seq<nat>, u: nat, v: nat) {
    IsPath(adj, p) && p[0] == u && p[|p| - 1] == v
  }

  /** v can be reached from u along one or more edges. */
  ghost predicate Reaches(adj: Graph, u: nat, v: nat) {
    exists p :: |p| >= 2 && PathFromTo(adj, p, u, v)
  }

  ghost predicate Acyclic(adj: Graph) {
    forall v: nat :: !Reaches(adj, v, v)
  }

  ghost function Descendants(adj: Graph, v: nat): set<nat> {
    set u: nat | u < |adj| && Reaches(adj, v, u)
  }

  ghost function DescendantsOrSelf(adj: Graph, v: nat): set<nat> {
    {v} + Descendants(adj, v)
  }

  ghost predicate ClosedUnderPredecessors(adj: Graph, s: set<nat>) {
    forall u: nat, v: nat :: v in s && Edge(adj, u, v) ==> u in s
  }

  lemma EdgeReaches(adj: Graph, u: nat, v: nat)
    requires Edge(adj, u, v)
    ensures Reaches(adj, u, v)
  {
    assert PathFromTo(adj, [u, v], u, v);
  }

  lemma ReachesTransitive(adj: Graph, u: nat, v: nat, w: nat)
    requires Reaches(adj, u, v) && Reaches(adj, v, w)
    ensures Reaches(adj, u, w)
  {
    var p :| |p| >= 2 && PathFromTo(adj, p, u, v);
    var q :| |q| >= 2 && PathFromTo(adj, q, v, w);
    var r := p + q[1..];
    forall i | 0 <= i < |r| - 1
      ensures Edge(adj, r[i], r[i + 1])
    {
      if i < |p| - 1 {
        assert Edge(adj, p[i], p[i + 1]);
      } else {
        assert Edge(adj, q[i - |p| + 1], q[i - |p| + 2]);
      }
    }
    assert PathFromTo(adj, r, u, w);
  }

  /** A path of one or more edges starts with an edge. */
  lemma ReachesFirstEdge(adj: Graph, u: nat, w: nat) returns (v: nat)
    requires Reaches(adj, u, w)
    ensures Edge(adj, u, v) && (v == w || Reaches(adj, v, w))
    ensures ValidGraph(adj) ==> v < |adj|
  {
    var p :| |p| >= 2 && PathFromTo(adj, p, u, w);
    v := p[1];
    assert Edge(adj, p[0], p[1]);
    if |p| > 2 {
      assert Edge(adj, p[1], p[2]);
      var q := p[1..];
      forall i | 0 <= i < |q| - 1
        ensures Edge(adj, q[i], q[i + 1])
      {
        assert Edge(adj, p[i + 1], p[i + 2]);
      }
      assert PathFromTo(adj, q, v, w);
    }
  }

  lemma ReachesInRange(adj: Graph, u: nat, w: nat)
    requires ValidGraph(adj) && Reaches(adj, u, w)
    ensures u < |adj| && w < |adj|
  {
    var p :| |p| >= 2 && PathFromTo(adj, p, u, w);
    assert Edge(adj, p[|p| - 2], p[|p| - 1]);
  }

  /** The descendants of v are its children together with the descendants of its children. */
  lemma DescendantsByChildren(adj: Graph, v: nat, x: nat)
    requires ValidGraph(adj) && v < |adj|
    ensures x in Descendants(adj, v) <==> exists u :: u in adj[v] && x in DescendantsOrSelf(adj, u)
  {
    if x in Descendants(adj, v) {
      var u := ReachesFirstEdge(adj, v, x);
      assert x in DescendantsOrSelf(adj, u);
    }
    if u :| u in adj[v] && x in DescendantsOrSelf(adj, u) {
      EdgeReaches(adj, v, u);
      if x != u {
        ReachesTransitive(adj, v, u, x);
      }
      ReachesInRange(adj, v, x);
    }
  }

  /** Along an edge of an acyclic graph the number of descendants strictly drops, so listing
      nodes by descending count is a topological order. */
  lemma DescendantCountDrops(adj: Graph, u: nat, v: nat)
    requires ValidGraph(adj) && Acyclic(adj) && Edge(adj, u, v)
    ensures |Descendants(adj, u)| > |Descendants(adj, v)|
  {
    EdgeReaches(adj, u, v);
    ReachesInRange(adj, u, v);
    forall x | x in Descendants(adj, v)
      ensures x in Descendants(adj, u)
    {
      ReachesTransitive(adj, u, v, x);
    }
    assert v in Descendants(adj, u) && v !in Descendants(adj, v);
    ProperSubsetSmaller(Descendants(adj, v), Descendants(adj, u));
  }

  // ---------- counting the edges that still hold a node back ----------

  /** How often v occurs among the first k elements of s. */
  ghost function Occurrences(s: seq<nat>, k: nat, v: nat): nat
    requires k <= |s|
  {
    if k == 0 then 0 else Occurrences(s, k - 1, v) + if s[k - 1] == v then 1 else 0
  }

  ghost function Multiplicity(adj: Graph, u: nat, v: nat): nat
    requires u < |adj|
  {
    Occurrences(adj[u], |adj[u]|, v)
  }

  lemma {:induction false} OccursSome(s: seq<nat>, k: nat, v: nat)
    requires k <= |s|
    ensures Occurrences(s, k, v) > 0 <==> exists i :: 0 <= i < k && s[i] == v
  {
    if k > 0 {
      OccursSome(s, k - 1, v);
    }
  }

  lemma {:induction false} OccurrencesGrow(s: seq<nat>, k: nat, l: nat, v: nat)
    requires k <= l <= |s|
    ensures Occurrences(s, k, v) <= Occurrences(s, l, v)
    decreases l
  {
    if k < l {
      OccurrencesGrow(s, k, l - 1, v);
    }
  }

  lemma MultiplicityPositive(adj: Graph, u: nat, v: nat)
    requires u < |adj|
    ensures Multiplicity(adj, u, v) > 0 <==> Edge(adj, u, v)
  {
    OccursSome(adj[u], |adj[u]|, v);
  }

  /** Edges into v, with multiplicity, that leave one of the first k nodes outside `done`. */
  ghost function PendingBelow(adj: Graph, done: set<nat>, v: nat, k: nat): nat
    requires k <= |adj|
  {
    if k == 0 then 0
    else PendingBelow(adj, done, v, k - 1) + if k - 1 in done then 0 else Multiplicity(adj, k - 1, v)
  }

  /** Edges into v, with multiplicity, that leave a node outside `done`. */
  ghost function Pending(adj: Graph, done: set<nat>, v: nat): nat {
    PendingBelow(adj, done, v, |adj|)
  }

  ghost predicate AllPredecessorsIn(adj: Graph, done: set<nat>, v: nat) {
    forall u: nat :: Edge(adj, u, v) ==> u in done
  }

  lemma {:induction false} PendingBelowZero(adj: Graph, done: set<nat>, v: nat, k: nat)
    requires k <= |adj|
    ensures PendingBelow(adj, done, v, k) == 0 <==> forall u: nat :: u < k && Edge(adj, u, v) ==> u in done
  {
    if k > 0 {
      PendingBelowZero(adj, done, v, k - 1);
      MultiplicityPositive(adj, k - 1, v);
    }
  }

  /** The counter is zero exactly when nothing holds the node back. */
  lemma PendingZero(adj: Graph, done: set<nat>, v: nat)
    ensures Pending(adj, done, v) == 0 <==> AllPredecessorsIn(adj, done, v)
  {
    PendingBelowZero(adj, done, v, |adj|);
  }

  lemma {:induction false} PendingBelowFinish(adj: Graph, done: set<nat>, u: nat, v: nat, k: nat)
    requires k <= |adj| && u < |adj| && u !in done
    ensures PendingBelow(adj, done, v, k) ==
            PendingBelow(adj, done + {u}, v, k) + if u < k then Multiplicity(adj, u, v) else 0
  {
    if k > 0 {
      PendingBelowFinish(adj, done, u, v, k - 1);
    }
  }

  /** Finishing u releases exactly the edges u->v. */
  lemma PendingFinish(adj: Graph, done: set<nat>, u: nat, v: nat)
    requires u < |adj| && u !in done
    ensures Pending(adj, done, v) == Pending(adj, done + {u}, v) + Multiplicity(adj, u, v)
  {
    PendingBelowFinish(adj, done, u, v, |adj|);
  }
}
