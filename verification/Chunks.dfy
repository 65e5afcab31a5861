/** Packing ready nodes into one chunk under a weight bound, with lookahead inside the chunk. */
module Chunks {
  import opened Collections
  import opened Graphs
  import opened GraphHelpers
  import Sorting

  type WeightFn = nat -> int

  datatype ChunkContext = ChunkContext(
    adj: Graph,
    weight: WeightFn,
    cap: int,
    desc: seq<nat>,
    need: set<nat>,
    completed: set<nat>)

  ghost predicate ValidContext(c: ChunkContext) {
    && ValidGraph(c.adj)
    && |c.desc| == |c.adj|
    && (forall x :: x in c.need ==> x < |c.adj|)
  }

  // ---------- priority ----------

  function Desc(c: ChunkContext, u: nat): nat {
    if u < |c.desc| then c.desc[u] else 0
  }

  /** More descendants first, then lighter, then smaller id. */
  predicate Precedes(c: ChunkContext, a: nat, b: nat) {
    if Desc(c, a) != Desc(c, b) then Desc(c, a) > Desc(c, b)
    else if c.weight(a) != c.weight(b) then c.weight(a) < c.weight(b)
    else a < b
  }

  function ByPriority(c: ChunkContext): (nat, nat) -> bool {
    (a: nat, b: nat) => !Precedes(c, b, a)
  }

  lemma PriorityIsTotal(c: ChunkContext)
    ensures Sorting.TotalOrder(ByPriority(c))
  {
  }

  // ---------- what a greedy chunk is ----------

  function Weight(weight: WeightFn, chunk: seq<nat>): int {
    if chunk == [] then 0 else Weight(weight, chunk[..|chunk| - 1]) + weight(chunk[|chunk| - 1])
  }

  /** A needed node that becomes free only through the nodes of the chunk so far. */
  ghost predicate Unlocked(c: ChunkContext, prefix: seq<nat>, v: nat) {
    && v in c.need && v !in c.completed
    && (exists u :: u in prefix && Edge(c.adj, u, v))
    && AllPredecessorsIn(c.adj, c.completed + Elements(prefix), v)
  }

  /** The nodes that may come next once `prefix` has been chosen. */
  ghost function Frontier(c: ChunkContext, cands: set<nat>, prefix: seq<nat>): set<nat> {
    set v: nat | v < |c.adj| && v !in prefix && (v in cands || Unlocked(c, prefix, v))
  }

  predicate Fits(c: ChunkContext, prefix: seq<nat>, x: nat) {
    Weight(c.weight, prefix) + c.weight(x) <= c.cap
  }

  /** u is the node of highest priority among those on the frontier that still fit. */
  ghost predicate BestFit(c: ChunkContext, cands: set<nat>, prefix: seq<nat>, u: nat) {
    && u in Frontier(c, cands, prefix) && Fits(c, prefix, u)
    && forall x :: x in Frontier(c, cands, prefix) && Fits(c, prefix, x) && x != u ==> Precedes(c, u, x)
  }

  ghost predicate GreedySoFar(c: ChunkContext, cands: set<nat>, chunk: seq<nat>) {
    forall i :: 0 <= i < |chunk| ==> BestFit(c, cands, chunk[..i], chunk[i])
  }

  /** Every member was the best fit when it was chosen, and nothing fits any more. */
  ghost predicate GreedyChunk(c: ChunkContext, cands: set<nat>, chunk: seq<nat>) {
    && GreedySoFar(c, cands, chunk)
    && forall x :: x in Frontier(c, cands, chunk) ==> !Fits(c, chunk, x)
  }

  lemma {:induction false} GreedyPrefixesAgree(c: ChunkContext, cands: set<nat>, a: seq<nat>, b: seq<nat>, k: nat)
    requires GreedySoFar(c, cands, a) && GreedySoFar(c, cands, b)
    requires k <= |a| && k <= |b|
    ensures a[..k] == b[..k]
  {
    if k > 0 {
      GreedyPrefixesAgree(c, cands, a, b, k - 1);
      assert BestFit(c, cands, a[..k - 1], a[k - 1]) && BestFit(c, cands, a[..k - 1], b[k - 1]);
      assert a[..k] == a[..k - 1] + [a[k - 1]] && b[..k] == b[..k - 1] + [b[k - 1]];
    }
  }

  lemma GreedyChunkNotExtended(c: ChunkContext, cands: set<nat>, a: seq<nat>, b: seq<nat>)
    requires GreedyChunk(c, cands, a) && |a| < |b| && a[..|a|] == b[..|a|]
    ensures !GreedySoFar(c, cands, b)
  {
    assert b[..|a|] == a;
    assert !BestFit(c, cands, b[..|a|], b[|a|]);
  }

  lemma GreedyChunkIsLongest(c: ChunkContext, cands: set<nat>, a: seq<nat>, b: seq<nat>)
    requires GreedyChunk(c, cands, a) && GreedySoFar(c, cands, b)
    ensures b <= a
  {
    if |b| <= |a| {
      GreedyPrefixesAgree(c, cands, a, b, |b|);
    } else {
      GreedyPrefixesAgree(c, cands, a, b, |a|);
      GreedyChunkNotExtended(c, cands, a, b);
    }
  }

  /** The chunk depends only on the set of candidates, not on the order in which a map lists them. */
  lemma GreedyChunkUnique(c: ChunkContext, cands: set<nat>, a: seq<nat>, b: seq<nat>)
    requires GreedyChunk(c, cands, a) && GreedyChunk(c, cands, b)
    ensures a == b
  {
    GreedyChunkIsLongest(c, cands, a, b);
    GreedyChunkIsLongest(c, cands, b, a);
  }

  lemma GreedyChunkBasics(c: ChunkContext, cands: set<nat>, chunk: seq<nat>)
    requires GreedySoFar(c, cands, chunk)
    ensures NoDuplicates(chunk) && forall x :: x in chunk ==> x < |c.adj|
    ensures chunk != [] ==> Weight(c.weight, chunk) <= c.cap
  {
    forall i, j | 0 <= i < j < |chunk|
      ensures chunk[i] != chunk[j]
    {
      assert BestFit(c, cands, chunk[..j], chunk[j]);
      assert chunk[i] in chunk[..j];
    }
    forall x | x in chunk
      ensures x < |c.adj|
    {
      var i :| 0 <= i < |chunk| && chunk[i] == x;
      assert BestFit(c, cands, chunk[..i], chunk[i]);
    }
    if chunk != [] {
      assert BestFit(c, cands, chunk[..|chunk| - 1], chunk[|chunk| - 1]);
    }
  }

  /** A chunk comes out empty only when every candidate on its own is over the bound. */
  lemma EmptyChunkMeansAllHeavy(c: ChunkContext, cands: set<nat>, u: nat)
    requires GreedyChunk(c, cands, []) && u in cands && u < |c.adj|
    ensures c.weight(u) > c.cap
  {
    assert u in Frontier(c, cands, []);
  }

  /** The weight of a chunk is the sum of its members' weights. */
  lemma {:induction false} WeightAdds(weight: WeightFn, a: seq<nat>, b: seq<nat>)
    ensures Weight(weight, []) == 0
    ensures Weight(weight, a + b) == Weight(weight, a) + Weight(weight, b)
    ensures forall u :: Weight(weight, [u]) == weight(u)
    decreases |b|
  {
    forall u
      ensures Weight(weight, [u]) == weight(u)
    {
      assert [u][..0] == [];
    }
    if b == [] {
      assert a + b == a;
    } else {
      WeightAdds(weight, a, b[..|b| - 1]);
      assert (a + b)[..|a + b| - 1] == a + b[..|b| - 1];
    }
  }

  /** Whatever else could have come instead of a member has fewer descendants, or as many and is
      heavier, or agrees in both and has the larger id. */
  lemma MemberComesFirst(c: ChunkContext, cands: set<nat>, chunk: seq<nat>, i: nat, x: nat)
    requires ValidContext(c) && GreedySoFar(c, cands, chunk) && i < |chunk| && x != chunk[i]
    requires x in Frontier(c, cands, chunk[..i]) && Weight(c.weight, chunk[..i]) + c.weight(x) <= c.cap
    ensures var u := chunk[i];
      && u < |c.desc| && x < |c.desc|
      && (c.desc[u] > c.desc[x]
          || (c.desc[u] == c.desc[x] && c.weight(u) < c.weight(x))
          || (c.desc[u] == c.desc[x] && c.weight(u) == c.weight(x) && u < x))
  {
    assert BestFit(c, cands, chunk[..i], chunk[i]);
  }

  /** Each member fitted when it was chosen. */
  lemma MemberFitted(c: ChunkContext, cands: set<nat>, chunk: seq<nat>, i: nat)
    requires GreedySoFar(c, cands, chunk) && i < |chunk|
    ensures chunk[i] in Frontier(c, cands, chunk[..i]) && Weight(c.weight, chunk[..i]) + c.weight(chunk[i]) <= c.cap
  {
    assert BestFit(c, cands, chunk[..i], chunk[i]);
  }

  /** Nothing that could come next still fits a finished chunk. */
  lemma ChunkIsFull(c: ChunkContext, cands: set<nat>, chunk: seq<nat>, x: nat)
    requires GreedyChunk(c, cands, chunk) && x in Frontier(c, cands, chunk)
    ensures Weight(c.weight, chunk) + c.weight(x) > c.cap
  {
  }

  // ---------- the builder ----------

  ghost predicate MayJoin(c: ChunkContext, inChunk: set<nat>, v: nat) {
    v in c.need && v !in c.completed && v !in inChunk
  }

  ghost predicate Released(c: ChunkContext, inChunk: set<nat>, u: nat, v: nat)
    requires u < |c.adj|
  {
    && v in c.adj[u] && MayJoin(c, inChunk, v)
    && Pending(c.adj, c.completed + inChunk, v) == 0
  }

  /** Choosing u moves the frontier by exactly the nodes that u releases. */
  lemma FrontierStep(c: ChunkContext, cands: set<nat>, chunk: seq<nat>, u: nat)
    requires ValidContext(c) && u < |c.adj| && u in Frontier(c, cands, chunk) && u !in c.completed
    requires forall x :: x in chunk ==> x !in c.completed
    ensures Frontier(c, cands, chunk + [u]) ==
            (Frontier(c, cands, chunk) - {u}) + set v: nat | v < |c.adj| && Released(c, Elements(chunk + [u]), u, v)
  {
    var longer := chunk + [u];
    assert Elements(longer) == Elements(chunk) + {u};
    var done := c.completed + Elements(chunk);
    assert done + {u} == c.completed + Elements(longer);
    forall v: nat | v < |c.adj|
      ensures v in Frontier(c, cands, longer) <==>
              (v in Frontier(c, cands, chunk) && v != u) || Released(c, Elements(longer), u, v)
    {
      PendingZero(c.adj, done + {u}, v);
      if v != u && v !in chunk && Unlocked(c, chunk, v) {
        var w :| w in chunk && Edge(c.adj, w, v);
        assert w in longer;
        assert Unlocked(c, longer, v);
      }
      if v != u && v !in chunk && Unlocked(c, longer, v) && !Edge(c.adj, u, v) {
        var w :| w in longer && Edge(c.adj, w, v);
        assert w in chunk;
        assert Unlocked(c, chunk, v);
      }
      if Released(c, Elements(longer), u, v) {
        assert u in longer && Edge(c.adj, u, v);
        assert Unlocked(c, longer, v);
      }
    }
  }

  /** Lists a set in some order, as ranging over a Go map does. */
  method Enumerate(s: set<nat>) returns (order: seq<nat>)
    ensures Elements(order) == s && NoDuplicates(order)
  {
    order := [];
    var rest := s;
    while rest != {}
      invariant Elements(order) + rest == s && Elements(order) !! rest && NoDuplicates(order)
    {
      var u :| u in rest;
      rest := rest - {u};
      order := order + [u];
    }
  }

  /** The ready node of highest priority that still fits, if any: list, sort, scan. */
  method PickBest(c: ChunkContext, ready: set<nat>, total: int) returns (found: bool, u: nat)
    ensures found ==> u in ready && total + c.weight(u) <= c.cap
    ensures found ==> forall x :: x in ready && total + c.weight(x) <= c.cap && x != u ==> Precedes(c, u, x)
    ensures !found ==> forall x :: x in ready ==> total + c.weight(x) > c.cap
  {
    var order := Enumerate(ready);
    var sorted := Sorting.Sort(order, ByPriority(c));
    PriorityIsTotal(c);
    Sorting.SortSorted(order, ByPriority(c));
    forall x
      ensures x in sorted <==> x in ready
    {
      Sorting.SortMembers(order, ByPriority(c), x);
      assert x in Elements(order) <==> x in ready;
    }
    found, u := false, 0;
    for j := 0 to |sorted|
      invariant !found
      invariant forall i :: 0 <= i < j ==> total + c.weight(sorted[i]) > c.cap
    {
      if total + c.weight(sorted[j]) <= c.cap {
        forall x | x in ready && total + c.weight(x) <= c.cap && x != sorted[j]
          ensures Precedes(c, sorted[j], x)
        {
          var i :| 0 <= i < |sorted| && sorted[i] == x;
          assert j < i;
        }
        return true, sorted[j];
      }
    }
  }

  /** Where the packing loop stands. */
  ghost predicate Packing(c: ChunkContext, cands: set<nat>, chunk: seq<nat>, total: int, ready: set<nat>, inChunk: set<nat>) {
    && inChunk == Elements(chunk) && inChunk !! c.completed
    && total == Weight(c.weight, chunk)
    && ready == Frontier(c, cands, chunk)
    && GreedySoFar(c, cands, chunk)
  }

  lemma GreedyExtends(c: ChunkContext, cands: set<nat>, chunk: seq<nat>, u: nat)
    requires GreedySoFar(c, cands, chunk) && BestFit(c, cands, chunk, u)
    ensures GreedySoFar(c, cands, chunk + [u])
    ensures Weight(c.weight, chunk + [u]) == Weight(c.weight, chunk) + c.weight(u)
    ensures |chunk| < |c.adj|
  {
    var longer := chunk + [u];
    assert longer[..|chunk|] == chunk;
    forall i | 0 <= i < |longer|
      ensures BestFit(c, cands, longer[..i], longer[i])
    {
      if i < |chunk| {
        assert longer[..i] == chunk[..i];
      }
    }
    GreedyChunkBasics(c, cands, longer);
    ElementsSize(longer);
    BoundedSetSize(Elements(longer), |c.adj|);
  }

  lemma PackingStep(c: ChunkContext, cands: set<nat>, chunk: seq<nat>, total: int, ready: set<nat>, inChunk: set<nat>, u: nat, next: set<nat>)
    requires ValidContext(c) && Packing(c, cands, chunk, total, ready, inChunk)
    requires forall x :: x in cands ==> x !in c.completed
    requires BestFit(c, cands, chunk, u)
    requires forall v: nat :: v in next <==> v in ready - {u} || (v < |c.adj| && Released(c, inChunk + {u}, u, v))
    ensures Packing(c, cands, chunk + [u], total + c.weight(u), next, inChunk + {u}) && u !in inChunk
    ensures |chunk| < |c.adj|
  {
    assert Elements(chunk + [u]) == inChunk + {u};
    FrontierStep(c, cands, chunk, u);
    GreedyExtends(c, cands, chunk, u);
  }

  method BuildChunkDesc(c: ChunkContext, cands: seq<nat>, indeg: array<int>) returns (chunk: seq<nat>)
    requires ValidContext(c) && indeg.Length == |c.adj|
    requires forall v: nat :: v < |c.adj| ==> indeg[v] == Pending(c.adj, c.completed, v)
    requires forall u :: u in cands ==> u < |c.adj| && u !in c.completed
    ensures c.cap <= 0 ==> chunk == []
    ensures c.cap > 0 ==> GreedyChunk(c, Elements(cands), chunk)
  {
    if c.cap <= 0 {
      return [];
    }
    var simIndeg := new int[indeg.Length](i requires 0 <= i < indeg.Length reads indeg => indeg[i]);
    chunk := [];
    var total := 0;
    var ready := set u | u in cands;
    var inChunk: set<nat> := {};
    ghost var cs := Elements(cands);
    assert c.completed + Elements(chunk) == c.completed;
    assert ready == Frontier(c, cs, chunk);
    while ready != {}
      invariant Packing(c, cs, chunk, total, ready, inChunk)
      invariant forall v: nat :: v < |c.adj| ==> simIndeg[v] == Pending(c.adj, c.completed + inChunk, v)
      decreases |c.adj| - |chunk|
    {
      var added, u := PickBest(c, ready, total);
      if !added {
        break;
      }
      ghost var before, done := ready, c.completed + inChunk;
      ready := ready - {u};
      inChunk := inChunk + {u};
      total := total + c.weight(u);
      assert done + {u} == c.completed + inChunk;
      ready := ReleaseEdges(c.adj, simIndeg, u, done, c.need, c.completed, inChunk, ready);
      PackingStep(c, cs, chunk, total - c.weight(u), before, inChunk - {u}, u, ready);
      chunk := chunk + [u];
    }
  }
}
