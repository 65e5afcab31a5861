/** Elements of sequences, sizes of finite sets, and reordered sequences. */
module Collections {
  ghost function Elements<T>(s: seq<T>): set<T> {
    set x | x in s
  }

  ghost predicate NoDuplicates<T>(s: seq<T>) {
    forall i, j :: 0 <= i < j < |s| ==> s[i] != s[j]
  }

  lemma SubsetSize<T>(a: set<T>, b: set<T>)
    requires a <= b
    ensures |a| <= |b|
  {
    assert b == a + (b - a);
  }

  lemma ProperSubsetSmaller<T>(a: set<T>, b: set<T>)
    requires a < b
    ensures |a| < |b|
  {
    assert b == a + (b - a);
    assert b - a != {};
  }

  lemma BoundedSetSize(s: set<nat>, n: nat)
    requires forall x :: x in s ==> x < n
    ensures |s| <= n
  {
    if n == 0 {
      assert s == {};
    } else {
      BoundedSetSize(s - {n - 1}, n - 1);
      assert s <= (s - {n - 1}) + {n - 1};
      SubsetSize(s, (s - {n - 1}) + {n - 1});
    }
  }

  lemma ElementsSize<T>(s: seq<T>)
    requires NoDuplicates(s)
    ensures |Elements(s)| == |s|
  {
    if s != [] {
      var rest := s[..|s| - 1];
      ElementsSize(rest);
      assert s == rest + [s[|s| - 1]];
      assert Elements(s) == Elements(rest) + {s[|s| - 1]};
    }
  }

  lemma PrefixesOfEachOther<T>(s: seq<T>, t: seq<T>)
    requires s <= t && t <= s
    ensures s == t
  {
  }

  // ---------- reordered sequences ----------

  /** s without its element j. */
  function Without<T>(s: seq<T>, j: nat): seq<T>
    requires j < |s|
  {
    s[..j] + s[j + 1..]
  }

  lemma SameSize<T>(s: seq<T>, t: seq<T>)
    requires multiset(s) == multiset(t)
    ensures |s| == |t|
  {
    assert |multiset(s)| == |s| && |multiset(t)| == |t|;
  }

  /** The first element of a reordering, found and taken out. */
  lemma SameHeads<T>(s: seq<T>, t: seq<T>) returns (j: nat)
    requires multiset(s) == multiset(t) && t != []
    ensures j < |s| && s[j] == t[0] && multiset(Without(s, j)) == multiset(t[1..])
  {
    assert t[0] in multiset(s);
    j :| 0 <= j < |s| && s[j] == t[0];
    assert s == s[..j] + [s[j]] + s[j + 1..];
    assert t == [t[0]] + t[1..];
    assert multiset(Without(s, j)) == multiset(s) - multiset{s[j]};
  }

  lemma TakeOut<T>(ps: seq<T>, rest: seq<T>, j: nat)
    requires j < |ps| && multiset(rest) == multiset(Without(ps, j))
    ensures multiset([ps[j]] + rest) == multiset(ps)
  {
    assert ps == ps[..j] + [ps[j]] + ps[j + 1..];
  }

  // ---------- filtered sequences ----------

  /** The elements that satisfy f, in order. */
  function Filter<T>(s: seq<T>, f: T -> bool): seq<T> {
    if s == [] then []
    else Filter(s[..|s| - 1], f) + if f(s[|s| - 1]) then [s[|s| - 1]] else []
  }

  lemma FilterOneMore<T>(s: seq<T>, x: T, f: T -> bool)
    ensures Filter(s + [x], f) == Filter(s, f) + if f(x) then [x] else []
  {
    assert (s + [x])[..|s|] == s;
  }

  lemma {:induction false} FilterKeeps<T>(s: seq<T>, f: T -> bool, x: T)
    ensures x in Filter(s, f) <==> x in s && f(x)
    decreases |s|
  {
    if s != [] {
      FilterKeeps(s[..|s| - 1], f, x);
      assert s == s[..|s| - 1] + [s[|s| - 1]];
    }
  }

  lemma {:induction false} FilterDistinct<T>(s: seq<T>, f: T -> bool)
    requires NoDuplicates(s)
    ensures NoDuplicates(Filter(s, f))
    decreases |s|
  {
    if s != [] {
      var front, x := s[..|s| - 1], s[|s| - 1];
      FilterDistinct(front, f);
      FilterKeeps(front, f, x);
      var kept := Filter(front, f);
      forall i | 0 <= i < |kept|
        ensures kept[i] != x || !f(x)
      {
        assert kept[i] in kept;
        FilterKeeps(front, f, kept[i]);
      }
    }
  }
}
