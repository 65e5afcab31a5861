/** The artifact store as a map, the same store behind two LRU caches, and exactly when the two
    cannot be told apart. */
module ArtifactSpec {
  import opened Collections
  import opened Options
  import opened Text
  import opened Strings
  import Sorting

  newtype Byte = x: int | 0 <= x < 256
  type Bytes = seq<Byte>

  datatype Error = RunIDRequired | PathRequired | NotFound

  datatype Request =
    | Put(runID: string, path: string, content: Bytes)
    | Get(runID: string, path: string)
    | List(runID: string)

  datatype Response = Done | Content(bytes: Bytes) | Names(names: seq<string>) | Failed(error: Error)

  function TrimLeftSlashes(s: string): string {
    if s != "" && s[0] == '/' then TrimLeftSlashes(s[1..]) else s
  }

  /** Exactly the leading slashes are removed. */
  lemma {:induction false} SlashesRemoved(slashes: string, rest: string)
    requires (forall i :: 0 <= i < |slashes| ==> slashes[i] == '/') && (rest == "" || rest[0] != '/')
    ensures TrimLeftSlashes(slashes + rest) == rest
  {
    if slashes == "" {
      assert slashes + rest == rest;
    } else {
      assert (slashes + rest)[1..] == slashes[1..] + rest;
      SlashesRemoved(slashes[1..], rest);
    }
  }

  function ArtifactKey(runID: string, path: string): string {
    Trim(runID) + "/" + TrimLeftSlashes(Trim(path))
  }

  /** The argument checks that every operation of the plain store starts with. */
  function CheckArguments(runID: string, path: string): Option<Error> {
    if Trim(runID) == "" then Some(RunIDRequired)
    else if Trim(path) == "" then Some(PathRequired)
    else None
  }

  // ---------- listings ----------

  ghost function Suffixes(data: map<string, Bytes>, prefix: string): set<string> {
    set k | k in data && prefix <= k :: k[|prefix|..]
  }

  ghost predicate IsListing(data: map<string, Bytes>, prefix: string, names: seq<string>) {
    Sorting.Sorted(names, ByText()) && NoDuplicates(names) && Elements(names) == Suffixes(data, prefix)
  }

  lemma {:induction false} SomeOrder<T>(s: set<T>) returns (names: seq<T>)
    ensures NoDuplicates(names) && Elements(names) == s
    decreases s
  {
    if x :| x in s {
      var rest := SomeOrder(s - {x});
      names := rest + [x];
      assert Elements(names) == Elements(rest) + {x};
    } else {
      names := [];
    }
  }

  lemma {:induction false} DistinctCount(s: seq<string>, x: string)
    requires NoDuplicates(s)
    ensures multiset(s)[x] <= 1
  {
    if s != [] {
      DistinctCount(s[1..], x);
      assert s == [s[0]] + s[1..];
      assert s[0] == x ==> x !in s[1..];
    }
  }

  lemma CountDistinct(s: seq<string>)
    requires forall x :: multiset(s)[x] <= 1
    ensures NoDuplicates(s)
  {
    forall i, j | 0 <= i < j < |s|
      ensures s[i] != s[j]
    {
      assert s == s[..j] + [s[j]] + s[j + 1..];
      assert multiset(s)[s[j]] == multiset(s[..j])[s[j]] + 1 + multiset(s[j + 1..])[s[j]];
      assert s[..j][i] == s[i];
    }
  }

  lemma SortOfDistinct(names: seq<string>)
    requires NoDuplicates(names)
    ensures NoDuplicates(Sorting.Sort(names, ByText())) && Sorting.Sorted(Sorting.Sort(names, ByText()), ByText())
    ensures Elements(Sorting.Sort(names, ByText())) == Elements(names)
  {
    ByTextIsTotal();
    Sorting.SortSorted(names, ByText());
    Sorting.SortPermutes(names, ByText());
    var sorted := Sorting.Sort(names, ByText());
    forall x
      ensures x in sorted <==> x in names
    {
      Sorting.SortMembers(names, ByText(), x);
    }
    forall x
      ensures multiset(sorted)[x] <= 1
    {
      DistinctCount(names, x);
    }
    CountDistinct(sorted);
  }

  lemma ListingUnique(data: map<string, Bytes>, prefix: string, a: seq<string>, b: seq<string>)
    requires IsListing(data, prefix, a) && IsListing(data, prefix, b)
    ensures a == b
  {
    forall x
      ensures multiset(a)[x] == multiset(b)[x]
    {
      DistinctCount(a, x);
      DistinctCount(b, x);
      assert x in Elements(a) <==> x in Elements(b);
      assert x in multiset(a) <==> x in a;
      assert x in multiset(b) <==> x in b;
    }
    ByTextIsTotal();
    Sorting.SortedUnique(a, b, ByText());
  }

  lemma ListingExists(data: map<string, Bytes>, prefix: string)
    ensures exists names :: IsListing(data, prefix, names)
  {
    var names := SomeOrder(Suffixes(data, prefix));
    SortOfDistinct(names);
    assert IsListing(data, prefix, Sorting.Sort(names, ByText()));
  }

  /** The sorted names of the artifacts of a run. */
  ghost function Listing(data: map<string, Bytes>, prefix: string): (names: seq<string>)
    ensures IsListing(data, prefix, names)
  {
    ListingExists(data, prefix);
    var names :| IsListing(data, prefix, names);
    names
  }

  /** A listing changes only when a key under its prefix does. */
  lemma ListingUnaffected(data: map<string, Bytes>, prefix: string, key: string, content: Bytes)
    requires !(prefix <= key) || key in data
    ensures Listing(data[key := content], prefix) == Listing(data, prefix)
  {
    var more := data[key := content];
    forall x
      ensures x in Suffixes(more, prefix) <==> x in Suffixes(data, prefix)
    {
      if x in Suffixes(more, prefix) {
        var k :| k in more && prefix <= k && x == k[|prefix|..];
        assert k in data;
      }
      if x in Suffixes(data, prefix) {
        var k :| k in data && prefix <= k && x == k[|prefix|..];
        assert k in more;
      }
    }
    assert Suffixes(more, prefix) == Suffixes(data, prefix);
    ListingUnique(data, prefix, Listing(more, prefix), Listing(data, prefix));
  }
}
