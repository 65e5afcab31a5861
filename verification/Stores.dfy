/** The artifact stores as objects: the plain map-backed store, and the store that puts a blob
    cache and a listing cache in front of it. */
module Stores {
  import opened Options
  import opened Collections
  import opened Text
  import opened Strings
  import opened ArtifactSpec
  import opened Transparency
  import opened Lru
  import L = LruSpec
  import Sorting

  lemma SuffixesAre(data: Store, prefix: string, out: seq<string>)
    requires forall x :: x in out <==> prefix + x in data
    ensures Elements(out) == Suffixes(data, prefix)
  {
    forall x
      ensures x in out <==> x in Suffixes(data, prefix)
    {
      assert (prefix + x)[|prefix|..] == x;
      if x in Suffixes(data, prefix) {
        var k :| k in data && prefix <= k && x == k[|prefix|..];
        assert k == prefix + x;
      }
    }
  }

  class MemoryStore {
    var data: Store

    constructor ()
      ensures data == map[]
    {
      data := map[];
    }

    method Put(runID: string, path: string, content: Bytes) returns (r: Response)
      modifies this
      ensures Plain(data, r) == PlainStep(old(data), Request.Put(runID, path, content))
    {
      var run, trimmed := Trim(runID), Trim(path);
      if run == "" {
        return Failed(RunIDRequired);
      }
      if trimmed == "" {
        return Failed(PathRequired);
      }
      data := data[run + "/" + TrimLeftSlashes(trimmed) := content];
      return Done;
    }

    method Get(runID: string, path: string) returns (r: Response)
      ensures Plain(data, r) == PlainStep(data, Request.Get(runID, path))
    {
      var run, trimmed := Trim(runID), Trim(path);
      if run == "" {
        return Failed(RunIDRequired);
      }
      if trimmed == "" {
        return Failed(PathRequired);
      }
      var key := run + "/" + TrimLeftSlashes(trimmed);
      if key !in data {
        return Failed(NotFound);
      }
      return Content(data[key]);
    }

    method List(runID: string) returns (r: Response)
      ensures Plain(data, r) == PlainStep(data, Request.List(runID))
    {
      var run := Trim(runID);
      if run == "" {
        return Failed(RunIDRequired);
      }
      var prefix := run + "/";
      var out: seq<string> := [];
      var rest := data.Keys;
      ghost var seen: set<string> := {};
      while rest != {}
        invariant seen + rest == data.Keys && seen !! rest
        invariant NoDuplicates(out)
        invariant forall x :: x in out <==> prefix + x in seen
      {
        var key :| key in rest;
        rest := rest - {key};
        seen := seen + {key};
        if prefix <= key {
          assert key == prefix + key[|prefix|..];
          assert forall x :: prefix + x == key ==> x == key[|prefix|..];
          out := out + [key[|prefix|..]];
        }
      }
      SuffixesAre(data, prefix, out);
      SortOfDistinct(out);
      var names := Sorting.Sort(out, ByText());
      ListingUnique(data, prefix, names, Listing(data, prefix));
      return Names(names);
    }
  }

  method LengthOf(names: seq<string>) returns (approxBytes: nat)
    ensures approxBytes == TotalLength(names)
  {
    approxBytes := 0;
    for i := 0 to |names|
      invariant approxBytes == TotalLength(names[..i])
    {
      assert names[..i + 1][..i] == names[..i];
      approxBytes := approxBytes + |names[i]|;
    }
    assert names[..|names|] == names;
  }

  class CachedStore {
    const origin: MemoryStore
    const blobCache: LRUTTL<string, Bytes>
    const listCache: LRUTTL<string, seq<string>>

    ghost function Config(): CacheConfig {
      CacheConfig(blobCache.limits, listCache.limits)
    }

    ghost function State(): CachedState
      reads origin, blobCache, blobCache.ll, listCache, listCache.ll
    {
      CachedState(origin.data, blobCache.Contents(), listCache.Contents())
    }

    ghost predicate Valid()
      reads origin, blobCache, blobCache.ll, listCache, listCache.ll
    {
      && blobCache.Valid() && listCache.Valid() && Transparency.ValidConfig(Config())
      && origin !in blobCache.Repr() && origin !in listCache.Repr() && blobCache.Repr() !! listCache.Repr()
    }

    constructor (origin: MemoryStore, cfg: CacheConfig)
      ensures Valid() && fresh(blobCache) && fresh(listCache) && this.origin == origin
      ensures State() == CachedState(origin.data, [], [])
    {
      this.origin := origin;
      blobCache := new LRUTTL(cfg.blob.maxEntries, cfg.blob.maxBytes, cfg.blob.ttl);
      listCache := new LRUTTL(cfg.list.maxEntries, 0, cfg.list.ttl);
    }

    // Each of the next methods touches one of the three parts and keeps the other two.

    method WriteOrigin(runID: string, path: string, content: Bytes) returns (r: Response)
      requires Valid()
      modifies origin
      ensures Valid()
      ensures Plain(State().data, r) == PlainStep(old(State()).data, Request.Put(runID, path, content))
      ensures State() == old(State()).(data := State().data)
      ensures blobCache.ll == old(blobCache.ll) && listCache.ll == old(listCache.ll)
    {
      r := origin.Put(runID, path, content);
    }

    method ReadBlob(key: string, now: int) returns (hit: Option<Bytes>)
      requires Valid()
      modifies blobCache
      ensures Valid()
      ensures State() == old(State()).(blobs := L.Get(old(State()).blobs, key, now).contents)
      ensures hit == L.Get(old(State()).blobs, key, now).value
      ensures blobCache.Repr() <= old(blobCache.Repr())
    {
      hit := blobCache.Get(key, now);
    }

    method CacheBlob(key: string, content: Bytes, now: int)
      requires Valid()
      modifies blobCache.Repr()
      ensures Valid()
      ensures State() == old(State()).(blobs := L.Set(Config().blob, old(State()).blobs, key, content, |content|, now))
      ensures listCache.ll == old(listCache.ll)
    {
      blobCache.Set(key, content, |content|, now);
    }

    method ReadListing(run: string, now: int) returns (hit: Option<seq<string>>)
      requires Valid()
      modifies listCache
      ensures Valid()
      ensures State() == old(State()).(lists := L.Get(old(State()).lists, run, now).contents)
      ensures hit == L.Get(old(State()).lists, run, now).value
      ensures listCache.Repr() <= old(listCache.Repr())
    {
      hit := listCache.Get(run, now);
    }

    method CacheListing(run: string, names: seq<string>, approxBytes: nat, now: int)
      requires Valid() && approxBytes == TotalLength(names)
      modifies listCache.Repr()
      ensures Valid()
      ensures State() == old(State()).(lists :=
        L.Set(Config().list, old(State()).lists, run, names, TotalLength(names), now))
    {
      listCache.Set(run, names, approxBytes, now);
    }

    method DropListing(run: string)
      requires Valid()
      modifies listCache
      ensures Valid()
      ensures State() == old(State()).(lists := L.RemoveKey(old(State()).lists, run))
    {
      listCache.Delete(run);
    }

    /** The way of a Get on a miss. */
    method FetchBlob(runID: string, path: string, key: string, now: int) returns (r: Response)
      requires Valid()
      modifies blobCache.Repr()
      ensures Valid()
      ensures r == PlainStep(old(State()).data, Request.Get(runID, path)).response
      ensures State() == if !r.Content? then old(State()) else old(State()).(blobs :=
        L.Set(Config().blob, old(State()).blobs, key, r.bytes, |r.bytes|, now))
    {
      r := origin.Get(runID, path);
      if r.Content? {
        CacheBlob(key, r.bytes, now);
      }
    }

    /** The way of a List on a miss. */
    method FetchListing(run: string, now: int) returns (r: Response)
      requires Valid()
      modifies listCache.Repr()
      ensures Valid()
      ensures r == PlainStep(old(State()).data, Request.List(run)).response
      ensures State() == if !r.Names? then old(State()) else old(State()).(lists :=
        L.Set(Config().list, old(State()).lists, run, r.names, TotalLength(r.names), now))
    {
      r := origin.List(run);
      if r.Names? {
        var approxBytes := LengthOf(r.names);
        CacheListing(run, r.names, approxBytes, now);
      }
    }

    method Put(runID: string, path: string, content: Bytes, now: int) returns (r: Response)
      requires Valid()
      modifies origin, blobCache.Repr(), listCache.Repr()
      ensures Valid()
      ensures Cached(State(), r) == CachedStep(Config(), old(State()), Request.Put(runID, path, content), now)
    {
      r := WriteOrigin(runID, path, content);
      if r.Failed? {
        return;
      }
      CacheBlob(ArtifactKey(runID, path), content, now);
      DropListing(Trim(runID));
    }

    method Get(runID: string, path: string, now: int) returns (r: Response)
      requires Valid()
      modifies origin, blobCache.Repr(), listCache.Repr()
      ensures Valid()
      ensures Cached(State(), r) == CachedStep(Config(), old(State()), Request.Get(runID, path), now)
    {
      var key := ArtifactKey(runID, path);
      var hit := ReadBlob(key, now);
      if hit.Some? {
        return Content(hit.value);
      }
      r := FetchBlob(runID, path, key, now);
    }

    method List(runID: string, now: int) returns (r: Response)
      requires Valid()
      modifies origin, blobCache.Repr(), listCache.Repr()
      ensures Valid()
      ensures Cached(State(), r) == CachedStep(Config(), old(State()), Request.List(runID), now)
    {
      var run := Trim(runID);
      var hit := ReadListing(run, now);
      if hit.Some? {
        return Names(hit.value);
      }
      r := FetchListing(run, now);
    }
  }
}
