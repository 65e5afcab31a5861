/** The cached store against the plain store: when no serial history can tell them apart. */
module Transparency {
  import opened Options
  import opened Text
  import opened ArtifactSpec
  import opened Collections
  import opened Strings
  import L = LruSpec

  datatype CacheConfig = CacheConfig(blob: L.Limits, list: L.Limits)

  /** The list cache has no byte bound. */
  predicate ValidConfig(cfg: CacheConfig) {
    L.ValidLimits(cfg.blob) && L.ValidLimits(cfg.list) && cfg.list.maxBytes <= 0
  }

  type Store = map<string, Bytes>

  datatype Plain = Plain(data: Store, response: Response)

  ghost function PlainStep(data: Store, req: Request): Plain {
    match req
    case Put(runID, path, content) =>
      (match CheckArguments(runID, path)
       case Some(e) => Plain(data, Failed(e))
       case None => Plain(data[ArtifactKey(runID, path) := content], Done))
    case Get(runID, path) =>
      (match CheckArguments(runID, path)
       case Some(e) => Plain(data, Failed(e))
       case None =>
         var key := ArtifactKey(runID, path);
         Plain(data, if key in data then Content(data[key]) else Failed(NotFound)))
    case List(runID) =>
      if Trim(runID) == "" then Plain(data, Failed(RunIDRequired))
      else Plain(data, Names(Listing(data, Trim(runID) + "/")))
  }

  datatype CachedState = CachedState(
    data: Store,
    blobs: seq<L.Entry<string, Bytes>>,
    lists: seq<L.Entry<string, seq<string>>>)

  datatype Cached = Cached(state: CachedState, response: Response)

  function TotalLength(names: seq<string>): nat {
    if names == [] then 0 else TotalLength(names[..|names| - 1]) + |names[|names| - 1]|
  }

  ghost function CachedStep(cfg: CacheConfig, s: CachedState, req: Request, now: int): Cached {
    match req
    case Put(runID, path, content) =>
      (match PlainStep(s.data, req)
       case Plain(data, Done) =>
         var blobs := L.Set(cfg.blob, s.blobs, ArtifactKey(runID, path), content, |content|, now);
         Cached(CachedState(data, blobs, L.RemoveKey(s.lists, Trim(runID))), Done)
       case Plain(_, failed) => Cached(s, failed))
    case Get(runID, path) =>
      var key := ArtifactKey(runID, path);
      var hit := L.Get(s.blobs, key, now);
      if hit.value.Some? then Cached(s.(blobs := hit.contents), Content(hit.value.value))
      else
        (match PlainStep(s.data, req).response
         case Content(bytes) =>
           Cached(s.(blobs := L.Set(cfg.blob, hit.contents, key, bytes, |bytes|, now)), Content(bytes))
         case failed => Cached(s.(blobs := hit.contents), failed))
    case List(runID) =>
      var run := Trim(runID);
      var hit := L.Get(s.lists, run, now);
      if hit.value.Some? then Cached(s.(lists := hit.contents), Names(hit.value.value))
      else
        (match PlainStep(s.data, List(run)).response
         case Names(names) =>
           Cached(s.(lists := L.Set(cfg.list, hit.contents, run, names, TotalLength(names), now)), Names(names))
         case failed => Cached(s.(lists := hit.contents), failed))
  }

  // ---------- histories ----------

  /** A request and the time at which it is served. */
  datatype Timed = Timed(req: Request, now: int)

  ghost function PlainAfter(hist: seq<Timed>): Store {
    if hist == [] then map[] else PlainStep(PlainAfter(hist[..|hist| - 1]), hist[|hist| - 1].req).data
  }

  ghost function CachedAfter(cfg: CacheConfig, hist: seq<Timed>): CachedState {
    if hist == [] then CachedState(map[], [], [])
    else CachedStep(cfg, CachedAfter(cfg, hist[..|hist| - 1]), hist[|hist| - 1].req, hist[|hist| - 1].now).state
  }

  /** Every response of the cached store equals that of the plain store. */
  ghost predicate Transparent(cfg: CacheConfig, hist: seq<Timed>) {
    hist == [] ||
    (var front, last := hist[..|hist| - 1], hist[|hist| - 1];
     && Transparent(cfg, front)
     && CachedStep(cfg, CachedAfter(cfg, front), last.req, last.now).response ==
        PlainStep(PlainAfter(front), last.req).response)
  }

  // ---------- workloads ----------

  /** The arguments that callers use; contents and times are free. */
  datatype Workload = Workload(puts: (string, string) -> bool, gets: (string, string) -> bool, lists: string -> bool)

  ghost predicate InWorkload(w: Workload, req: Request) {
    match req
    case Put(runID, path, _) => w.puts(runID, path)
    case Get(runID, path) => w.gets(runID, path)
    case List(runID) => w.lists(runID)
  }

  ghost predicate Over(w: Workload, hist: seq<Timed>) {
    forall i :: 0 <= i < |hist| ==> InWorkload(w, hist[i].req)
  }

  /** Some accepted Put of the workload stores under the key. */
  ghost predicate StoredBy(w: Workload, key: string) {
    exists runID, path :: w.puts(runID, path) && CheckArguments(runID, path).None? && ArtifactKey(runID, path) == key
  }

  ghost predicate ListedRun(w: Workload, run: string) {
    run != "" && exists runID :: w.lists(runID) && Trim(runID) == run
  }

  /** A Put of one run stores inside the listing of another. */
  ghost predicate Overlap(w: Workload, runID: string, path: string, run: string) {
    && w.puts(runID, path) && CheckArguments(runID, path).None?
    && ListedRun(w, run) && Trim(runID) != run
    && run + "/" <= ArtifactKey(runID, path)
  }

  /** No Put stores inside the listing of another run, and no Get with a blank argument asks
      under a key that a Put stores. */
  ghost predicate NoInterference(w: Workload) {
    && (forall runID, path, run :: !Overlap(w, runID, path, run))
    && (forall runID, path :: w.gets(runID, path) && CheckArguments(runID, path).Some? ==>
          !StoredBy(w, ArtifactKey(runID, path)))
  }

  /** What the caches hold is what the plain store would answer. */
  ghost predicate Coherent(w: Workload, s: CachedState) {
    && L.UniqueKeys(s.blobs) && L.UniqueKeys(s.lists)
    && (forall e :: e in s.blobs ==> e.key in s.data && s.data[e.key] == e.value)
    && (forall e :: e in s.lists ==> ListedRun(w, e.key) && e.value == Listing(s.data, e.key + "/"))
    && (forall k :: k in s.data ==> StoredBy(w, k))
  }

  lemma PutStep(cfg: CacheConfig, w: Workload, s: CachedState, req: Request, now: int)
    requires ValidConfig(cfg) && NoInterference(w) && Coherent(w, s) && InWorkload(w, req) && req.Put?
    ensures CachedStep(cfg, s, req, now).response == PlainStep(s.data, req).response
    ensures CachedStep(cfg, s, req, now).state.data == PlainStep(s.data, req).data
    ensures Coherent(w, CachedStep(cfg, s, req, now).state)
  {
    if CheckArguments(req.runID, req.path).None? {
      var key, t := ArtifactKey(req.runID, req.path), CachedStep(cfg, s, req, now).state;
      L.SetKeepsEntries(cfg.blob, s.blobs, key, req.content, |req.content|, now);
      L.RemoveKeyMembers(s.lists, Trim(req.runID));
      forall e | e in t.lists
        ensures e.value == Listing(t.data, e.key + "/")
      {
        assert !Overlap(w, req.runID, req.path, e.key);
        ListingUnaffected(s.data, e.key + "/", key, req.content);
      }
      forall k | k in t.data
        ensures StoredBy(w, k)
      {
        assert k in s.data || k == key;
      }
    }
  }

  lemma GetStep(cfg: CacheConfig, w: Workload, s: CachedState, req: Request, now: int)
    requires ValidConfig(cfg) && NoInterference(w) && Coherent(w, s) && InWorkload(w, req) && req.Get?
    ensures CachedStep(cfg, s, req, now).response == PlainStep(s.data, req).response
    ensures CachedStep(cfg, s, req, now).state.data == PlainStep(s.data, req).data
    ensures Coherent(w, CachedStep(cfg, s, req, now).state)
  {
    var key := ArtifactKey(req.runID, req.path);
    var hit := L.Get(s.blobs, key, now);
    L.LookupFinds(s.blobs, key);
    L.GetKeepsEntries(s.blobs, key, now);
    if hit.value.None? && PlainStep(s.data, req).response.Content? {
      var bytes := PlainStep(s.data, req).response.bytes;
      L.SetKeepsEntries(cfg.blob, hit.contents, key, bytes, |bytes|, now);
    }
  }

  lemma ListStep(cfg: CacheConfig, w: Workload, s: CachedState, req: Request, now: int)
    requires ValidConfig(cfg) && NoInterference(w) && Coherent(w, s) && InWorkload(w, req) && req.List?
    ensures CachedStep(cfg, s, req, now).response == PlainStep(s.data, req).response
    ensures CachedStep(cfg, s, req, now).state.data == PlainStep(s.data, req).data
    ensures Coherent(w, CachedStep(cfg, s, req, now).state)
  {
    var run := Trim(req.runID);
    TrimIsTrimmed(req.runID);
    TrimIsTrimmed(run);
    var hit := L.Get(s.lists, run, now);
    L.LookupFinds(s.lists, run);
    L.GetKeepsEntries(s.lists, run, now);
    if hit.value.None? && run != "" {
      var names := Listing(s.data, run + "/");
      L.SetKeepsEntries(cfg.list, hit.contents, run, names, TotalLength(names), now);
    }
  }

  /** Without interference every history is transparent, whatever expires or is evicted. */
  lemma {:induction false} NoInterferenceSuffices(cfg: CacheConfig, w: Workload, hist: seq<Timed>)
    requires ValidConfig(cfg) && NoInterference(w) && Over(w, hist)
    ensures Transparent(cfg, hist)
    ensures Coherent(w, CachedAfter(cfg, hist)) && CachedAfter(cfg, hist).data == PlainAfter(hist)
    decreases |hist|
  {
    if hist != [] {
      var front, last := hist[..|hist| - 1], hist[|hist| - 1];
      NoInterferenceSuffices(cfg, w, front);
      var s := CachedAfter(cfg, front);
      assert InWorkload(w, last.req);
      match last.req
      case Put(_, _, _) => PutStep(cfg, w, s, last.req, last.now);
      case Get(_, _) => GetStep(cfg, w, s, last.req, last.now);
      case List(_) => ListStep(cfg, w, s, last.req, last.now);
    }
  }

  // ---------- interference shows ----------

  lemma AfterOneMore(cfg: CacheConfig, hist: seq<Timed>, t: Timed)
    ensures CachedAfter(cfg, hist + [t]) == CachedStep(cfg, CachedAfter(cfg, hist), t.req, t.now).state
    ensures PlainAfter(hist + [t]) == PlainStep(PlainAfter(hist), t.req).data
    ensures Transparent(cfg, hist + [t]) ==>
      CachedStep(cfg, CachedAfter(cfg, hist), t.req, t.now).response == PlainStep(PlainAfter(hist), t.req).response
  {
    assert (hist + [t])[..|hist|] == hist;
  }

  lemma FreshListing(prefix: string, key: string)
    requires prefix <= key
    ensures Listing(map[], prefix) == [] && Listing(map[key := []], prefix) != []
  {
    assert Suffixes(map[], prefix) == {};
    ElementsSize(Listing(map[], prefix));
    var data: Store := map[key := []];
    assert key in data && key[|prefix|..] in Suffixes(data, prefix);
    assert key[|prefix|..] in Listing(data, prefix);
  }

  /** A cached listing goes stale when a Put of another run stores inside it. */
  lemma StaleListing(cfg: CacheConfig, runID: string, path: string, listed: string)
    requires ValidConfig(cfg) && CheckArguments(runID, path).None?
    requires Trim(listed) != "" && Trim(runID) != Trim(listed)
    requires Trim(listed) + "/" <= ArtifactKey(runID, path)
    ensures !Transparent(cfg, [Timed(List(listed), 0), Timed(Put(runID, path, []), 0), Timed(List(listed), 0)])
  {
    var a, b := Timed(List(listed), 0), Timed(Put(runID, path, []), 0);
    var run, key := Trim(listed), ArtifactKey(runID, path);
    TrimIsTrimmed(listed);
    TrimIsTrimmed(run);
    FreshListing(run + "/", key);
    AfterOneMore(cfg, [], a);
    assert [] + [a] == [a];
    var none: seq<string> := [];
    var lists := L.Set(cfg.list, [], run, none, 0, 0);
    assert CachedAfter(cfg, [a]) == CachedState(map[], [], lists);
    AfterOneMore(cfg, [a], b);
    assert [a] + [b] == [a, b];
    AfterOneMore(cfg, [a, b], a);
    assert [a, b] + [a] == [a, b, a];
    L.GetAfterSet(cfg.list, [], run, none, 0, 0, 0);
    L.SetKeepsEntries(cfg.list, [], run, none, 0, 0);
    L.LookupAfterRemove(lists, Trim(runID), run);
    assert L.Get(L.RemoveKey(lists, Trim(runID)), run, 0).value == Some(none);
  }

  /** A Get with a blank argument is answered from the cache where the plain store rejects it. */
  lemma BlankGetHits(cfg: CacheConfig, runID: string, path: string, blankRun: string, blankPath: string)
    requires ValidConfig(cfg) && CheckArguments(runID, path).None? && CheckArguments(blankRun, blankPath).Some?
    requires ArtifactKey(blankRun, blankPath) == ArtifactKey(runID, path)
    ensures !Transparent(cfg, [Timed(Put(runID, path, []), 0), Timed(Get(blankRun, blankPath), 0)])
  {
    var a, b := Timed(Put(runID, path, []), 0), Timed(Get(blankRun, blankPath), 0);
    AfterOneMore(cfg, [], a);
    assert [] + [a] == [a];
    AfterOneMore(cfg, [a], b);
    assert [a] + [b] == [a, b];
    var nothing: Bytes := [];
    L.GetAfterSet(cfg.blob, [], ArtifactKey(runID, path), nothing, 0, 0, 0);
  }

  /** Run "a" is listed, then run "a/b" stores "c". */
  lemma StaleListingExample(cfg: CacheConfig)
    requires ValidConfig(cfg)
    ensures !Transparent(cfg, [Timed(List("a"), 0), Timed(Put("a/b", "c", []), 0), Timed(List("a"), 0)])
  {
    TrimIsTrimmed("a");
    TrimIsTrimmed("a/b");
    TrimIsTrimmed("c");
    StaleListing(cfg, "a/b", "c", "a");
  }

  /** The path "/" is stored under the key that a blank path asks for. */
  lemma BlankGetExample(cfg: CacheConfig)
    requires ValidConfig(cfg)
    ensures !Transparent(cfg, [Timed(Put("a", "/", []), 0), Timed(Get("a", ""), 0)])
  {
    TrimIsTrimmed("a");
    TrimIsTrimmed("/");
    TrimIsTrimmed("");
    BlankGetHits(cfg, "a", "/", "a", "");
  }

  lemma OverlapShows(cfg: CacheConfig, w: Workload, runID: string, path: string, run: string) returns (hist: seq<Timed>)
    requires ValidConfig(cfg) && Overlap(w, runID, path, run)
    ensures Over(w, hist) && !Transparent(cfg, hist)
  {
    var listed :| w.lists(listed) && Trim(listed) == run;
    StaleListing(cfg, runID, path, listed);
    hist := [Timed(List(listed), 0), Timed(Put(runID, path, []), 0), Timed(List(listed), 0)];
  }

  lemma BlankGetShows(cfg: CacheConfig, w: Workload, blankRun: string, blankPath: string) returns (hist: seq<Timed>)
    requires ValidConfig(cfg) && w.gets(blankRun, blankPath) && CheckArguments(blankRun, blankPath).Some?
    requires StoredBy(w, ArtifactKey(blankRun, blankPath))
    ensures Over(w, hist) && !Transparent(cfg, hist)
  {
    var runID, path :| w.puts(runID, path) && CheckArguments(runID, path).None? &&
      ArtifactKey(runID, path) == ArtifactKey(blankRun, blankPath);
    BlankGetHits(cfg, runID, path, blankRun, blankPath);
    hist := [Timed(Put(runID, path, []), 0), Timed(Get(blankRun, blankPath), 0)];
  }

  lemma InterferenceShows(cfg: CacheConfig, w: Workload) returns (hist: seq<Timed>)
    requires ValidConfig(cfg) && !NoInterference(w)
    ensures Over(w, hist) && !Transparent(cfg, hist)
  {
    if runID, path, run :| Overlap(w, runID, path, run) {
      hist := OverlapShows(cfg, w, runID, path, run);
    } else {
      var blankRun, blankPath :| w.gets(blankRun, blankPath) && CheckArguments(blankRun, blankPath).Some? &&
        StoredBy(w, ArtifactKey(blankRun, blankPath));
      hist := BlankGetShows(cfg, w, blankRun, blankPath);
    }
  }

  /** The cached store is indistinguishable from the plain store in every history of a workload
      exactly when the workload has no interference. */
  lemma TransparentExactly(cfg: CacheConfig, w: Workload)
    requires ValidConfig(cfg)
    ensures (forall hist :: Over(w, hist) ==> Transparent(cfg, hist)) <==> NoInterference(w)
  {
    if NoInterference(w) {
      forall hist | Over(w, hist)
        ensures Transparent(cfg, hist)
      {
        NoInterferenceSuffices(cfg, w, hist);
      }
    } else {
      var hist := InterferenceShows(cfg, w);
    }
  }

  lemma NotLonger(a: string, b: string, key: string)
    requires '/' !in b && a + "/" <= key && b + "/" <= key
    ensures |b| <= |a|
  {
    assert key[|a|] == (a + "/")[|a|];
    assert forall i :: 0 <= i < |b| ==> key[i] == (b + "/")[i] == b[i];
  }

  lemma SlashEndsRun(a: string, b: string, key: string)
    requires '/' !in a && '/' !in b && a + "/" <= key && b + "/" <= key
    ensures a == b
  {
    NotLonger(a, b, key);
    NotLonger(b, a, key);
    assert a == key[..|a|] && b == key[..|b|];
  }

  /** Run ids without a slash and Gets with non-blank arguments are enough. */
  lemma {:induction false} SlashFreeSuffices(w: Workload)
    requires forall runID, path :: w.puts(runID, path) ==> '/' !in Trim(runID)
    requires forall runID :: w.lists(runID) ==> '/' !in Trim(runID)
    requires forall runID, path :: w.gets(runID, path) ==> CheckArguments(runID, path).None?
    ensures NoInterference(w)
  {
    forall runID, path, run
      ensures !Overlap(w, runID, path, run)
    {
      if Overlap(w, runID, path, run) {
        SlashEndsRun(Trim(runID), run, ArtifactKey(runID, path));
      }
    }
  }

  // ---------- what the plain store promises ----------

  /** Blank run ids are rejected first, then blank paths, and nothing else is. */
  lemma {:induction false} ArgumentsChecked(runID: string, path: string)
    ensures CheckArguments(runID, path) ==
      if AllSpaces(runID) then Some(RunIDRequired) else if AllSpaces(path) then Some(PathRequired) else None
  {
    TrimmedToNothing(runID);
    TrimmedToNothing(path);
  }

  /** White space around run id and path does not matter, nor do slashes in front of the path. */
  lemma {:induction false} KeyMeans(run: string, slashes: string, name: string, left: string, right: string)
    requires AllSpaces(left) && AllSpaces(right) && Trimmed(run) && Trimmed(slashes + name)
    requires (forall i :: 0 <= i < |slashes| ==> slashes[i] == '/') && (name == "" || name[0] != '/')
    ensures ArtifactKey(left + run + right, left + (slashes + name) + right) == run + "/" + name
  {
    TrimPadded(left, run, right);
    TrimPadded(left, slashes + name, right);
    SlashesRemoved(slashes, name);
  }

  /** What was put can be got, under its own key only. */
  lemma {:induction false} PutThenGet(data: Store, runID: string, path: string, content: Bytes, otherRun: string, otherPath: string)
    requires CheckArguments(runID, path).None? && CheckArguments(otherRun, otherPath).None?
    ensures PlainStep(data, Put(runID, path, content)).response == Done
    ensures var after := PlainStep(data, Put(runID, path, content)).data;
      PlainStep(after, Get(otherRun, otherPath)).response ==
      if ArtifactKey(otherRun, otherPath) == ArtifactKey(runID, path) then Content(content)
      else PlainStep(data, Get(otherRun, otherPath)).response
    ensures PlainStep(map[], Get(otherRun, otherPath)).response == Failed(NotFound)
  {
  }

  /** A rejected request answers with the cause and stores nothing; nor does a Get or a List store. */
  lemma {:induction false} RejectedOrRead(data: Store, runID: string, path: string, content: Bytes)
    ensures match CheckArguments(runID, path)
      case Some(e) =>
        && PlainStep(data, Put(runID, path, content)) == Plain(data, Failed(e))
        && PlainStep(data, Get(runID, path)) == Plain(data, Failed(e))
      case None => true
    ensures PlainStep(data, Get(runID, path)).data == data && PlainStep(data, List(runID)).data == data
    ensures AllSpaces(runID) ==> PlainStep(data, List(runID)).response == Failed(RunIDRequired)
  {
    TrimmedToNothing(runID);
  }

  /** A listing holds the names stored under the run, each once, in the order of strings. */
  lemma {:induction false} ListNames(data: Store, runID: string) returns (names: seq<string>)
    requires !AllSpaces(runID)
    ensures PlainStep(data, List(runID)).response == Names(names)
    ensures forall n :: n in names <==> Trim(runID) + "/" + n in data
    ensures forall i, j :: 0 <= i < j < |names| ==> StringLe(names[i], names[j]) && names[i] != names[j]
  {
    TrimmedToNothing(runID);
    var prefix := Trim(runID) + "/";
    names := Listing(data, prefix);
    forall n
      ensures n in names <==> prefix + n in data
    {
      assert n in names <==> n in Elements(names);
      assert (prefix + n)[|prefix|..] == n;
      if n in names {
        var k :| k in data && prefix <= k && n == k[|prefix|..];
        assert k == prefix + n;
      }
    }
    forall i, j | 0 <= i < j < |names|
      ensures StringLe(names[i], names[j]) && names[i] != names[j]
    {
      assert ByText()(names[i], names[j]);
    }
  }

  // ---------- what the cache holds ----------

  /** A content that was put, or read from the plain store, is answered from the cache until it
      expires, if it fits. */
  lemma {:induction false} ContentsAreCached(cfg: CacheConfig, s: CachedState, req: Request, bytes: Bytes, now: int, later: int)
    requires ValidConfig(cfg) && (cfg.blob.maxBytes <= 0 || |bytes| <= cfg.blob.maxBytes) && later <= now + cfg.blob.ttl
    requires req.Put? || req.Get?
    requires req.Put? ==> req.content == bytes && CachedStep(cfg, s, req, now).response == Done
    requires req.Get? ==> && L.Get(s.blobs, ArtifactKey(req.runID, req.path), now).value.None?
                          && CachedStep(cfg, s, req, now).response == Content(bytes)
    ensures L.Get(CachedStep(cfg, s, req, now).state.blobs, ArtifactKey(req.runID, req.path), later).value == Some(bytes)
  {
    var key := ArtifactKey(req.runID, req.path);
    if req.Put? {
      L.GetAfterSet(cfg.blob, s.blobs, key, bytes, |bytes|, now, later);
    } else {
      L.GetAfterSet(cfg.blob, L.Get(s.blobs, key, now).contents, key, bytes, |bytes|, now, later);
    }
  }

  /** A listing read from the plain store is answered from the cache until it expires. */
  lemma {:induction false} ListingsAreCached(cfg: CacheConfig, s: CachedState, runID: string, names: seq<string>, now: int, later: int)
    requires ValidConfig(cfg) && later <= now + cfg.list.ttl
    requires L.Get(s.lists, Trim(runID), now).value.None? && CachedStep(cfg, s, List(runID), now).response == Names(names)
    ensures L.Get(CachedStep(cfg, s, List(runID), now).state.lists, Trim(runID), later).value == Some(names)
  {
    var run := Trim(runID);
    L.GetAfterSet(cfg.list, L.Get(s.lists, run, now).contents, run, names, TotalLength(names), now, later);
  }
}
