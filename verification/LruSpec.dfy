/** What an LRU cache with per-entry time to live does, on the list of its entries, most recently
    used first. */
module LruSpec {
  import opened Options

  datatype Entry<K, V> = Entry(key: K, value: V, expiresAt: int, size: nat)

  /** maxBytes <= 0 means no bound on the bytes. */
  datatype Limits = Limits(maxEntries: int, maxBytes: int, ttl: int)

  predicate ValidLimits(l: Limits) {
    l.maxEntries > 0 && l.ttl > 0
  }

  function TotalBytes<K, V>(c: seq<Entry<K, V>>): nat {
    if c == [] then 0 else TotalBytes(c[..|c| - 1]) + c[|c| - 1].size
  }

  predicate WithinLimits<K, V>(l: Limits, c: seq<Entry<K, V>>) {
    |c| <= l.maxEntries && (l.maxBytes <= 0 || TotalBytes(c) <= l.maxBytes)
  }

  ghost predicate UniqueKeys<K, V>(c: seq<Entry<K, V>>) {
    forall i, j :: 0 <= i < j < |c| ==> c[i].key != c[j].key
  }

  function Lookup<K(==), V>(c: seq<Entry<K, V>>, key: K): Option<Entry<K, V>> {
    if c == [] then None else if c[0].key == key then Some(c[0]) else Lookup(c[1..], key)
  }

  function RemoveKey<K(==), V>(c: seq<Entry<K, V>>, key: K): seq<Entry<K, V>> {
    if c == [] then [] else if c[0].key == key then c[1..] else [c[0]] + RemoveKey(c[1..], key)
  }

  /** Drops least recently used entries until the limits are met. */
  function Evict<K, V>(l: Limits, c: seq<Entry<K, V>>): seq<Entry<K, V>> {
    if c == [] || WithinLimits(l, c) then c else Evict(l, c[..|c| - 1])
  }

  datatype GetResult<K, V> = GetResult(contents: seq<Entry<K, V>>, value: Option<V>)

  function Get<K(==), V>(c: seq<Entry<K, V>>, key: K, now: int): GetResult<K, V> {
    match Lookup(c, key)
    case None => GetResult(c, None)
    case Some(e) =>
      if now > e.expiresAt then GetResult(RemoveKey(c, key), None)
      else GetResult([e] + RemoveKey(c, key), Some(e.value))
  }

  function Set<K(==), V>(l: Limits, c: seq<Entry<K, V>>, key: K, value: V, size: int, now: int): seq<Entry<K, V>> {
    Evict(l, [Entry(key, value, now + l.ttl, if size < 0 then 0 else size)] + RemoveKey(c, key))
  }

  // ---------- keys ----------

  lemma {:induction false} LookupFinds<K, V>(c: seq<Entry<K, V>>, key: K)
    ensures Lookup(c, key).Some? ==> Lookup(c, key).value in c && Lookup(c, key).value.key == key
    ensures Lookup(c, key).None? ==> forall e :: e in c ==> e.key != key
  {
    if c != [] && c[0].key != key {
      LookupFinds(c[1..], key);
      assert c == [c[0]] + c[1..];
    }
  }

  lemma {:induction false} LookupMember<K, V>(c: seq<Entry<K, V>>, e: Entry<K, V>)
    requires UniqueKeys(c) && e in c
    ensures Lookup(c, e.key) == Some(e)
  {
    if c[0] != e {
      assert e in c[1..];
      var i :| 0 <= i < |c[1..]| && c[1..][i] == e;
      assert c[i + 1] == e;
      LookupMember(c[1..], e);
    }
  }

  lemma TailUnique<K, V>(c: seq<Entry<K, V>>)
    requires c != [] && UniqueKeys(c)
    ensures UniqueKeys(c[1..])
    ensures forall e :: e in c[1..] ==> e.key != c[0].key
    ensures forall e :: e in c <==> e == c[0] || e in c[1..]
  {
    assert c == [c[0]] + c[1..];
  }

  /** Putting an entry with a new key in front keeps keys unique. */
  lemma ConsUnique<K, V>(e: Entry<K, V>, c: seq<Entry<K, V>>)
    requires UniqueKeys(c) && forall x :: x in c ==> x.key != e.key
    ensures UniqueKeys([e] + c)
    ensures forall x :: x in [e] + c <==> x == e || x in c
  {
    forall i | 0 <= i < |c|
      ensures c[i].key != e.key
    {
      assert c[i] in c;
    }
  }

  /** Removing a key keeps exactly the entries under other keys. */
  lemma {:induction false} RemoveKeyMembers<K, V>(c: seq<Entry<K, V>>, key: K)
    requires UniqueKeys(c)
    ensures UniqueKeys(RemoveKey(c, key))
    ensures forall e :: e in RemoveKey(c, key) ==> e in c && e.key != key
    ensures forall e :: e in c && e.key != key ==> e in RemoveKey(c, key)
  {
    if c != [] {
      TailUnique(c);
      if c[0].key != key {
        RemoveKeyMembers(c[1..], key);
        ConsUnique(c[0], RemoveKey(c[1..], key));
      }
    }
  }

  /** Removing a key hides that key only. */
  lemma {:induction false} LookupAfterRemove<K, V>(c: seq<Entry<K, V>>, key: K, other: K)
    requires other != key
    ensures Lookup(RemoveKey(c, key), other) == Lookup(c, other)
  {
    if c != [] && c[0].key != key {
      LookupAfterRemove(c[1..], key, other);
    }
  }

  // ---------- eviction ----------

  lemma {:induction false} PrefixLighter<K, V>(c: seq<Entry<K, V>>, k: nat)
    requires k <= |c|
    ensures TotalBytes(c[..k]) <= TotalBytes(c)
    decreases |c|
  {
    if k < |c| {
      PrefixLighter(c[..|c| - 1], k);
      assert c[..|c| - 1][..k] == c[..k];
    } else {
      assert c[..k] == c;
    }
  }

  /** The survivors are the longest most-recent-first prefix that meets the limits. */
  lemma {:induction false} EvictKeepsLongestPrefix<K, V>(l: Limits, c: seq<Entry<K, V>>, k: nat)
    requires ValidLimits(l) && k <= |c|
    ensures Evict(l, c) <= c && WithinLimits(l, Evict(l, c))
    ensures k <= l.maxEntries && (l.maxBytes <= 0 || TotalBytes(c[..k]) <= l.maxBytes) ==> k <= |Evict(l, c)|
    decreases |c|
  {
    if c != [] && !WithinLimits(l, c) {
      if k < |c| {
        EvictKeepsLongestPrefix(l, c[..|c| - 1], k);
        assert c[..|c| - 1][..k] == c[..k];
      } else {
        EvictKeepsLongestPrefix(l, c[..|c| - 1], 0);
        assert c[..k] == c;
      }
    }
  }

  lemma PrefixUnique<K, V>(c: seq<Entry<K, V>>, d: seq<Entry<K, V>>)
    requires UniqueKeys(c) && d <= c
    ensures UniqueKeys(d) && forall e :: e in d ==> e in c
  {
    forall e | e in d
      ensures e in c
    {
      var i :| 0 <= i < |d| && d[i] == e;
      assert c[i] == e;
    }
  }

  /** Removing the last key cuts off the last entry. */
  lemma {:induction false} RemoveLastKey<K, V>(c: seq<Entry<K, V>>)
    requires c != [] && UniqueKeys(c)
    ensures RemoveKey(c, c[|c| - 1].key) == c[..|c| - 1]
  {
    if |c| > 1 {
      TailUnique(c);
      RemoveLastKey(c[1..]);
      assert [c[0]] + c[1..][..|c| - 2] == c[..|c| - 1];
    }
  }

  /** A value that fits the cache on its own can be read back exactly until it expires. */
  lemma GetAfterSet<K, V>(l: Limits, c: seq<Entry<K, V>>, key: K, value: V, size: nat, now: int, later: int)
    requires ValidLimits(l) && (l.maxBytes <= 0 || size <= l.maxBytes)
    ensures Get(Set(l, c, key, value, size, now), key, later).value == if later <= now + l.ttl then Some(value) else None
  {
    var all := [Entry(key, value, now + l.ttl, size)] + RemoveKey(c, key);
    assert all[..1] == [all[0]] && all[..1][..0] == [];
    assert TotalBytes(all[..1]) == TotalBytes(all[..1][..0]) + size;
    EvictKeepsLongestPrefix(l, all, 1);
    assert Evict(l, all)[0] == all[0];
  }

  /** After a Set only the new entry and older ones under other keys can be cached. */
  lemma SetKeepsEntries<K, V>(l: Limits, c: seq<Entry<K, V>>, key: K, value: V, size: int, now: int)
    requires ValidLimits(l) && UniqueKeys(c)
    ensures UniqueKeys(Set(l, c, key, value, size, now))
    ensures forall e :: e in Set(l, c, key, value, size, now) ==>
              if e.key == key then e == Entry(key, value, now + l.ttl, if size < 0 then 0 else size) else e in c
  {
    RemoveKeyMembers(c, key);
    var e := Entry(key, value, now + l.ttl, if size < 0 then 0 else size);
    ConsUnique(e, RemoveKey(c, key));
    EvictKeepsLongestPrefix(l, [e] + RemoveKey(c, key), 0);
    PrefixUnique([e] + RemoveKey(c, key), Set(l, c, key, value, size, now));
  }

  // ---------- histories ----------

  datatype Op<K, V> =
    | SetOp(key: K, value: V, size: int, now: int)
    | GetOp(key: K, now: int)
    | DeleteOp(key: K)
    | ClearOp

  function Step<K(==), V>(l: Limits, c: seq<Entry<K, V>>, op: Op<K, V>): seq<Entry<K, V>> {
    match op
    case SetOp(key, value, size, now) => Set(l, c, key, value, size, now)
    case GetOp(key, now) => Get(c, key, now).contents
    case DeleteOp(key) => RemoveKey(c, key)
    case ClearOp => []
  }

  function After<K(==), V>(l: Limits, ops: seq<Op<K, V>>): seq<Entry<K, V>> {
    if ops == [] then [] else Step(l, After(l, ops[..|ops| - 1]), ops[|ops| - 1])
  }

  /** Value, expiry and size of the latest Set of the key that no Delete or Clear has followed. */
  function LatestSet<K(==), V>(l: Limits, ops: seq<Op<K, V>>, key: K): Option<(V, int, nat)> {
    if ops == [] then None
    else
      match ops[|ops| - 1]
      case SetOp(k, value, size, now) =>
        if k == key then Some((value, now + l.ttl, if size < 0 then 0 else size)) else LatestSet(l, ops[..|ops| - 1], key)
      case GetOp(_, _) => LatestSet(l, ops[..|ops| - 1], key)
      case DeleteOp(k) => if k == key then None else LatestSet(l, ops[..|ops| - 1], key)
      case ClearOp => None
  }

  /** A Get may reorder the entries or drop the expired one; it never changes any. */
  lemma GetKeepsEntries<K, V>(c: seq<Entry<K, V>>, key: K, now: int)
    requires UniqueKeys(c)
    ensures UniqueKeys(Get(c, key, now).contents)
    ensures forall e :: e in Get(c, key, now).contents ==> e in c && (e.key == key ==> now <= e.expiresAt)
    ensures forall e :: e in c && (e.key == key ==> now <= e.expiresAt) ==> e in Get(c, key, now).contents
  {
    LookupFinds(c, key);
    RemoveKeyMembers(c, key);
    if Lookup(c, key).Some? {
      ConsUnique(Lookup(c, key).value, RemoveKey(c, key));
      forall e | e in c && e.key == key
        ensures e == Lookup(c, key).value
      {
        LookupMember(c, e);
      }
    }
  }

  /** In every history keys stay unique, and each cached entry is the latest Set of its key. */
  lemma {:induction false} EntriesAreLatest<K, V>(l: Limits, ops: seq<Op<K, V>>)
    requires ValidLimits(l)
    ensures UniqueKeys(After(l, ops))
    ensures forall e :: e in After(l, ops) ==> LatestSet(l, ops, e.key) == Some((e.value, e.expiresAt, e.size))
    decreases |ops|
  {
    if ops != [] {
      var before, op := After(l, ops[..|ops| - 1]), ops[|ops| - 1];
      EntriesAreLatest(l, ops[..|ops| - 1]);
      match op
      case SetOp(key, value, size, now) =>
        SetKeepsEntries(l, before, key, value, size, now);
      case GetOp(key, now) =>
        GetKeepsEntries(before, key, now);
      case DeleteOp(key) => RemoveKeyMembers(before, key);
      case ClearOp =>
    }
  }

  /** A hit returns the value of the latest Set of the key, not yet expired and with no later
      Delete or Clear. */
  lemma HitIsLatestSet<K, V>(l: Limits, ops: seq<Op<K, V>>, key: K, now: int)
    requires ValidLimits(l) && Get(After(l, ops), key, now).value.Some?
    ensures LatestSet(l, ops, key).Some?
    ensures Get(After(l, ops), key, now).value == Some(LatestSet(l, ops, key).value.0)
    ensures now <= LatestSet(l, ops, key).value.1
  {
    EntriesAreLatest(l, ops);
    LookupFinds(After(l, ops), key);
  }

  lemma {:induction false} ConsBytes<K, V>(e: Entry<K, V>, c: seq<Entry<K, V>>)
    ensures TotalBytes([e] + c) == e.size + TotalBytes(c)
  {
    if c != [] {
      ConsBytes(e, c[..|c| - 1]);
      assert ([e] + c)[..|c|] == [e] + c[..|c| - 1];
    }
  }

  /** Removing an entry frees exactly its bytes. */
  lemma {:induction false} RemoveKeyBytes<K, V>(c: seq<Entry<K, V>>, key: K)
    ensures match Lookup(c, key)
      case Some(e) => TotalBytes(RemoveKey(c, key)) + e.size == TotalBytes(c) && |RemoveKey(c, key)| + 1 == |c|
      case None => RemoveKey(c, key) == c
  {
    if c != [] {
      assert c == [c[0]] + c[1..];
      ConsBytes(c[0], c[1..]);
      if c[0].key != key {
        RemoveKeyBytes(c[1..], key);
        ConsBytes(c[0], RemoveKey(c[1..], key));
      }
    }
  }

  /** Neither a Get nor a Delete makes the contents longer or heavier. */
  lemma NoGrowth<K, V>(c: seq<Entry<K, V>>, key: K, now: int)
    ensures |RemoveKey(c, key)| <= |c| && TotalBytes(RemoveKey(c, key)) <= TotalBytes(c)
    ensures |Get(c, key, now).contents| <= |c| && TotalBytes(Get(c, key, now).contents) <= TotalBytes(c)
  {
    RemoveKeyBytes(c, key);
    if Lookup(c, key).Some? {
      ConsBytes(Lookup(c, key).value, RemoveKey(c, key));
    }
  }

  /** Both limits hold after every history. */
  lemma {:induction false} LimitsAlwaysHold<K, V>(l: Limits, ops: seq<Op<K, V>>)
    requires ValidLimits(l)
    ensures |After(l, ops)| <= l.maxEntries && (l.maxBytes > 0 ==> TotalBytes(After(l, ops)) <= l.maxBytes)
    decreases |ops|
  {
    if ops != [] {
      var before, op := After(l, ops[..|ops| - 1]), ops[|ops| - 1];
      LimitsAlwaysHold(l, ops[..|ops| - 1]);
      match op
      case SetOp(key, value, size, now) =>
        var e := Entry(key, value, now + l.ttl, if size < 0 then 0 else size);
        EvictKeepsLongestPrefix(l, [e] + RemoveKey(before, key), 0);
      case GetOp(key, now) => NoGrowth(before, key, now);
      case DeleteOp(key) => NoGrowth(before, key, 0);
      case ClearOp =>
    }
  }

  // ---------- recency ----------

  /** When the key was last used: the number of operations up to its latest Set or hitting Get,
      0 if there was none. */
  function LastUse<K(==), V>(l: Limits, ops: seq<Op<K, V>>, key: K): nat {
    if ops == [] then 0
    else
      var front := ops[..|ops| - 1];
      match ops[|ops| - 1]
      case SetOp(k, _, _, _) => if k == key then |ops| else LastUse(l, front, key)
      case GetOp(k, now) =>
        if k == key && Get(After(l, front), key, now).value.Some? then |ops| else LastUse(l, front, key)
      case DeleteOp(_) => LastUse(l, front, key)
      case ClearOp => LastUse(l, front, key)
  }

  lemma {:induction false} LastUseInPast<K, V>(l: Limits, ops: seq<Op<K, V>>, key: K)
    ensures LastUse(l, ops, key) <= |ops|
    decreases |ops|
  {
    if ops != [] {
      LastUseInPast(l, ops[..|ops| - 1], key);
    }
  }

  /** The keys stand in strictly falling order of last use. */
  ghost predicate ByRecency<K(!new), V(!new)>(l: Limits, ops: seq<Op<K, V>>, c: seq<Entry<K, V>>) {
    forall i, j :: 0 <= i < j < |c| ==> LastUse(l, ops, c[i].key) > LastUse(l, ops, c[j].key)
  }

  lemma InFrontByRecency<K(!new), V(!new)>(l: Limits, ops: seq<Op<K, V>>, c: seq<Entry<K, V>>, rest: seq<Entry<K, V>>)
    requires c != [] && ByRecency(l, ops, c) && ByRecency(l, ops, rest)
    requires forall e :: e in rest ==> e in c[1..]
    ensures ByRecency(l, ops, [c[0]] + rest)
  {
    forall j | 0 <= j < |rest|
      ensures LastUse(l, ops, c[0].key) > LastUse(l, ops, rest[j].key)
    {
      assert rest[j] in c[1..];
      var m :| 1 <= m < |c| && c[m] == rest[j];
    }
  }

  lemma {:induction false} RestByRecency<K(!new), V(!new)>(l: Limits, ops: seq<Op<K, V>>, c: seq<Entry<K, V>>, key: K)
    requires UniqueKeys(c) && ByRecency(l, ops, c)
    ensures ByRecency(l, ops, RemoveKey(c, key))
    decreases c
  {
    if c != [] && c[0].key != key {
      TailUnique(c);
      RestByRecency(l, ops, c[1..], key);
      RemoveKeyMembers(c[1..], key);
      InFrontByRecency(l, ops, c, RemoveKey(c[1..], key));
    }
  }

  /** An operation on one key leaves the last uses of the other keys as they were. */
  lemma OthersUnused<K(!new), V(!new)>(l: Limits, ops: seq<Op<K, V>>, c: seq<Entry<K, V>>, key: K)
    requires ops != [] && (ops[|ops| - 1].SetOp? || ops[|ops| - 1].GetOp? || ops[|ops| - 1].DeleteOp?)
    requires ops[|ops| - 1].key == key && (forall e :: e in c ==> e.key != key)
    requires ByRecency(l, ops[..|ops| - 1], c)
    ensures ByRecency(l, ops, c)
  {
    forall i | 0 <= i < |c|
      ensures LastUse(l, ops, c[i].key) == LastUse(l, ops[..|ops| - 1], c[i].key)
    {
      assert c[i] in c;
    }
  }

  lemma FrontByRecency<K(!new), V(!new)>(l: Limits, ops: seq<Op<K, V>>, e: Entry<K, V>, c: seq<Entry<K, V>>)
    requires ops != [] && ByRecency(l, ops, c) && LastUse(l, ops, e.key) == |ops|
    requires forall x :: x in c ==> LastUse(l, ops, x.key) < |ops|
    ensures ByRecency(l, ops, [e] + c)
  {
    forall j | 0 <= j < |c|
      ensures LastUse(l, ops, c[j].key) < |ops|
    {
      assert c[j] in c;
    }
  }

  /** The key of the last operation was used just now, the others earlier. */
  lemma UsedJustNow<K(!new), V(!new)>(l: Limits, ops: seq<Op<K, V>>, e: Entry<K, V>, c: seq<Entry<K, V>>)
    requires ValidLimits(l) && UniqueKeys(c) && ops != [] && ByRecency(l, ops[..|ops| - 1], c)
    requires (ops[|ops| - 1].SetOp? || ops[|ops| - 1].GetOp?) && ops[|ops| - 1].key == e.key
    requires LastUse(l, ops, e.key) == |ops|
    ensures ByRecency(l, ops, [e] + RemoveKey(c, e.key))
  {
    var front, rest := ops[..|ops| - 1], RemoveKey(c, e.key);
    RestByRecency(l, front, c, e.key);
    RemoveKeyMembers(c, e.key);
    OthersUnused(l, ops, rest, e.key);
    forall x | x in rest
      ensures LastUse(l, ops, x.key) < |ops|
    {
      LastUseInPast(l, front, x.key);
    }
    FrontByRecency(l, ops, e, rest);
  }

  /** In every history the entries stand in the order of their last use, most recent first; so
      what is evicted is what was not used for longest. */
  lemma {:induction false} MostRecentFirst<K(!new), V(!new)>(l: Limits, ops: seq<Op<K, V>>)
    requires ValidLimits(l)
    ensures forall i, j :: 0 <= i < j < |After(l, ops)| ==>
              LastUse(l, ops, After(l, ops)[i].key) > LastUse(l, ops, After(l, ops)[j].key)
    decreases |ops|
  {
    if ops != [] {
      var front, op := ops[..|ops| - 1], ops[|ops| - 1];
      var c := After(l, front);
      MostRecentFirst(l, front);
      EntriesAreLatest(l, front);
      match op
      case SetOp(key, value, size, now) =>
        var e := Entry(key, value, now + l.ttl, if size < 0 then 0 else size);
        UsedJustNow(l, ops, e, c);
        EvictKeepsLongestPrefix(l, [e] + RemoveKey(c, key), 0);
      case GetOp(key, now) =>
        LookupFinds(c, key);
        if Get(c, key, now).value.Some? {
          UsedJustNow(l, ops, Lookup(c, key).value, c);
        } else {
          RestByRecency(l, front, c, key);
          RemoveKeyMembers(c, key);
          OthersUnused(l, ops, Get(c, key, now).contents, key);
        }
      case DeleteOp(key) =>
        RestByRecency(l, front, c, key);
        RemoveKeyMembers(c, key);
        OthersUnused(l, ops, RemoveKey(c, key), key);
      case ClearOp =>
    }
  }

  lemma SecondIsFound<K, V>(c: seq<Entry<K, V>>, b: Entry<K, V>, a: Entry<K, V>)
    requires |c| >= 2 && c[0] == b && c[1] == a && a.key != b.key
    ensures Lookup(c, a.key) == Some(a)
  {
    assert c[1..][0] == a;
  }

  /** The two entries in front survive an eviction when they fit. */
  lemma FirstTwoSurvive<K, V>(l: Limits, b: Entry<K, V>, a: Entry<K, V>, rest: seq<Entry<K, V>>)
    requires ValidLimits(l) && l.maxEntries >= 2 && (l.maxBytes <= 0 || a.size + b.size <= l.maxBytes)
    requires a.key != b.key
    ensures Lookup(Evict(l, [b, a] + rest), a.key) == Some(a)
  {
    var all := [b, a] + rest;
    assert all[..2] == [b] + [a] && [a] == [a] + all[..0];
    ConsBytes(b, [a]);
    ConsBytes(a, all[..0]);
    EvictKeepsLongestPrefix(l, all, 2);
    SecondIsFound(Evict(l, all), b, a);
  }

  lemma SetBehind<K, V>(l: Limits, a: Entry<K, V>, tail: seq<Entry<K, V>>, key: K, value: V, size: nat, now: int)
    requires a.key != key
    ensures Set(l, [a] + tail, key, value, size, now) ==
            Evict(l, [Entry(key, value, now + l.ttl, size), a] + RemoveKey(tail, key))
  {
    var b := Entry(key, value, now + l.ttl, size);
    assert ([a] + tail)[1..] == tail;
    assert [b] + ([a] + RemoveKey(tail, key)) == [b, a] + RemoveKey(tail, key);
  }

  /** A key that was just hit survives the Set of another key when both entries fit. */
  lemma HitSurvivesSet<K, V>(l: Limits, c: seq<Entry<K, V>>, key: K, hit: int, other: K, value: V, size: nat, now: int, later: int)
    requires ValidLimits(l) && key != other && Get(c, key, hit).value.Some?
    requires l.maxEntries >= 2 && (l.maxBytes <= 0 || Lookup(c, key).value.size + size <= l.maxBytes)
    requires later <= Lookup(c, key).value.expiresAt
    ensures Get(Set(l, Get(c, key, hit).contents, other, value, size, now), key, later).value == Get(c, key, hit).value
  {
    LookupFinds(c, key);
    var a, tail := Lookup(c, key).value, RemoveKey(c, key);
    SetBehind(l, a, tail, other, value, size, now);
    FirstTwoSurvive(l, Entry(other, value, now + l.ttl, size), a, RemoveKey(tail, other));
  }
}
