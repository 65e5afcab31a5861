/** The LRU cache with its linked list, key map and byte counter, updated in place. */
module Lru {
  import opened Options
  import opened LruSpec

  /** Thirty seconds, in nanoseconds. */
  const DEFAULT_TTL: int := 30_000_000_000

  /** A list element: its entry is overwritten in place when its key is set again. */
  class Node<K, V> {
    const key: K
    var value: V
    var expiresAt: int
    var size: nat

    constructor (key: K, value: V, expiresAt: int, size: nat)
      ensures this.key == key && this.value == value && this.expiresAt == expiresAt && this.size == size
    {
      this.key, this.value, this.expiresAt, this.size := key, value, expiresAt, size;
    }

    method Overwrite(value: V, expiresAt: int, size: nat)
      modifies this
      ensures this.value == value && this.expiresAt == expiresAt && this.size == size
    {
      this.value, this.size, this.expiresAt := value, size, expiresAt;
    }
  }

  ghost function EntryOf<K, V>(n: Node<K, V>): Entry<K, V>
    reads n
  {
    Entry(n.key, n.value, n.expiresAt, n.size)
  }

  ghost function Entries<K, V>(nodes: seq<Node<K, V>>): seq<Entry<K, V>>
    reads nodes
  {
    if nodes == [] then [] else [EntryOf(nodes[0])] + Entries(nodes[1..])
  }

  /** The list without the element x. */
  function Unlink<T(==)>(nodes: seq<T>, x: T): seq<T> {
    if nodes == [] then [] else if nodes[0] == x then nodes[1..] else [nodes[0]] + Unlink(nodes[1..], x)
  }

  lemma {:induction false} EntriesAt<K, V>(nodes: seq<Node<K, V>>)
    ensures |Entries(nodes)| == |nodes|
    ensures forall i :: 0 <= i < |nodes| ==> Entries(nodes)[i] == EntryOf(nodes[i])
  {
    if nodes != [] {
      EntriesAt(nodes[1..]);
    }
  }

  lemma OtherKeys<K, V>(nodes: seq<Node<K, V>>, n: Node<K, V>)
    requires nodes != [] && UniqueKeys(Entries(nodes)) && n in nodes[1..]
    ensures n.key != nodes[0].key
  {
    EntriesAt(nodes);
    var i :| 1 <= i < |nodes| && nodes[i] == n;
    assert Entries(nodes)[0].key != Entries(nodes)[i].key;
  }

  lemma {:induction false} UnlinkEntries<K, V>(nodes: seq<Node<K, V>>, x: Node<K, V>)
    requires UniqueKeys(Entries(nodes)) && x in nodes
    ensures Entries(Unlink(nodes, x)) == RemoveKey(Entries(nodes), x.key)
    ensures forall n :: n in Unlink(nodes, x) ==> n in nodes && n != x
    ensures forall n :: n in nodes && n != x ==> n in Unlink(nodes, x)
  {
    if nodes[0] == x {
      forall n | n in nodes[1..]
        ensures n != x
      {
        OtherKeys(nodes, n);
      }
    } else {
      OtherKeys(nodes, x);
      TailUnique(Entries(nodes));
      UnlinkEntries(nodes[1..], x);
    }
  }

  class LRUTTL<K(==), V> {
    const limits: Limits
    var ll: seq<Node<K, V>>
    var items: map<K, Node<K, V>>
    var totalBytes: int

    /** The cached entries, most recently used first. */
    ghost function Contents(): seq<Entry<K, V>>
      reads this, ll
    {
      Entries(ll)
    }

    ghost function Repr(): set<object>
      reads this
    {
      {this as object} + set n | n in ll :: n as object
    }

    /** Map and list hold the same elements under unique keys, and the counter is exact. */
    ghost predicate Valid()
      reads this, ll
    {
      && ValidLimits(limits)
      && UniqueKeys(Contents())
      && (forall k :: k in items ==> items[k] in ll && items[k].key == k)
      && (forall n :: n in ll ==> n.key in items && items[n.key] == n)
      && totalBytes == TotalBytes(Contents())
    }

    constructor (maxEntries: int, maxBytes: int, ttl: int)
      ensures Valid() && Contents() == [] && ll == []
      ensures limits == Limits(if maxEntries <= 0 then 1 else maxEntries, maxBytes, if ttl <= 0 then 30_000_000_000 else ttl)
    {
      limits := Limits(if maxEntries <= 0 then 1 else maxEntries, maxBytes, if ttl <= 0 then DEFAULT_TTL else ttl);
      ll, items, totalBytes := [], map[], 0;
    }

    /** The map finds exactly the entry that the list holds. */
    lemma MapMatchesList(key: K)
      requires Valid()
      ensures key in items ==> Lookup(Contents(), key) == Some(EntryOf(items[key]))
      ensures key !in items ==> Lookup(Contents(), key) == None
    {
      EntriesAt(ll);
      LookupFinds(Contents(), key);
      if key in items {
        var i :| 0 <= i < |ll| && ll[i] == items[key];
        assert Contents()[i] == EntryOf(ll[i]);
        LookupMember(Contents(), EntryOf(ll[i]));
      } else {
        forall i | 0 <= i < |ll|
          ensures Contents()[i].key != key
        {
          assert ll[i] in ll;
        }
      }
    }

    /** What unlinking an element does to the entries, their keys and their bytes. */
    lemma UnlinkFacts(ele: Node<K, V>)
      requires Valid() && ele in ll
      ensures Entries(Unlink(ll, ele)) == RemoveKey(Contents(), ele.key)
      ensures UniqueKeys(RemoveKey(Contents(), ele.key))
      ensures forall e :: e in RemoveKey(Contents(), ele.key) ==> e.key != ele.key
      ensures TotalBytes(RemoveKey(Contents(), ele.key)) + ele.size == totalBytes
      ensures forall n :: n in Unlink(ll, ele) ==> n in ll && n != ele && n.key != ele.key
      ensures forall n :: n in ll && n != ele ==> n in Unlink(ll, ele)
    {
      MapMatchesList(ele.key);
      UnlinkEntries(ll, ele);
      RemoveKeyMembers(Contents(), ele.key);
      RemoveKeyBytes(Contents(), ele.key);
    }

    method RemoveElement(ele: Node<K, V>)
      requires Valid() && ele in ll
      modifies this
      ensures Valid()
      ensures Contents() == RemoveKey(old(Contents()), ele.key)
      ensures forall n :: n in ll ==> n in old(ll)
    {
      UnlinkFacts(ele);
      ll := Unlink(ll, ele);
      items := items - {ele.key};
      // The clamp to zero never fires: the counter is the exact sum of the sizes.
      assert totalBytes - ele.size >= 0;
      totalBytes := if totalBytes - ele.size < 0 then 0 else totalBytes - ele.size;
    }

    method Get(key: K, now: int) returns (r: Option<V>)
      requires Valid()
      modifies this
      ensures Valid()
      ensures Contents() == LruSpec.Get(old(Contents()), key, now).contents
      ensures r == LruSpec.Get(old(Contents()), key, now).value
      ensures forall n :: n in ll ==> n in old(ll)
    {
      MapMatchesList(key);
      if key !in items {
        return None;
      }
      var ele := items[key];
      if now > ele.expiresAt {
        RemoveElement(ele);
        return None;
      }
      MoveToFront(ele);
      return Some(ele.value);
    }

    method MoveToFront(ele: Node<K, V>)
      requires Valid() && ele in ll
      modifies `ll
      ensures Valid()
      ensures Contents() == [EntryOf(ele)] + RemoveKey(old(Contents()), ele.key)
      ensures forall n :: n in ll ==> n in old(ll)
    {
      UnlinkFacts(ele);
      ConsBytes(EntryOf(ele), RemoveKey(Contents(), ele.key));
      ConsUnique(EntryOf(ele), RemoveKey(Contents(), ele.key));
      ll := [ele] + Unlink(ll, ele);
      assert ll[1..] == Unlink(old(ll), ele);
    }

    /** Drops elements from the back of the list until the limits are met. */
    method EvictLocked()
      requires Valid()
      modifies this
      ensures Valid()
      ensures Contents() == Evict(limits, old(Contents()))
      ensures forall n :: n in ll ==> n in old(ll)
    {
      while true
        invariant Valid() && Evict(limits, Contents()) == Evict(limits, old(Contents()))
        invariant forall n :: n in ll ==> n in old(ll)
        decreases |ll|
      {
        EntriesAt(ll);
        if |ll| == 0 {
          return;
        }
        if |ll| <= limits.maxEntries && (limits.maxBytes <= 0 || totalBytes <= limits.maxBytes) {
          return;
        }
        RemoveLastKey(Contents());
        RemoveElement(ll[|ll| - 1]);
        EntriesAt(ll);
      }
    }

    /** A list with ele in front of consistent other elements is consistent. */
    lemma FrontedIsValid(ele: Node<K, V>, rest: seq<Node<K, V>>)
      requires ValidLimits(limits) && ll == [ele] + rest
      requires UniqueKeys(Entries(rest)) && forall e :: e in Entries(rest) ==> e.key != ele.key
      requires forall k :: k in items ==> (items[k] == ele || items[k] in rest) && items[k].key == k
      requires ele.key in items && items[ele.key] == ele
      requires forall n :: n in rest ==> n.key in items && items[n.key] == n
      requires totalBytes == ele.size + TotalBytes(Entries(rest))
      ensures Valid() && Contents() == [EntryOf(ele)] + Entries(rest)
    {
      assert ll[1..] == rest;
      ConsBytes(EntryOf(ele), Entries(rest));
      ConsUnique(EntryOf(ele), Entries(rest));
    }

    /** Overwrites an element; the others keep their entries. */
    method OverwriteApart(ele: Node<K, V>, ghost rest: seq<Node<K, V>>, value: V, size: nat, now: int)
      requires ele !in rest
      modifies ele
      ensures EntryOf(ele) == Entry(ele.key, value, now + limits.ttl, size)
      ensures Entries(rest) == old(Entries(rest))
    {
      ele.Overwrite(value, now + limits.ttl, size);
    }

    /** Overwrites the element of a key that is cached already and moves it to the front. */
    method Refresh(ele: Node<K, V>, value: V, size: nat, now: int)
      requires Valid() && ele in ll
      modifies this, ele
      ensures Valid()
      ensures Contents() == [Entry(ele.key, value, now + limits.ttl, size)] + RemoveKey(old(Contents()), ele.key)
      ensures forall n :: n in ll ==> n in old(ll)
    {
      var rest := Unlink(ll, ele);
      UnlinkFacts(ele);
      totalBytes := totalBytes - ele.size + size;
      OverwriteApart(ele, rest, value, size, now);
      ll := [ele] + rest;
      FrontedIsValid(ele, rest);
    }

    lemma NewKey(key: K)
      requires Valid() && key !in items
      ensures forall e :: e in Contents() ==> e.key != key
    {
      EntriesAt(ll);
      forall i | 0 <= i < |ll|
        ensures Contents()[i].key != key
      {
        assert ll[i] in ll;
      }
    }

    /** Puts an element for a new key in front. */
    method Insert(key: K, value: V, size: nat, now: int)
      requires Valid() && key !in items
      modifies this
      ensures Valid()
      ensures Contents() == [Entry(key, value, now + limits.ttl, size)] + old(Contents())
      ensures forall n :: n in ll ==> n in old(ll) || fresh(n)
    {
      NewKey(key);
      ghost var rest := ll;
      var ele := new Node(key, value, now + limits.ttl, size);
      ll := [ele] + ll;
      items := items[key := ele];
      totalBytes := totalBytes + size;
      FrontedIsValid(ele, rest);
    }

    /** Puts the entry for a key in front, in its old element if it has one. */
    method Place(key: K, value: V, size: nat, now: int)
      requires Valid()
      modifies Repr()
      ensures Valid()
      ensures Contents() == [Entry(key, value, now + limits.ttl, size)] + RemoveKey(old(Contents()), key)
      ensures fresh(Repr() - old(Repr()))
    {
      MapMatchesList(key);
      if key in items {
        var ele := items[key];
        assert ele as object in Repr();
        Refresh(ele, value, size, now);
      } else {
        RemoveKeyBytes(Contents(), key);
        Insert(key, value, size, now);
      }
    }

    method Set(key: K, value: V, sizeBytes: int, now: int)
      requires Valid()
      modifies Repr()
      ensures Valid()
      ensures Contents() == LruSpec.Set(limits, old(Contents()), key, value, sizeBytes, now)
      ensures WithinLimits(limits, Contents())
      ensures fresh(Repr() - old(Repr()))
    {
      var size: nat := if sizeBytes < 0 then 0 else sizeBytes;
      Place(key, value, size, now);
      EvictKeepsLongestPrefix(limits, Contents(), 0);
      EvictLocked();
    }

    method Delete(key: K)
      requires Valid()
      modifies this
      ensures Valid()
      ensures Contents() == RemoveKey(old(Contents()), key)
      ensures forall n :: n in ll ==> n in old(ll)
    {
      MapMatchesList(key);
      RemoveKeyBytes(Contents(), key);
      if key in items {
        RemoveElement(items[key]);
      }
    }

    method Clear()
      requires Valid()
      modifies this
      ensures Valid() && Contents() == [] && ll == []
    {
      ll := [];
      items := map[];
      totalBytes := 0;
    }
  }
}
