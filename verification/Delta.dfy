/** Diff and Apply: recording the changes between two JSON values under a budget, and replaying
    recorded changes on a value. */
module Delta {
  import opened Collections
  import opened Json
  import opened Text
  import opened DottedPaths

  datatype Mod = Mod(field: string, before: Json, after: Json)

  datatype Delta = Delta(added: seq<string>, removed: seq<string>, modified: seq<Mod>)

  const DEFAULT_MAX_CHANGES: nat := 200

  // ---------- what a delta for a list of changes looks like ----------

  ghost function ModAt(before: Json, after: Json, p: KeyPath): Mod {
    Mod(Field(p), ValueAt(before, p), ValueAt(after, p))
  }

  ghost function ModsOf(before: Json, after: Json, ps: seq<KeyPath>): seq<Mod> {
    seq(|ps|, i requires 0 <= i < |ps| => ModAt(before, after, ps[i]))
  }

  /** The paths of members that `to` has and `from` has not. */
  function IsNew(from: Json, to: Json): KeyPath -> bool {
    (p: KeyPath) => !HasMember(from, p) && HasMember(to, p)
  }

  ghost function Joined(ps: seq<KeyPath>): seq<string> {
    seq(|ps|, i requires 0 <= i < |ps| => Join(ps[i]))
  }

  /** The dotted paths of the members that only `to` has, in the order of ps. */
  ghost function NewMembers(from: Json, to: Json, ps: seq<KeyPath>): seq<string> {
    Joined(Filter(ps, IsNew(from, to)))
  }

  ghost function DeltaOf(before: Json, after: Json, ps: seq<KeyPath>): Delta {
    Delta(NewMembers(before, after, ps), NewMembers(after, before, ps), ModsOf(before, after, ps))
  }

  function Min(a: nat, b: nat): nat {
    if a < b then a else b
  }

  /** ps lists as many distinct changes as the budget allows. */
  ghost predicate Listed(before: Json, after: Json, ps: seq<KeyPath>, budget: nat) {
    && NoDuplicates(ps)
    && (forall p :: p in ps ==> IsChange(before, after, p))
    && |ps| == Min(budget, |Changes(before, after)|)
  }

  ghost predicate DeltaFor(before: Json, after: Json, budget: nat, d: Delta, ps: seq<KeyPath>) {
    Listed(before, after, ps, budget) && d == DeltaOf(before, after, ps)
  }

  /** A delta that Diff may give under this budget: it lists as many distinct changes as the budget
      allows, in any order. */
  ghost predicate IsDiff(before: Json, after: Json, budget: nat, d: Delta) {
    exists ps :: DeltaFor(before, after, budget, d, ps)
  }

  // ---------- listing the changes below the keys of two objects ----------

  ghost function ChangesUnder(before: Json, after: Json, done: set<string>): set<KeyPath> {
    set p | p in Changes(before, after) && p != [] && p[0] in done
  }

  ghost function UnderAll(k: string, qs: set<KeyPath>): set<KeyPath> {
    set q | q in qs :: Under(k, q)
  }

  lemma {:induction false} UnderAllSize(k: string, qs: set<KeyPath>)
    ensures |UnderAll(k, qs)| == |qs|
    decreases qs
  {
    if q :| q in qs {
      UnderAllSize(k, qs - {q});
      assert UnderAll(k, qs) == UnderAll(k, qs - {q}) + {Under(k, q)};
      forall r
        ensures Under(k, r)[1..] == r
      {
      }
    } else {
      assert UnderAll(k, qs) == {};
    }
  }

  lemma DisjointSize(a: set<KeyPath>, b: set<KeyPath>, c: set<KeyPath>)
    requires forall p :: p in c <==> p in a || p in b
    requires forall p :: p in a ==> p !in b
    ensures |c| == |a| + |b|
  {
    assert c == a + b;
  }

  /** The changes below one more key that both objects have. */
  lemma CountNestedKey(before: Json, after: Json, done: set<string>, k: string)
    requires before.Obj? && after.Obj? && k !in done && k in before.fields && k in after.fields
    ensures |ChangesUnder(before, after, done + {k})| ==
      |ChangesUnder(before, after, done)| + |Changes(before.fields[k], after.fields[k])|
  {
    var below := Changes(before.fields[k], after.fields[k]);
    forall p
      ensures p in ChangesUnder(before, after, done + {k}) <==>
              p in ChangesUnder(before, after, done) || p in UnderAll(k, below)
    {
      ChangesAre(before, after, p);
      if p != [] && p[0] == k {
        assert p == Under(k, p[1..]);
        ChangesAre(before.fields[k], after.fields[k], p[1..]);
      }
    }
    UnderAllSize(k, below);
    DisjointSize(ChangesUnder(before, after, done), UnderAll(k, below), ChangesUnder(before, after, done + {k}));
  }

  /** The change at one more key that only one of the objects has. */
  lemma CountDirectKey(before: Json, after: Json, done: set<string>, k: string)
    requires before.Obj? && after.Obj? && k !in done && (k in before.fields) != (k in after.fields)
    ensures |ChangesUnder(before, after, done + {k})| == |ChangesUnder(before, after, done)| + 1
  {
    forall p
      ensures p in ChangesUnder(before, after, done + {k}) <==>
              p in ChangesUnder(before, after, done) || p in {[k]}
    {
      ChangesAre(before, after, p);
      assert p == [k] <==> |p| == 1 && p[0] == k;
    }
    DisjointSize(ChangesUnder(before, after, done), {[k]}, ChangesUnder(before, after, done + {k}));
  }

  lemma AllUnder(before: Json, after: Json, done: set<string>)
    requires before.Obj? && after.Obj? && before.fields.Keys + after.fields.Keys <= done
    ensures ChangesUnder(before, after, done) == Changes(before, after)
  {
    forall p | p in Changes(before, after)
      ensures p != [] && p[0] in done
    {
      ChangesAre(before, after, p);
    }
  }

  /** qs lists as many of the changes below the keys in `done` as the budget allows. */
  ghost predicate ListedUnder(before: Json, after: Json, done: set<string>, qs: seq<KeyPath>, budget: nat) {
    && NoDuplicates(qs)
    && (forall q :: q in qs ==> IsChange(before, after, q) && q != [] && q[0] in done)
    && |qs| == Min(budget, |ChangesUnder(before, after, done)|)
  }

  function PrefixAll(p: KeyPath, qs: seq<KeyPath>): seq<KeyPath> {
    seq(|qs|, i requires 0 <= i < |qs| => p + qs[i])
  }

  lemma ListNested(before: Json, after: Json, done: set<string>, qs: seq<KeyPath>, budget: nat, k: string, below: seq<KeyPath>)
    requires before.Obj? && after.Obj? && k in before.fields && k in after.fields && k !in done
    requires ListedUnder(before, after, done, qs, budget)
    requires Listed(before.fields[k], after.fields[k], below, budget - |qs|)
    ensures ListedUnder(before, after, done + {k}, qs + PrefixAll([k], below), budget)
  {
    CountNestedKey(before, after, done, k);
    var more := PrefixAll([k], below);
    forall i | 0 <= i < |more|
      ensures IsChange(before, after, more[i]) && more[i] != [] && more[i][0] == k && more[i][1..] == below[i]
    {
      assert below[i] in below;
    }
    var all := qs + more;
    forall i, j | 0 <= i < j < |all|
      ensures all[i] != all[j]
    {
      if i < |qs| <= j {
        assert all[i] in qs && all[j] == more[j - |qs|];
      } else if i >= |qs| {
        assert more[i - |qs|][1..] == below[i - |qs|] && more[j - |qs|][1..] == below[j - |qs|];
      }
    }
  }

  lemma ListDirect(before: Json, after: Json, done: set<string>, qs: seq<KeyPath>, budget: nat, k: string)
    requires before.Obj? && after.Obj? && (k in before.fields) != (k in after.fields) && k !in done
    requires ListedUnder(before, after, done, qs, budget)
    ensures ListedUnder(before, after, done + {k}, if |qs| < budget then qs + [[k]] else qs, budget)
  {
    CountDirectKey(before, after, done, k);
    assert IsChange(before, after, [k]) && [k][0] == k;
  }

  /** Once the budget is used up, or all keys are done, everything that can be listed is. */
  lemma ListingDone(before: Json, after: Json, done: set<string>, qs: seq<KeyPath>, budget: nat)
    requires before.Obj? && after.Obj? && ListedUnder(before, after, done, qs, budget)
    requires |qs| == budget || before.fields.Keys + after.fields.Keys <= done
    ensures Listed(before, after, qs, budget)
  {
    if |qs| == budget {
      SubsetSize(ChangesUnder(before, after, done), Changes(before, after));
    } else {
      AllUnder(before, after, done);
    }
  }

  // ---------- recording ----------

  lemma {:induction false} LocatedBelow(v: Json, keys: KeyPath, k: string)
    requires HasMember(v, keys) && ValueAt(v, keys).Obj?
    ensures HasMember(v, keys + [k]) <==> k in ValueAt(v, keys).fields
    ensures k in ValueAt(v, keys).fields ==> ValueAt(v, keys + [k]) == ValueAt(v, keys).fields[k]
    decreases keys
  {
    if keys == [] {
      assert (keys + [k])[1..] == [];
    } else {
      assert (keys + [k])[1..] == keys[1..] + [k];
      LocatedBelow(v.fields[keys[0]], keys[1..], k);
    }
  }

  lemma PrefixTwice(keys: KeyPath, qs: seq<KeyPath>, k: string, below: seq<KeyPath>)
    ensures PrefixAll(keys, qs + PrefixAll([k], below)) == PrefixAll(keys, qs) + PrefixAll(keys + [k], below)
  {
    forall i | 0 <= i < |below|
      ensures keys + ([k] + below[i]) == keys + [k] + below[i]
    {
    }
  }

  lemma NestedListing(start: seq<KeyPath>, budget: nat, keys: KeyPath, before: Json, after: Json,
                      done: set<string>, qs: seq<KeyPath>, k: string, below: seq<KeyPath>)
    returns (longer: seq<KeyPath>)
    requires before.Obj? && after.Obj? && k in before.fields && k in after.fields && k !in done
    requires ListedUnder(before, after, done, qs, budget)
    requires Listed(before.fields[k], after.fields[k], below, budget - |qs|)
    ensures ListedUnder(before, after, done + {k}, longer, budget) && |longer| == |qs| + |below|
    ensures start + PrefixAll(keys, longer) == start + PrefixAll(keys, qs) + PrefixAll(keys + [k], below)
  {
    ListNested(before, after, done, qs, budget, k, below);
    PrefixTwice(keys, qs, k, below);
    longer := qs + PrefixAll([k], below);
  }

  lemma PrefixOne(keys: KeyPath, qs: seq<KeyPath>, k: string)
    ensures PrefixAll(keys, qs + [[k]]) == PrefixAll(keys, qs) + [keys + [k]]
  {
  }

  lemma {:induction false} NoMemberIsNull(v: Json, p: KeyPath)
    requires !HasMember(v, p)
    ensures ValueAt(v, p) == Null
    decreases p
  {
    if v.Obj? && p[0] in v.fields {
      NoMemberIsNull(v.fields[p[0]], p[1..]);
    }
  }

  lemma NewMembersExtend(from: Json, to: Json, ps: seq<KeyPath>, p: KeyPath)
    ensures NewMembers(from, to, ps + [p]) ==
            NewMembers(from, to, ps) + if !HasMember(from, p) && HasMember(to, p) then [Join(p)] else []
  {
    FilterOneMore(ps, p, IsNew(from, to));
    assert Joined(Filter(ps, IsNew(from, to)) + [p]) == Joined(Filter(ps, IsNew(from, to))) + [Join(p)];
  }

  lemma DeltaExtends(before: Json, after: Json, ps: seq<KeyPath>, p: KeyPath)
    ensures ModsOf(before, after, ps + [p]) == ModsOf(before, after, ps) + [ModAt(before, after, p)]
    ensures NewMembers(before, after, ps + [p]) ==
            NewMembers(before, after, ps) + if !HasMember(before, p) && HasMember(after, p) then [Join(p)] else []
    ensures NewMembers(after, before, ps + [p]) ==
            NewMembers(after, before, ps) + if !HasMember(after, p) && HasMember(before, p) then [Join(p)] else []
  {
    NewMembersExtend(before, after, ps, p);
    NewMembersExtend(after, before, ps, p);
  }

  /** The delta under construction together with the change budget. The ghost list says which
      changes between the two root values have been recorded. */
  class Recorder {
    ghost const before0: Json
    ghost const after0: Json
    ghost var paths: seq<KeyPath>
    var added: seq<string>
    var removed: seq<string>
    var modified: seq<Mod>
    var remaining: nat

    ghost predicate Valid()
      reads this
    {
      Delta(added, removed, modified) == DeltaOf(before0, after0, paths)
    }

    /** before and after are the values of the two roots at the same key path. */
    ghost predicate Located(keys: KeyPath, before: Json, after: Json) {
      && HasMember(before0, keys) && ValueAt(before0, keys) == before
      && HasMember(after0, keys) && ValueAt(after0, keys) == after
    }

    constructor (before: Json, after: Json, budget: nat)
      ensures Valid() && before0 == before && after0 == after && paths == [] && remaining == budget
    {
      before0, after0, paths := before, after, [];
      added, removed, modified, remaining := [], [], [], budget;
    }

    method RecordModified(ghost keys: KeyPath, path: string, before: Json, after: Json) returns (ok: bool)
      requires path == Join(keys)
      requires before == ValueAt(before0, keys) && after == ValueAt(after0, keys)
      modifies `modified, `remaining, `paths
      ensures ok == (old(remaining) > 0)
      ensures ok ==> && remaining == old(remaining) - 1
                     && modified == old(modified) + [ModAt(before0, after0, keys)]
                     && paths == old(paths) + [keys]
      ensures !ok ==> unchanged(this)
    {
      var field := Trim(path);
      if field == "" {
        field := "$";
      }
      if remaining <= 0 {
        return false;
      }
      remaining := remaining - 1;
      modified := modified + [Mod(field, before, after)];
      paths := paths + [keys];
      return true;
    }

    method RecordAdded(ghost keys: KeyPath, path: string, after: Json)
      requires Valid() && path == Join(keys)
      requires !HasMember(before0, keys) && HasMember(after0, keys) && after == ValueAt(after0, keys)
      modifies this
      ensures Valid()
      ensures paths == old(paths) + (if old(remaining) > 0 then [keys] else [])
      ensures remaining == if old(remaining) > 0 then old(remaining) - 1 else 0
    {
      NoMemberIsNull(before0, keys);
      var ok := RecordModified(keys, path, Null, after);
      if !ok {
        return;
      }
      added := added + [path];
      DeltaExtends(before0, after0, old(paths), keys);
    }

    method RecordRemoved(ghost keys: KeyPath, path: string, before: Json)
      requires Valid() && path == Join(keys)
      requires HasMember(before0, keys) && !HasMember(after0, keys) && before == ValueAt(before0, keys)
      modifies this
      ensures Valid()
      ensures paths == old(paths) + (if old(remaining) > 0 then [keys] else [])
      ensures remaining == if old(remaining) > 0 then old(remaining) - 1 else 0
    {
      NoMemberIsNull(after0, keys);
      var ok := RecordModified(keys, path, before, Null);
      if !ok {
        return;
      }
      removed := removed + [path];
      DeltaExtends(before0, after0, old(paths), keys);
    }

    /** Records changes between the two values, objects member by member in any order, until the
        budget is used up. */
    method DiffAny(ghost keys: KeyPath, path: string, before: Json, after: Json) returns (ghost qs: seq<KeyPath>)
      requires Valid() && path == Join(keys) && Located(keys, before, after)
      modifies this
      ensures Valid()
      ensures Listed(before, after, qs, old(remaining))
      ensures paths == old(paths) + PrefixAll(keys, qs) && remaining == old(remaining) - |qs|
      decreases before, 4
    {
      if remaining <= 0 {
        return [];
      }
      NoChangeMeansEqual(before, after);
      if before == after {
        return [];
      }
      if before.Obj? && after.Obj? {
        qs := DiffObjects(keys, path, before, after);
        return;
      }
      qs := RecordWhole(keys, path, before, after);
    }

    /** Two different values that are not both objects: one change. */
    method RecordWhole(ghost keys: KeyPath, path: string, before: Json, after: Json) returns (ghost qs: seq<KeyPath>)
      requires Valid() && path == Join(keys) && Located(keys, before, after)
      requires before != after && !(before.Obj? && after.Obj?) && remaining > 0
      modifies this
      ensures Valid()
      ensures Listed(before, after, qs, old(remaining))
      ensures paths == old(paths) + PrefixAll(keys, qs) && remaining == old(remaining) - |qs|
    {
      var _ := RecordModified(keys, path, before, after);
      DeltaExtends(before0, after0, old(paths), keys);
      qs := [[]];
      assert keys + [] == keys;
      assert PrefixAll(keys, qs) == [keys];
    }

    /** Where the loops over the members stand: the changes below the keys in `done` are listed
        in qs as far as the budget reaches. */
    ghost predicate Partial(start: seq<KeyPath>, budget: nat, keys: KeyPath, before: Json, after: Json,
                            done: set<string>, qs: seq<KeyPath>)
      reads this
    {
      && Valid()
      && ListedUnder(before, after, done, qs, budget)
      && paths == start + PrefixAll(keys, qs) && remaining == budget - |qs|
    }

    /** A member that only `before` has. */
    method VisitRemoved(ghost start: seq<KeyPath>, ghost budget: nat, ghost keys: KeyPath, path: string,
                        before: Json, ghost after: Json, k: string, ghost done: set<string>, ghost qs: seq<KeyPath>)
      returns (ghost longer: seq<KeyPath>)
      requires path == Join(keys) && Located(keys, before, after)
      requires before.Obj? && after.Obj? && k in before.fields && k !in after.fields && k !in done
      requires Partial(start, budget, keys, before, after, done, qs)
      modifies this
      ensures Partial(start, budget, keys, before, after, done + {k}, longer)
    {
      JoinLast(keys, k);
      LocatedBelow(before0, keys, k);
      LocatedBelow(after0, keys, k);
      RecordRemoved(keys + [k], JoinPath(path, k), before.fields[k]);
      ListDirect(before, after, done, qs, budget, k);
      PrefixOne(keys, qs, k);
      longer := if |qs| < budget then qs + [[k]] else qs;
    }

    /** A member that both have. */
    method VisitCommon(ghost start: seq<KeyPath>, ghost budget: nat, ghost keys: KeyPath, path: string,
                       before: Json, after: Json, k: string, ghost done: set<string>, ghost qs: seq<KeyPath>)
      returns (ghost longer: seq<KeyPath>)
      requires path == Join(keys) && Located(keys, before, after)
      requires before.Obj? && after.Obj? && k in before.fields && k in after.fields && k !in done
      requires Partial(start, budget, keys, before, after, done, qs)
      modifies this
      ensures Partial(start, budget, keys, before, after, done + {k}, longer)
      decreases before, 0
    {
      JoinLast(keys, k);
      LocatedBelow(before0, keys, k);
      LocatedBelow(after0, keys, k);
      ghost var below := DiffAny(keys + [k], JoinPath(path, k), before.fields[k], after.fields[k]);
      longer := NestedListing(start, budget, keys, before, after, done, qs, k, below);
    }

    /** One turn of the loop over the members of `before`. */
    method VisitOld(ghost start: seq<KeyPath>, ghost budget: nat, ghost keys: KeyPath, path: string,
                    before: Json, after: Json, k: string, ghost done: set<string>, ghost qs: seq<KeyPath>)
      returns (stop: bool, ghost longer: seq<KeyPath>)
      requires path == Join(keys) && Located(keys, before, after)
      requires before.Obj? && after.Obj? && k in before.fields && k !in done
      requires Partial(start, budget, keys, before, after, done, qs)
      modifies this
      ensures Partial(start, budget, keys, before, after, done + {k}, longer)
      ensures stop ==> remaining == 0
      decreases before, 1
    {
      if k !in after.fields {
        longer := VisitRemoved(start, budget, keys, path, before, after, k, done, qs);
        stop := false;
      } else {
        longer := VisitCommon(start, budget, keys, path, before, after, k, done, qs);
        stop := remaining <= 0;
      }
    }

    /** One turn of the loop over the members that only `after` has. */
    method VisitNew(ghost start: seq<KeyPath>, ghost budget: nat, ghost keys: KeyPath, path: string,
                    ghost before: Json, after: Json, k: string, ghost done: set<string>, ghost qs: seq<KeyPath>)
      returns (ghost longer: seq<KeyPath>)
      requires path == Join(keys) && Located(keys, before, after)
      requires before.Obj? && after.Obj? && k in after.fields && k !in before.fields && k !in done
      requires Partial(start, budget, keys, before, after, done, qs)
      modifies this
      ensures Partial(start, budget, keys, before, after, done + {k}, longer)
    {
      JoinLast(keys, k);
      LocatedBelow(before0, keys, k);
      LocatedBelow(after0, keys, k);
      RecordAdded(keys + [k], JoinPath(path, k), after.fields[k]);
      ListDirect(before, after, done, qs, budget, k);
      PrefixOne(keys, qs, k);
      longer := if |qs| < budget then qs + [[k]] else qs;
    }

    /** The loop over the members of `before`; it stops early when the budget is used up. */
    method ListOld(ghost start: seq<KeyPath>, ghost budget: nat, ghost keys: KeyPath, path: string,
                   before: Json, after: Json)
      returns (stop: bool, ghost done: set<string>, ghost qs: seq<KeyPath>)
      requires path == Join(keys) && Located(keys, before, after)
      requires before.Obj? && after.Obj?
      requires Partial(start, budget, keys, before, after, {}, [])
      modifies this
      ensures Partial(start, budget, keys, before, after, done, qs)
      ensures if stop then remaining == 0 else done == before.fields.Keys
      decreases before, 2
    {
      qs, done := [], {};
      var rest := before.fields.Keys;
      while rest != {}
        invariant done + rest == before.fields.Keys && done !! rest
        invariant Partial(start, budget, keys, before, after, done, qs)
        decreases rest
      {
        var k :| k in rest;
        rest := rest - {k};
        stop, qs := VisitOld(start, budget, keys, path, before, after, k, done, qs);
        done := done + {k};
        if stop {
          return;
        }
      }
      stop := false;
    }

    /** The loop over the members that only `after` has. */
    method ListNew(ghost start: seq<KeyPath>, ghost budget: nat, ghost keys: KeyPath, path: string,
                   before: Json, after: Json, ghost listed: seq<KeyPath>)
      returns (ghost done: set<string>, ghost qs: seq<KeyPath>)
      requires path == Join(keys) && Located(keys, before, after)
      requires before.Obj? && after.Obj?
      requires Partial(start, budget, keys, before, after, before.fields.Keys, listed)
      modifies this
      ensures Partial(start, budget, keys, before, after, done, qs)
      ensures remaining == 0 || done == before.fields.Keys + after.fields.Keys
    {
      qs, done := listed, before.fields.Keys;
      var rest := after.fields.Keys;
      while rest != {}
        invariant rest <= after.fields.Keys && before.fields.Keys <= done
        invariant done + rest == before.fields.Keys + after.fields.Keys && forall k :: k in rest && k in done ==> k in before.fields
        invariant Partial(start, budget, keys, before, after, done, qs)
        decreases rest
      {
        var k :| k in rest;
        rest := rest - {k};
        if k in before.fields {
          continue;
        }
        qs := VisitNew(start, budget, keys, path, before, after, k, done, qs);
        done := done + {k};
        if remaining <= 0 {
          return;
        }
      }
    }

    method DiffObjects(ghost keys: KeyPath, path: string, before: Json, after: Json) returns (ghost qs: seq<KeyPath>)
      requires Valid() && path == Join(keys) && Located(keys, before, after)
      requires before.Obj? && after.Obj? && remaining > 0
      modifies this
      ensures Valid()
      ensures Listed(before, after, qs, old(remaining))
      ensures paths == old(paths) + PrefixAll(keys, qs) && remaining == old(remaining) - |qs|
      decreases before, 3
    {
      ghost var start, budget := paths, remaining;
      assert ChangesUnder(before, after, {}) == {};
      var stop;
      ghost var done;
      stop, done, qs := ListOld(start, budget, keys, path, before, after);
      if !stop {
        done, qs := ListNew(start, budget, keys, path, before, after, qs);
      }
      ListingDone(before, after, done, qs, budget);
    }
  }

  lemma PrefixNothing(qs: seq<KeyPath>)
    ensures PrefixAll([], qs) == qs
  {
    forall i | 0 <= i < |qs|
      ensures [] + qs[i] == qs[i]
    {
    }
  }

  /** Diff under a budget; a budget of zero or less means the default. */
  method Diff(before: Json, after: Json, maxChanges: int) returns (d: Delta)
    ensures IsDiff(before, after, if maxChanges >= 1 then maxChanges else 200, d)
  {
    var max: nat := if maxChanges <= 0 then DEFAULT_MAX_CHANGES else maxChanges;
    var r := new Recorder(before, after, max);
    ghost var ps := r.DiffAny([], "", before, after);
    PrefixNothing(ps);
    assert r.paths == ps;
    d := Delta(r.added, r.removed, r.modified);
    assert DeltaFor(before, after, max, d, ps);
  }

  // ---------- what a delta says ----------

  /** The modifications stand for distinct changes, as many as the budget allows, each with the
      trimmed dotted path (or `$`), the old value and the new one. */
  lemma ModificationsAre(before: Json, after: Json, budget: nat, d: Delta) returns (ps: seq<KeyPath>)
    requires IsDiff(before, after, budget, d)
    ensures |ps| == |d.modified| && NoDuplicates(ps)
    ensures |d.modified| == if |Changes(before, after)| <= budget then |Changes(before, after)| else budget
    ensures forall i :: 0 <= i < |ps| ==>
      && IsChange(before, after, ps[i])
      && d.modified[i].field == (if Trim(Join(ps[i])) == "" then "$" else Trim(Join(ps[i])))
      && d.modified[i].before == ValueAt(before, ps[i])
      && d.modified[i].after == ValueAt(after, ps[i])
  {
    ps :| DeltaFor(before, after, budget, d, ps);
    forall i | 0 <= i < |ps|
      ensures IsChange(before, after, ps[i])
    {
      assert ps[i] in ps;
    }
  }

  lemma AllListed(before: Json, after: Json, ps: seq<KeyPath>)
    requires NoDuplicates(ps) && |ps| == |Changes(before, after)| && forall p :: p in ps ==> IsChange(before, after, p)
    ensures Elements(ps) == Changes(before, after)
  {
    forall p | p in Elements(ps)
      ensures p in Changes(before, after)
    {
      ChangesAre(before, after, p);
    }
    ElementsSize(ps);
    if Elements(ps) != Changes(before, after) {
      ProperSubsetSmaller(Elements(ps), Changes(before, after));
    }
  }

  lemma ListsAll(before: Json, after: Json, budget: nat, ps: seq<KeyPath>, p: KeyPath)
    requires Listed(before, after, ps, budget) && |Changes(before, after)| <= budget && IsChange(before, after, p)
    ensures p in ps
  {
    AllListed(before, after, ps);
    ChangesAre(before, after, p);
    assert p in Elements(ps);
  }

  /** p is a change, a member of `to` and not of `from`. */
  ghost predicate Appears(before: Json, after: Json, from: Json, to: Json, p: KeyPath) {
    IsChange(before, after, p) && !HasMember(from, p) && HasMember(to, p)
  }

  lemma FilteredPaths(from: Json, to: Json, ps: seq<KeyPath>, p: KeyPath)
    ensures p in Filter(ps, IsNew(from, to)) <==> p in ps && !HasMember(from, p) && HasMember(to, p)
  {
    FilterKeeps(ps, IsNew(from, to), p);
  }

  lemma {:induction false} NewPathsAre(before: Json, after: Json, budget: nat, ps: seq<KeyPath>, from: Json, to: Json, p: KeyPath)
    requires Listed(before, after, ps, budget)
    ensures p in Filter(ps, IsNew(from, to)) ==> Appears(before, after, from, to, p)
    ensures |Changes(before, after)| <= budget && Appears(before, after, from, to, p) ==> p in Filter(ps, IsNew(from, to))
  {
    FilteredPaths(from, to, ps, p);
    if |Changes(before, after)| <= budget && Appears(before, after, from, to, p) {
      ListsAll(before, after, budget, ps, p);
    }
  }

  /** The members that only `to` has, each once; all of them if everything is listed. */
  lemma NewMembersAre(before: Json, after: Json, budget: nat, ps: seq<KeyPath>, from: Json, to: Json) returns (paths: seq<KeyPath>)
    requires Listed(before, after, ps, budget)
    ensures NewMembers(from, to, ps) == Joined(paths) && NoDuplicates(paths)
    ensures forall p :: p in paths ==> Appears(before, after, from, to, p)
    ensures |Changes(before, after)| <= budget ==> forall p :: Appears(before, after, from, to, p) ==> p in paths
  {
    paths := Filter(ps, IsNew(from, to));
    FilterDistinct(ps, IsNew(from, to));
    forall p
      ensures p in paths ==> Appears(before, after, from, to, p)
      ensures |Changes(before, after)| <= budget && Appears(before, after, from, to, p) ==> p in paths
    {
      NewPathsAre(before, after, budget, ps, from, to, p);
    }
  }

  /** `added` names members that only `after` has and `removed` those that only `before` has, each
      once by its dotted path, and within the budget all of them. */
  lemma AddedAndRemovedAre(before: Json, after: Json, budget: nat, d: Delta) returns (plus: seq<KeyPath>, minus: seq<KeyPath>)
    requires IsDiff(before, after, budget, d)
    ensures NoDuplicates(plus) && |plus| == |d.added| && forall i :: 0 <= i < |plus| ==> d.added[i] == Join(plus[i])
    ensures NoDuplicates(minus) && |minus| == |d.removed| && forall i :: 0 <= i < |minus| ==> d.removed[i] == Join(minus[i])
    ensures forall p :: p in plus ==> IsChange(before, after, p) && !HasMember(before, p) && HasMember(after, p)
    ensures forall p :: p in minus ==> IsChange(before, after, p) && HasMember(before, p) && !HasMember(after, p)
    ensures |Changes(before, after)| <= budget ==> forall p :: IsChange(before, after, p) ==>
      && (!HasMember(before, p) && HasMember(after, p) ==> p in plus)
      && (HasMember(before, p) && !HasMember(after, p) ==> p in minus)
  {
    var ps :| DeltaFor(before, after, budget, d, ps);
    plus := NewMembersAre(before, after, budget, ps, before, after);
    minus := NewMembersAre(before, after, budget, ps, after, before);
  }
}
