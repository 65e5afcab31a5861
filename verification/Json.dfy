/** JSON values, the places where two values differ, and assignment at a key path. */
module Json {
  import opened Options
  import opened Collections

  /** `Num` stands for the decoded numbers, compared by value. */
  datatype Json =
    | Null
    | Bool(b: bool)
    | Num(r: real)
    | Str(s: string)
    | Arr(items: seq<Json>)
    | Obj(fields: map<string, Json>)

  type KeyPath = seq<string>

  /** The member that a key path leads to exists. */
  predicate HasMember(v: Json, p: KeyPath) {
    p == [] || (v.Obj? && p[0] in v.fields && HasMember(v.fields[p[0]], p[1..]))
  }

  /** The value at a key path, `Null` where there is none. */
  function ValueAt(v: Json, p: KeyPath): Json {
    if p == [] then v
    else if v.Obj? && p[0] in v.fields then ValueAt(v.fields[p[0]], p[1..])
    else Null
  }

  // ---------- where two values differ ----------

  /** p is a place where `before` and `after` part ways: a member of only one of them, or two
      values that differ and are not both objects. */
  ghost predicate IsChange(before: Json, after: Json, p: KeyPath)
    decreases before
  {
    if before.Obj? && after.Obj? then
      p != [] &&
      if p[0] in before.fields && p[0] in after.fields then
        IsChange(before.fields[p[0]], after.fields[p[0]], p[1..])
      else
        |p| == 1 && (p[0] in before.fields || p[0] in after.fields)
    else p == [] && before != after
  }

  ghost function Under(k: string, q: KeyPath): KeyPath {
    [k] + q
  }

  /** Both values have objects all along the way to p. */
  ghost predicate WayThroughObjects(before: Json, after: Json, p: KeyPath) {
    forall n :: 0 <= n < |p| ==>
      && HasMember(before, p[..n]) && ValueAt(before, p[..n]).Obj?
      && HasMember(after, p[..n]) && ValueAt(after, p[..n]).Obj?
  }

  lemma {:induction false} WayBelow(before: Json, after: Json, p: KeyPath)
    requires before.Obj? && after.Obj? && p != [] && p[0] in before.fields && p[0] in after.fields
    ensures WayThroughObjects(before, after, p) <==> WayThroughObjects(before.fields[p[0]], after.fields[p[0]], p[1..])
  {
    var b, a, rest := before.fields[p[0]], after.fields[p[0]], p[1..];
    forall n | 1 <= n <= |p|
      ensures HasMember(before, p[..n]) <==> HasMember(b, rest[..n - 1])
      ensures HasMember(after, p[..n]) <==> HasMember(a, rest[..n - 1])
      ensures ValueAt(before, p[..n]) == ValueAt(b, rest[..n - 1]) && ValueAt(after, p[..n]) == ValueAt(a, rest[..n - 1])
    {
      assert p[..n][0] == p[0] && p[..n][1..] == rest[..n - 1];
    }
    if WayThroughObjects(before, after, p) {
      forall n | 0 <= n < |rest|
        ensures HasMember(b, rest[..n]) && ValueAt(b, rest[..n]).Obj? && HasMember(a, rest[..n]) && ValueAt(a, rest[..n]).Obj?
      {
        assert HasMember(before, p[..n + 1]);
      }
    }
  }

  /** A change without recursion: objects all the way, and at its end a member of only one of the
      two values, or two members that differ and are not both objects. */
  lemma {:induction false} ChangeMeans(before: Json, after: Json, p: KeyPath)
    ensures IsChange(before, after, p) <==>
      && WayThroughObjects(before, after, p)
      && (HasMember(before, p) || HasMember(after, p))
      && (HasMember(before, p) && HasMember(after, p) ==>
            ValueAt(before, p) != ValueAt(after, p) && !(ValueAt(before, p).Obj? && ValueAt(after, p).Obj?))
    decreases p
  {
    if p != [] {
      assert p[..0] == [];
      if before.Obj? && after.Obj? {
        if p[0] in before.fields && p[0] in after.fields {
          WayBelow(before, after, p);
          ChangeMeans(before.fields[p[0]], after.fields[p[0]], p[1..]);
        } else if |p| > 1 {
          assert p[..1][0] == p[0] && !(HasMember(before, p[..1]) && HasMember(after, p[..1]));
        }
      }
    }
  }

  /** All changes between two values. */
  ghost function Changes(before: Json, after: Json): set<KeyPath>
    decreases before
  {
    if before.Obj? && after.Obj? then
      (set k, q | k in before.fields && k in after.fields && q in Changes(before.fields[k], after.fields[k]) :: Under(k, q))
      + (set k | k in before.fields.Keys + after.fields.Keys && (k in before.fields) != (k in after.fields) :: Under(k, []))
    else if before == after then {} else {[]}
  }

  lemma {:induction false} ChangesAre(before: Json, after: Json, p: KeyPath)
    ensures p in Changes(before, after) <==> IsChange(before, after, p)
    decreases before
  {
    if before.Obj? && after.Obj? && p != [] {
      var k, q := p[0], p[1..];
      assert p == Under(k, q);
      if k in before.fields && k in after.fields {
        ChangesAre(before.fields[k], after.fields[k], q);
      } else if |p| == 1 && (k in before.fields || k in after.fields) {
        assert p == Under(k, []);
      }
    }
  }

  /** Two values differ exactly when there is a change between them. */
  lemma {:induction false} NoChangeMeansEqual(before: Json, after: Json)
    ensures before == after <==> Changes(before, after) == {}
    decreases before
  {
    if before.Obj? && after.Obj? {
      forall k | k in before.fields && k in after.fields
        ensures before.fields[k] == after.fields[k] <==> Changes(before.fields[k], after.fields[k]) == {}
      {
        NoChangeMeansEqual(before.fields[k], after.fields[k]);
      }
      if Changes(before, after) == {} {
        forall k | k in before.fields.Keys + after.fields.Keys
          ensures k in before.fields && k in after.fields && before.fields[k] == after.fields[k]
        {
          ChangesAre(before, after, Under(k, []));
          if k in before.fields && k in after.fields {
            forall q
              ensures q !in Changes(before.fields[k], after.fields[k])
            {
              assert q in Changes(before.fields[k], after.fields[k]) ==> Under(k, q) in Changes(before, after);
            }
            assert Changes(before.fields[k], after.fields[k]) == {};
          }
        }
        assert before.fields == after.fields;
      }
    }
  }

  /** A change is never inside another change. */
  lemma {:induction false} ChangesPrefixFree(before: Json, after: Json, p: KeyPath, q: KeyPath)
    requires IsChange(before, after, p) && IsChange(before, after, q) && p <= q
    ensures p == q
    decreases before
  {
    if before.Obj? && after.Obj? && p[0] in before.fields && p[0] in after.fields {
      ChangesPrefixFree(before.fields[p[0]], after.fields[p[0]], p[1..], q[1..]);
    }
  }

  // ---------- assignment at a key path ----------

  /** The object below k, an empty one if there is none. */
  function ChildAt(fields: map<string, Json>, k: string): (child: Json)
    ensures child.Obj?
  {
    if k in fields && fields[k].Obj? then fields[k] else Obj(map[])
  }

  /** Assigns below an object, making objects on the way where there are none; a `Null` value
      removes the member. `None` when the value is not an object. */
  function SetAt(root: Json, keys: KeyPath, value: Json): Option<Json>
    decreases keys
  {
    if keys == [] then Some(root)
    else if !root.Obj? then None
    else if |keys| == 1 then
      Some(Obj(if value == Null then root.fields - {keys[0]} else root.fields[keys[0] := value]))
    else
      var r := SetAt(ChildAt(root.fields, keys[0]), keys[1..], value);
      if r.None? then None else Some(Obj(root.fields[keys[0] := r.value]))
  }

  /** Replaces the whole value for the empty path, else assigns at the path. */
  function Assign(root: Json, p: KeyPath, value: Json): Option<Json> {
    if p == [] then Some(value) else SetAt(root, p, value)
  }

  /** after has a member at p, and that member is null: the one thing a delta cannot express. */
  predicate NullMember(after: Json, p: KeyPath) {
    p != [] && HasMember(after, p) && ValueAt(after, p) == Null
  }

  lemma {:induction false} NoChangeToItself(v: Json, q: KeyPath)
    ensures !IsChange(v, v, q)
    decreases v
  {
    if v.Obj? && q != [] && q[0] in v.fields {
      NoChangeToItself(v.fields[q[0]], q[1..]);
    }
  }

  lemma SetLast(before: Json, after: Json, k: string, q: KeyPath)
    requires before.Obj? && after.Obj? && IsChange(before, after, [k])
    ensures Assign(before, [k], ValueAt(after, [k])).Some?
    ensures var r := Assign(before, [k], ValueAt(after, [k])).value;
      IsChange(r, after, q) <==> IsChange(before, after, q) && (q != [k] || NullMember(after, [k]))
  {
    assert [k][0] == k && [k][1..] == [];
    assert HasMember(after, [k]) <==> k in after.fields;
    assert ValueAt(after, [k]) == if k in after.fields then after.fields[k] else Null;
    if q != [] && q[0] == k {
      assert q == [k] + q[1..];
      if k in after.fields {
        NoChangeToItself(after.fields[k], q[1..]);
      }
      if k in after.fields && k in before.fields {
        assert IsChange(before.fields[k], after.fields[k], []);
      }
    }
  }

  /** Applying one change removes exactly that change and touches no other one; where `after`
      holds a null member the change stays. */
  lemma {:induction false} AssignRemovesChange(before: Json, after: Json, p: KeyPath, q: KeyPath)
    requires IsChange(before, after, p)
    ensures Assign(before, p, ValueAt(after, p)).Some?
    ensures var r := Assign(before, p, ValueAt(after, p)).value;
      IsChange(r, after, q) <==> IsChange(before, after, q) && (q != p || NullMember(after, p))
    decreases before
  {
    if before.Obj? && after.Obj? {
      var k := p[0];
      if |p| > 1 {
        var b, a := before.fields[k], after.fields[k];
        var rest := if q != [] then q[1..] else [];
        AssignRemovesChange(b, a, p[1..], rest);
        assert p == [k] + p[1..];
        if q != [] && q[0] == k {
          assert q == [k] + rest;
        }
      } else {
        assert p == [k];
        SetLast(before, after, k, q);
      }
    } else {
      NoChangeToItself(after, q);
    }
  }

  // ---------- assigning many changes ----------

  /** Assigns the values that `after` has at the listed paths, first to last. */
  function AssignAll(root: Json, ps: seq<KeyPath>, after: Json): Option<Json>
    decreases ps
  {
    if ps == [] then Some(root)
    else
      var r := Assign(root, ps[0], ValueAt(after, ps[0]));
      if r.None? then None else AssignAll(r.value, ps[1..], after)
  }

  /** Applying distinct changes succeeds and leaves exactly the other changes, together with
      those that `after` has as null members. */
  lemma {:induction false} AssignAllRemovesChanges(before: Json, after: Json, ps: seq<KeyPath>, q: KeyPath)
    requires NoDuplicates(ps) && forall p :: p in ps ==> IsChange(before, after, p)
    ensures AssignAll(before, ps, after).Some?
    ensures IsChange(AssignAll(before, ps, after).value, after, q) <==>
            IsChange(before, after, q) && (q !in ps || NullMember(after, q))
    decreases ps
  {
    if ps != [] {
      var rest := ps[1..];
      AssignRemovesChange(before, after, ps[0], q);
      var r := Assign(before, ps[0], ValueAt(after, ps[0])).value;
      forall p | p in rest
        ensures IsChange(r, after, p)
      {
        AssignRemovesChange(before, after, ps[0], p);
      }
      AssignAllRemovesChanges(r, after, rest, q);
      assert q in ps <==> q == ps[0] || q in rest;
    }
  }

  ghost function NullChanges(before: Json, after: Json): set<KeyPath> {
    set p | p in Changes(before, after) && NullMember(after, p)
  }

  /** What is left to change after applying distinct changes: all the others, and the null members. */
  lemma AssignAllLeaves(before: Json, after: Json, ps: seq<KeyPath>)
    requires NoDuplicates(ps) && Elements(ps) <= Changes(before, after)
    ensures AssignAll(before, ps, after).Some?
    ensures Changes(AssignAll(before, ps, after).value, after) ==
            (Changes(before, after) - Elements(ps)) + NullChanges(before, after)
  {
    forall p | p in ps
      ensures IsChange(before, after, p)
    {
      assert p in Elements(ps);
      ChangesAre(before, after, p);
    }
    AssignAllRemovesChanges(before, after, ps, []);
    var r := AssignAll(before, ps, after).value;
    forall q
      ensures q in Changes(r, after) <==> q in (Changes(before, after) - Elements(ps)) + NullChanges(before, after)
    {
      AssignAllRemovesChanges(before, after, ps, q);
      ChangesAre(before, after, q);
      ChangesAre(r, after, q);
    }
  }

  lemma CountLeft(all: set<KeyPath>, ps: seq<KeyPath>)
    requires NoDuplicates(ps) && Elements(ps) <= all
    ensures |all - Elements(ps)| == |all| - |ps|
  {
    ElementsSize(ps);
    assert all == (all - Elements(ps)) + Elements(ps);
  }

  /** Applying all changes reproduces `after` exactly when none of them is a null member. */
  lemma AssignAllReproduces(before: Json, after: Json, ps: seq<KeyPath>)
    requires NoDuplicates(ps) && Elements(ps) == Changes(before, after)
    ensures AssignAll(before, ps, after).Some?
    ensures AssignAll(before, ps, after).value == after <==> NullChanges(before, after) == {}
  {
    AssignAllLeaves(before, after, ps);
    NoChangeMeansEqual(AssignAll(before, ps, after).value, after);
  }

  // ---------- order of assignment ----------

  /** The fields after storing x under k, or removing k. */
  function Put(fields: map<string, Json>, k: string, x: Option<Json>): map<string, Json> {
    if x.None? then fields - {k} else fields[k := x.value]
  }

  /** What SetAt stores under the first key of its path. */
  ghost function Stored(fields: map<string, Json>, p: KeyPath, v: Json): Option<Json>
    requires p != []
  {
    if |p| > 1 then SetAt(ChildAt(fields, p[0]), p[1..], v)
    else if v == Null then None
    else Some(v)
  }

  lemma {:induction false} SetAtHead(root: Json, p: KeyPath, v: Json)
    requires root.Obj? && p != []
    ensures |p| > 1 ==> Stored(root.fields, p, v).Some? && Stored(root.fields, p, v).value.Obj?
    ensures SetAt(root, p, v) == Some(Obj(Put(root.fields, p[0], Stored(root.fields, p, v))))
    decreases p
  {
    if |p| > 1 {
      SetAtHead(ChildAt(root.fields, p[0]), p[1..], v);
    }
  }

  lemma PutCommutes(fields: map<string, Json>, k: string, x: Option<Json>, l: string, y: Option<Json>)
    requires k != l
    ensures Put(Put(fields, k, x), l, y) == Put(Put(fields, l, y), k, x)
  {
  }

  lemma PutTwice(fields: map<string, Json>, k: string, x: Option<Json>, y: Option<Json>)
    ensures Put(Put(fields, k, x), k, y) == Put(fields, k, y)
  {
  }

  lemma SameKeyCommutes(f: map<string, Json>, p: KeyPath, v: Json, q: KeyPath, w: Json)
    requires |p| > 1 && |q| > 1 && p[0] == q[0]
    requires Stored(f, p, v).Some? && Stored(f, p, v).value.Obj? && Stored(f, q, w).Some? && Stored(f, q, w).value.Obj?
    requires SetAt(Stored(f, p, v).value, q[1..], w) == SetAt(Stored(f, q, w).value, p[1..], v)
    ensures var fp, fq := Put(f, p[0], Stored(f, p, v)), Put(f, p[0], Stored(f, q, w));
      Put(fp, p[0], Stored(fp, q, w)) == Put(fq, p[0], Stored(fq, p, v))
  {
    var fp, fq := Put(f, p[0], Stored(f, p, v)), Put(f, p[0], Stored(f, q, w));
    assert ChildAt(fp, p[0]) == Stored(f, p, v).value && ChildAt(fq, p[0]) == Stored(f, q, w).value;
    assert Stored(fp, q, w) == Stored(fq, p, v);
    PutTwice(f, p[0], Stored(f, p, v), Stored(fp, q, w));
    PutTwice(f, p[0], Stored(f, q, w), Stored(fp, q, w));
  }

  /** Assignments at paths of which neither leads through the other commute. */
  lemma {:induction false} SetAtCommutes(root: Json, p: KeyPath, v: Json, q: KeyPath, w: Json)
    requires root.Obj? && !(p <= q) && !(q <= p)
    ensures SetAt(root, p, v).Some? && SetAt(root, q, w).Some?
    ensures SetAt(SetAt(root, p, v).value, q, w) == SetAt(SetAt(root, q, w).value, p, v)
    ensures SetAt(SetAt(root, p, v).value, q, w).Some?
    decreases p
  {
    var f, k, l := root.fields, p[0], q[0];
    SetAtHead(root, p, v);
    SetAtHead(root, q, w);
    SetAtHead(SetAt(root, p, v).value, q, w);
    SetAtHead(SetAt(root, q, w).value, p, v);
    if k != l {
      PutCommutes(f, k, Stored(f, p, v), l, Stored(f, q, w));
    } else {
      assert p == [k] + p[1..] && q == [k] + q[1..];
      SetAtCommutes(ChildAt(f, k), p[1..], v, q[1..], w);
      SameKeyCommutes(f, p, v, q, w);
    }
  }

  ghost predicate PrefixFree(ps: seq<KeyPath>) {
    forall i, j :: 0 <= i < |ps| && 0 <= j < |ps| && i != j ==> !(ps[i] <= ps[j])
  }

  lemma AssignTwo(root: Json, p: KeyPath, q: KeyPath, tail: seq<KeyPath>, after: Json)
    requires Assign(root, p, ValueAt(after, p)).Some?
    requires Assign(Assign(root, p, ValueAt(after, p)).value, q, ValueAt(after, q)).Some?
    ensures AssignAll(root, [p, q] + tail, after) ==
            AssignAll(Assign(Assign(root, p, ValueAt(after, p)).value, q, ValueAt(after, q)).value, tail, after)
  {
    assert ([p, q] + tail)[1..] == [q] + tail;
    assert ([q] + tail)[1..] == tail;
  }

  lemma SwapFirstTwo(root: Json, p: KeyPath, q: KeyPath, tail: seq<KeyPath>, after: Json)
    requires root.Obj? && !(p <= q) && !(q <= p)
    ensures AssignAll(root, [p, q] + tail, after) == AssignAll(root, [q, p] + tail, after)
  {
    SetAtCommutes(root, p, ValueAt(after, p), q, ValueAt(after, q));
    AssignTwo(root, p, q, tail, after);
    AssignTwo(root, q, p, tail, after);
  }

  lemma AssignCons(root: Json, p: KeyPath, tail: seq<KeyPath>, after: Json)
    requires Assign(root, p, ValueAt(after, p)).Some?
    ensures AssignAll(root, [p] + tail, after) == AssignAll(Assign(root, p, ValueAt(after, p)).value, tail, after)
  {
    assert ([p] + tail)[1..] == tail;
  }

  lemma MoveOverHead<T>(s: seq<T>, j: nat)
    requires 0 < j < |s|
    ensures s == [s[0]] + s[1..] && s[1..][j - 1] == s[j]
    ensures [s[0]] + ([s[j]] + Without(s[1..], j - 1)) == [s[0], s[j]] + Without(s[1..], j - 1)
    ensures [s[j], s[0]] + Without(s[1..], j - 1) == [s[j]] + Without(s, j)
  {
  }

  lemma {:induction false} MoveToFront(root: Json, ps: seq<KeyPath>, j: nat, after: Json)
    requires root.Obj? && PrefixFree(ps) && [] !in ps && j < |ps|
    ensures AssignAll(root, ps, after) == AssignAll(root, [ps[j]] + Without(ps, j), after)
    decreases j
  {
    if j == 0 {
      assert [ps[0]] + Without(ps, 0) == ps;
    } else {
      var rest := ps[1..];
      MoveOverHead(ps, j);
      SetAtHead(root, ps[0], ValueAt(after, ps[0]));
      var r := SetAt(root, ps[0], ValueAt(after, ps[0])).value;
      MoveToFront(r, rest, j - 1, after);
      AssignCons(root, ps[0], rest, after);
      AssignCons(root, ps[0], [ps[j]] + Without(rest, j - 1), after);
      SwapFirstTwo(root, ps[0], ps[j], Without(rest, j - 1), after);
    }
  }

  lemma RestPrefixFree(ps: seq<KeyPath>, j: nat)
    requires PrefixFree(ps) && [] !in ps && j < |ps|
    ensures PrefixFree(Without(ps, j)) && [] !in Without(ps, j)
  {
    var rest := Without(ps, j);
    forall i | 0 <= i < |rest|
      ensures rest[i] == ps[if i < j then i else i + 1]
    {
    }
  }

  /** The order of the assignments does not matter. */
  lemma {:induction false} AssignAllPermutes(root: Json, ps: seq<KeyPath>, qs: seq<KeyPath>, after: Json)
    requires root.Obj? && PrefixFree(ps) && [] !in ps && multiset(ps) == multiset(qs)
    ensures AssignAll(root, ps, after) == AssignAll(root, qs, after)
    decreases ps
  {
    assert |ps| == |multiset(ps)| == |qs|;
    if ps != [] {
      var j := SameHeads(ps, qs);
      var q := qs[0];
      var rest := Without(ps, j);
      MoveToFront(root, ps, j, after);
      RestPrefixFree(ps, j);
      SetAtHead(root, q, ValueAt(after, q));
      AssignCons(root, q, rest, after);
      AssignAllPermutes(SetAt(root, q, ValueAt(after, q)).value, rest, qs[1..], after);
    }
  }

  // ---------- what an assignment leaves behind ----------

  lemma MemberBelow(v: Json, p: KeyPath)
    requires p != []
    ensures HasMember(v, p) <==> v.Obj? && p[0] in v.fields && HasMember(v.fields[p[0]], p[1..])
    ensures HasMember(v, p) ==> ValueAt(v, p) == ValueAt(v.fields[p[0]], p[1..])
  {
  }

  /** After assigning at p, the member at p is the value, or is gone if the value is null. An
      assignment succeeds exactly on objects. */
  lemma {:induction false} SetAtReads(root: Json, p: KeyPath, v: Json)
    requires p != []
    ensures SetAt(root, p, v).Some? <==> root.Obj?
    ensures root.Obj? && v != Null ==> HasMember(SetAt(root, p, v).value, p) && ValueAt(SetAt(root, p, v).value, p) == v
    ensures root.Obj? && v == Null ==> !HasMember(SetAt(root, p, v).value, p)
    decreases p
  {
    if root.Obj? {
      SetAtHead(root, p, v);
      MemberBelow(SetAt(root, p, v).value, p);
      if |p| > 1 {
        SetAtReads(ChildAt(root.fields, p[0]), p[1..], v);
      }
    }
  }

  /** Assigning at p changes no member at a path that does not lead through p and that p does not
      lead through. */
  lemma {:induction false} SetAtElsewhere(root: Json, p: KeyPath, v: Json, q: KeyPath)
    requires root.Obj? && p != [] && !(p <= q) && !(q <= p)
    ensures SetAt(root, p, v).Some?
    ensures HasMember(root, q) ==> HasMember(SetAt(root, p, v).value, q) && ValueAt(SetAt(root, p, v).value, q) == ValueAt(root, q)
    ensures HasMember(SetAt(root, p, v).value, q) ==> HasMember(root, q)
    decreases p
  {
    SetAtHead(root, p, v);
    var r := SetAt(root, p, v).value;
    MemberBelow(root, q);
    MemberBelow(r, q);
    if q[0] == p[0] {
      assert p == [p[0]] + p[1..] && q == [q[0]] + q[1..];
      var child := ChildAt(root.fields, p[0]);
      SetAtElsewhere(child, p[1..], v, q[1..]);
      MemberBelow(child, q[1..]);
    }
  }

  /** Whatever the value, everything on the way to p is an object afterwards. */
  lemma {:induction false} SetAtMakesWay(root: Json, p: KeyPath, v: Json, n: nat)
    requires root.Obj? && n < |p|
    ensures SetAt(root, p, v).Some?
    ensures HasMember(SetAt(root, p, v).value, p[..n]) && ValueAt(SetAt(root, p, v).value, p[..n]).Obj?
    decreases p
  {
    SetAtHead(root, p, v);
    if n > 0 {
      MemberBelow(SetAt(root, p, v).value, p[..n]);
      assert p[..n][1..] == p[1..][..n - 1];
      SetAtMakesWay(ChildAt(root.fields, p[0]), p[1..], v, n - 1);
    }
  }
}
