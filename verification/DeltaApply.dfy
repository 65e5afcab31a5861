/** Replaying a delta on a value, and the laws that connect Diff and Apply. */
module DeltaApply {
  import opened Options
  import opened Collections
  import opened Json
  import opened Text
  import opened DottedPaths
  import opened Delta

  /** `IndexUsed` marks fields with an array index, which are outside this model. */
  datatype Applied = Value(value: Json) | Failed | IndexUsed

  // ---------- where a field points ----------

  datatype Target = Root | Below(keys: KeyPath) | Unreadable | WithIndex

  function KeysOf(ts: seq<Token>): Option<KeyPath> {
    if ts == [] then Some([])
    else if ts[0].Indexed? then None
    else
      var rest := KeysOf(ts[1..]);
      if rest.None? then None else Some([ts[0].key] + rest.value)
  }

  function Pointed(path: Parsed): Target {
    match path
    case BadPath => Unreadable
    case Tokens(ts) =>
      var keys := KeysOf(ts);
      if keys.None? then WithIndex else Below(keys.value)
  }

  function TargetOf(field: string, read: IndexReader): Target {
    if Trim(field) == "" || Trim(field) == "$" then Root else Pointed(PathTokens(Trim(field), read))
  }

  /** A key path whose printed field leads back to it. */
  predicate Readable(p: KeyPath) {
    p == [] || (GoodPath(p) && p != ["$"])
  }

  lemma {:induction false} KeysOfKeys(ts: seq<Token>, p: KeyPath)
    ensures KeysOf(ts) == Some(p) <==> ts == Keys(p)
    decreases ts
  {
    if ts != [] && p != [] && ts[0] == Key(p[0]) {
      KeysOfKeys(ts[1..], p[1..]);
      assert ts == [ts[0]] + ts[1..] && p == [p[0]] + p[1..];
    }
    if ts != [] && ts[0].Key? {
      KeysOfKeys(ts[1..], if p == [] then [] else p[1..]);
    }
  }

  lemma JoinedDollar(p: KeyPath)
    requires p != []
    ensures GoodPath(p) ==> (Join(p) == "$" <==> p == ["$"])
  {
    if GoodPath(p) {
      JoinFromFront(p);
      assert GoodKey(p[0]);
      if |p| > 1 {
        assert Join(p)[|p[0]|] == '.';
      }
    }
  }

  /** The recorded field of a key path points back at the path exactly when the path is readable. */
  lemma FieldPointsBack(p: KeyPath, read: IndexReader)
    ensures TargetOf(Field(p), read) == (if p == [] then Root else Below(p)) <==> Readable(p)
  {
    var path := Join(p);
    TrimIsTrimmed(path);
    TrimIsTrimmed(Trim(path));
    TrimIsTrimmed("$");
    if p != [] {
      PathRoundTrip(p, read);
      JoinedDollar(p);
      if Trim(path) != "" && Trim(path) != "$" {
        if PathTokens(path, read).Tokens? {
          KeysOfKeys(PathTokens(path, read).tokens, p);
        }
      }
      if GoodPath(p) {
        JoinTrimmed(p);
      }
    }
  }

  // ---------- Apply ----------

  function Lift(v: Option<Json>): Applied {
    if v.None? then Failed else Value(v.value)
  }

  function ApplyMod(cur: Json, mod: Mod, read: IndexReader): Applied {
    match TargetOf(mod.field, read)
    case Root => Value(mod.after)
    case Below(keys) => Lift(SetAt(cur, keys, mod.after))
    case Unreadable => Failed
    case WithIndex => IndexUsed
  }

  function ApplyMods(cur: Json, mods: seq<Mod>, read: IndexReader): Applied
    decreases mods
  {
    if mods == [] then Value(cur)
    else
      match ApplyMod(cur, mods[0], read)
      case Value(next) => ApplyMods(next, mods[1..], read)
      case Failed => Failed
      case IndexUsed => IndexUsed
  }

  // ---------- replaying recorded changes ----------

  lemma {:induction false} DiffListed(before: Json, after: Json, budget: nat, d: Delta) returns (ps: seq<KeyPath>)
    requires IsDiff(before, after, budget, d)
    ensures Listed(before, after, ps, budget) && d.modified == ModsOf(before, after, ps)
  {
    ps :| DeltaFor(before, after, budget, d, ps);
  }

  /** Every change between the two values has a field that leads back to it. */
  ghost predicate AllReadable(before: Json, after: Json) {
    forall p :: p in Changes(before, after) ==> Readable(p)
  }

  lemma ReplayOne(cur: Json, before: Json, after: Json, p: KeyPath, read: IndexReader)
    requires Readable(p)
    ensures ApplyMod(cur, ModAt(before, after, p), read) == Lift(Assign(cur, p, ValueAt(after, p)))
  {
    FieldPointsBack(p, read);
  }

  lemma ModsSplit(before: Json, after: Json, ps: seq<KeyPath>)
    requires ps != []
    ensures ModsOf(before, after, ps) == [ModAt(before, after, ps[0])] + ModsOf(before, after, ps[1..])
  {
  }

  lemma {:induction false} ReplayAssigns(cur: Json, before: Json, after: Json, ps: seq<KeyPath>, read: IndexReader)
    requires forall p :: p in ps ==> Readable(p)
    ensures ApplyMods(cur, ModsOf(before, after, ps), read) == Lift(AssignAll(cur, ps, after))
    decreases ps
  {
    if ps != [] {
      ReplayOne(cur, before, after, ps[0], read);
      ModsSplit(before, after, ps);
      var next := Assign(cur, ps[0], ValueAt(after, ps[0]));
      if next.Some? {
        ReplayAssigns(next.value, before, after, ps[1..], read);
      }
    }
  }

  lemma ListedElements(before: Json, after: Json, ps: seq<KeyPath>, budget: nat)
    requires Listed(before, after, ps, budget)
    ensures Elements(ps) <= Changes(before, after)
    ensures |Changes(before, after)| <= budget ==> Elements(ps) == Changes(before, after)
  {
    forall p | p in ps
      ensures p in Changes(before, after)
    {
      ChangesAre(before, after, p);
    }
    ElementsSize(ps);
    if Elements(ps) != Changes(before, after) {
      ProperSubsetSmaller(Elements(ps), Changes(before, after));
    }
  }

  lemma ListedReadable(before: Json, after: Json, ps: seq<KeyPath>, budget: nat)
    requires Listed(before, after, ps, budget) && AllReadable(before, after)
    ensures forall p :: p in ps ==> Readable(p)
  {
    forall p | p in ps
      ensures Readable(p)
    {
      ChangesAre(before, after, p);
    }
  }

  /** Different readable key paths have different fields. */
  lemma FieldsTellApart(p: KeyPath, q: KeyPath, read: IndexReader)
    requires Readable(p) && Readable(q) && Field(p) == Field(q)
    ensures p == q
  {
    FieldPointsBack(p, read);
    FieldPointsBack(q, read);
  }

  /** The change is one of those that the delta records. */
  ghost predicate Records(before: Json, after: Json, d: Delta, p: KeyPath) {
    ModAt(before, after, p) in d.modified
  }

  lemma RecordsListed(before: Json, after: Json, ps: seq<KeyPath>, d: Delta, p: KeyPath, read: IndexReader)
    requires d.modified == ModsOf(before, after, ps) && Readable(p) && forall q :: q in ps ==> Readable(q)
    ensures Records(before, after, d, p) <==> p in ps
  {
    if Records(before, after, d, p) {
      var i :| 0 <= i < |ps| && d.modified[i] == ModAt(before, after, p);
      FieldsTellApart(p, ps[i], read);
    }
    if p in ps {
      var i :| 0 <= i < |ps| && ps[i] == p;
      assert d.modified[i] == ModAt(before, after, p);
    }
  }

  lemma ListedLeaves(before: Json, after: Json, ps: seq<KeyPath>, budget: nat, read: IndexReader)
    requires Listed(before, after, ps, budget) && AllReadable(before, after)
    ensures ApplyMods(before, ModsOf(before, after, ps), read).Value?
    ensures var r := ApplyMods(before, ModsOf(before, after, ps), read).value;
      Changes(r, after) == (Changes(before, after) - Elements(ps)) + NullChanges(before, after)
  {
    ListedElements(before, after, ps, budget);
    ListedReadable(before, after, ps, budget);
    ReplayAssigns(before, before, after, ps, read);
    AssignAllLeaves(before, after, ps);
  }

  lemma LeftAt(before: Json, after: Json, ps: seq<KeyPath>, d: Delta, r: Json, p: KeyPath, read: IndexReader)
    requires d.modified == ModsOf(before, after, ps) && AllReadable(before, after) && forall q :: q in ps ==> Readable(q)
    requires Changes(r, after) == (Changes(before, after) - Elements(ps)) + NullChanges(before, after)
    ensures IsChange(r, after, p) <==>
            IsChange(before, after, p) && (!Records(before, after, d, p) || NullMember(after, p))
  {
    ChangesAre(r, after, p);
    ChangesAre(before, after, p);
    if p in Changes(before, after) {
      RecordsListed(before, after, ps, d, p, read);
      assert p in Elements(ps) <==> p in ps;
    }
  }

  /** Applying a delta from Diff always succeeds, and leaves exactly the changes that the budget
      cut off, together with those that `after` has as null members. */
  lemma {:induction false} ApplyLeaves(before: Json, after: Json, d: Delta, budget: nat, read: IndexReader)
    requires IsDiff(before, after, budget, d) && AllReadable(before, after)
    ensures ApplyMods(before, d.modified, read).Value?
    ensures var r := ApplyMods(before, d.modified, read).value;
      forall p :: IsChange(r, after, p) <==>
                  IsChange(before, after, p) && (!Records(before, after, d, p) || NullMember(after, p))
  {
    var ps := DiffListed(before, after, budget, d);
    ListedLeaves(before, after, ps, budget, read);
    ListedReadable(before, after, ps, budget);
    var r := ApplyMods(before, d.modified, read).value;
    forall p
      ensures IsChange(r, after, p) <==>
              IsChange(before, after, p) && (!Records(before, after, d, p) || NullMember(after, p))
    {
      LeftAt(before, after, ps, d, r, p, read);
    }
  }

  /** Diff then Apply reproduces `after`, within the budget, exactly when no changed member of
      `after` is null. */
  lemma {:induction false} DiffApplyIdentity(before: Json, after: Json, d: Delta, budget: nat, read: IndexReader)
    requires IsDiff(before, after, budget, d) && AllReadable(before, after)
    requires |Changes(before, after)| <= budget || |d.modified| < budget
    ensures ApplyMods(before, d.modified, read) == Value(after) <==> NullChanges(before, after) == {}
  {
    var ps := DiffListed(before, after, budget, d);
    ListedElements(before, after, ps, budget);
    ListedReadable(before, after, ps, budget);
    ReplayAssigns(before, before, after, ps, read);
    AssignAllReproduces(before, after, ps);
  }

  /** A truncated delta makes progress: of N changes, N - min(budget, N) are left. */
  lemma {:induction false} BudgetedProgress(before: Json, after: Json, d: Delta, budget: nat, read: IndexReader)
    requires IsDiff(before, after, budget, d) && AllReadable(before, after)
    requires NullChanges(before, after) == {}
    ensures ApplyMods(before, d.modified, read).Value?
    ensures var r := ApplyMods(before, d.modified, read).value;
      && |Changes(r, after)| == |Changes(before, after)| - Min(budget, |Changes(before, after)|)
      && AllReadable(r, after) && NullChanges(r, after) == {}
  {
    var ps := DiffListed(before, after, budget, d);
    ListedLeaves(before, after, ps, budget, read);
    ListedElements(before, after, ps, budget);
    CountLeft(Changes(before, after), ps);
    var r := ApplyMods(before, d.modified, read).value;
    forall p | p in Changes(r, after)
      ensures p in Changes(before, after) && !NullMember(after, p)
    {
      assert p !in NullChanges(before, after);
    }
  }

  ghost predicate Round(from: Json, to: Json, after: Json, budget: nat, read: IndexReader) {
    exists d :: IsDiff(from, after, budget, d) && ApplyMods(from, d.modified, read) == Value(to)
  }

  /** values[i + 1] comes from values[i] by one round of Diff and Apply towards `after`. */
  ghost predicate Rounds(values: seq<Json>, after: Json, budget: nat, read: IndexReader) {
    forall i :: 0 <= i < |values| - 1 ==> Round(values[i], values[i + 1], after, budget, read)
  }

  /** What is left of n changes after k rounds that each take away up to m. */
  function Left(n: nat, m: nat, k: nat): nat {
    if k == 0 then n else Left(n, m, k - 1) - Min(m, Left(n, m, k - 1))
  }

  lemma {:induction false} LeftRunsOut(n: nat, m: nat, k: nat)
    requires m > 0
    ensures Left(n, m, k) <= if k <= n then n - k else 0
    ensures Left(n, m, k) == if k * m <= n then n - k * m else 0
  {
    if k > 0 {
      LeftRunsOut(n, m, k - 1);
      assert k * m == (k - 1) * m + m;
    }
  }

  /** Repeated rounds converge: after k rounds, N - k * budget changes are left, so with enough
      rounds the value becomes `after`. */
  lemma {:induction false} RoundsConverge(values: seq<Json>, after: Json, budget: nat, read: IndexReader)
    requires values != [] && budget > 0 && Rounds(values, after, budget, read)
    requires AllReadable(values[0], after) && NullChanges(values[0], after) == {}
    ensures var last := values[|values| - 1];
      && |Changes(last, after)| == Left(|Changes(values[0], after)|, budget, |values| - 1)
      && AllReadable(last, after) && NullChanges(last, after) == {}
    ensures |values| > |Changes(values[0], after)| ==> values[|values| - 1] == after
    decreases |values|
  {
    if |values| > 1 {
      var front := values[..|values| - 1];
      forall i | 0 <= i < |front| - 1
        ensures Round(front[i], front[i + 1], after, budget, read)
      {
        assert Round(values[i], values[i + 1], after, budget, read);
      }
      RoundsConverge(front, after, budget, read);
      var from := front[|front| - 1];
      assert Round(values[|values| - 2], values[|values| - 1], after, budget, read);
      var d :| IsDiff(from, after, budget, d) && ApplyMods(from, d.modified, read) == Value(values[|values| - 1]);
      BudgetedProgress(from, after, d, budget, read);
    }
    LeftRunsOut(|Changes(values[0], after)|, budget, |values| - 1);
    NoChangeMeansEqual(values[|values| - 1], after);
  }

  // ---------- order independence ----------

  lemma ListedPrefixFree(before: Json, after: Json, ps: seq<KeyPath>, budget: nat)
    requires Listed(before, after, ps, budget)
    ensures PrefixFree(ps)
  {
    forall i, j | 0 <= i < |ps| && 0 <= j < |ps| && i != j
      ensures !(ps[i] <= ps[j])
    {
      assert ps[i] in ps && ps[j] in ps && ps[i] != ps[j];
      if ps[i] <= ps[j] {
        ChangesPrefixFree(before, after, ps[i], ps[j]);
      }
    }
  }

  lemma RootAlone(before: Json, after: Json, ps: seq<KeyPath>)
    requires PrefixFree(ps) && |ps| > 1 && forall p :: p in ps ==> IsChange(before, after, p)
    ensures [] !in ps && before.Obj?
  {
    forall i | 0 <= i < |ps|
      ensures ps[i] != []
    {
      var j := if i == 0 then 1 else 0;
      assert !(ps[i] <= ps[j]);
    }
    assert ps[0] in ps;
  }

  /** The fields of a delta are different and point at different places, none inside another. */
  lemma {:induction false} FieldsIndependent(before: Json, after: Json, d: Delta, budget: nat, read: IndexReader, i: nat, j: nat)
    requires IsDiff(before, after, budget, d) && AllReadable(before, after)
    requires i < |d.modified| && j < |d.modified| && i != j
    ensures d.modified[i].field != d.modified[j].field
    ensures var t, u := TargetOf(d.modified[i].field, read), TargetOf(d.modified[j].field, read);
      t.Below? && u.Below? && !(t.keys <= u.keys)
  {
    var ps := DiffListed(before, after, budget, d);
    ListedPrefixFree(before, after, ps, budget);
    ListedReadable(before, after, ps, budget);
    RootAlone(before, after, ps);
    assert ps[i] in ps && ps[j] in ps;
    FieldPointsBack(ps[i], read);
    FieldPointsBack(ps[j], read);
  }

  lemma ModsWithout(before: Json, after: Json, ps: seq<KeyPath>, j: nat)
    requires j < |ps|
    ensures ModsOf(before, after, Without(ps, j)) == Without(ModsOf(before, after, ps), j)
  {
  }

  lemma ModsCons(before: Json, after: Json, p: KeyPath, rest: seq<KeyPath>)
    ensures ModsOf(before, after, [p] + rest) == [ModAt(before, after, p)] + ModsOf(before, after, rest)
  {
  }

  /** Reordered modifications are the modifications of reordered changes. */
  lemma {:induction false} ReorderedChanges(before: Json, after: Json, ps: seq<KeyPath>, mods: seq<Mod>) returns (qs: seq<KeyPath>)
    requires multiset(ModsOf(before, after, ps)) == multiset(mods)
    ensures multiset(ps) == multiset(qs) && mods == ModsOf(before, after, qs)
    decreases mods
  {
    if mods == [] {
      SameSize(ModsOf(before, after, ps), mods);
      qs := ps;
    } else {
      var j := SameHeads(ModsOf(before, after, ps), mods);
      ModsWithout(before, after, ps, j);
      var rest := ReorderedChanges(before, after, Without(ps, j), mods[1..]);
      TakeOut(ps, rest, j);
      ModsCons(before, after, ps[j], rest);
      qs := [ps[j]] + rest;
    }
  }

  /** Applying the modifications in any order gives the same result. */
  lemma {:induction false} OrderIndependent(before: Json, after: Json, d: Delta, mods: seq<Mod>, budget: nat, read: IndexReader)
    requires IsDiff(before, after, budget, d) && AllReadable(before, after)
    requires multiset(d.modified) == multiset(mods)
    ensures ApplyMods(before, mods, read) == ApplyMods(before, d.modified, read)
  {
    var ps := DiffListed(before, after, budget, d);
    var qs := ReorderedChanges(before, after, ps, mods);
    ListedReadable(before, after, ps, budget);
    forall q | q in qs
      ensures q in ps
    {
      assert q in multiset(qs);
    }
    ReplayAssigns(before, before, after, ps, read);
    ReplayAssigns(before, before, after, qs, read);
    assert |ps| == |multiset(ps)| == |qs|;
    if |ps| <= 1 {
      if |ps| == 1 {
        assert qs[0] in ps;
        assert ps == [ps[0]] && qs == [ps[0]];
      }
    } else {
      ListedPrefixFree(before, after, ps, budget);
      RootAlone(before, after, ps);
      AssignAllPermutes(before, ps, qs, after);
    }
  }

  // ---------- conditions a caller can check ----------

  /** Object keys are good all the way down. */
  predicate GoodKeys(v: Json)
    decreases v
  {
    v.Obj? ==> forall k :: k in v.fields ==> GoodKey(k) && GoodKeys(v.fields[k])
  }

  predicate WellFormed(v: Json) {
    GoodKeys(v) && (v.Obj? ==> "$" !in v.fields)
  }

  /** No object member is null, looking through objects only: nulls inside arrays and a null
      root are fine. */
  predicate NoNullMembers(v: Json)
    decreases v
  {
    v.Obj? ==> forall k :: k in v.fields ==> v.fields[k] != Null && NoNullMembers(v.fields[k])
  }

  lemma {:induction false} ChangePathsAreGood(before: Json, after: Json, p: KeyPath)
    requires GoodKeys(before) && GoodKeys(after) && IsChange(before, after, p)
    ensures GoodPath(p)
    decreases before
  {
    if before.Obj? && after.Obj? {
      var k := p[0];
      if k in before.fields && k in after.fields {
        ChangePathsAreGood(before.fields[k], after.fields[k], p[1..]);
        forall i | 1 <= i < |p|
          ensures GoodKey(p[i])
        {
          assert p[i] == p[1..][i - 1];
        }
      }
    }
  }

  lemma {:induction false} NoNullAt(v: Json, p: KeyPath)
    requires NoNullMembers(v)
    ensures !NullMember(v, p)
    decreases p
  {
    if p != [] && v.Obj? && p[0] in v.fields {
      NoNullAt(v.fields[p[0]], p[1..]);
      assert HasMember(v, p) ==> HasMember(v.fields[p[0]], p[1..]);
      assert ValueAt(v, p) == ValueAt(v.fields[p[0]], p[1..]);
      assert p[1..] == [] ==> ValueAt(v, p) == v.fields[p[0]];
    }
  }

  /** Well-formed values whose target has no null members meet the conditions of all the laws. */
  lemma WellFormedSuffices(before: Json, after: Json)
    requires WellFormed(before) && WellFormed(after)
    ensures AllReadable(before, after)
    ensures NoNullMembers(after) ==> NullChanges(before, after) == {}
  {
    forall p | p in Changes(before, after)
      ensures Readable(p)
      ensures NoNullMembers(after) ==> !NullMember(after, p)
    {
      ChangesAre(before, after, p);
      ChangePathsAreGood(before, after, p);
      if NoNullMembers(after) {
        NoNullAt(after, p);
      }
    }
  }

  lemma OnlyChangeIsA(before: Json, after: Json)
    requires before == Obj(map["a" := Bool(true)]) && after == Obj(map["a" := Null])
    ensures Changes(before, after) == {["a"]} && ["a"] in NullChanges(before, after)
  {
    assert IsChange(Bool(true), Null, []) && ["a"][1..] == [];
    forall q
      ensures q in Changes(before, after) <==> q == ["a"]
    {
      ChangesAre(before, after, q);
      if IsChange(before, after, q) {
        assert q == [q[0]] + q[1..];
      }
    }
    assert HasMember(after, ["a"]) && ValueAt(after, ["a"]) == Null;
  }

  lemma WellFormedExample()
    ensures WellFormed(Obj(map["a" := Bool(true)])) && WellFormed(Obj(map["a" := Null]))
  {
    assert IndexFrom("a", '[', 0).None?;
    assert GoodKey("a");
  }

  /** A null member that changes is lost: here no delta from Diff leads to `after`. */
  lemma {:induction false} NullMemberIsLost(d: Delta, read: IndexReader)
    requires IsDiff(Obj(map["a" := Bool(true)]), Obj(map["a" := Null]), DEFAULT_MAX_CHANGES, d)
    ensures ApplyMods(Obj(map["a" := Bool(true)]), d.modified, read) != Value(Obj(map["a" := Null]))
  {
    var before, after := Obj(map["a" := Bool(true)]), Obj(map["a" := Null]);
    OnlyChangeIsA(before, after);
    WellFormedExample();
    WellFormedSuffices(before, after);
    DiffApplyIdentity(before, after, d, DEFAULT_MAX_CHANGES, read);
  }

  lemma MemberOf(k: string, v: Json)
    ensures ValueAt(Obj(map[k := v]), [k]) == v
  {
    assert [k][1..] == [];
  }

  lemma OneMod(cur: Json, mod: Mod, read: IndexReader)
    ensures ApplyMods(cur, [mod], read) == ApplyMod(cur, mod, read)
  {
    assert [mod][1..] == [];
  }

  lemma SameField(a: string, b: string)
    requires GoodKey(a) && GoodKey(b)
    ensures Field([a + "." + b]) == Field([a, b])
  {
    JoinLast([], a + "." + b);
    JoinLast([a], b);
    JoinLast([], a);
    assert [] + [a] == [a] && [a] + [b] == [a, b] && [] + [a + "." + b] == [a + "." + b];
  }

  lemma DottedTarget(a: string, b: string, read: IndexReader)
    requires GoodKey(a) && GoodKey(b)
    ensures TargetOf(Field([a + "." + b]), read) == Below([a, b])
  {
    SameField(a, b);
    FieldPointsBack([a, b], read);
    assert GoodPath([a, b]);
  }

  lemma SetTwoKeys(a: string, b: string, v: Json)
    requires v != Null
    ensures SetAt(Obj(map[]), [a, b], v) == Some(Obj(map[a := Obj(map[b := v])]))
  {
    assert [a, b][1..] == [b];
    var none: map<string, Json> := map[];
    assert SetAt(Obj(none), [b], v) == Some(Obj(none[b := v]));
  }

  lemma OnlyNewMember(k: string, v: Json, ps: seq<KeyPath>)
    requires Listed(Obj(map[]), Obj(map[k := v]), ps, DEFAULT_MAX_CHANGES)
    ensures ps == [[k]]
  {
    var before, after := Obj(map[]), Obj(map[k := v]);
    forall q
      ensures q in Changes(before, after) <==> q == [k]
    {
      ChangesAre(before, after, q);
      if IsChange(before, after, q) {
        assert q == [q[0]] + q[1..];
      }
    }
    assert Changes(before, after) == {[k]};
    assert |ps| == 1 && ps[0] in ps;
    ChangesAre(before, after, ps[0]);
  }

  /** A key with a dot is misread: the member appears nested instead of under its own key. */
  lemma {:induction false} DottedKeyIsMisread(a: string, b: string, v: Json, d: Delta, read: IndexReader)
    requires GoodKey(a) && GoodKey(b) && v != Null
    requires IsDiff(Obj(map[]), Obj(map[a + "." + b := v]), DEFAULT_MAX_CHANGES, d)
    ensures ApplyMods(Obj(map[]), d.modified, read) == Value(Obj(map[a := Obj(map[b := v])]))
    ensures Obj(map[a := Obj(map[b := v])]) != Obj(map[a + "." + b := v])
  {
    var k := a + "." + b;
    var before, after := Obj(map[]), Obj(map[k := v]);
    var ps := DiffListed(before, after, DEFAULT_MAX_CHANGES, d);
    OnlyNewMember(k, v, ps);
    DottedTarget(a, b, read);
    SetTwoKeys(a, b, v);
    MemberOf(k, v);
    var mod := Mod(Field([k]), ValueAt(before, [k]), v);
    assert ModsOf(before, after, [[k]]) == [mod];
    OneMod(before, mod, read);
    assert |k| > |a|;
    assert a in map[a := Obj(map[b := v])] && a !in after.fields;
  }

  /** A blank field and a padded `$` stand for the whole value. */
  lemma RootFields(left: string, right: string, read: IndexReader)
    requires AllSpaces(left) && AllSpaces(right)
    ensures TargetOf(left + right, read).Root? && TargetOf(left + "$" + right, read).Root?
  {
    TrimPadded(left, "", right);
    assert left + "" + right == left + right;
    TrimPadded(left, "$", right);
  }

  /** A modification of the whole value replaces it. */
  lemma RootReplaces(cur: Json, mod: Mod, read: IndexReader)
    requires TargetOf(mod.field, read).Root?
    ensures ApplyMods(cur, [mod], read) == Value(mod.after)
  {
    OneMod(cur, mod, read);
  }

  /** A modification fails exactly when its field is unreadable, or leads below a value that is no
      object; a field without any key changes nothing. */
  lemma {:induction false} WhenAModFails(cur: Json, mod: Mod, read: IndexReader)
    ensures var target := TargetOf(mod.field, read);
      && (ApplyMod(cur, mod, read).Failed? <==> target.Unreadable? || (target.Below? && target.keys != [] && !cur.Obj?))
      && (target.Below? && target.keys == [] ==> ApplyMod(cur, mod, read) == Value(cur))
  {
    var target := TargetOf(mod.field, read);
    if target.Below? && target.keys != [] {
      SetAtReads(cur, target.keys, mod.after);
    }
  }

  /** Modifications are applied one after the other, up to the first that fails. */
  lemma {:induction false} OneAfterTheOther(cur: Json, mods: seq<Mod>, mod: Mod, read: IndexReader)
    ensures ApplyMods(cur, [], read) == Value(cur)
    ensures ApplyMods(cur, mods + [mod], read) ==
      match ApplyMods(cur, mods, read)
      case Value(v) => ApplyMod(v, mod, read)
      case failed => failed
    decreases mods
  {
    if mods == [] {
      assert [] + [mod] == [mod];
      OneMod(cur, mod, read);
    } else {
      assert (mods + [mod])[1..] == mods[1..] + [mod];
      var first := ApplyMod(cur, mods[0], read);
      if first.Value? {
        OneAfterTheOther(first.value, mods[1..], mod, read);
      }
    }
  }
}
