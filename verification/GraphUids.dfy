/** Renaming the nodes of a graph view to generated uids, in place, and its edges with them. */
module GraphUids {
  import opened Options
  import opened Text
  import opened Uids

  class GraphNode {
    var uid: string
    var lbl: string
  }

  class GraphEdge {
    var from: string
    var to: string
  }

  /** What the renaming reads of a node; `None` is an absent node. */
  datatype NodeInput = NodeInput(uid: string, lbl: string)

  type Inputs = seq<Option<NodeInput>>

  ghost function InputOf(n: GraphNode?): Option<NodeInput>
    reads n
  {
    if n == null then None else Some(NodeInput(n.uid, n.lbl))
  }

  // ---------- keys ----------

  function OldID(ins: Inputs, i: nat): string
    requires i < |ins|
  {
    if ins[i].None? then "" else Trim(ins[i].value.uid)
  }

  /** How many of the first k nodes have the id. */
  function Seen(ins: Inputs, id: string, k: nat): nat
    requires k <= |ins|
  {
    if k == 0 then 0 else Seen(ins, id, k - 1) + if ins[k - 1].Some? && OldID(ins, k - 1) == id then 1 else 0
  }

  function IndexKey(i: nat, lbl: string): string {
    "idx:" + Decimal(i) + "|label:" + lbl
  }

  function KeyText(id: string, count: nat, i: nat, lbl: string): string {
    if id == "" then IndexKey(i, Trim(lbl))
    else if count == 1 then "id:" + id
    else "id:" + id + "#" + Decimal(count)
  }

  /** The logical key of node i. */
  function NodeKey(ins: Inputs, i: nat): string
    requires i < |ins| && ins[i].Some?
  {
    KeyText(OldID(ins, i), Seen(ins, OldID(ins, i), i + 1), i, ins[i].value.lbl)
  }

  /** Keys are non-blank and trimmed, so the generator looks them up as they are. */
  lemma KeyIsTrimmed(ins: Inputs, i: nat)
    requires i < |ins| && ins[i].Some?
    ensures NodeKey(ins, i) != "" && Trim(NodeKey(ins, i)) == NodeKey(ins, i)
  {
    var id, key := OldID(ins, i), NodeKey(ins, i);
    TrimIsTrimmed(ins[i].value.uid);
    TrimIsTrimmed(ins[i].value.lbl);
    if id == "" {
      var l := Trim(ins[i].value.lbl);
      assert key[|key| - 1] == if l == "" then ':' else l[|l| - 1];
    } else {
      var c := Seen(ins, id, i + 1);
      DecimalDigits(c);
      assert key[|key| - 1] == if c == 1 then id[|id| - 1] else Decimal(c)[|Decimal(c)| - 1];
    }
    assert Trimmed(key);
    TrimIsTrimmed(key);
  }

  // ---------- which nodes share a key ----------

  ghost predicate DistinctIDs(ins: Inputs) {
    forall i, j :: 0 <= i < j < |ins| && ins[i].Some? && ins[j].Some? && OldID(ins, i) != "" ==> OldID(ins, i) != OldID(ins, j)
  }

  ghost predicate DistinctKeys(ins: Inputs) {
    forall i, j :: 0 <= i < j < |ins| && ins[i].Some? && ins[j].Some? ==> NodeKey(ins, i) != NodeKey(ins, j)
  }

  function Numbered(id: string, n: nat): string {
    id + "#" + Decimal(n)
  }

  /** Node i is not the first with its id, and node j has an id that reads like the id of node i
      with its number. */
  predicate NumberedClash(ins: Inputs, i: nat, j: nat)
    requires i < |ins| && j < |ins|
  {
    && ins[i].Some? && ins[j].Some? && OldID(ins, i) != ""
    && Seen(ins, OldID(ins, i), i + 1) >= 2
    && OldID(ins, j) == Numbered(OldID(ins, i), Seen(ins, OldID(ins, i), i + 1))
  }

  predicate NoNumberedClash(ins: Inputs) {
    forall i, j :: 0 <= i < |ins| && 0 <= j < |ins| ==> !NumberedClash(ins, i, j)
  }

  lemma NumeralNotLonger(i: nat, l: string, j: nat, m: string)
    requires IndexKey(i, l) == IndexKey(j, m)
    ensures |Decimal(j)| <= |Decimal(i)|
  {
    DecimalDigits(j);
    assert IndexKey(i, l)[4 + |Decimal(i)|] == '|';
    assert forall k :: 0 <= k < |Decimal(j)| ==> IndexKey(j, m)[4 + k] == Decimal(j)[k];
  }

  lemma IndexReadsBack(i: nat, l: string, j: nat, m: string)
    requires IndexKey(i, l) == IndexKey(j, m)
    ensures i == j
  {
    NumeralNotLonger(i, l, j, m);
    NumeralNotLonger(j, m, i, l);
    assert IndexKey(i, l)[4..4 + |Decimal(i)|] == Decimal(i);
    assert IndexKey(j, m)[4..4 + |Decimal(j)|] == Decimal(j);
    DecimalInjective(i, j);
  }

  lemma NumberNotLonger(a: string, m: nat, b: string, n: nat)
    requires Numbered(a, m) == Numbered(b, n)
    ensures |a| <= |b|
  {
    DecimalDigits(n);
    assert Numbered(a, m)[|a|] == '#';
    assert forall k :: 0 <= k < |Decimal(n)| ==> Numbered(b, n)[|b| + 1 + k] == Decimal(n)[k];
  }

  lemma NumberReadsBack(a: string, m: nat, b: string, n: nat)
    requires Numbered(a, m) == Numbered(b, n)
    ensures a == b && m == n
  {
    NumberNotLonger(a, m, b, n);
    NumberNotLonger(b, n, a, m);
    assert Numbered(a, m)[..|a|] == a && Numbered(b, n)[..|b|] == b;
    assert Numbered(a, m)[|a| + 1..] == Decimal(m) && Numbered(b, n)[|b| + 1..] == Decimal(n);
    DecimalInjective(m, n);
  }

  lemma {:induction false} SeenMonotone(ins: Inputs, id: string, k: nat, l: nat)
    requires k <= l <= |ins|
    ensures Seen(ins, id, k) <= Seen(ins, id, l)
    decreases l
  {
    if k < l {
      SeenMonotone(ins, id, k, l - 1);
    }
  }

  lemma {:induction false} FirstWith(ins: Inputs, id: string, k: nat) returns (f: nat)
    requires k <= |ins| && Seen(ins, id, k) > 0
    ensures f < k && ins[f].Some? && OldID(ins, f) == id && Seen(ins, id, f + 1) == 1
    decreases k
  {
    if Seen(ins, id, k - 1) > 0 {
      f := FirstWith(ins, id, k - 1);
    } else {
      f := k - 1;
    }
  }

  /** The key of a node with an id, without its prefix. */
  function IDText(ins: Inputs, i: nat): string
    requires i < |ins| && ins[i].Some?
  {
    var id := OldID(ins, i);
    var n := Seen(ins, id, i + 1);
    if n == 1 then id else Numbered(id, n)
  }

  lemma KeyOfID(ins: Inputs, i: nat)
    requires i < |ins| && ins[i].Some? && OldID(ins, i) != ""
    ensures NodeKey(ins, i) == "id:" + IDText(ins, i) && NodeKey(ins, i)[3..] == IDText(ins, i)
    ensures Seen(ins, OldID(ins, i), i + 1) >= 1
  {
    var id := OldID(ins, i);
    assert "id:" + id + "#" + Decimal(Seen(ins, id, i + 1)) == "id:" + Numbered(id, Seen(ins, id, i + 1));
  }

  lemma OneMoreSeen(ins: Inputs, id: string, i: nat)
    requires i < |ins| && ins[i].Some? && OldID(ins, i) == id
    ensures Seen(ins, id, i + 1) == Seen(ins, id, i) + 1
  {
  }

  lemma NumbersGrow(ins: Inputs, id: string, i: nat, j: nat)
    requires i < j < |ins| && ins[i].Some? && ins[j].Some? && OldID(ins, i) == OldID(ins, j) == id
    ensures 1 <= Seen(ins, id, i + 1) < Seen(ins, id, j + 1)
  {
    OneMoreSeen(ins, id, i);
    SeenMonotone(ins, id, i + 1, j);
    OneMoreSeen(ins, id, j);
  }

  lemma LabelReadsBack(i: nat, l: string, m: string)
    requires IndexKey(i, l) == IndexKey(i, m)
    ensures l == m
  {
    var n := |"idx:" + Decimal(i) + "|label:"|;
    assert IndexKey(i, l)[n..] == l && IndexKey(i, m)[n..] == m;
  }

  /** Nodes, of one view or of two, have the same key exactly when they have the same id as the same
      occurrence of it, or no id, the same position and the same label. */
  lemma SameKeyExactly(ins: Inputs, i: nat, other: Inputs, j: nat)
    requires i < |ins| && ins[i].Some? && j < |other| && other[j].Some?
    ensures NodeKey(ins, i) == NodeKey(other, j) <==>
      var a, b := OldID(ins, i), OldID(other, j);
      if a != "" && b != "" then IDText(ins, i) == IDText(other, j)
      else a == "" && b == "" && i == j && Trim(ins[i].value.lbl) == Trim(other[j].value.lbl)
  {
    var a, b := OldID(ins, i), OldID(other, j);
    assert a == "" ==> NodeKey(ins, i)[2] == 'x';
    assert b == "" ==> NodeKey(other, j)[2] == 'x';
    if a != "" {
      KeyOfID(ins, i);
      assert NodeKey(ins, i)[2] == ':';
    }
    if b != "" {
      KeyOfID(other, j);
      assert NodeKey(other, j)[2] == ':';
    }
    if a == "" && b == "" && NodeKey(ins, i) == NodeKey(other, j) {
      IndexReadsBack(i, Trim(ins[i].value.lbl), j, Trim(other[j].value.lbl));
      LabelReadsBack(i, Trim(ins[i].value.lbl), Trim(other[j].value.lbl));
    }
  }

  lemma SameIDText(ins: Inputs, i: nat, j: nat)
    requires i < j < |ins| && ins[i].Some? && ins[j].Some? && OldID(ins, i) != "" && OldID(ins, j) != ""
    requires IDText(ins, i) == IDText(ins, j)
    ensures NumberedClash(ins, i, j) || NumberedClash(ins, j, i)
  {
    var a, b := OldID(ins, i), OldID(ins, j);
    var m, n := Seen(ins, a, i + 1), Seen(ins, b, j + 1);
    if a == b {
      NumbersGrow(ins, a, i, j);
      assert |Numbered(b, n)| > |a|;
    }
    if m != 1 && n != 1 {
      NumberReadsBack(a, m, b, n);
    }
  }

  lemma SameKeyMeansClash(ins: Inputs, i: nat, j: nat)
    requires i < j < |ins| && ins[i].Some? && ins[j].Some? && NodeKey(ins, i) == NodeKey(ins, j)
    ensures NumberedClash(ins, i, j) || NumberedClash(ins, j, i)
  {
    var a, b := OldID(ins, i), OldID(ins, j);
    assert a == "" ==> NodeKey(ins, i)[2] == 'x';
    assert b == "" ==> NodeKey(ins, j)[2] == 'x';
    if a != "" {
      KeyOfID(ins, i);
      assert NodeKey(ins, i)[2] == ':';
    }
    if b != "" {
      KeyOfID(ins, j);
      assert NodeKey(ins, j)[2] == ':';
    }
    if a == "" {
      IndexReadsBack(i, Trim(ins[i].value.lbl), j, Trim(ins[j].value.lbl));
    } else {
      SameIDText(ins, i, j);
    }
  }

  lemma ClashMeansSameKey(ins: Inputs, i: nat, j: nat) returns (f: nat)
    requires i < |ins| && j < |ins| && NumberedClash(ins, i, j)
    ensures f < |ins| && f != i && ins[f].Some? && NodeKey(ins, f) == NodeKey(ins, i)
  {
    var id := OldID(ins, j);
    KeyOfID(ins, j);
    f := FirstWith(ins, id, j + 1);
    KeyOfID(ins, f);
    KeyOfID(ins, i);
    assert |id| > |OldID(ins, i)|;
  }

  /** Two nodes share a key exactly when some id reads like the numbered form of a repeated id. */
  lemma DistinctKeysExactly(ins: Inputs)
    ensures DistinctKeys(ins) <==> NoNumberedClash(ins)
  {
    if NoNumberedClash(ins) {
      forall i, j | 0 <= i < j < |ins| && ins[i].Some? && ins[j].Some?
        ensures NodeKey(ins, i) != NodeKey(ins, j)
      {
        if NodeKey(ins, i) == NodeKey(ins, j) {
          SameKeyMeansClash(ins, i, j);
        }
      }
    } else {
      var i, j :| 0 <= i < |ins| && 0 <= j < |ins| && NumberedClash(ins, i, j);
      var f := ClashMeansSameKey(ins, i, j);
      assert NodeKey(ins, f) == NodeKey(ins, i);
    }
  }

  lemma {:induction false} SeenZero(ins: Inputs, id: string, k: nat)
    requires k <= |ins| && forall i :: 0 <= i < k && ins[i].Some? ==> OldID(ins, i) != id
    ensures Seen(ins, id, k) == 0
  {
    if k > 0 {
      SeenZero(ins, id, k - 1);
    }
  }

  /** Distinct ids, where blank ids may repeat, give distinct keys. */
  lemma DistinctIDsDistinctKeys(ins: Inputs)
    requires DistinctIDs(ins)
    ensures DistinctKeys(ins)
  {
    forall i, j | 0 <= i < |ins| && 0 <= j < |ins|
      ensures !NumberedClash(ins, i, j)
    {
      if ins[i].Some? && OldID(ins, i) != "" {
        SeenZero(ins, OldID(ins, i), i);
      }
    }
    DistinctKeysExactly(ins);
  }

  /** A repeated id can collide with an id that looks like its numbered form. */
  lemma RepeatedIDCollides(a: string)
    requires Trimmed(a) && a != ""
    ensures var n := (id: string) => Some(NodeInput(id, ""));
      var ins := [n(a), n(a), n(a + "#2")];
      NumberedClash(ins, 1, 2) && NodeKey(ins, 1) == NodeKey(ins, 2) && !DistinctKeys(ins)
  {
    var n := (id: string) => Some(NodeInput(id, ""));
    var ins := [n(a), n(a), n(a + "#2")];
    var b := a + "#2";
    assert b[|b| - 1] == '2' && b[0] == a[0];
    TrimIsTrimmed(a);
    TrimIsTrimmed(b);
    assert OldID(ins, 0) == a && OldID(ins, 1) == a && OldID(ins, 2) == b && |a| != |b|;
    assert Seen(ins, a, 0) == 0;
    assert Seen(ins, a, 1) == 1;
    assert Seen(ins, a, 2) == 2;
    assert Seen(ins, b, 0) == 0;
    assert Seen(ins, b, 1) == 0;
    assert Seen(ins, b, 2) == 0;
    assert Seen(ins, b, 3) == 1;
    assert Decimal(2) == "2";
    assert "id:" + a + "#" + "2" == "id:" + b;
    assert Numbered(a, 2) == b;
  }

  // ---------- the renaming ----------

  /** The last of the first k nodes with the id. */
  function LastWith(ins: Inputs, id: string, k: nat): (r: Option<nat>)
    requires k <= |ins|
    ensures r.Some? ==> r.value < k && ins[r.value].Some? && OldID(ins, r.value) == id
    ensures r.None? ==> forall i :: 0 <= i < k && ins[i].Some? ==> OldID(ins, i) != id
  {
    if k == 0 then None
    else if ins[k - 1].Some? && OldID(ins, k - 1) == id then Some(k - 1)
    else LastWith(ins, id, k - 1)
  }

  ghost predicate SeenTable(ins: Inputs, idSeen: map<string, nat>, k: nat)
    requires k <= |ins|
  {
    forall id: string {:trigger id in idSeen} ::
      id != "" ==> (if id in idSeen then idSeen[id] else 0) == Seen(ins, id, k)
  }

  lemma SeenStep(ins: Inputs, idSeen: map<string, nat>, i: nat)
    requires i < |ins| && SeenTable(ins, idSeen, i)
    ensures var id := OldID(ins, i);
      SeenTable(ins, if ins[i].Some? && id != "" then idSeen[id := Seen(ins, id, i + 1)] else idSeen, i + 1)
  {
  }

  /** What the name of node i is made from: its id, else its label, else its position. */
  function SeedOf(n: NodeInput, i: nat): string {
    if Trim(n.uid) != "" then Trim(n.uid) else if Trim(n.lbl) != "" then Trim(n.lbl) else "node-" + Decimal(i + 1)
  }

  /** The base name of the seed, with a number if the base name is taken. */
  ghost predicate NewName(baseOf: string -> string, seed: string, taken: set<string>, uid: string) {
    if baseOf(seed) !in taken then uid == baseOf(seed)
    else exists n: nat :: n >= 2 && uid == baseOf(seed) + "-" + Decimal(n)
  }

  /** uid is the name of node i for a generator with these keys and names: the one it remembers,
      or a new one made from the seed. */
  ghost predicate NameGiven(baseOf: string -> string, byKey: map<string, string>, used: set<string>, ins: Inputs, i: nat, uid: string)
    requires i < |ins| && ins[i].Some?
  {
    if NodeKey(ins, i) in byKey then uid == byKey[NodeKey(ins, i)]
    else uid !in used && NewName(baseOf, SeedOf(ins[i].value, i), used, uid)
  }

  /** The generator's keys after the first nodes got these uids. */
  ghost function KeysAfter(byKey: map<string, string>, ins: Inputs, uids: seq<string>): map<string, string>
    requires |uids| <= |ins|
  {
    if uids == [] then byKey
    else
      var n := |uids| - 1;
      var before := KeysAfter(byKey, ins, uids[..n]);
      if ins[n].Some? then before[NodeKey(ins, n) := uids[n]] else before
  }

  /** The generator's names after the first nodes got these uids. */
  ghost function UsedAfter(used: set<string>, ins: Inputs, uids: seq<string>): set<string>
    requires |uids| <= |ins|
  {
    if uids == [] then used
    else
      var n := |uids| - 1;
      UsedAfter(used, ins, uids[..n]) + if ins[n].Some? then {uids[n]} else {}
  }

  /** The table from old ids to new uids after the first nodes got these uids. */
  ghost function TableAfter(ins: Inputs, uids: seq<string>): map<string, string>
    requires |uids| <= |ins|
  {
    if uids == [] then map[]
    else
      var n := |uids| - 1;
      var before := TableAfter(ins, uids[..n]);
      if ins[n].Some? && OldID(ins, n) != "" then before[OldID(ins, n) := uids[n]] else before
  }

  /** The first nodes got these uids one after the other. */
  ghost predicate NamesGiven(baseOf: string -> string, byKey: map<string, string>, used: set<string>, ins: Inputs, uids: seq<string>)
    requires |uids| <= |ins|
  {
    uids == [] ||
    (var n := |uids| - 1;
     && NamesGiven(baseOf, byKey, used, ins, uids[..n])
     && (ins[n].Some? ==>
           NameGiven(baseOf, KeysAfter(byKey, ins, uids[..n]), UsedAfter(used, ins, uids[..n]), ins, n, uids[n])))
  }

  lemma OneMoreName(baseOf: string -> string, byKey: map<string, string>, used: set<string>, ins: Inputs, uids: seq<string>, uid: string)
    requires |uids| < |ins| && NamesGiven(baseOf, byKey, used, ins, uids)
    requires ins[|uids|].Some? ==>
      NameGiven(baseOf, KeysAfter(byKey, ins, uids), UsedAfter(used, ins, uids), ins, |uids|, uid)
    ensures var i := |uids|;
      && NamesGiven(baseOf, byKey, used, ins, uids + [uid])
      && KeysAfter(byKey, ins, uids + [uid]) ==
         (if ins[i].Some? then KeysAfter(byKey, ins, uids)[NodeKey(ins, i) := uid] else KeysAfter(byKey, ins, uids))
      && UsedAfter(used, ins, uids + [uid]) == UsedAfter(used, ins, uids) + (if ins[i].Some? then {uid} else {})
      && TableAfter(ins, uids + [uid]) ==
         if ins[i].Some? && OldID(ins, i) != "" then TableAfter(ins, uids)[OldID(ins, i) := uid] else TableAfter(ins, uids)
  {
    assert (uids + [uid])[..|uids|] == uids;
  }

  /** Gives one node its uid; idSeen counts the ids met so far. */
  method RenameNode(gen: UIDGenerator, n: GraphNode, ghost ins: Inputs, i: nat, idSeen: map<string, nat>)
    returns (uid: string, seen: map<string, nat>)
    requires gen.Valid() && i < |ins| && ins[i] == InputOf(n) && SeenTable(ins, idSeen, i)
    modifies gen, n
    ensures gen.Valid() && n.uid == uid && n.lbl == old(n.lbl)
    ensures gen.byKey == old(gen.byKey)[NodeKey(ins, i) := uid] && gen.used == old(gen.used) + {uid}
    ensures NameGiven(gen.baseOf, old(gen.byKey), old(gen.used), ins, i, uid)
    ensures SeenTable(ins, seen, i + 1)
  {
    var seed := Trim(n.uid);
    if seed == "" {
      seed := Trim(n.lbl);
    }
    if seed == "" {
      seed := "node-" + Decimal(i + 1);
    }
    var oldID := Trim(n.uid);
    seen := idSeen;
    SeenStep(ins, idSeen, i);
    var count: nat := 0;
    if oldID != "" {
      count := (if oldID in idSeen then idSeen[oldID] else 0) + 1;
      seen := idSeen[oldID := count];
    }
    KeyIsTrimmed(ins, i);
    uid := gen.GenerateForKey(KeyText(oldID, count, i, n.lbl), seed);
    n.uid := uid;
  }

  /** The first nodes carry their new uids and their old labels. */
  ghost predicate Renamed(nodes: seq<GraphNode?>, ins: Inputs, uids: seq<string>)
    requires |uids| <= |nodes| == |ins|
    reads nodes
  {
    forall j :: 0 <= j < |uids| && nodes[j] != null ==>
      nodes[j].uid == uids[j] && ins[j].Some? && nodes[j].lbl == ins[j].value.lbl
  }

  /** The first nodes got these uids from a generator that had byKey and used at the start. */
  ghost predicate GivenBy(gen: UIDGenerator, byKey: map<string, string>, used: set<string>, ins: Inputs, uids: seq<string>, table: map<string, string>)
    requires |uids| <= |ins|
    reads gen
  {
    && gen.Valid() && NamesGiven(gen.baseOf, byKey, used, ins, uids)
    && gen.byKey == KeysAfter(byKey, ins, uids) && gen.used == UsedAfter(used, ins, uids)
    && table == TableAfter(ins, uids)
  }

  /** One turn of the loop over the nodes. */
  method RenameAt(gen: UIDGenerator, n: GraphNode, ghost byKey: map<string, string>, ghost used: set<string>,
                  ghost ins: Inputs, i: nat, ghost uids: seq<string>, oldToNew: map<string, string>, idSeen: map<string, nat>)
    returns (uid: string, table: map<string, string>, seen: map<string, nat>)
    requires i == |uids| < |ins| && ins[i] == InputOf(n) && SeenTable(ins, idSeen, i)
    requires GivenBy(gen, byKey, used, ins, uids, oldToNew)
    modifies gen, n
    ensures n.uid == uid && n.lbl == old(n.lbl) && SeenTable(ins, seen, i + 1)
    ensures GivenBy(gen, byKey, used, ins, uids + [uid], table)
  {
    var oldID := Trim(n.uid);
    table := oldToNew;
    uid, seen := RenameNode(gen, n, ins, i, idSeen);
    OneMoreName(gen.baseOf, byKey, used, ins, uids, uid);
    if oldID != "" {
      table := oldToNew[oldID := uid];
    }
  }

  /** An absent node gets no name. */
  lemma NoNameGiven(gen: UIDGenerator, byKey: map<string, string>, used: set<string>, ins: Inputs, uids: seq<string>, table: map<string, string>)
    requires |uids| < |ins| && ins[|uids|].None? && GivenBy(gen, byKey, used, ins, uids, table)
    ensures GivenBy(gen, byKey, used, ins, uids + [""], table)
  {
    OneMoreName(gen.baseOf, byKey, used, ins, uids, "");
  }

  /** The nodes from position i on are as they were. */
  ghost predicate Untouched(nodes: seq<GraphNode?>, ins: Inputs, i: nat)
    requires |ins| == |nodes|
    reads nodes
  {
    forall j :: i <= j < |nodes| ==> ins[j] == InputOf(nodes[j])
  }

  /** One turn of the loop over the nodes, for a node that is there. */
  method RenameTurn(gen: UIDGenerator, nodes: seq<GraphNode?>, i: nat, ghost byKey: map<string, string>, ghost used: set<string>,
                    ghost ins: Inputs, ghost uids: seq<string>, oldToNew: map<string, string>, idSeen: map<string, nat>)
    returns (uid: string, table: map<string, string>, seen: map<string, nat>)
    requires i == |uids| < |nodes| == |ins| && nodes[i] != null && SeenTable(ins, idSeen, i)
    requires Untouched(nodes, ins, i) && Renamed(nodes, ins, uids)
    requires forall j, k :: 0 <= j < k < |nodes| && nodes[j] != null ==> nodes[j] != nodes[k]
    requires GivenBy(gen, byKey, used, ins, uids, oldToNew)
    modifies gen, nodes[i]
    ensures Untouched(nodes, ins, i + 1) && Renamed(nodes, ins, uids + [uid])
    ensures GivenBy(gen, byKey, used, ins, uids + [uid], table) && SeenTable(ins, seen, i + 1)
  {
    uid, table, seen := RenameAt(gen, nodes[i], byKey, used, ins, i, uids, oldToNew, idSeen);
  }

  /** Assigns every node its generated uid; yields the table from old ids to new uids. */
  method RenameNodes(gen: UIDGenerator, nodes: seq<GraphNode?>, ghost ins: Inputs)
    returns (oldToNew: map<string, string>, ghost uids: seq<string>)
    requires gen.Valid()
    requires |ins| == |nodes| && Untouched(nodes, ins, 0)
    requires forall i, j :: 0 <= i < j < |nodes| && nodes[i] != null ==> nodes[i] != nodes[j]
    modifies gen, nodes
    ensures |uids| == |nodes| && Renamed(nodes, ins, uids)
    ensures GivenBy(gen, old(gen.byKey), old(gen.used), ins, uids, oldToNew)
  {
    oldToNew, uids := map[], [];
    var idSeen: map<string, nat> := map[];
    ghost var byKey, used := gen.byKey, gen.used;
    for i := 0 to |nodes|
      invariant |uids| == i && Untouched(nodes, ins, i) && Renamed(nodes, ins, uids)
      invariant SeenTable(ins, idSeen, i) && GivenBy(gen, byKey, used, ins, uids, oldToNew)
    {
      if nodes[i] == null {
        SeenStep(ins, idSeen, i);
        NoNameGiven(gen, byKey, used, ins, uids, oldToNew);
        uids := uids + [""];
      } else {
        var uid;
        uid, oldToNew, idSeen := RenameTurn(gen, nodes, i, byKey, used, ins, uids, oldToNew, idSeen);
        uids := uids + [uid];
      }
    }
  }

  /** Edge ends that name an old id follow it to the new one; all others stay. */
  function Follow(oldToNew: map<string, string>, id: string): string {
    if id in oldToNew then oldToNew[id] else id
  }

  method RenameEdges(oldToNew: map<string, string>, edges: seq<GraphEdge?>)
    requires forall i, j :: 0 <= i < j < |edges| && edges[i] != null ==> edges[i] != edges[j]
    modifies edges
    ensures forall i :: 0 <= i < |edges| && edges[i] != null ==>
      edges[i].from == Follow(oldToNew, old(edges[i].from)) && edges[i].to == Follow(oldToNew, old(edges[i].to))
  {
    for i := 0 to |edges|
      invariant forall j :: 0 <= j < i && edges[j] != null ==>
        edges[j].from == Follow(oldToNew, old(edges[j].from)) && edges[j].to == Follow(oldToNew, old(edges[j].to))
      invariant forall j :: i <= j < |edges| && edges[j] != null ==>
        edges[j].from == old(edges[j].from) && edges[j].to == old(edges[j].to)
    {
      var e := edges[i];
      if e != null {
        if e.from in oldToNew {
          e.from := oldToNew[e.from];
        }
        if e.to in oldToNew {
          e.to := oldToNew[e.to];
        }
      }
    }
  }

  // ---------- what the renaming achieves ----------

  /** A generator's names: distinct keys have distinct uids. */
  ghost predicate Injective(byKey: map<string, string>) {
    forall k, l :: k in byKey && l in byKey && byKey[k] == byKey[l] ==> k == l
  }

  /** The generator remembers the name of every node. */
  lemma {:induction false} NameKept(baseOf: string -> string, byKey: map<string, string>, used: set<string>, ins: Inputs, uids: seq<string>, i: nat)
    requires |uids| <= |ins| && NamesGiven(baseOf, byKey, used, ins, uids) && i < |uids| && ins[i].Some?
    ensures NodeKey(ins, i) in KeysAfter(byKey, ins, uids) && KeysAfter(byKey, ins, uids)[NodeKey(ins, i)] == uids[i]
    decreases |uids|
  {
    var n := |uids| - 1;
    if i < n {
      NameKept(baseOf, byKey, used, ins, uids[..n], i);
    }
  }

  /** A node whose key the generator knew keeps the name that it had for it. */
  lemma {:induction false} KnownNameRepeated(baseOf: string -> string, byKey: map<string, string>, used: set<string>, ins: Inputs, uids: seq<string>, key: string)
    requires |uids| <= |ins| && NamesGiven(baseOf, byKey, used, ins, uids) && key in byKey
    ensures key in KeysAfter(byKey, ins, uids) && KeysAfter(byKey, ins, uids)[key] == byKey[key]
    decreases |uids|
  {
    if uids != [] {
      KnownNameRepeated(baseOf, byKey, used, ins, uids[..|uids| - 1], key);
    }
  }

  lemma {:induction false} KeysAre(byKey: map<string, string>, ins: Inputs, uids: seq<string>, key: string)
    requires |uids| <= |ins|
    ensures key in KeysAfter(byKey, ins, uids) <==>
            key in byKey || exists k :: 0 <= k < |uids| && ins[k].Some? && NodeKey(ins, k) == key
    decreases |uids|
  {
    if uids != [] {
      KeysAre(byKey, ins, uids[..|uids| - 1], key);
    }
  }

  lemma {:induction false} UsedAre(used: set<string>, ins: Inputs, uids: seq<string>, u: string)
    requires |uids| <= |ins|
    ensures u in UsedAfter(used, ins, uids) <==> u in used || exists k :: 0 <= k < |uids| && ins[k].Some? && uids[k] == u
    decreases |uids|
  {
    if uids != [] {
      UsedAre(used, ins, uids[..|uids| - 1], u);
    }
  }

  lemma {:induction false} NameGivenAt(baseOf: string -> string, byKey: map<string, string>, used: set<string>, ins: Inputs, uids: seq<string>, i: nat)
    requires |uids| <= |ins| && NamesGiven(baseOf, byKey, used, ins, uids) && i < |uids| && ins[i].Some?
    ensures NameGiven(baseOf, KeysAfter(byKey, ins, uids[..i]), UsedAfter(used, ins, uids[..i]), ins, i, uids[i])
    decreases |uids|
  {
    var n := |uids| - 1;
    if i < n {
      NameGivenAt(baseOf, byKey, used, ins, uids[..n], i);
      assert uids[..n][..i] == uids[..i];
    }
  }

  /** Node i is the first one with its key, and the key was not known before. */
  ghost predicate KeyIsNew(byKey: map<string, string>, ins: Inputs, i: nat)
    requires i < |ins| && ins[i].Some?
  {
    NodeKey(ins, i) !in byKey && forall k :: 0 <= k < i && ins[k].Some? ==> NodeKey(ins, k) != NodeKey(ins, i)
  }

  /** The uid was taken at the start or by an earlier node. */
  ghost predicate Taken(used: set<string>, ins: Inputs, uids: seq<string>, i: nat, u: string)
    requires i <= |uids| <= |ins|
  {
    u in used || exists k :: 0 <= k < i && ins[k].Some? && uids[k] == u
  }

  lemma {:induction false} TakenAre(used: set<string>, ins: Inputs, uids: seq<string>, i: nat, u: string)
    requires i <= |uids| <= |ins|
    ensures u in UsedAfter(used, ins, uids[..i]) <==> Taken(used, ins, uids, i, u)
  {
    UsedAre(used, ins, uids[..i], u);
    assert forall k :: 0 <= k < i ==> uids[..i][k] == uids[k];
  }

  /** What a name is made from: a node with a new key gets the base name of its trimmed uid, else of
      its trimmed label, else of "node-" and its position counted from one; if that base name is
      taken it gets a number. A new name was never taken before. */
  lemma {:induction false} NewNamesMean(baseOf: string -> string, byKey: map<string, string>, used: set<string>, ins: Inputs, uids: seq<string>, i: nat)
    requires |uids| == |ins| && NamesGiven(baseOf, byKey, used, ins, uids)
    requires i < |ins| && ins[i].Some? && KeyIsNew(byKey, ins, i)
    ensures !Taken(used, ins, uids, i, uids[i])
    ensures var id, lbl := Trim(ins[i].value.uid), Trim(ins[i].value.lbl);
      var base := baseOf(if id != "" then id else if lbl != "" then lbl else "node-" + Decimal(i + 1));
      if Taken(used, ins, uids, i, base) then exists n: nat :: n >= 2 && uids[i] == base + "-" + Decimal(n)
      else uids[i] == base
  {
    NameGivenAt(baseOf, byKey, used, ins, uids, i);
    KeysAre(byKey, ins, uids[..i], NodeKey(ins, i));
    TakenAre(used, ins, uids, i, uids[i]);
    TakenAre(used, ins, uids, i, baseOf(SeedOf(ins[i].value, i)));
  }

  /** The table holds, for each non-blank id among the first nodes, the name of the last such node. */
  ghost predicate TableFor(ins: Inputs, uids: seq<string>, table: map<string, string>)
    requires |uids| <= |ins|
  {
    forall id: string {:trigger id in table} ::
      && (id in table <==> id != "" && LastWith(ins, id, |uids|).Some?)
      && (id in table ==> table[id] == uids[LastWith(ins, id, |uids|).value])
  }

  lemma {:induction false} TableIs(ins: Inputs, uids: seq<string>)
    requires |uids| <= |ins|
    ensures TableFor(ins, uids, TableAfter(ins, uids))
    decreases |uids|
  {
    if uids != [] {
      TableIs(ins, uids[..|uids| - 1]);
    }
  }

  /** No later node has the id. */
  lemma {:induction false} LastIsLast(ins: Inputs, id: string, k: nat, i: nat)
    requires i < k <= |ins| && ins[i].Some? && OldID(ins, i) == id
    ensures LastWith(ins, id, k).Some? && i <= LastWith(ins, id, k).value
    decreases k
  {
    if i < k - 1 {
      LastIsLast(ins, id, k - 1, i);
    }
  }

  /** Names are stable: a node whose key the generator knows gets the name that it had before. */
  lemma {:induction false} NamesAreStable(baseOf: string -> string, byKey: map<string, string>, used: set<string>, ins: Inputs, uids: seq<string>, i: nat)
    requires |uids| == |ins| && NamesGiven(baseOf, byKey, used, ins, uids)
    requires i < |ins| && ins[i].Some? && NodeKey(ins, i) in byKey
    ensures uids[i] == byKey[NodeKey(ins, i)]
  {
    NameKept(baseOf, byKey, used, ins, uids, i);
    KnownNameRepeated(baseOf, byKey, used, ins, uids, NodeKey(ins, i));
  }

  /** Two nodes get the same uid exactly when their keys are the same, so the renaming is
      injective exactly when no id reads like the numbered form of a repeated one. */
  lemma {:induction false} RenamingInjectiveExactly(baseOf: string -> string, byKey: map<string, string>, used: set<string>, ins: Inputs, uids: seq<string>)
    requires |uids| == |ins| && NamesGiven(baseOf, byKey, used, ins, uids) && Injective(KeysAfter(byKey, ins, uids))
    ensures (forall i, j :: 0 <= i < j < |ins| && ins[i].Some? && ins[j].Some? ==> uids[i] != uids[j]) <==> NoNumberedClash(ins)
  {
    DistinctKeysExactly(ins);
    forall i, j | 0 <= i < j < |ins| && ins[i].Some? && ins[j].Some?
      ensures uids[i] == uids[j] <==> NodeKey(ins, i) == NodeKey(ins, j)
    {
      NameKept(baseOf, byKey, used, ins, uids, i);
      NameKept(baseOf, byKey, used, ins, uids, j);
    }
  }

  /** Renames nodes and edges; the new uids are pairwise different exactly when no id reads like
      the numbered form of a repeated one. */
  method AssignGraphNodeUIDs(gen: UIDGenerator, nodes: seq<GraphNode?>, edges: seq<GraphEdge?>, ghost ins: Inputs)
    returns (oldToNew: map<string, string>, ghost uids: seq<string>)
    requires gen.Valid()
    requires |ins| == |nodes| && forall i :: 0 <= i < |nodes| ==> ins[i] == InputOf(nodes[i])
    requires forall i, j :: 0 <= i < j < |nodes| && nodes[i] != null ==> nodes[i] != nodes[j]
    requires forall i, j :: 0 <= i < j < |edges| && edges[i] != null ==> edges[i] != edges[j]
    modifies gen, nodes, edges
    ensures |uids| == |nodes| && Renamed(nodes, ins, uids)
    ensures GivenBy(gen, old(gen.byKey), old(gen.used), ins, uids, oldToNew) && TableFor(ins, uids, oldToNew)
    ensures (forall i, j :: 0 <= i < j < |nodes| && nodes[i] != null && nodes[j] != null ==> nodes[i].uid != nodes[j].uid)
            <==> NoNumberedClash(ins)
    ensures forall i :: 0 <= i < |edges| && edges[i] != null && nodes != [] ==>
      edges[i].from == Follow(oldToNew, old(edges[i].from)) && edges[i].to == Follow(oldToNew, old(edges[i].to))
  {
    if |nodes| == 0 {
      return map[], [];
    }
    oldToNew, uids := RenameNodes(gen, nodes, ins);
    TableIs(ins, uids);
    RenamingInjectiveExactly(gen.baseOf, old(gen.byKey), old(gen.used), ins, uids);
    RenameEdges(oldToNew, edges);
  }

  lemma {:induction false} OnlyHolder(ins: Inputs, i: nat)
    requires DistinctIDs(ins) && i < |ins| && ins[i].Some? && OldID(ins, i) != ""
    ensures LastWith(ins, OldID(ins, i), |ins|) == Some(i)
  {
    var r := LastWith(ins, OldID(ins, i), |ins|);
    assert r.Some? && OldID(ins, r.value) == OldID(ins, i);
  }

  /** An edge end changes only if it is, without blanks around it, the id of some node. */
  lemma {:induction false} EdgeEndsWithoutNodeStay(ins: Inputs, uids: seq<string>, oldToNew: map<string, string>, end: string)
    requires |uids| == |ins| && TableFor(ins, uids, oldToNew)
    ensures !Trimmed(end) || end == "" || (forall i :: 0 <= i < |ins| && ins[i].Some? ==> OldID(ins, i) != end) ==>
      Follow(oldToNew, end) == end
  {
    if end in oldToNew {
      var r := LastWith(ins, end, |ins|);
      assert OldID(ins, r.value) == end;
      TrimIsTrimmed(ins[r.value].value.uid);
    }
  }

  /** With distinct ids an edge end that is the id of node i is carried to the new name of node i;
      an edge end that repeats a uid with blanks around it stays as it is. */
  lemma {:induction false} EdgesFollowNodes(ins: Inputs, uids: seq<string>, oldToNew: map<string, string>, i: nat)
    requires |uids| == |ins| && TableFor(ins, uids, oldToNew) && DistinctIDs(ins)
    requires i < |ins| && ins[i].Some? && OldID(ins, i) != ""
    ensures Follow(oldToNew, OldID(ins, i)) == uids[i]
    ensures Follow(oldToNew, ins[i].value.uid) == if Trimmed(ins[i].value.uid) then uids[i] else ins[i].value.uid
  {
    OnlyHolder(ins, i);
    assert OldID(ins, i) in oldToNew;
    TrimIsTrimmed(ins[i].value.uid);
    EdgeEndsWithoutNodeStay(ins, uids, oldToNew, ins[i].value.uid);
  }
}
