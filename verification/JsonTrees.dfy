/** JSON objects as maps that are rewritten in place, and Apply on them. What the heap looks like
    is tracked by two ghost maps: `shape` holds the fields of each object, `values` the JSON value
    that each object stands for. */
module JsonTrees {
  import opened Options
  import opened Json
  import opened Text
  import opened DottedPaths
  import opened Delta
  import opened DeltaApply

  /** What a member holds: a value that is not an object, or an object. */
  datatype Cell = Leaf(value: Json) | Ref(node: ObjectNode)

  class ObjectNode {
    var fields: map<string, Cell>

    constructor ()
      ensures fields == map[]
    {
      fields := map[];
    }
  }

  type Shape = map<ObjectNode, map<string, Cell>>
  type Values = map<ObjectNode, Json>

  // ---------- shapes and values ----------

  ghost predicate Snapshot(shape: Shape)
    reads shape.Keys
  {
    forall n :: n in shape ==> n.fields == shape[n]
  }

  predicate IsCell(c: Cell, values: Values) {
    match c
    case Leaf(v) => !v.Obj?
    case Ref(n) => n in values
  }

  function ValueOf(c: Cell, values: Values): Json
    requires IsCell(c, values)
  {
    match c
    case Leaf(v) => v
    case Ref(n) => values[n]
  }

  /** An object with these fields stands for v. */
  ghost predicate Means(fields: map<string, Cell>, values: Values, v: Json) {
    && v.Obj? && v.fields.Keys == fields.Keys
    && forall k :: k in fields ==> IsCell(fields[k], values) && v.fields[k] == ValueOf(fields[k], values)
  }

  ghost predicate Holds(shape: Shape, n: ObjectNode, k: string, m: ObjectNode) {
    n in shape && k in shape[n] && shape[n][k] == Ref(m)
  }

  /** No object is a member of two objects, or twice of one. */
  ghost predicate Unshared(shape: Shape) {
    forall n, k, m, l, c :: n in shape && m in shape && c in shape && Holds(shape, n, k, c) && Holds(shape, m, l, c)
      ==> n == m && k == l
  }

  /** The object is not a member of any other. */
  ghost predicate Top(shape: Shape, c: ObjectNode) {
    c in shape && forall n, k :: n in shape ==> !Holds(shape, n, k, c)
  }

  /** The objects form trees that stand for the values. */
  ghost predicate Forest(shape: Shape, values: Values) {
    && shape.Keys == values.Keys && Unshared(shape)
    && forall n :: n in shape ==> Means(shape[n], values, values[n])
  }

  // ---------- what the walk does to the heap ----------

  function WithMember(shape: Shape, n: ObjectNode, k: string, c: Cell): Shape
    requires n in shape
  {
    shape[n := shape[n][k := c]]
  }

  function WithoutMember(shape: Shape, n: ObjectNode, k: string): Shape
    requires n in shape
  {
    shape[n := shape[n] - {k}]
  }

  predicate CellIn(c: Cell, shape: Shape) {
    match c
    case Leaf(v) => !v.Obj?
    case Ref(n) => n in shape
  }

  /** Every member is in the picture. Objects may be shared, and may even form cycles. */
  ghost predicate Whole(shape: Shape) {
    forall n, k :: n in shape && k in shape[n] ==> CellIn(shape[n][k], shape)
  }

  predicate HoldsObject(shape: Shape, n: ObjectNode, k: string) {
    n in shape && k in shape[n] && shape[n][k].Ref?
  }

  /** From n the walk goes to c under k: the object there, or else a new one. */
  predicate CanEnter(shape: Shape, n: ObjectNode, k: string, c: ObjectNode) {
    n in shape && if HoldsObject(shape, n, k) then shape[n][k] == Ref(c) else c !in shape
  }

  function AfterEnter(shape: Shape, n: ObjectNode, k: string, c: ObjectNode): Shape
    requires n in shape
  {
    if HoldsObject(shape, n, k) then shape else WithMember(shape, n, k, Ref(c))[c := map[]]
  }

  function AfterStore(shape: Shape, n: ObjectNode, k: string, value: Cell): Shape
    requires n in shape
  {
    if value == Leaf(Null) then WithoutMember(shape, n, k) else WithMember(shape, n, k, value)
  }

  /** Assigning value at the keys below n turns shape into end, whatever is shared. */
  ghost predicate Rewrites(shape: Shape, n: ObjectNode, keys: KeyPath, value: Cell, end: Shape)
    decreases keys
  {
    if keys == [] then end == shape
    else if |keys| == 1 then n in shape && end == AfterStore(shape, n, keys[0], value)
    else exists c :: (c in end && CanEnter(shape, n, keys[0], c) &&
                      Rewrites(AfterEnter(shape, n, keys[0], c), c, keys[1..], value, end))
  }

  /** The walk has come along `path`; shapes[j] is the heap when it stood at path[j]. */
  ghost predicate Walked(shapes: seq<Shape>, path: seq<ObjectNode>, keys: KeyPath) {
    && 0 < |path| == |shapes| <= |keys|
    && (forall j :: 0 <= j < |path| ==> path[j] in shapes[j])
    && forall j :: 0 <= j < |path| - 1 ==>
         CanEnter(shapes[j], path[j], keys[j], path[j + 1]) && shapes[j + 1] == AfterEnter(shapes[j], path[j], keys[j], path[j + 1])
  }

  /** The walk stands at current, and the heap looks like shape. */
  ghost predicate Arrived(start: Shape, root: ObjectNode, shapes: seq<Shape>, path: seq<ObjectNode>, keys: KeyPath,
                          i: nat, current: ObjectNode, shape: Shape) {
    && Walked(shapes, path, keys) && |path| == i + 1
    && shapes[0] == start && path[0] == root && shapes[i] == shape && path[i] == current
  }

  lemma ArrivedNext(start: Shape, root: ObjectNode, shapes: seq<Shape>, path: seq<ObjectNode>, keys: KeyPath,
                    i: nat, current: ObjectNode, shape: Shape, c: ObjectNode)
    requires Arrived(start, root, shapes, path, keys, i, current, shape) && i + 1 < |keys|
    requires CanEnter(shape, current, keys[i], c) && c in AfterEnter(shape, current, keys[i], c)
    ensures Arrived(start, root, shapes + [AfterEnter(shape, current, keys[i], c)], path + [c], keys,
                    i + 1, c, AfterEnter(shape, current, keys[i], c))
  {
  }

  lemma {:induction false} WalkedRewrites(shapes: seq<Shape>, path: seq<ObjectNode>, keys: KeyPath, value: Cell, end: Shape)
    requires Walked(shapes, path, keys) && |path| == |keys|
    requires end == AfterStore(shapes[|path| - 1], path[|path| - 1], keys[|path| - 1], value)
    ensures shapes[0].Keys <= end.Keys && Rewrites(shapes[0], path[0], keys, value, end)
    decreases |path|
  {
    if |path| > 1 {
      WalkedRewrites(shapes[1..], path[1..], keys[1..], value, end);
      assert path[1] in end && CanEnter(shapes[0], path[0], keys[0], path[1]);
      assert Rewrites(AfterEnter(shapes[0], path[0], keys[0], path[1]), path[1], keys[1..], value, end);
    }
  }

  /** Goes to the object under k, which is made if there is none. */
  method Enter(current: ObjectNode, k: string, ghost shape: Shape) returns (child: ObjectNode, ghost shape': Shape)
    requires Snapshot(shape) && Whole(shape) && current in shape
    modifies current
    ensures CanEnter(shape, current, k, child) && shape' == AfterEnter(shape, current, k, child)
    ensures Snapshot(shape') && Whole(shape') && child in shape' && fresh(shape'.Keys - shape.Keys)
  {
    if k in current.fields && current.fields[k].Ref? {
      child := current.fields[k].node;
    } else {
      child := new ObjectNode();
      current.fields := current.fields[k := Ref(child)];
    }
    shape' := AfterEnter(shape, current, k, child);
  }

  /** Stores the last member, or removes it if the value is null. */
  method Store(current: ObjectNode, k: string, value: Cell, ghost shape: Shape) returns (ghost shape': Shape)
    requires Snapshot(shape) && Whole(shape) && current in shape && CellIn(value, shape)
    modifies current
    ensures shape' == AfterStore(shape, current, k, value)
    ensures Snapshot(shape') && Whole(shape')
  {
    if value == Leaf(Null) {
      current.fields := current.fields - {k};
    } else {
      current.fields := current.fields[k := value];
    }
    shape' := AfterStore(shape, current, k, value);
  }

  /** The walk along the keys, making objects where there are none. */
  method SetKeys(root: ObjectNode, keys: KeyPath, value: Cell, ghost shape: Shape) returns (ghost shape': Shape)
    requires Snapshot(shape) && Whole(shape) && root in shape && CellIn(value, shape)
    modifies shape.Keys
    ensures Rewrites(shape, root, keys, value, shape')
    ensures Snapshot(shape') && Whole(shape') && shape.Keys <= shape'.Keys && fresh(shape'.Keys - shape.Keys)
  {
    shape' := shape;
    if keys == [] {
      return;
    }
    var current := root;
    ghost var shapes, path := [shape], [root];
    for i := 0 to |keys|
      invariant i < |keys| && Arrived(shape, root, shapes, path, keys, i, current, shape')
      invariant Snapshot(shape') && Whole(shape') && shape.Keys <= shape'.Keys && fresh(shape'.Keys - shape.Keys)
    {
      var k := keys[i];
      if i == |keys| - 1 {
        shape' := Store(current, k, value, shape');
        WalkedRewrites(shapes, path, keys, value, shape');
        return;
      }
      ghost var n, before := current, shape';
      current, shape' := Enter(current, k, shape');
      ArrivedNext(shape, root, shapes, path, keys, i, n, before, current);
      shapes, path := shapes + [shape'], path + [current];
    }
  }

  // ---------- what Apply does to the heap ----------

  /** A modification whose new value is live: it becomes part of the tree that it is stored in. */
  datatype LiveMod = LiveMod(field: string, before: Json, after: Cell)

  datatype Outcome = Done(cell: Cell) | Refused | OutsideModel

  /** Assigning value at the target in cur has outcome r and turns shape into end. */
  ghost predicate Assigned(shape: Shape, cur: Cell, target: Target, value: Cell, r: Outcome, end: Shape) {
    match target
    case Root => r == Done(value) && end == shape
    case Unreadable => r == Refused && end == shape
    case WithIndex => r == OutsideModel && end == shape
    case Below(keys) =>
      if cur.Leaf? then r == (if keys == [] then Done(cur) else Refused) && end == shape
      else r == Done(cur) && Rewrites(shape, cur.node, keys, value, end)
  }

  /** One turn of the loop of Apply. */
  ghost predicate Turn(shape: Shape, cur: Cell, mod: LiveMod, read: IndexReader, r: Outcome, end: Shape) {
    Assigned(shape, cur, TargetOf(mod.field, read), mod.after, r, end)
  }

  /** One turn for each modification up to where the lists end: cells[j] is the value and
      shapes[j] the heap before modification j. */
  ghost predicate TurnsSoFar(mods: seq<LiveMod>, read: IndexReader, cells: seq<Cell>, shapes: seq<Shape>) {
    && 0 < |cells| == |shapes| <= |mods| + 1
    && forall j :: 0 <= j < |cells| - 1 ==> Turn(shapes[j], cells[j], mods[j], read, Done(cells[j + 1]), shapes[j + 1])
  }

  /** A whole run of Apply: through all modifications, or up to one that fails. */
  ghost predicate Turns(mods: seq<LiveMod>, read: IndexReader, r: Outcome, cells: seq<Cell>, shapes: seq<Shape>) {
    && TurnsSoFar(mods, read, cells, shapes)
    && var n := |cells| - 1;
       if r.Done? then n == |mods| && r.cell == cells[n]
       else n < |mods| && Turn(shapes[n], cells[n], mods[n], read, r, shapes[n])
  }

  /** Parses the field and assigns below the root, in place. */
  method SetJSONValue(root: Cell, field: string, value: Cell, read: IndexReader, ghost shape: Shape)
    returns (r: Outcome, ghost shape': Shape)
    requires Snapshot(shape) && Whole(shape) && CellIn(root, shape) && CellIn(value, shape)
    modifies shape.Keys
    ensures Assigned(shape, root, Pointed(PathTokens(field, read)), value, r, shape')
    ensures Snapshot(shape') && Whole(shape') && shape.Keys <= shape'.Keys && fresh(shape'.Keys - shape.Keys)
  {
    shape' := shape;
    var parsed := ParsePathTokens(field, read);
    if parsed.BadPath? {
      return Refused, shape';
    }
    var keys := KeysOf(parsed.tokens);
    if keys.None? {
      return OutsideModel, shape';
    }
    if root.Leaf? {
      r := if keys.value == [] then Done(root) else Refused;
      return;
    }
    shape' := SetKeys(root.node, keys.value, value, shape);
    r := Done(root);
  }

  /** One modification. */
  method ApplyOne(cur: Cell, mod: LiveMod, read: IndexReader, ghost shape: Shape) returns (r: Outcome, ghost shape': Shape)
    requires Snapshot(shape) && Whole(shape) && CellIn(cur, shape) && CellIn(mod.after, shape)
    modifies shape.Keys
    ensures Turn(shape, cur, mod, read, r, shape') && (!r.Done? ==> shape' == shape)
    ensures Snapshot(shape') && Whole(shape') && shape.Keys <= shape'.Keys && fresh(shape'.Keys - shape.Keys)
    ensures r.Done? ==> CellIn(r.cell, shape')
  {
    shape' := shape;
    var field := Trim(mod.field);
    if field == "" || field == "$" {
      r := Done(mod.after);
    } else {
      r, shape' := SetJSONValue(cur, field, mod.after, read, shape);
    }
  }

  /** The loop of Apply is about to apply modification i to cur on the heap now. */
  ghost predicate AtTurn(mods: seq<LiveMod>, read: IndexReader, cells: seq<Cell>, shapes: seq<Shape>,
                         root: Cell, shape: Shape, i: nat, cur: Cell, now: Shape) {
    && TurnsSoFar(mods, read, cells, shapes) && |cells| == i + 1
    && cells[0] == root && shapes[0] == shape && cells[i] == cur && shapes[i] == now
  }

  lemma NextTurn(mods: seq<LiveMod>, read: IndexReader, cells: seq<Cell>, shapes: seq<Shape>,
                 root: Cell, shape: Shape, i: nat, cur: Cell, now: Shape, c: Cell, end: Shape)
    requires AtTurn(mods, read, cells, shapes, root, shape, i, cur, now) && i < |mods|
    requires Turn(now, cur, mods[i], read, Done(c), end)
    ensures AtTurn(mods, read, cells + [c], shapes + [end], root, shape, i + 1, c, end)
  {
  }

  lemma LastTurn(mods: seq<LiveMod>, read: IndexReader, cells: seq<Cell>, shapes: seq<Shape>,
                 root: Cell, shape: Shape, i: nat, cur: Cell, now: Shape, r: Outcome)
    requires AtTurn(mods, read, cells, shapes, root, shape, i, cur, now)
    requires if r.Done? then i == |mods| && r.cell == cur else i < |mods| && Turn(now, cur, mods[i], read, r, now)
    ensures Turns(mods, read, r, cells, shapes)
    ensures cells[0] == root && shapes[0] == shape && shapes[|shapes| - 1] == now
  {
  }

  /** Replays the modifications in order. The ghost results are the values and heaps on the way. */
  method Apply(root: Cell, mods: seq<LiveMod>, read: IndexReader, ghost shape: Shape)
    returns (r: Outcome, ghost cells: seq<Cell>, ghost shapes: seq<Shape>)
    requires Snapshot(shape) && Whole(shape) && CellIn(root, shape)
    requires forall i :: 0 <= i < |mods| ==> CellIn(mods[i].after, shape)
    modifies shape.Keys
    ensures Turns(mods, read, r, cells, shapes) && cells[0] == root && shapes[0] == shape
    ensures Snapshot(shapes[|shapes| - 1]) && Whole(shapes[|shapes| - 1]) && fresh(shapes[|shapes| - 1].Keys - shape.Keys)
  {
    var cur := root;
    ghost var now := shape;
    cells, shapes := [root], [shape];
    for i := 0 to |mods|
      invariant AtTurn(mods, read, cells, shapes, root, shape, i, cur, now)
      invariant Snapshot(now) && Whole(now) && shape.Keys <= now.Keys && fresh(now.Keys - shape.Keys) && CellIn(cur, now)
    {
      ghost var was, before := cur, now;
      r, now := ApplyOne(cur, mods[i], read, now);
      if !r.Done? {
        LastTurn(mods, read, cells, shapes, root, shape, i, was, before, r);
        return;
      }
      cur := r.cell;
      NextTurn(mods, read, cells, shapes, root, shape, i, was, before, cur, now);
      cells, shapes := cells + [cur], shapes + [now];
    }
    r := Done(cur);
    LastTurn(mods, read, cells, shapes, root, shape, |mods|, cur, now, r);
  }

  // ---------- walking down ----------

  /** The cursor stands at `current`, which stands for `now`; `values` already holds what each
      object will stand for once `current` has its new value. */
  ghost predicate Descending(shape: Shape, values: Values, current: ObjectNode, now: Json) {
    && shape.Keys == values.Keys && Unshared(shape)
    && current in shape && Means(shape[current], values, now)
    && (forall n :: n in shape && n != current ==> Means(shape[n], values, values[n]))
    && forall k :: !Holds(shape, current, k, current)
  }

  /** `current` gets the value `now` with the member k replaced by `below`. */
  ghost predicate WillHold(values: Values, current: ObjectNode, now: Json, k: string, below: Json) {
    now.Obj? && current in values && values[current] == Obj(now.fields[k := below])
  }

  lemma SameMeaning(fields: map<string, Cell>, values: Values, c: ObjectNode, x: Json, v: Json)
    requires Means(fields, values, v)
    requires forall k :: k in fields ==> fields[k] != Ref(c)
    ensures Means(fields, values[c := x], v)
  {
  }

  /** Starting at the top of a tree. */
  lemma StartAt(shape: Shape, values: Values, root: ObjectNode, target: Json)
    requires Forest(shape, values) && Top(shape, root)
    ensures Descending(shape, values[root := target], root, values[root])
  {
    forall n | n in shape
      ensures Means(shape[n], values[root := target], values[n])
    {
      forall k | k in shape[n]
        ensures shape[n][k] != Ref(root)
      {
        assert !Holds(shape, n, k, root);
      }
      SameMeaning(shape[n], values, root, target, values[n]);
    }
  }

  /** Going on to a member that is an object. */
  lemma EnterMember(shape: Shape, values: Values, current: ObjectNode, now: Json, k: string, c: ObjectNode, below: Json)
    requires Descending(shape, values, current, now) && Holds(shape, current, k, c)
    requires WillHold(values, current, now, k, below)
    ensures Descending(shape, values[c := below], c, now.fields[k])
  {
    var later := values[c := below];
    assert c != current;
    forall n | n in shape && n != c
      ensures Means(shape[n], later, later[n])
    {
      if n == current {
        forall l | l in shape[n] && l != k
          ensures shape[n][l] != Ref(c)
        {
          assert !Holds(shape, n, l, c);
        }
      } else {
        forall l | l in shape[n]
          ensures shape[n][l] != Ref(c)
        {
          assert !Holds(shape, n, l, c);
        }
        SameMeaning(shape[n], values, c, below, values[n]);
      }
    }
    forall l
      ensures !Holds(shape, c, l, c)
    {
    }
    forall l | l in shape[c]
      ensures shape[c][l] != Ref(c)
    {
      assert !Holds(shape, c, l, c);
    }
    SameMeaning(shape[c], values, c, below, values[c]);
  }

  lemma HeldAreThere(shape: Shape, values: Values, current: ObjectNode, now: Json)
    requires Descending(shape, values, current, now)
    ensures forall n, k, c :: Holds(shape, n, k, c) ==> c in shape
  {
    forall n, k, c | Holds(shape, n, k, c)
      ensures c in shape
    {
      assert Means(shape[n], values, if n == current then now else values[n]);
      assert IsCell(shape[n][k], values);
    }
  }

  lemma NewIsUnshared(shape: Shape, current: ObjectNode, k: string, c: ObjectNode)
    requires Unshared(shape) && current in shape && c !in shape
    requires forall n, l, d :: Holds(shape, n, l, d) ==> d in shape
    ensures Unshared(WithMember(shape, current, k, Ref(c))[c := map[]])
  {
    var after := WithMember(shape, current, k, Ref(c))[c := map[]];
    forall n, l, d | Holds(after, n, l, d)
      ensures if d == c then n == current && l == k else d in shape && Holds(shape, n, l, d)
    {
      assert n in shape;
      assert !(n == current && l == k) ==> Holds(shape, n, l, d);
    }
  }

  lemma NewMeaning(fields: map<string, Cell>, values: Values, c: ObjectNode, x: Json, v: Json, k: string)
    requires Means(fields, values, v) && c !in values
    ensures Means(fields, values[c := x], v)
    ensures Means(fields[k := Ref(c)], values[c := x], Obj(v.fields[k := x]))
  {
    forall l | l in fields
      ensures fields[l] != Ref(c)
    {
      assert IsCell(fields[l], values);
    }
  }

  lemma NewMeanings(shape: Shape, values: Values, current: ObjectNode, now: Json, k: string, c: ObjectNode, below: Json)
    requires Descending(shape, values, current, now) && c !in shape
    requires WillHold(values, current, now, k, below)
    ensures var after, later := WithMember(shape, current, k, Ref(c))[c := map[]], values[c := below];
      forall n :: n in shape ==> Means(after[n], later, later[n])
  {
    var after, later := WithMember(shape, current, k, Ref(c))[c := map[]], values[c := below];
    forall n | n in shape
      ensures Means(after[n], later, later[n])
    {
      NewMeaning(shape[n], values, c, below, if n == current then now else values[n], k);
    }
  }

  /** Going on to a new, empty object that replaces whatever was there. */
  lemma EnterNew(shape: Shape, values: Values, current: ObjectNode, now: Json, k: string, c: ObjectNode, below: Json)
    requires Descending(shape, values, current, now) && c !in shape
    requires WillHold(values, current, now, k, below)
    ensures Descending(WithMember(shape, current, k, Ref(c))[c := map[]], values[c := below], c, Obj(map[]))
  {
    HeldAreThere(shape, values, current, now);
    NewIsUnshared(shape, current, k, c);
    NewMeanings(shape, values, current, now, k, c, below);
    var after, later := WithMember(shape, current, k, Ref(c))[c := map[]], values[c := below];
    assert after.Keys == later.Keys == shape.Keys + {c};
    assert after[c] == map[];
  }

  /** Storing the last member. */
  lemma StoreMember(shape: Shape, values: Values, current: ObjectNode, now: Json, k: string, c: Cell)
    requires Descending(shape, values, current, now) && IsCell(c, values)
    requires WillHold(values, current, now, k, ValueOf(c, values))
    requires c.Ref? ==> Top(shape, c.node) && c.node != current
    ensures Forest(WithMember(shape, current, k, c), values)
  {
    var after := WithMember(shape, current, k, c);
    forall n, l, d
      ensures Holds(after, n, l, d) <==> if n == current && l == k then c == Ref(d) else Holds(shape, n, l, d)
    {
    }
    assert Means(after[current], values, values[current]);
  }

  /** Removing the last member. */
  lemma RemoveMember(shape: Shape, values: Values, current: ObjectNode, now: Json, k: string)
    requires Descending(shape, values, current, now) && values[current] == Obj(now.fields - {k})
    ensures Forest(WithoutMember(shape, current, k), values)
  {
    var after := WithoutMember(shape, current, k);
    forall n, l, d
      ensures Holds(after, n, l, d) <==> !(n == current && l == k) && Holds(shape, n, l, d)
    {
    }
    assert Means(after[current], values, values[current]);
  }

  // ---------- assigning in a forest ----------

  /** The tops of `shape` are still tops and stand for the same values, except those in `but`. */
  ghost predicate TopsKept(shape: Shape, values: Values, shape': Shape, values': Values, but: set<ObjectNode>)
    requires shape.Keys == values.Keys && shape'.Keys == values'.Keys
  {
    forall n :: n in shape && Top(shape, n) && n !in but ==> Top(shape', n) && values'[n] == values[n]
  }

  lemma TopsStay(shape: Shape, current: ObjectNode, k: string, c: ObjectNode)
    requires CanEnter(shape, current, k, c)
    ensures forall n :: n in shape && Top(shape, n) ==> Top(AfterEnter(shape, current, k, c), n) && n != c
  {
    var after := AfterEnter(shape, current, k, c);
    forall n | n in shape && Top(shape, n)
      ensures Top(after, n) && n != c
    {
      assert !Holds(shape, current, k, n);
      forall m, l
        ensures !Holds(after, m, l, n)
      {
        assert !Holds(shape, m, l, n);
      }
    }
  }

  /** What may become a member below `root`: a plain value, or another tree. */
  ghost predicate Insertable(c: Cell, root: ObjectNode, shape: Shape) {
    match c
    case Leaf(v) => !v.Obj?
    case Ref(n) => Top(shape, n) && n != root
  }

  function Trees(c: Cell): set<ObjectNode> {
    if c.Ref? then {c.node} else {}
  }

  lemma TopsStayBut(shape: Shape, current: ObjectNode, k: string, c: Cell)
    requires current in shape
    ensures forall n :: n in shape && Top(shape, n) && n !in Trees(c) ==> Top(AfterStore(shape, current, k, c), n)
  {
    forall n, m, l | n in shape && Top(shape, n) && n !in Trees(c)
      ensures !Holds(AfterStore(shape, current, k, c), m, l, n)
    {
      assert !Holds(shape, m, l, n);
    }
  }

  lemma RestOfWalk(now: Json, rest: KeyPath, v: Json)
    requires now.Obj? && |rest| > 1
    ensures SetAt(ChildAt(now.fields, rest[0]), rest[1..], v).Some?
    ensures SetAt(now, rest, v) == Some(Obj(now.fields[rest[0] := SetAt(ChildAt(now.fields, rest[0]), rest[1..], v).value]))
  {
    SetAtHead(now, rest, v);
    SetAtHead(ChildAt(now.fields, rest[0]), rest[1..], v);
  }

  /** One step of the walk, whether the object under k was there or not. */
  lemma EnterForest(shape: Shape, values: Values, current: ObjectNode, now: Json, k: string, c: ObjectNode, below: Json)
    requires Descending(shape, values, current, now) && CanEnter(shape, current, k, c)
    requires WillHold(values, current, now, k, below)
    ensures Descending(AfterEnter(shape, current, k, c), values[c := below], c, ChildAt(now.fields, k))
  {
    if HoldsObject(shape, current, k) {
      EnterMember(shape, values, current, now, k, c, below);
    } else {
      EnterNew(shape, values, current, now, k, c, below);
    }
  }

  /** The end of the walk. */
  lemma StoreForest(shape: Shape, values: Values, current: ObjectNode, now: Json, k: string, value: Cell)
    requires Descending(shape, values, current, now) && Insertable(value, current, shape)
    requires SetAt(now, [k], ValueOf(value, values)) == Some(values[current])
    ensures Forest(AfterStore(shape, current, k, value), values)
    ensures TopsKept(shape, values, AfterStore(shape, current, k, value), values, Trees(value))
  {
    if value == Leaf(Null) {
      RemoveMember(shape, values, current, now, k);
    } else {
      StoreMember(shape, values, current, now, k, value);
    }
    TopsStayBut(shape, current, k, value);
  }

  /** One step of the walk, with what is still to be assigned. */
  lemma WalkStep(shape: Shape, values: Values, current: ObjectNode, now: Json, keys: KeyPath, value: Cell, c: ObjectNode)
    returns (later: Values)
    requires |keys| > 1 && Descending(shape, values, current, now) && Insertable(value, current, shape)
    requires CanEnter(shape, current, keys[0], c)
    requires SetAt(now, keys, ValueOf(value, values)) == Some(values[current])
    ensures var after := AfterEnter(shape, current, keys[0], c);
      && Descending(after, later, c, ChildAt(now.fields, keys[0])) && Insertable(value, c, after)
      && SetAt(ChildAt(now.fields, keys[0]), keys[1..], ValueOf(value, later)) == Some(later[c])
      && TopsKept(shape, values, after, later, {})
  {
    RestOfWalk(now, keys, ValueOf(value, values));
    var below := SetAt(ChildAt(now.fields, keys[0]), keys[1..], ValueOf(value, values)).value;
    EnterForest(shape, values, current, now, keys[0], c, below);
    TopsStay(shape, current, keys[0], c);
    later := values[c := below];
  }

  /** The walk gives every object on its way the value that it is about to stand for. */
  lemma {:induction false} WalkAssigns(shape: Shape, values: Values, current: ObjectNode, now: Json, keys: KeyPath, value: Cell, end: Shape)
    returns (values': Values)
    requires keys != [] && Rewrites(shape, current, keys, value, end)
    requires Descending(shape, values, current, now) && Insertable(value, current, shape)
    requires SetAt(now, keys, ValueOf(value, values)) == Some(values[current])
    ensures Forest(end, values')
    ensures TopsKept(shape, values, end, values', Trees(value))
    decreases keys
  {
    var k := keys[0];
    if |keys| == 1 {
      assert keys == [k];
      StoreForest(shape, values, current, now, k, value);
      values' := values;
    } else {
      var c :| c in end && CanEnter(shape, current, k, c) &&
        Rewrites(AfterEnter(shape, current, k, c), c, keys[1..], value, end);
      var later := WalkStep(shape, values, current, now, keys, value, c);
      values' := WalkAssigns(AfterEnter(shape, current, k, c), later, c, ChildAt(now.fields, k), keys[1..], value, end);
    }
  }

  /** Assigning below the top of a tree gives that tree the assigned value and no other tree
      another one. */
  lemma {:induction false} RewritesAssign(shape: Shape, values: Values, root: ObjectNode, keys: KeyPath, value: Cell, end: Shape)
    returns (values': Values)
    requires Forest(shape, values) && Top(shape, root) && Insertable(value, root, shape)
    requires Rewrites(shape, root, keys, value, end)
    ensures Forest(end, values') && Top(end, root)
    ensures SetAt(values[root], keys, ValueOf(value, values)) == Some(values'[root])
    ensures TopsKept(shape, values, end, values', {root} + Trees(value))
  {
    if keys == [] {
      values' := values;
    } else {
      SetAtHead(values[root], keys, ValueOf(value, values));
      var target := SetAt(values[root], keys, ValueOf(value, values)).value;
      StartAt(shape, values, root, target);
      values' := WalkAssigns(shape, values[root := target], root, values[root], keys, value, end);
    }
  }

  // ---------- Apply on a forest ----------

  ghost predicate IsTree(c: Cell, shape: Shape) {
    match c
    case Leaf(v) => !v.Obj?
    case Ref(n) => Top(shape, n)
  }

  ghost function Meant(mod: LiveMod, values: Values): Mod
    requires IsCell(mod.after, values)
  {
    Mod(mod.field, mod.before, ValueOf(mod.after, values))
  }

  /** The outcome is what applying on values gives. */
  ghost predicate Agrees(o: Outcome, values: Values, a: Applied) {
    match a
    case Value(v) => o.Done? && IsCell(o.cell, values) && ValueOf(o.cell, values) == v
    case Failed => o == Refused
    case IndexUsed => o == OutsideModel
  }

  /** One turn does to the values what applying the modification to values does. */
  lemma TurnAgrees(shape: Shape, values: Values, cur: Cell, mod: LiveMod, read: IndexReader, r: Outcome, end: Shape)
    returns (values': Values)
    requires Forest(shape, values) && IsTree(cur, shape) && IsTree(mod.after, shape) && Trees(cur) !! Trees(mod.after)
    requires Turn(shape, cur, mod, read, r, end)
    ensures Forest(end, values') && TopsKept(shape, values, end, values', Trees(cur) + Trees(mod.after))
    ensures Agrees(r, values', ApplyMod(ValueOf(cur, values), Meant(mod, values), read))
    ensures r.Done? ==> IsTree(r.cell, end) && r.cell == if TargetOf(mod.field, read).Root? then mod.after else cur
  {
    var target := TargetOf(mod.field, read);
    if target.Below? && cur.Ref? {
      values' := RewritesAssign(shape, values, cur.node, target.keys, mod.after, end);
    } else {
      values' := values;
    }
  }

  /** The modifications bring trees of their own, apart from each other and from the root. */
  ghost predicate Apart(cur: Cell, mods: seq<LiveMod>, shape: Shape) {
    && IsTree(cur, shape)
    && (forall i :: 0 <= i < |mods| ==> IsTree(mods[i].after, shape) && Trees(cur) !! Trees(mods[i].after))
    && forall i, j :: 0 <= i < j < |mods| ==> Trees(mods[i].after) !! Trees(mods[j].after)
  }

  ghost function MeantAll(mods: seq<LiveMod>, values: Values): seq<Mod>
    requires forall i :: 0 <= i < |mods| ==> IsCell(mods[i].after, values)
  {
    seq(|mods|, i requires 0 <= i < |mods| => Meant(mods[i], values))
  }

  lemma KeptTree(shape: Shape, values: Values, shape': Shape, values': Values, but: set<ObjectNode>, c: Cell)
    requires shape.Keys == values.Keys && shape'.Keys == values'.Keys
    requires TopsKept(shape, values, shape', values', but) && IsTree(c, shape) && Trees(c) !! but
    ensures IsTree(c, shape') && ValueOf(c, values') == ValueOf(c, values)
  {
  }

  lemma KeptTrees(cur: Cell, mods: seq<LiveMod>, shape: Shape, values: Values, shape': Shape, values': Values, but: set<ObjectNode>)
    requires shape.Keys == values.Keys && shape'.Keys == values'.Keys && mods != [] && Apart(cur, mods, shape)
    requires TopsKept(shape, values, shape', values', but) && but == Trees(cur) + Trees(mods[0].after)
    ensures forall i :: 1 <= i < |mods| ==> IsTree(mods[i].after, shape') && Trees(mods[i].after) !! but
    ensures forall i :: 1 <= i < |mods| ==> ValueOf(mods[i].after, values') == ValueOf(mods[i].after, values)
  {
    forall i | 1 <= i < |mods|
      ensures IsTree(mods[i].after, shape') && Trees(mods[i].after) !! but
      ensures ValueOf(mods[i].after, values') == ValueOf(mods[i].after, values)
    {
      assert Trees(mods[0].after) !! Trees(mods[i].after);
      KeptTree(shape, values, shape', values', but, mods[i].after);
    }
  }

  lemma RestApart(cur: Cell, mods: seq<LiveMod>, shape: Shape, values: Values, next: Cell, shape': Shape, values': Values)
    requires Forest(shape, values) && Forest(shape', values') && mods != [] && Apart(cur, mods, shape)
    requires TopsKept(shape, values, shape', values', Trees(cur) + Trees(mods[0].after))
    requires IsTree(next, shape') && Trees(next) <= Trees(cur) + Trees(mods[0].after)
    ensures Apart(next, mods[1..], shape') && MeantAll(mods[1..], values') == MeantAll(mods, values)[1..]
  {
    KeptTrees(cur, mods, shape, values, shape', values', Trees(cur) + Trees(mods[0].after));
  }

  /** A modification of the listed ones replaces the whole value. */
  predicate ReplacesRoot(mods: seq<LiveMod>, read: IndexReader) {
    mods != [] && (TargetOf(mods[0].field, read).Root? || ReplacesRoot(mods[1..], read))
  }

  lemma RestOfMods(cur: Json, mods: seq<LiveMod>, values: Values, read: IndexReader)
    requires forall i :: 0 <= i < |mods| ==> IsCell(mods[i].after, values)
    requires mods != []
    ensures ApplyMods(cur, MeantAll(mods, values), read) ==
      match ApplyMod(cur, Meant(mods[0], values), read)
      case Value(next) => ApplyMods(next, MeantAll(mods, values)[1..], read)
      case Failed => Failed
      case IndexUsed => IndexUsed
  {
  }

  lemma TailTurns(mods: seq<LiveMod>, read: IndexReader, cells: seq<Cell>, shapes: seq<Shape>)
    requires TurnsSoFar(mods, read, cells, shapes) && |cells| > 1
    ensures TurnsSoFar(mods[1..], read, cells[1..], shapes[1..])
  {
    forall j | 0 <= j < |cells| - 2
      ensures Turn(shapes[1..][j], cells[1..][j], mods[1..][j], read, Done(cells[1..][j + 1]), shapes[1..][j + 1])
    {
      assert Turn(shapes[j + 1], cells[j + 1], mods[j + 1], read, Done(cells[j + 2]), shapes[j + 2]);
    }
  }

  lemma FirstTurn(mods: seq<LiveMod>, read: IndexReader, r: Outcome, cells: seq<Cell>, shapes: seq<Shape>)
    requires Turns(mods, read, r, cells, shapes) && mods != []
    ensures |cells| == 1 ==> !r.Done? && Turn(shapes[0], cells[0], mods[0], read, r, shapes[0])
    ensures |cells| > 1 ==> && Turn(shapes[0], cells[0], mods[0], read, Done(cells[1]), shapes[1])
                            && Turns(mods[1..], read, r, cells[1..], shapes[1..])
  {
    if |cells| > 1 {
      TailTurns(mods, read, cells, shapes);
    }
  }

  /** The first turn, if it succeeds, leaves the same to be done on values. */
  lemma FirstTurnAgrees(mods: seq<LiveMod>, read: IndexReader, cur: Cell, shape: Shape, next: Cell, end: Shape, values: Values)
    returns (later: Values)
    requires mods != [] && Turn(shape, cur, mods[0], read, Done(next), end)
    requires Forest(shape, values) && Apart(cur, mods, shape)
    ensures Forest(end, later) && Apart(next, mods[1..], end)
    ensures ApplyMods(ValueOf(cur, values), MeantAll(mods, values), read) ==
            ApplyMods(ValueOf(next, later), MeantAll(mods[1..], later), read)
  {
    RestOfMods(ValueOf(cur, values), mods, values, read);
    later := TurnAgrees(shape, values, cur, mods[0], read, Done(next), end);
    RestApart(cur, mods, shape, values, next, end, later);
  }

  /** A turn that fails makes applying to values fail, too. */
  lemma FailedTurnAgrees(mods: seq<LiveMod>, read: IndexReader, cur: Cell, shape: Shape, r: Outcome, values: Values)
    requires mods != [] && Turn(shape, cur, mods[0], read, r, shape) && !r.Done?
    requires Forest(shape, values) && Apart(cur, mods, shape)
    ensures Agrees(r, values, ApplyMods(ValueOf(cur, values), MeantAll(mods, values), read))
  {
    RestOfMods(ValueOf(cur, values), mods, values, read);
    var later := TurnAgrees(shape, values, cur, mods[0], read, r, shape);
  }

  /** When the modifications bring trees of their own, Apply in place gives what applying them to
      values gives. */
  lemma {:induction false} ApplyAgrees(mods: seq<LiveMod>, read: IndexReader, r: Outcome, cells: seq<Cell>, shapes: seq<Shape>, values: Values)
    returns (values': Values)
    requires Turns(mods, read, r, cells, shapes)
    requires Forest(shapes[0], values) && Apart(cells[0], mods, shapes[0])
    ensures Forest(shapes[|shapes| - 1], values')
    ensures Agrees(r, values', ApplyMods(ValueOf(cells[0], values), MeantAll(mods, values), read))
    ensures r.Done? ==> IsTree(r.cell, shapes[|shapes| - 1])
    decreases mods
  {
    values' := values;
    if mods != [] {
      FirstTurn(mods, read, r, cells, shapes);
      if |cells| == 1 {
        FailedTurnAgrees(mods, read, cells[0], shapes[0], r, values);
      } else {
        values' := FirstTurnAgrees(mods, read, cells[0], shapes[0], cells[1], shapes[1], values);
        values' := ApplyAgrees(mods[1..], read, r, cells[1..], shapes[1..], values');
      }
    }
  }

  /** Unless a modification replaces the whole value, the result is the root itself, rewritten. */
  lemma {:induction false} RootIsKept(mods: seq<LiveMod>, read: IndexReader, r: Outcome, cells: seq<Cell>, shapes: seq<Shape>)
    requires Turns(mods, read, r, cells, shapes) && r.Done?
    ensures r.cell == cells[0] || ReplacesRoot(mods, read)
    decreases mods
  {
    if mods != [] {
      FirstTurn(mods, read, r, cells, shapes);
      RootIsKept(mods[1..], read, r, cells[1..], shapes[1..]);
    }
  }

  /** A forest can be rewritten. */
  lemma ForestIsWhole(shape: Shape, values: Values)
    requires Forest(shape, values)
    ensures Whole(shape) && forall c: Cell :: IsTree(c, shape) ==> CellIn(c, shape)
  {
  }

  // ---------- objects that are shared ----------

  /** The root and its member a, an object x whose only member p is true. */
  function SharedShape(root: ObjectNode, x: ObjectNode, a: string, p: string): Shape {
    map[root := map[a := Ref(x)], x := map[p := Leaf(Bool(true))]]
  }

  lemma FirstRewrite(root: ObjectNode, x: ObjectNode, a: string, p: string, v: Cell, end: Shape)
    requires root != x && Rewrites(SharedShape(root, x, a, p), root, [a, p], v, end) && v != Leaf(Null)
    ensures end == map[root := map[a := Ref(x)], x := map[p := v]]
  {
    var shape := SharedShape(root, x, a, p);
    assert [a, p][1..] == [p];
    var n :| n in end && CanEnter(shape, root, a, n) && Rewrites(AfterEnter(shape, root, a, n), n, [p], v, end);
    assert n == x && AfterEnter(shape, root, a, n) == shape;
    assert shape[x][p := v] == map[p := v];
  }

  lemma SecondRewrite(shape: Shape, root: ObjectNode, x: ObjectNode, a: string, c: string, end: Shape)
    requires root in shape && shape[root] == map[a := Ref(x)] && Rewrites(shape, root, [c], Ref(x), end)
    ensures end == shape[root := map[a := Ref(x), c := Ref(x)]]
  {
    assert shape[root][c := Ref(x)] == map[a := Ref(x), c := Ref(x)];
  }

  lemma SetMember(fields: map<string, Json>, k: string, v: Json)
    requires v != Null
    ensures SetAt(Obj(fields), [k], v) == Some(Obj(fields[k := v]))
  {
  }

  lemma SetInMember(a: string, p: string, was: Json, now: Json)
    requires was.Obj? && SetAt(was, [p], Bool(false)) == Some(now)
    ensures SetAt(Obj(map[a := was]), [a, p], Bool(false)) == Some(Obj(map[a := now]))
  {
    assert [a, p][1..] == [p];
    assert map[a := was][a := now] == map[a := now];
  }

  /** p below a becomes false, then c becomes x, which a has: in place both members are now the
      changed object. */
  lemma SharingInPlace(root: ObjectNode, x: ObjectNode, a: string, p: string, c: string, middle: Shape, end: Shape)
    requires root != x && a != c
    requires Rewrites(SharedShape(root, x, a, p), root, [a, p], Leaf(Bool(false)), middle)
    requires Rewrites(middle, root, [c], Ref(x), end)
    ensures end == map[root := map[a := Ref(x), c := Ref(x)], x := map[p := Leaf(Bool(false))]]
  {
    FirstRewrite(root, x, a, p, Leaf(Bool(false)), middle);
    SecondRewrite(middle, root, x, a, c, end);
  }

  /** The same two assignments on values: c keeps what x stood for at first. */
  lemma SharingOnValues(a: string, p: string, c: string)
    requires a != c
    ensures var was, now := Obj(map[p := Bool(true)]), Obj(map[p := Bool(false)]);
      && SetAt(Obj(map[a := was]), [a, p], Bool(false)) == Some(Obj(map[a := now]))
      && SetAt(Obj(map[a := now]), [c], was) == Some(Obj(map[a := now, c := was]))
  {
    var was, now := Obj(map[p := Bool(true)]), Obj(map[p := Bool(false)]);
    SetMember(was.fields, p, Bool(false));
    assert was.fields[p := Bool(false)] == now.fields;
    SetInMember(a, p, was, now);
    SetMember(map[a := now], c, was);
    assert map[a := now][c := was] == map[a := now, c := was];
  }
}
