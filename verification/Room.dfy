/**
 * Updates that change objects within the lists that are there: the diff mode compares all it writes,
 * so nothing is rewritten that is there already.
 */
module Room {
  import opened Outcomes
  import opened Schemas
  import opened Tables
  import opened Upsert
  import opened Trace
  import opened Evolution
  import opened Keeps
  import opened Reuse
  import opened Descriptions
  import opened Storage
  import opened Writes
  import opened Parting
  import opened Lengths

  // ---- Room in the lists --------------------------------------------------------------------------

  /** The row an update of the described object finds. */
  function RowOf(c: Config, db: Db, n: Node): Option<nat> {
    RowBefore(c, db, n.t, n.v, true)
  }

  /** Each described object whose lists describe others is there already, with lists as long. */
  ghost predicate HasRoom(c: Config, db: Db, N: set<Node>, upd: bool) {
    forall n, i: nat :: n in N && (Primary(c, n.t).None? || NodeId(c, n).Some?) && Needs(c, n, i) > 0 ==>
      upd && RowOf(c, db, n).Some? && Long(db, Loc(n.t, RowOf(c, db, n).value, i), Needs(c, n, i))
  }

  /** Nor do several descriptions of one object: none takes away what another needs. */
  ghost predicate Consistent(c: Config, N: set<Node>) {
    forall n, m, i: nat ::
      n in N && m in N && NodeId(c, n).Some? && NodeId(c, n) == NodeId(c, m) && Needs(c, n, i) > 0 ==>
        Leaves(c, m, i, Needs(c, n, i))
  }

  // ---- Room stays ---------------------------------------------------------------------------------

  /** The row an update finds stays the one it finds. */
  lemma RowOfStays(c: Config, K: set<Id>, W: set<Loc>, db: Db, db': Db, n: Node)
    requires ValidConfig(c) && Evolves(c, false, K, W, db, db') && RowOf(c, db, n).Some?
    ensures RowOf(c, db', n) == RowOf(c, db, n)
  {
    var p, r := Primary(c, n.t).value, RowOf(c, db, n).value;
    assert n.t < |c.schema| && p < |Props(c, n.t)| && !Prop(c, n.t, p).isArray;
    forall k: nat | k <= r ensures CellAt(db', n.t, k, p) == CellAt(db, n.t, k, p) {
      assert InRange(db, n.t, k, p) && InRange(db', n.t, k, p);
      assert RowId(c, db', n.t, k) == RowId(c, db, n.t, k);
      assert CellOk(db, Prop(c, n.t, p), CellAt(db, n.t, k, p)) && CellOk(db', Prop(c, n.t, p), CellAt(db', n.t, k, p));
    }
  }

  /** What `HasRoom` says of one list. */
  lemma RoomIsLong(c: Config, db: Db, N: set<Node>, n: Node, i: nat)
    requires ValidConfig(c) && Sound(c, db) && HasRoom(c, db, N, true)
    requires n in N && NodeId(c, n).Some? && Needs(c, n, i) > 0
    ensures RowOf(c, db, n).Some? && NodeId(c, n).value.Keyed?
    ensures LongFor(c, db, NodeId(c, n).value, Loc(n.t, RowOf(c, db, n).value, i), Needs(c, n, i))
  {
    var r := RowOf(c, db, n).value;
    assert RowId(c, db, n.t, r) == NodeId(c, n).value;
  }

  lemma RoomOfNone(c: Config, a: Db, b: Db, N: set<Node>)
    requires HasRoom(c, a, N, false)
    ensures HasRoom(c, b, N, false)
  {}

  /** No description of the object needs its lists to be long. */
  ghost predicate Undemanding(c: Config, N: set<Node>, id: Id) {
    forall n, i: nat :: n in N && NodeId(c, n) == Some(id) ==> Needs(c, n, i) == 0
  }

  /** Room stays where rows keep their keys and each list stays long. */
  lemma RoomStays(c: Config, N: set<Node>, W: set<Loc>, db: Db, db': Db, upd: bool)
    requires ValidConfig(c) && Sound(c, db) && HasRoom(c, db, N, upd) && (upd ==> Evolves(c, false, {}, W, db, db'))
    requires upd ==> forall n, i: nat :: n in N && NodeId(c, n).Some? && Needs(c, n, i) > 0 ==>
               RowOf(c, db, n).Some? && LongFor(c, db', NodeId(c, n).value, Loc(n.t, RowOf(c, db, n).value, i),
                                                Needs(c, n, i))
    ensures HasRoom(c, db', N, upd)
  {
    hide Needs, RowOf, Evolves;
    if upd {
      forall n, i: nat | n in N && (Primary(c, n.t).None? || NodeId(c, n).Some?) && Needs(c, n, i) > 0
        ensures RowOf(c, db', n).Some? && Long(db', Loc(n.t, RowOf(c, db', n).value, i), Needs(c, n, i))
      {
        FoundHasKey(c, db, n);
        RowOfStays(c, {}, W, db, db', n);
      }
    } else {
      RoomOfNone(c, db, db', N);
    }
  }

  lemma FoundHasKey(c: Config, db: Db, n: Node)
    ensures RowOf(c, db, n).Some? ==> NodeId(c, n).Some?
  {}

  lemma LocateKeepsRoom(c: Config, N: set<Node>, db: Db, t: nat, v: Value, upd: bool, cur: Option<nat>)
    requires ValidConfig(c) && Sound(c, db) && t < |c.schema| && (cur.Some? ==> cur.value < NumRows(db, t))
    requires HasRoom(c, db, N, upd)
    ensures var at := Locate(c, db, t, v, upd, true, cur);
      && HasRoom(c, at.db, N, upd)
      && (upd && at.res.Ok? ==>
            && (Primary(c, t).Some? ==> RowOf(c, at.db, Node(t, v)) == Some(at.res.value.row))
            && (at.res.value.created ==> Undemanding(c, N, RowId(c, at.db, t, at.res.value.row))))
  {
    hide Needs, Long;
    var at := Locate(c, db, t, v, upd, true, cur);
    if upd {
      LocateEvolves(c, false, {Everything}, {}, db, t, v, true, true, cur);
      forall n, i: nat | n in N && NodeId(c, n).Some? && Needs(c, n, i) > 0
        ensures RowOf(c, db, n).Some? &&
                LongFor(c, at.db, NodeId(c, n).value, Loc(n.t, RowOf(c, db, n).value, i), Needs(c, n, i))
      {
        RoomIsLong(c, db, N, n, i);
        LongStays(c, {Everything}, {}, db, at.db, NodeId(c, n).value, Loc(n.t, RowOf(c, db, n).value, i),
                  Needs(c, n, i));
      }
      LocateEvolves(c, false, {}, {}, db, t, v, true, true, cur);
    }
    RoomStays(c, N, {}, db, at.db, upd);
    if upd && at.res.Ok? { NewIsUndemanding(c, N, db, t, v, cur); }
  }

  lemma NewIsUndemanding(c: Config, N: set<Node>, db: Db, t: nat, v: Value, cur: Option<nat>)
    requires ValidConfig(c) && Sound(c, db) && t < |c.schema| && (cur.Some? ==> cur.value < NumRows(db, t))
    requires HasRoom(c, db, N, true) && Locate(c, db, t, v, true, true, cur).res.Ok?
    ensures var at := Locate(c, db, t, v, true, true, cur);
      && (Primary(c, t).Some? ==> RowOf(c, at.db, Node(t, v)) == Some(at.res.value.row))
      && (at.res.value.created ==> Undemanding(c, N, RowId(c, at.db, t, at.res.value.row)))
  {
    var at := Locate(c, db, t, v, true, true, cur);
    LocateEvolves(c, false, {Everything}, {}, db, t, v, true, true, cur);
    if Primary(c, t).Some? {
      AppendCells(db, t, KeyedRow(Props(c, t), Primary(c, t).value, KeyOf(c, t, Primary(c, t).value, v).value));
    }
    if at.res.value.created {
      var id := RowId(c, at.db, t, at.res.value.row);
      forall n, i: nat | n in N && NodeId(c, n) == Some(id) ensures Needs(c, n, i) == 0 {
        assert Primary(c, t).Some? && n.t == t && RowOf(c, db, n) == RowOf(c, db, Node(t, v));
      }
    }
  }

  lemma ConsistentLeaves(c: Config, N: set<Node>, M: set<Node>, n: Node, i: nat)
    requires Consistent(c, N) && M <= N && n in N && NodeId(c, n).Some? && Needs(c, n, i) > 0
    ensures AllLeave(c, M, NodeId(c, n).value, i, Needs(c, n, i))
  {}

  /** What the run relies on while it populates a row. */
  ghost predicate Roomy(c: Config, N: set<Node>, db: Db, t: nat, place: Place, v: Value, upd: bool) {
    && v.Obj? && Nodes(c, t, v) <= N && HasRoom(c, db, N, upd) && Consistent(c, N)
    && (Primary(c, t).Some? ==> NodeId(c, Node(t, v)).Some?)
    && (upd ==>
          && Carries(c, db, Node(t, v), place.row)
          && (Primary(c, t).Some? ==> RowOf(c, db, Node(t, v)) == Some(place.row))
          && (place.created ==> Undemanding(c, N, RowId(c, db, t, place.row))))
  }

  /** Setting one property takes no room away. */
  lemma SetPropKeepsRoom(c: Config, N: set<Node>, K: set<Id>, db: Db, t: nat, place: Place, v: Value, upd: bool, i: nat)
    requires ValidConfig(c) && Sound(c, db) && t < |c.schema| && Roomy(c, N, db, t, place, v, upd)
    requires place.row < NumRows(db, t) && (place.skipPrimary || WritesKeys(c, upd))
    requires i < |Props(c, t)| && Choose(c, t, i, v, place).Write?
    requires var w, prop := Choose(c, t, i, v, place), Prop(c, t, i);
      Steady(c, K, db, t, place.row, upd, PropNodes(c, prop, w.x),
             StepsAt(c, db, t, place.row, i, w.x, upd, true, w.isDefault))
    ensures var w := Choose(c, t, i, v, place);
      var s := SetProp(c, db, t, place.row, i, w.x, upd, true, w.isDefault);
      s.res.Ok? ==> Roomy(c, N, s.db, t, place, v, upd)
  {
    hide Choose, Undemanding, SetProp, StepsAt, Needs, Consistent, HasRoom, Evolves, Nodes, Steady, LongFor, Long;
    var w := Choose(c, t, i, v, place);
    var s := SetProp(c, db, t, place.row, i, w.x, upd, true, w.isDefault);
    WriteIsWritable(c, db, t, place, v, upd, true, i);
    if upd && s.res.Ok? {
      RowIdStays(c, {}, {}, db, s.db, t, place.row);
      if Primary(c, t).Some? { RowOfStays(c, {}, {}, db, s.db, Node(t, v)); }
      forall n, j: nat | n in N && NodeId(c, n).Some? && Needs(c, n, j) > 0
        ensures RowOf(c, db, n).Some? &&
                LongFor(c, s.db, NodeId(c, n).value, Loc(n.t, RowOf(c, db, n).value, j), Needs(c, n, j))
      {
        ListKeepsRoom(c, N, K, db, t, place, v, i, n, j);
      }
    }
    if s.res.Ok? { RoomStays(c, N, {}, db, s.db, upd); }
  }

  lemma ListKeepsRoom(c: Config, N: set<Node>, K: set<Id>, db: Db, t: nat, place: Place, v: Value, i: nat, n: Node,
                      j: nat)
    requires ValidConfig(c) && Sound(c, db) && t < |c.schema| && Roomy(c, N, db, t, place, v, true)
    requires place.row < NumRows(db, t) && place.skipPrimary
    requires i < |Props(c, t)| && Choose(c, t, i, v, place).Write?
    requires var w, prop := Choose(c, t, i, v, place), Prop(c, t, i);
      Steady(c, K, db, t, place.row, true, PropNodes(c, prop, w.x),
             StepsAt(c, db, t, place.row, i, w.x, true, true, w.isDefault))
    requires n in N && NodeId(c, n).Some? && Needs(c, n, j) > 0
    ensures var w := Choose(c, t, i, v, place);
      var s := SetProp(c, db, t, place.row, i, w.x, true, true, w.isDefault);
      s.res.Ok? ==> RowOf(c, db, n).Some? &&
                    LongFor(c, s.db, NodeId(c, n).value, Loc(n.t, RowOf(c, db, n).value, j), Needs(c, n, j))
  {
    hide Choose, SetProp, StepsAt, Needs, Consistent, Steady, Nodes;
    var w, id := Choose(c, t, i, v, place), NodeId(c, n).value;
    RoomIsLong(c, db, N, n, j);
    var l := Loc(n.t, RowOf(c, db, n).value, j);
    ConsistentLeaves(c, N, Nodes(c, t, v), n, j);
    ChosenLeaves(c, t, place, v, i, id, j, Needs(c, n, j));
    WriteIsWritable(c, db, t, place, v, true, true, i);
    SetPropStaysLong(c, K, db, t, place.row, i, w.x, true, w.isDefault, id, l, Needs(c, n, j));
  }

  /** Nor does one element of a list. */
  lemma ElementKeepsRoom(c: Config, N: set<Node>, K: set<Id>, db: Db, t: nat, row: nat, p: nat, x: Value, upd: bool,
                         k: nat, sz: nat)
    requires Writable(c, db, t, row, p, upd) && Prop(c, t, p).isArray
    requires Steady(c, K, db, t, row, upd, ItemNodes(c, Prop(c, t, p), x), StepsBy(c, db, t, row, p, x, upd, k, sz))
    requires |ListAt(db, t, row, p)| == if k < sz then sz else k
    requires ItemNodes(c, Prop(c, t, p), x) <= N && HasRoom(c, db, N, upd) && Consistent(c, N)
    ensures var s := if k < sz then SetValue(c, db, t, row, p, k, x, upd) else AddValue(c, db, t, row, p, x, upd);
      s.res.Ok? ==> HasRoom(c, s.db, N, upd)
  {
    hide SetValue, AddValue, Needs, Consistent, HasRoom, Evolves, Steady, StepsBy, Writable, ItemNodes, LongFor, Sound;
    var s := if k < sz then SetValue(c, db, t, row, p, k, x, upd) else AddValue(c, db, t, row, p, x, upd);
    ElementIsWritable(c, db, t, row, p, x, upd, k, sz);
    if upd && s.res.Ok? {
      forall n, j: nat | n in N && NodeId(c, n).Some? && Needs(c, n, j) > 0
        ensures RowOf(c, db, n).Some? &&
                LongFor(c, s.db, NodeId(c, n).value, Loc(n.t, RowOf(c, db, n).value, j), Needs(c, n, j))
      {
        RoomIsLong(c, db, N, n, j);
        ConsistentLeaves(c, N, ItemNodes(c, Prop(c, t, p), x), n, j);
        var l := Loc(n.t, RowOf(c, db, n).value, j);
        ElementStaysLong(c, K, db, t, row, p, x, k, sz, NodeId(c, n).value, l, Needs(c, n, j));
      }
    }
    if s.res.Ok? { RoomStays(c, N, {}, db, s.db, upd); }
  }

  // ---- All is compared ----------------------------------------------------------------------------

  /** No list is given null, which clears it even if it is empty. */
  ghost predicate ClearsNothing(c: Config, N: set<Node>) {
    forall n, i: nat :: n in N && i < |Props(c, n.t)| && Prop(c, n.t, i).isArray && FieldOrDefault(c, n, i).Given? ==>
      !FieldOrDefault(c, n, i).v.Null?
  }

  /** Nothing is written without being compared; all that may happen is that an empty list is cleared. */
  ghost predicate Compared(c: Config, N: set<Node>, steps: seq<Step>) {
    forall s :: s in steps && s.Repeating? ==> Prop(c, s.t, s.p).isArray && !ClearsNothing(c, N)
  }

  lemma ComparedTogether(c: Config, N: set<Node>, a: seq<Step>, b: seq<Step>)
    ensures Compared(c, N, a) && Compared(c, N, b) ==> Compared(c, N, a + b)
  {}

  lemma NothingIsCompared(c: Config, N: set<Node>)
    ensures Compared(c, N, [])
  {}

  lemma CreateCompares(c: Config, N: set<Node>, db: Db, t: nat, v: Value, upd: bool, cur: Option<nat>)
    requires ValidConfig(c) && Sound(c, db) && t < |c.schema| && (cur.Some? ==> cur.value < NumRows(db, t))
    requires Orderly(c, upd, Nodes(c, t, v), Steps(c, db, t, v, upd, true, cur))
    requires Nodes(c, t, v) <= N && HasRoom(c, db, N, upd) && Consistent(c, N)
    ensures Compared(c, N, Steps(c, db, t, v, upd, true, cur))
    decreases Height(v), 2, 0
  {
    hide Orderly, HasRoom, Consistent, Undemanding, Needs, RowOf, ClearsNothing, StepsFrom, Steady, Sound, Evolves;
    var at := Locate(c, db, t, v, upd, true, cur);
    if c.inWrite && v.Obj? && at.res.Ok? {
      LocateKeepsRoom(c, N, db, t, v, upd, cur);
      LocatedIsSteady(c, db, t, v, upd, true, cur);
      if upd { UpdateIsSteady(c, db, t, v, true, cur); }
      assert Roomy(c, N, at.db, t, at.res.value, v, upd);
      PopulateCompares(c, N, Own(c, at.db, t, at.res.value.row, upd), at.db, t, at.res.value, v, upd, 0);
    }
  }

  lemma PopulateCompares(c: Config, N: set<Node>, K: set<Id>, db: Db, t: nat, place: Place, v: Value, upd: bool, i: nat)
    requires ValidConfig(c) && Sound(c, db) && t < |c.schema| && c.inWrite && Roomy(c, N, db, t, place, v, upd)
    requires place.row < NumRows(db, t) && (place.skipPrimary || WritesKeys(c, upd))
    requires Steady(c, K, db, t, place.row, upd, ChildNodes(c, t, v), StepsFrom(c, db, t, place, v, upd, true, i))
    ensures Compared(c, N, StepsFrom(c, db, t, place, v, upd, true, i))
    decreases Height(v), 1, |Props(c, t)| - i
  {
    hide Choose, HasRoom, Consistent, Undemanding, Needs, RowOf, ClearsNothing, Steady, StepsAt, SetProp, Nodes,
         ChildNodes, Evolves, Sound, Compared, ReachOf;
    NothingIsCompared(c, N);
    if i < |Props(c, t)| {
      match Choose(c, t, i, v, place)
      case Skip => PopulateCompares(c, N, K, db, t, place, v, upd, i + 1);
      case Fail(_) =>
      case Write(x, isDefault) =>
        var s, here := SetProp(c, db, t, place.row, i, x, upd, true, isDefault),
            StepsAt(c, db, t, place.row, i, x, upd, true, isDefault);
        var after := if s.res.Ok? then StepsFrom(c, s.db, t, place, v, upd, true, i + 1) else [];
        ChosenNodes(c, t, i, v, place);
        SteadySplit(c, K, db, t, place.row, upd, ChildNodes(c, t, v), PropNodes(c, Prop(c, t, i), x), here, after);
        WriteIsWritable(c, db, t, place, v, upd, true, i);
        ChosenHasRoom(c, N, db, t, place, v, upd, i);
        SetPropCompares(c, N, K, db, t, place.row, i, x, upd, isDefault);
        SetPropKeepsRoom(c, N, K, db, t, place, v, upd, i);
        if s.res.Ok? {
          SteadyOn(c, K, db, s.db, t, place.row, upd, ChildNodes(c, t, v), after);
          PopulateCompares(c, N, K, s.db, t, place, v, upd, i + 1);
        }
        ComparedTogether(c, N, here, after);
    }
  }

  /** A default describes no object. */
  lemma DefaultsReachNothing(prop: Property, x: Value)
    requires Height(x) == 0
    ensures ReachOf(prop, x) == 0
  {
    if x.Vals? && Reach(x.elems) > 0 {
      var y := x.elems[Reach(x.elems) - 1];
      assert y.Obj? && Height(y) <= ValuesHeight(x.elems);
    }
  }

  lemma ChosenHasRoom(c: Config, N: set<Node>, db: Db, t: nat, place: Place, v: Value, upd: bool, i: nat)
    requires Roomy(c, N, db, t, place, v, upd) && i < |Props(c, t)| && Choose(c, t, i, v, place).Write?
    ensures var x, prop := Choose(c, t, i, v, place).x, Prop(c, t, i);
      && PropNodes(c, prop, x) <= N && HasRoom(c, db, N, upd) && Consistent(c, N)
      && ReachOf(prop, x) <= |ListAt(db, t, place.row, i)|
      && (ClearsNothing(c, N) && prop.isArray ==> !x.Null?)
  {
    var w := Choose(c, t, i, v, place);
    ChosenNodes(c, t, i, v, place);
    NoFieldsNoChildren(c, t, v);
    assert Node(t, v) in Nodes(c, t, v) && FieldOrDefault(c, Node(t, v), i) == Given(w.x);
    if w.isDefault {
      DefaultsReachNothing(Prop(c, t, i), w.x);
    } else {
      assert ReachOf(Prop(c, t, i), w.x) == Needs(c, Node(t, v), i);
    }
  }

  lemma SetPropCompares(c: Config, N: set<Node>, K: set<Id>, db: Db, t: nat, row: nat, p: nat, x: Value, upd: bool,
                        isDefault: bool)
    requires Writable(c, db, t, row, p, upd) && c.inWrite
    requires Steady(c, K, db, t, row, upd, PropNodes(c, Prop(c, t, p), x),
                    StepsAt(c, db, t, row, p, x, upd, true, isDefault))
    requires PropNodes(c, Prop(c, t, p), x) <= N && HasRoom(c, db, N, upd) && Consistent(c, N)
    requires ReachOf(Prop(c, t, p), x) <= |ListAt(db, t, row, p)|
    requires ClearsNothing(c, N) && Prop(c, t, p).isArray ==> !x.Null?
    ensures Compared(c, N, StepsAt(c, db, t, row, p, x, upd, true, isDefault))
    decreases Height(x), 6, 0
  {
    hide HasRoom, Consistent, ClearsNothing, Steady, Writable, StepsIn, StepsAlong, UnboxItem, ReachOf;
    var prop, cur := Prop(c, t, p), LinkOf(CellAt(db, t, row, p));
    WritableCell(c, db, t, row, p, upd);
    if prop.nullable && x.Null? {
    } else if prop.isArray {
      if x.Vals? { LoopCompares(c, N, K, db, t, row, p, x, upd, 0, |ListAt(db, t, row, p)|); }
    } else if prop.base.Object? {
      var below := StepsIn(c, db, prop, x, upd, true, cur);
      SteadySplit(c, K, db, t, row, upd, PropNodes(c, prop, x), ItemNodes(c, prop, x), below,
                  StepsAt(c, db, t, row, p, x, upd, true, isDefault)[|below|..]);
      UnboxCompares(c, N, db, prop, x, upd, cur);
    }
  }

  lemma UnboxCompares(c: Config, N: set<Node>, db: Db, prop: Property, x: Value, upd: bool, cur: Option<nat>)
    requires ValidConfig(c) && Sound(c, db) && ValidProperty(c, prop)
    requires cur.Some? && prop.base.Object? ==> cur.value < NumRows(db, prop.target)
    requires Orderly(c, upd, ItemNodes(c, prop, x), StepsIn(c, db, prop, x, upd, true, cur))
    requires ItemNodes(c, prop, x) <= N && HasRoom(c, db, N, upd) && Consistent(c, N)
    ensures Compared(c, N, StepsIn(c, db, prop, x, upd, true, cur))
    decreases Height(x), 3, 0
  {
    hide HasRoom, Consistent, ClearsNothing, Compared, Orderly, Steps, Nodes;
    NothingIsCompared(c, N);
    if prop.base.Object? && !x.RowRef? { CreateCompares(c, N, db, prop.target, x, upd, cur); }
  }

  lemma LoopCompares(c: Config, N: set<Node>, K: set<Id>, db: Db, t: nat, row: nat, p: nat, x: Value, upd: bool,
                     k: nat, sz: nat)
    requires Writable(c, db, t, row, p, upd) && c.inWrite && Prop(c, t, p).isArray && x.Vals?
    requires Steady(c, K, db, t, row, upd, PropNodes(c, Prop(c, t, p), x),
                    StepsAlong(c, db, t, row, p, x.elems, upd, k, sz))
    requires |ListAt(db, t, row, p)| == if k < sz then sz else k
    requires PropNodes(c, Prop(c, t, p), x) <= N && HasRoom(c, db, N, upd) && Consistent(c, N)
    requires ReachOf(Prop(c, t, p), x) <= sz
    ensures Compared(c, N, StepsAlong(c, db, t, row, p, x.elems, upd, k, sz))
    decreases Height(x), 4, if k < |x.elems| then |x.elems| - k else 0
  {
    hide HasRoom, Consistent, ClearsNothing, Compared, SetValue, AddValue, CountedOne, StepsBy, Steady, Writable,
         Evolves, ReachOf;
    NothingIsCompared(c, N);
    if k < |x.elems| {
      var prop, y, M := Prop(c, t, p), x.elems[k], PropNodes(c, Prop(c, t, p), x);
      var s := if k < sz then SetValue(c, db, t, row, p, k, y, upd) else AddValue(c, db, t, row, p, y, upd);
      var here := StepsBy(c, db, t, row, p, y, upd, k, sz);
      var after := if s.res.Ok? then StepsAlong(c, s.db, t, row, p, x.elems, upd, k + 1, sz) else [];
      ElementNodes(c, prop, x, k);
      assert ItemNodes(c, prop, y) <= M;
      SteadySplit(c, K, db, t, row, upd, M, ItemNodes(c, prop, y), here, after);
      ElementCompares(c, N, K, db, t, row, p, x, upd, k, sz);
      ElementIsWritable(c, db, t, row, p, y, upd, k, sz);
      if s.res.Ok? {
        SteadyIsOpen(c, K, db, t, row, p, upd, ItemNodes(c, prop, y), here);
        ElementCounts(c, K, db, t, row, p, y, upd, k, sz);
        CountedLength(db, s.db, Loc(t, row, p), k, sz);
        ElementKeepsRoom(c, N, K, db, t, row, p, y, upd, k, sz);
        WritableHasRow(c, db, t, row, p, upd);
        SteadyOn(c, K, db, s.db, t, row, upd, M, after);
        LoopCompares(c, N, K, s.db, t, row, p, x, upd, k + 1, sz);
      }
      ComparedTogether(c, N, here, after);
    }
  }

  /** An object described within the old list is compared, and there is none beyond it. */
  lemma ElementCompares(c: Config, N: set<Node>, K: set<Id>, db: Db, t: nat, row: nat, p: nat, x: Value, upd: bool,
                        k: nat, sz: nat)
    requires Writable(c, db, t, row, p, upd) && Prop(c, t, p).isArray && x.Vals? && k < |x.elems|
    requires var y := x.elems[k];
      && Steady(c, K, db, t, row, upd, ItemNodes(c, Prop(c, t, p), y), StepsBy(c, db, t, row, p, y, upd, k, sz))
      && ItemNodes(c, Prop(c, t, p), y) <= N && HasRoom(c, db, N, upd) && Consistent(c, N)
    requires |ListAt(db, t, row, p)| == if k < sz then sz else k
    requires ReachOf(Prop(c, t, p), x) <= sz
    ensures Compared(c, N, StepsBy(c, db, t, row, p, x.elems[k], upd, k, sz))
    decreases Height(x), 3, 1
  {
    hide HasRoom, Consistent, ClearsNothing, Writable, Steady, StepsIn, Orderly;
    var prop, y, cur := Prop(c, t, p), x.elems[k], RowAt(db, t, row, p, k, sz);
    WritableCell(c, db, t, row, p, upd);
    if k < sz {
      WritableElement(c, db, t, row, p, upd, k);
      SteadyIsOpen(c, K, db, t, row, p, upd, ItemNodes(c, prop, y), StepsBy(c, db, t, row, p, y, upd, k, sz));
      UnboxCompares(c, N, db, prop, y, upd, cur);
    } else {
      NothingBeyond(c, db, prop, y, upd);
    }
  }

  lemma NothingBeyond(c: Config, db: Db, prop: Property, x: Value, upd: bool)
    requires prop.base.Object? ==> !x.Obj?
    ensures StepsIn(c, db, prop, x, upd, false, None) == []
  {}

  // ---- The theorems -------------------------------------------------------------------------------

  /**
   * If the lists that describe objects are there and no shorter, creating or updating in the diff
   * mode writes only what changes, at any depth and however the run ends; the one thing that is
   * written in vain is an empty list that is given null.
   */
  lemma DiffWritesOnlyChanges(c: Config, db: Db, t: nat, v: Value, upd: bool)
    requires ValidConfig(c) && Sound(c, db) && t < |c.schema|
    requires upd ==> SelfApart(c, Nodes(c, t, v)) && NeverReentered(Steps(c, db, t, v, upd, true, None))
    requires HasRoom(c, db, Nodes(c, t, v), upd) && Consistent(c, Nodes(c, t, v))
    ensures var s, steps := Create(c, db, t, v, upd, true, None), Steps(c, db, t, v, upd, true, None);
      && (forall s :: s in steps && s.Repeating? ==> Prop(c, s.t, s.p).isArray)
      && (ClearsNothing(c, Nodes(c, t, v)) ==> OnlyChanges(db, s.db))
  {
    hide SelfApart, HasRoom, Consistent, ClearsNothing, OnlyChanges, Create, Steps, Nodes, Sound;
    if !upd { CreateReusesNothing(c, db, t, v, None); }
    CreateCompares(c, Nodes(c, t, v), db, t, v, upd, None);
    CreateWritesOnlyChangesIff(c, db, t, v, upd, true);
  }

  /** The same for one list: no object may be described beyond its end. */
  lemma AssignWritesOnlyChanges(c: Config, K: set<Id>, db: Db, t: nat, row: nat, p: nat, x: Value, upd: bool)
    requires Writable(c, db, t, row, p, upd) && c.inWrite && Prop(c, t, p).isArray && x.Vals?
    requires Steady(c, K, db, t, row, upd, PropNodes(c, Prop(c, t, p), x), StepsOf(c, db, t, row, p, x, upd, true))
    requires HasRoom(c, db, PropNodes(c, Prop(c, t, p), x), upd) && Consistent(c, PropNodes(c, Prop(c, t, p), x))
    requires ReachOf(Prop(c, t, p), x) <= |ListAt(db, t, row, p)|
    ensures var s := Assign(c, db, t, row, p, x, upd, true);
      && (forall s :: s in StepsOf(c, db, t, row, p, x, upd, true) && s.Repeating? ==> Prop(c, s.t, s.p).isArray)
      && (ClearsNothing(c, PropNodes(c, Prop(c, t, p), x)) ==> OnlyChanges(db, s.db))
  {
    hide HasRoom, Consistent, ClearsNothing, OnlyChanges, Steady, Writable, StepsAlong, AssignDiff;
    LoopCompares(c, PropNodes(c, Prop(c, t, p), x), K, db, t, row, p, x, upd, 0, |ListAt(db, t, row, p)|);
    AssignWritesIff(c, K, db, t, row, p, x, upd, true);
  }

  // The list that `AppendingEnds` fills, with object 1 in it already.
  const LISTED: Db := Db([[[One(Scalar(1)), Many([Link(0)])]], [[One(Scalar(1)), One(Scalar(7))]]], [])

  lemma ListedHasRoom()
    ensures HasRoom(LISTS, LISTED, Nodes(LISTS, 0, APPENDING), true)
    ensures Consistent(LISTS, Nodes(LISTS, 0, APPENDING))
  {
    hide Nodes, ChildNodes;
    var c := LISTS;
    ListedNodes();
    assert FindFirst(LISTED, 0, 0, Scalar(1)) == Some(0);
    assert ListAt(LISTED, 0, 0, 1) == [Link(0)];
    assert Reach([SAME]) == 1;
    assert Needs(c, Node(0, APPENDING), 1) == 1 && forall i: nat :: Needs(c, Node(1, SAME), i) == 0;
  }

  /** The same update that rewrites an object it appends writes only changes where the object is listed. */
  lemma ListedObjectsAreCompared()
    ensures OnlyChanges(LISTED, Create(LISTS, LISTED, 0, APPENDING, true, true, None).db)
  {
    hide Create, OnlyChanges, Sound, ValidConfig, SelfApart, Steps, Nodes, ChildNodes, HasRoom, Consistent;
    ListedIsSound();
    ListedIsApart();
    ListedIsKeyed();
    ListedHasRoom();
    ListedNodes();
    DiffWritesOnlyChanges(LISTS, LISTED, 0, APPENDING, true);
  }

  lemma ListedIsKeyed()
    ensures NeverReentered(Steps(LISTS, LISTED, 0, APPENDING, true, true, None))
  {
    ListedIsSound();
    ListedNodes();
    StepsAreDescribed(LISTS, Nodes(LISTS, 0, APPENDING), LISTED, 0, APPENDING, true, None);
    assert forall t: nat :: Linked(LISTS, Nodes(LISTS, 0, APPENDING), t) ==> Primary(LISTS, t).Some?;
  }

  lemma ListedNodes()
    ensures ChildNodes(LISTS, 0, APPENDING) == {Node(1, SAME)} && ChildNodes(LISTS, 1, SAME) == {}
    ensures Nodes(LISTS, 0, APPENDING) == {Node(0, APPENDING), Node(1, SAME)}
  {
    assert ChildNodes(LISTS, 1, SAME) == {};
    assert Nodes(LISTS, 1, SAME) == {Node(1, SAME)};
    assert Node(1, SAME) in PropNodes(LISTS, Prop(LISTS, 0, 1), FieldOf(APPENDING, 1).value.v) by {
      assert [SAME][0] == SAME;
    }
    forall m | m in ChildNodes(LISTS, 0, APPENDING) ensures m == Node(1, SAME) {
      var i: nat :| i < 2 && m in PropNodes(LISTS, Prop(LISTS, 0, i), FieldOf(APPENDING, i).value.v);
    }
  }

  lemma ListedIsSound()
    ensures ValidConfig(LISTS) && Sound(LISTS, LISTED)
  {}

  lemma ListedIsApart()
    ensures SelfApart(LISTS, Nodes(LISTS, 0, APPENDING))
  {
    ListedNodes();
  }
}
