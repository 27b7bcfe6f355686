/** How long an update leaves the lists that it changes: no list shrinks below what is described for it. */
module Lengths {
  import opened Outcomes
  import opened Schemas
  import opened Tables
  import opened Upsert
  import opened Trace
  import opened Evolution
  import opened Keeps
  import opened DiffMode
  import opened Storage
  import opened Writes

  // ---- Lists long enough ----------------------------------------------------------------------

  /** Where the described objects of a list end. */
  function Reach(vs: seq<Value>): (k: nat)
    ensures k <= |vs| && (k > 0 ==> vs[k - 1].Obj?)
    ensures forall i :: k <= i < |vs| ==> !vs[i].Obj?
  {
    if vs == [] then 0
    else if vs[|vs| - 1].Obj? then |vs|
    else Reach(vs[..|vs| - 1])
  }

  /** How long a list of links must be for a value to describe no object beyond its end. */
  function ReachOf(prop: Property, x: Value): nat {
    if prop.base.Object? && prop.isArray && x.Vals? then Reach(x.elems) else 0
  }

  /** The same for the value an object description supplies. */
  function Needs(c: Config, n: Node, i: nat): nat {
    if i < |Props(c, n.t)| && FieldOf(n.v, i).Ok? && FieldOf(n.v, i).value.Given? then
      ReachOf(Prop(c, n.t, i), FieldOf(n.v, i).value.v)
    else 0
  }

  ghost predicate Long(db: Db, l: Loc, k: nat) {
    InRange(db, l.t, l.row, l.p) && CellAt(db, l.t, l.row, l.p).Many? && k <= |ListAt(db, l.t, l.row, l.p)|
  }

  /** The description does not shorten list `i` below `k`. */
  predicate Leaves(c: Config, n: Node, i: nat, k: nat) {
    FieldOf(n.v, i).Ok? && FieldOf(n.v, i).value.Given? ==> LeavesBy(FieldOf(n.v, i).value.v, k)
  }

  predicate LeavesBy(x: Value, k: nat) {
    !x.Null? && (x.Vals? ==> k <= |x.elems|)
  }

  // ---- A list stays long ------------------------------------------------------------------------

  /** No description of the object shortens its list. */
  ghost predicate AllLeave(c: Config, N: set<Node>, id: Id, i: nat, k: nat) {
    forall n :: n in N && NodeId(c, n) == Some(id) ==> Leaves(c, n, i, k)
  }

  /** A list of a row known by its identity. */
  ghost predicate LongFor(c: Config, db: Db, id: Id, l: Loc, k: nat) {
    Long(db, l, k) && l.row < NumRows(db, l.t) && RowId(c, db, l.t, l.row) == id
  }

  lemma LongStays(c: Config, K: set<Id>, W: set<Loc>, db: Db, db': Db, id: Id, l: Loc, k: nat)
    requires Evolves(c, false, K, W, db, db') && LongFor(c, db, id, l, k) && Held(K, id) && l !in W
    ensures LongFor(c, db', id, l, k)
  {}

  /** The row an update finds or adds carries the key that is described, and nothing below writes to it. */
  lemma UpdateIsSteady(c: Config, db: Db, t: nat, v: Value, diff: bool, cur: Option<nat>)
    requires ValidConfig(c) && Sound(c, db) && t < |c.schema| && (cur.Some? ==> cur.value < NumRows(db, t))
    requires Orderly(c, true, Nodes(c, t, v), Steps(c, db, t, v, true, diff, cur))
    requires c.inWrite && v.Obj? && Locate(c, db, t, v, true, diff, cur).res.Ok?
    ensures var at := Locate(c, db, t, v, true, diff, cur);
      var row := at.res.value.row;
      && Sound(c, at.db) && row < NumRows(at.db, t) && at.res.value.skipPrimary && Carries(c, at.db, Node(t, v), row)
      && Steady(c, {RowId(c, at.db, t, row)}, at.db, t, row, true, ChildNodes(c, t, v),
                StepsFrom(c, at.db, t, at.res.value, v, true, diff, 0))
  {
    LocateEvolves(c, false, {}, {}, db, t, v, true, diff, cur);
    if diff {
      LocatedIsSteady(c, db, t, v, true, diff, cur);
    } else {
      var at := Locate(c, db, t, v, true, diff, cur);
      PlainStepsFrom(c, at.db, t, at.res.value, v, true, 0);
      assert Node(t, v) in Nodes(c, t, v) && ChildNodes(c, t, v) <= Nodes(c, t, v);
    }
  }

  lemma CreateStaysLong(c: Config, db: Db, t: nat, v: Value, diff: bool, cur: Option<nat>, id: Id, l: Loc, k: nat)
    requires ValidConfig(c) && Sound(c, db) && t < |c.schema| && (cur.Some? ==> cur.value < NumRows(db, t))
    requires Orderly(c, true, Nodes(c, t, v), Steps(c, db, t, v, true, diff, cur))
    requires AllLeave(c, Nodes(c, t, v), id, l.p, k) && LongFor(c, db, id, l, k) && id.Keyed?
    ensures var s := Create(c, db, t, v, true, diff, cur); s.res.Ok? ==> LongFor(c, s.db, id, l, k)
    decreases Height(v), 2, 0
  {
    hide Evolves, LongFor, AllLeave, Orderly, Steady, StepsFrom, Populate, Steps;
    if c.inWrite {
      var at := Locate(c, db, t, v, true, diff, cur);
      LocateEvolves(c, false, {Everything}, {}, db, t, v, true, diff, cur);
      LongStays(c, {Everything}, {}, db, at.db, id, l, k);
      if at.res.Ok? {
        if v.Obj? {
          UpdateIsSteady(c, db, t, v, diff, cur);
          KnownRow(c, db, t, at.res.value.row, id, l, k);
          assert at.res.value.created ==> at.res.value.row == NumRows(db, t);
          PopulateStaysLong(c, {RowId(c, at.db, t, at.res.value.row)}, at.db, t, at.res.value, v, diff, 0, id, l, k);
        } else {
          NotAnObject(c, at.db, at.db, t, at.res.value, v, true, diff, 0);
        }
      }
    }
  }

  lemma PopulateStaysLong(c: Config, K: set<Id>, db: Db, t: nat, place: Place, v: Value, diff: bool, i: nat, id: Id,
                          l: Loc, k: nat)
    requires ValidConfig(c) && Sound(c, db) && t < |c.schema| && v.Obj? && c.inWrite
    requires place.row < NumRows(db, t) && place.skipPrimary && Carries(c, db, Node(t, v), place.row)
    requires Steady(c, K, db, t, place.row, true, ChildNodes(c, t, v), StepsFrom(c, db, t, place, v, true, diff, i))
    requires place.created ==> l.t != t || l.row != place.row
    requires AllLeave(c, Nodes(c, t, v), id, l.p, k) && LongFor(c, db, id, l, k) && id.Keyed?
    ensures var s := Populate(c, db, t, place, v, true, diff, i); s.res.Ok? ==> LongFor(c, s.db, id, l, k)
    decreases Height(v), 1, |Props(c, t)| - i
  {
    hide Evolves, Choose, AllLeave, LongFor, Leaves, Steady, SetProp, StepsAt, Nodes, ChildNodes, Sound;
    if i < |Props(c, t)| {
      match Choose(c, t, i, v, place)
      case Skip => PopulateStaysLong(c, K, db, t, place, v, diff, i + 1, id, l, k);
      case Fail(_) =>
      case Write(x, isDefault) =>
        var s, here := SetProp(c, db, t, place.row, i, x, true, diff, isDefault),
            StepsAt(c, db, t, place.row, i, x, true, diff, isDefault);
        var after := if s.res.Ok? then StepsFrom(c, s.db, t, place, v, true, diff, i + 1) else [];
        ChosenNodes(c, t, i, v, place);
        SteadySplit(c, K, db, t, place.row, true, ChildNodes(c, t, v), PropNodes(c, Prop(c, t, i), x), here, after);
        WriteIsWritable(c, db, t, place, v, true, diff, i);
        ChosenLeaves(c, t, place, v, i, id, l.p, k);
        SetPropStaysLong(c, K, db, t, place.row, i, x, diff, isDefault, id, l, k) by {
          KnownRow(c, db, t, place.row, id, l, k);
          if l.t == t && l.row == place.row { CarriedIsNamed(c, db, t, v, place.row, id); }
        }
        if s.res.Ok? {
          SteadyOn(c, K, db, s.db, t, place.row, true, ChildNodes(c, t, v), after);
          RowIdStays(c, {}, {}, db, s.db, t, place.row);
          PopulateStaysLong(c, K, s.db, t, place, v, diff, i + 1, id, l, k);
        }
    }
  }

  lemma CarriedIsNamed(c: Config, db: Db, t: nat, v: Value, row: nat, id: Id)
    requires Carries(c, db, Node(t, v), row) && RowId(c, db, t, row) == id && id.Keyed?
    ensures NodeId(c, Node(t, v)) == Some(id)
  {}

  lemma KnownRow(c: Config, db: Db, t: nat, row: nat, id: Id, l: Loc, k: nat)
    requires LongFor(c, db, id, l, k)
    ensures l.row < NumRows(db, l.t)
    ensures t == l.t && row == l.row ==> RowId(c, db, t, row) == id
  {}

  lemma RowIdStays(c: Config, K: set<Id>, W: set<Loc>, db: Db, db': Db, t: nat, row: nat)
    requires Evolves(c, false, K, W, db, db') && row < NumRows(db, t)
    ensures RowId(c, db', t, row) == RowId(c, db, t, row)
  {}

  /** What is chosen for a property leaves lists long where the whole value does. */
  lemma ChosenLeaves(c: Config, t: nat, place: Place, v: Value, i: nat, id: Id, p: nat, k: nat)
    requires v.Obj? && i < |Props(c, t)| && Choose(c, t, i, v, place).Write?
    requires AllLeave(c, Nodes(c, t, v), id, p, k)
    ensures var x := Choose(c, t, i, v, place).x;
      && AllLeave(c, PropNodes(c, Prop(c, t, i), x), id, p, k)
      && (NodeId(c, Node(t, v)) == Some(id) && i == p && !place.created ==> LeavesBy(x, k))
  {
    ChosenNodes(c, t, i, v, place);
    NoFieldsNoChildren(c, t, v);
    assert Node(t, v) in Nodes(c, t, v);
    assert AllLeave(c, Nodes(c, t, v), id, p, k) && NodeId(c, Node(t, v)) == Some(id) ==> Leaves(c, Node(t, v), p, k);
  }

  /** A list of the row that is written is changed by what is assigned to it only. */
  lemma SetPropStaysLong(c: Config, K: set<Id>, db: Db, t: nat, row: nat, p: nat, x: Value, diff: bool, isDefault: bool,
                         id: Id, l: Loc, k: nat)
    requires Writable(c, db, t, row, p, true)
    requires Steady(c, K, db, t, row, true, PropNodes(c, Prop(c, t, p), x),
                    StepsAt(c, db, t, row, p, x, true, diff, isDefault))
    requires AllLeave(c, PropNodes(c, Prop(c, t, p), x), id, l.p, k) && LongFor(c, db, id, l, k) && id.Keyed?
    requires l == Loc(t, row, p) ==> LeavesBy(x, k)
    ensures var s := SetProp(c, db, t, row, p, x, true, diff, isDefault); s.res.Ok? ==> LongFor(c, s.db, id, l, k)
    decreases Height(x), 6, 0
  {
    hide Evolves, AllLeave, Nodes, LongFor, Steady, Writable, StepsIn, StepsOf, UnboxItem, Assign;
    var prop, own := Prop(c, t, p), Loc(t, row, p);
    WritableCell(c, db, t, row, p, true);
    if l.t == t && l.row == row {
      OwnListStaysLong(c, K, db, t, row, p, x, diff, isDefault, id, l, k);
    } else if prop.nullable && x.Null? {
      PutStaysLong(c, db, SetCell, own, One(Nothing), id, l, k);
    } else if prop.isArray {
      AssignStaysLong(c, K, db, t, row, p, x, diff, id, l, k);
    } else if prop.base.Object? {
      var cur := LinkOf(CellAt(db, t, row, p));
      var below := StepsIn(c, db, prop, x, true, diff, cur);
      SteadySplit(c, K, db, t, row, true, PropNodes(c, prop, x), ItemNodes(c, prop, x), below,
                  StepsAt(c, db, t, row, p, x, true, diff, isDefault)[|below|..]);
      UnboxStaysLong(c, db, t, row, p, x, diff, cur, id, l, k);
      var u := UnboxItem(c, db, prop, x, true, diff, cur);
      if u.res.Ok? { PutStaysLong(c, u.db, SetCell, own, One(Link(ItemRow(u.res.value))), id, l, k); }
    } else if UnboxScalar(prop, x).Ok? {
      PutStaysLong(c, db, SetCell, own, One(UnboxScalar(prop, x).value), id, l, k);
    }
  }

  lemma OwnListStaysLong(c: Config, K: set<Id>, db: Db, t: nat, row: nat, p: nat, x: Value, diff: bool, isDefault: bool,
                         id: Id, l: Loc, k: nat)
    requires Writable(c, db, t, row, p, true)
    requires Steady(c, K, db, t, row, true, PropNodes(c, Prop(c, t, p), x),
                    StepsAt(c, db, t, row, p, x, true, diff, isDefault))
    requires LongFor(c, db, id, l, k) && l.t == t && l.row == row && (l.p == p ==> LeavesBy(x, k))
    ensures var s := SetProp(c, db, t, row, p, x, true, diff, isDefault); s.res.Ok? ==> LongFor(c, s.db, id, l, k)
  {
    hide Spares, LogSpares, UniqueKeys, LogGrows, Grows, KeysStay, NoneAdded, Create, Nodes, Avoids, Orderly, StepsOf;
    var W, s := {Loc(t, row, p)}, SetProp(c, db, t, row, p, x, true, diff, isDefault);
    SteadyIsOpen(c, K, db, t, row, p, true, PropNodes(c, Prop(c, t, p), x),
                 StepsAt(c, db, t, row, p, x, true, diff, isDefault));
    OpenIsWritable(c, K, db, t, row, p, true, PropNodes(c, Prop(c, t, p), x));
    SetPropEvolves(c, false, K, W, db, t, row, p, x, true, diff, isDefault);
    RowIdStays(c, K, W, db, s.db, t, row);
    if l.p != p {
      LongStays(c, K, W, db, s.db, id, l, k);
    } else if !x.ListRef? {
      AssignStores(c, K, db, t, row, p, x, true, diff);
    }
  }

  /** A cell of another row is written. */
  lemma PutStaysLong(c: Config, db: Db, kind: Kind, own: Loc, cell: Cell, id: Id, l: Loc, k: nat)
    requires LongFor(c, db, id, l, k) && (own.t != l.t || own.row != l.row)
    ensures LongFor(c, Put(db, kind, own.t, own.row, own.p, cell), id, l, k)
  {
    if InRange(db, own.t, own.row, own.p) { PutCells(db, kind, own.t, own.row, own.p, cell); }
  }

  lemma UnboxStaysLong(c: Config, db: Db, t: nat, row: nat, p: nat, x: Value, diff: bool, cur: Option<nat>, id: Id,
                       l: Loc, k: nat)
    requires ValidConfig(c) && Sound(c, db) && ValidProperty(c, Prop(c, t, p))
    requires cur.Some? && Prop(c, t, p).base.Object? ==> cur.value < NumRows(db, Prop(c, t, p).target)
    requires Orderly(c, true, ItemNodes(c, Prop(c, t, p), x), StepsIn(c, db, Prop(c, t, p), x, true, diff, cur))
    requires AllLeave(c, ItemNodes(c, Prop(c, t, p), x), id, l.p, k) && LongFor(c, db, id, l, k) && id.Keyed?
    ensures var u := UnboxItem(c, db, Prop(c, t, p), x, true, diff, cur); u.res.Ok? ==> LongFor(c, u.db, id, l, k)
    decreases Height(x), 3, 0
  {
    hide Orderly, AllLeave, LongFor, Sound, Create, Steps, Nodes;
    var prop := Prop(c, t, p);
    if prop.base.Object? && !x.RowRef? { CreateStaysLong(c, db, prop.target, x, diff, cur, id, l, k); }
  }

  lemma AssignStaysLong(c: Config, K: set<Id>, db: Db, t: nat, row: nat, p: nat, x: Value, diff: bool, id: Id, l: Loc,
                        k: nat)
    requires Writable(c, db, t, row, p, true) && Prop(c, t, p).isArray && (t != l.t || row != l.row)
    requires Steady(c, K, db, t, row, true, PropNodes(c, Prop(c, t, p), x), StepsOf(c, db, t, row, p, x, true, diff))
    requires AllLeave(c, PropNodes(c, Prop(c, t, p), x), id, l.p, k) && LongFor(c, db, id, l, k) && id.Keyed?
    ensures var s := Assign(c, db, t, row, p, x, true, diff); s.res.Ok? ==> LongFor(c, s.db, id, l, k)
    decreases Height(x), 5, 0
  {
    hide Evolves, AllLeave, LongFor, Steady, StepsAlong, AssignDiff, AssignPlain, Sound;
    var cleared, N := Clear(db, t, row, p), PropNodes(c, Prop(c, t, p), x);
    WritableHasRow(c, db, t, row, p, true);
    PutStaysLong(c, db, ListClear, Loc(t, row, p), Many([]), id, l, k);
    if x.Vals? {
      if diff {
        LoopStaysLong(c, K, db, t, row, p, x, 0, |ListAt(db, t, row, p)|, id, l, k);
      } else {
        var along := StepsAlong(c, cleared, t, row, p, x.elems, true, 0, 0);
        ClearIsWritable(c, db, t, row, p);
        PlainIsSteady(c, K, db, t, row, N, StepsOf(c, db, t, row, p, x, true, diff), along) by {
          PlainStepsAlong(c, cleared, t, row, p, x, true, 0, 0);
        }
        SteadyOn(c, K, db, cleared, t, row, true, N, along);
        LoopStaysLong(c, K, cleared, t, row, p, x, 0, 0, id, l, k);
        DiffOfNothing(c, cleared, t, row, p, x.elems, true, 0);
      }
    }
  }

  lemma ClearIsWritable(c: Config, db: Db, t: nat, row: nat, p: nat)
    requires Writable(c, db, t, row, p, true) && Prop(c, t, p).isArray
    ensures var cleared := Clear(db, t, row, p);
      && Writable(c, cleared, t, row, p, true) && Evolves(c, WritesKeys(c, true), {}, {}, db, cleared)
      && ListAt(cleared, t, row, p) == []
  {
    WritableCell(c, db, t, row, p, true);
    PutEvolves(c, false, {}, {}, db, ListClear, t, row, p, Many([]));
    WritableOn(c, db, Clear(db, t, row, p), t, row, p, true);
  }

  lemma PlainIsSteady(c: Config, K: set<Id>, db: Db, t: nat, row: nat, N: set<Node>, steps: seq<Step>, plain: seq<Step>)
    requires Steady(c, K, db, t, row, true, N, steps) && Faithful(plain)
    ensures Steady(c, K, db, t, row, true, N, plain)
  {}

  lemma LoopStaysLong(c: Config, K: set<Id>, db: Db, t: nat, row: nat, p: nat, x: Value, j: nat, sz: nat, id: Id,
                      l: Loc, k: nat)
    requires Writable(c, db, t, row, p, true) && Prop(c, t, p).isArray && x.Vals? && j <= |x.elems|
    requires (t != l.t || row != l.row) && |ListAt(db, t, row, p)| == if j < sz then sz else j
    requires Steady(c, K, db, t, row, true, PropNodes(c, Prop(c, t, p), x),
                    StepsAlong(c, db, t, row, p, x.elems, true, j, sz))
    requires AllLeave(c, PropNodes(c, Prop(c, t, p), x), id, l.p, k) && LongFor(c, db, id, l, k) && id.Keyed?
    ensures var s := AssignDiff(c, db, t, row, p, x.elems, true, j, sz); s.res.Ok? ==> LongFor(c, s.db, id, l, k)
    decreases Height(x), 4, |x.elems| - j
  {
    hide Sound, Evolves, SetValue, AddValue, AllLeave, LongFor, Steady, Writable, StepsBy, CountedOne;
    var N := PropNodes(c, Prop(c, t, p), x);
    if j == |x.elems| {
      TrimStaysLong(c, db, t, row, p, j, sz, id, l, k);
    } else {
      var y := x.elems[j];
      var s := if j < sz then SetValue(c, db, t, row, p, j, y, true) else AddValue(c, db, t, row, p, y, true);
      var here := StepsBy(c, db, t, row, p, y, true, j, sz);
      var after := if s.res.Ok? then StepsAlong(c, s.db, t, row, p, x.elems, true, j + 1, sz) else [];
      ElementLeaves(c, Prop(c, t, p), x, j, id, l.p, k);
      SteadySplit(c, K, db, t, row, true, N, ItemNodes(c, Prop(c, t, p), y), here, after);
      ElementStaysLong(c, K, db, t, row, p, y, j, sz, id, l, k);
      ElementIsWritable(c, db, t, row, p, y, true, j, sz);
      SteadyIsOpen(c, K, db, t, row, p, true, ItemNodes(c, Prop(c, t, p), y), here);
      ElementCounts(c, K, db, t, row, p, y, true, j, sz);
      if s.res.Ok? {
        CountedLength(db, s.db, Loc(t, row, p), j, sz);
        WritableHasRow(c, db, t, row, p, true);
        SteadyOn(c, K, db, s.db, t, row, true, N, after);
        LoopStaysLong(c, K, s.db, t, row, p, x, j + 1, sz, id, l, k);
      }
    }
  }

  lemma ElementLeaves(c: Config, prop: Property, x: Value, j: nat, id: Id, p: nat, k: nat)
    requires prop.isArray && x.Vals? && j < |x.elems| && AllLeave(c, PropNodes(c, prop, x), id, p, k)
    ensures var N := ItemNodes(c, prop, x.elems[j]); N <= PropNodes(c, prop, x) && AllLeave(c, N, id, p, k)
  {
    ElementNodes(c, prop, x, j);
  }

  /** One element: its list does not become shorter, and others stay long. */
  lemma ElementStaysLong(c: Config, K: set<Id>, db: Db, t: nat, row: nat, p: nat, x: Value, j: nat, sz: nat, id: Id,
                         l: Loc, k: nat)
    requires Writable(c, db, t, row, p, true) && Prop(c, t, p).isArray
    requires |ListAt(db, t, row, p)| == if j < sz then sz else j
    requires var N := ItemNodes(c, Prop(c, t, p), x);
      && Steady(c, K, db, t, row, true, N, StepsBy(c, db, t, row, p, x, true, j, sz))
      && (t != l.t || row != l.row ==> AllLeave(c, N, id, l.p, k)) && LongFor(c, db, id, l, k) && id.Keyed?
    ensures var s := if j < sz then SetValue(c, db, t, row, p, j, x, true) else AddValue(c, db, t, row, p, x, true);
      s.res.Ok? ==> LongFor(c, s.db, id, l, k)
    decreases Height(x), 4, 0
  {
    hide Evolves, AllLeave, LongFor, Create, ItemNodes, Avoids, Steady, Orderly, LeavesAlone, StepsIn, UnboxItem,
         Sound, Open, ElemOk;
    var prop := Prop(c, t, p);
    SteadyIsOpen(c, K, db, t, row, p, true, ItemNodes(c, prop, x), StepsBy(c, db, t, row, p, x, true, j, sz));
    OpenIsWritable(c, K, db, t, row, p, true, ItemNodes(c, prop, x));
    var cur := RowAt(db, t, row, p, j, sz);
    UnboxingSparesList(c, K, db, t, row, p, x, true, j, sz);
    var u := UnboxItem(c, db, prop, x, true, j < sz, cur);
    if u.res.Ok? {
      KnownRow(c, db, t, row, id, l, k);
      if t == l.t && row == l.row {
        LongStays(c, K, {}, db, u.db, id, l, k);
      } else {
        UnboxStaysLong(c, db, t, row, p, x, j < sz, cur, id, l, k);
      }
      OpenIsWritable(c, K, u.db, t, row, p, true, ItemNodes(c, prop, x));
      PlacedStaysLong(c, u.db, t, row, p, j, sz, u.res.value, id, l, k);
    }
  }

  lemma PlacedStaysLong(c: Config, db: Db, t: nat, row: nat, p: nat, j: nat, sz: nat, item: Item, id: Id, l: Loc,
                        k: nat)
    requires InRange(db, t, row, p) && LongFor(c, db, id, l, k) && !IsPrimary(c, t, p)
    ensures LongFor(c, PlaceItem(db, Prop(c, t, p), t, row, p, j, sz, item).db, id, l, k)
  {
    var prop, es := Prop(c, t, p), ListAt(db, t, row, p);
    if Validate(db, prop, item).Ok? {
      var e := Validate(db, prop, item).value;
      PutCells(db, if j < sz then ListSet else ListAdd, t, row, p,
               Many(if j < sz && j < |es| then es[j := e] else es + [e]));
    }
  }

  lemma {:induction false} TrimStaysLong(c: Config, db: Db, t: nat, row: nat, p: nat, j: nat, sz: nat, id: Id, l: Loc,
                        k: nat)
    requires LongFor(c, db, id, l, k) && (t != l.t || row != l.row)
    ensures LongFor(c, Trim(db, t, row, p, j, sz).db, id, l, k)
    decreases sz
  {
    hide LongFor, Put, InRange;
    var es := ListAt(db, t, row, p);
    if j < sz && j < |es| {
      var fewer := es[..j] + es[j + 1..];
      var cell := Many(fewer);
      PutStaysLong(c, db, ListRemove, Loc(t, row, p), cell, id, l, k);
      TrimStaysLong(c, Put(db, ListRemove, t, row, p, cell), t, row, p, j, sz - 1, id, l, k);
    }
  }
}
