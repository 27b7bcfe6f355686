/**
 * Everything a value describes is stored, at any depth: after a plain create every described object is in
 * its row, with what is supplied for it, its defaults if it is new, and what it held if it is not.
 */
module Depth {
  import opened Outcomes
  import opened Schemas
  import opened Tables
  import opened Upsert
  import opened Meanings
  import opened Evolution
  import opened Keeps
  import opened Descriptions
  import opened DiffMode
  import opened Storage
  import opened Parting
  import opened Additions
  import opened ModesPart

  // ---- What the database holds of a value -----------------------------------------------------------

  /**
   * The rows a call may write to: an update those that carry a key described in `N`, and otherwise those
   * added since `a`.
   */
  ghost predicate Mine(c: Config, upd: bool, N: set<Node>, a: Db, db: Db, t: nat, row: nat) {
    if upd && Primary(c, t).Some? then RowId(c, db, t, row) in Ids(c, N) else row >= NumRows(a, t)
  }

  /**
   * The row holds the object that the value describes, and whatever is described below it. `db0` is the
   * database before the call: the row is the one found there, or a new one.
   */
  ghost predicate Holds(c: Config, upd: bool, db0: Db, N: set<Node>, a: Db, db: Db, t: nat, v: Value, row: nat)
    decreases Height(v), 2
  {
    var found := RowBefore(c, db0, t, v, upd);
    && v.Obj? && row < NumRows(db, t) && Mine(c, upd, N, a, db, t, row) && Carries(c, db, Node(t, v), row)
    && (if found.Some? then row == found.value else row >= NumRows(db0, t))
    && forall j: nat :: j < |Props(c, t)| && !IsPrimary(c, t, j) ==>
         HoldsProp(c, upd, db0, N, a, db, t, v, CellAt(db, t, row, j), j)
  }

  /** The cell of property `j` holds what is supplied; else its default in a new row, or what it held. */
  ghost predicate HoldsProp(c: Config, upd: bool, db0: Db, N: set<Node>, a: Db, db: Db, t: nat, v: Value, cell: Cell,
                            j: nat)
    decreases Height(v), 1
  {
    v.Obj? &&
    var prop, found := Prop(c, t, j), RowBefore(c, db0, t, v, upd);
    var was := CellBefore(c, db0, t, found, j);
    if Omits(v, j) && (found.Some? || prop.default.Absent?) then cell == was
    else
      HoldsValue(c, upd, db0, N, a, db, prop, Offered(prop, v, j).v, Omits(v, j), was, cell)
  }

  ghost predicate HoldsValue(c: Config, upd: bool, db0: Db, N: set<Node>, a: Db, db: Db, prop: Property, x: Value,
                             isDefault: bool, was: Cell, cell: Cell)
    decreases Height(x), 6
  {
    if LeftAlone(prop, x, isDefault) then cell == was
    else if prop.isArray then
      match x
      case Null => cell == Many([])
      case Vals(vs) =>
        && cell.Many? && |cell.es| == |vs|
        && forall k :: 0 <= k < |vs| ==> HoldsElem(c, upd, db0, N, a, db, prop, vs[k], cell.es[k])
      case _ => false
    else cell.One? && if x.Null? then cell.e == Nothing else HoldsElem(c, upd, db0, N, a, db, prop, x, cell.e)
  }

  /** The element is the scalar, the row handed over, or a row that holds the object that is described. */
  ghost predicate HoldsElem(c: Config, upd: bool, db0: Db, N: set<Node>, a: Db, db: Db, prop: Property, x: Value,
                            e: Elem)
    decreases Height(x), 3
  {
    if !prop.base.Object? then Takes(prop, x) && e == ElemOf(x)
    else if x.RowRef? then e == Link(x.row) && (prop.isArray ==> x.t == prop.target)
    else e.Link? && (x.Obj? ==> Holds(c, upd, db0, N, a, db, prop.target, x, e.row))
  }

  // ---- It stays held --------------------------------------------------------------------------------

  ghost predicate Fewer(a: Db, b: Db) {
    forall t: nat :: NumRows(a, t) <= NumRows(b, t)
  }

  /** The rows of the call are as they were. */
  ghost predicate Kept(c: Config, upd: bool, N: set<Node>, a: Db, db: Db, db': Db) {
    && Fewer(db, db')
    && (forall t: nat, row: nat :: row < NumRows(db, t) && Mine(c, upd, N, a, db, t, row) ==>
          RowId(c, db', t, row) == RowId(c, db, t, row))
    && (forall t: nat, row: nat, p: nat :: row < NumRows(db, t) && Mine(c, upd, N, a, db, t, row) ==>
          CellAt(db', t, row, p) == CellAt(db, t, row, p))
  }

  /** A later call may write to more. */
  ghost predicate Wider(c: Config, upd: bool, N: set<Node>, a: Db, db: Db, M: set<Node>, b: Db, db': Db) {
    N <= M && Fewer(b, a) && Kept(c, upd, N, a, db, db')
  }

  lemma HoldsOn(c: Config, upd: bool, db0: Db, N: set<Node>, a: Db, db: Db, M: set<Node>, b: Db, db': Db,
                t: nat, v: Value, row: nat)
    requires Holds(c, upd, db0, N, a, db, t, v, row) && Wider(c, upd, N, a, db, M, b, db')
    ensures Holds(c, upd, db0, M, b, db', t, v, row)
    decreases Height(v), 2
  {
    hide HoldsProp;
    IdsLess(c, N, M);
    assert NumRows(db, t) <= NumRows(db', t) && NumRows(b, t) <= NumRows(a, t);
    forall j: nat | j < |Props(c, t)| && !IsPrimary(c, t, j)
      ensures HoldsProp(c, upd, db0, M, b, db', t, v, CellAt(db', t, row, j), j)
    {
      PropOn(c, upd, db0, N, a, db, M, b, db', t, v, CellAt(db, t, row, j), j);
    }
  }

  lemma PropOn(c: Config, upd: bool, db0: Db, N: set<Node>, a: Db, db: Db, M: set<Node>, b: Db, db': Db,
               t: nat, v: Value, cell: Cell, j: nat)
    requires HoldsProp(c, upd, db0, N, a, db, t, v, cell, j) && Wider(c, upd, N, a, db, M, b, db')
    ensures HoldsProp(c, upd, db0, M, b, db', t, v, cell, j)
    decreases Height(v), 1
  {
    hide HoldsValue, Wider;
    var prop, found := Prop(c, t, j), RowBefore(c, db0, t, v, upd);
    if !(Omits(v, j) && (found.Some? || prop.default.Absent?)) {
      ValueOn(c, upd, db0, N, a, db, M, b, db', prop, Offered(prop, v, j).v, Omits(v, j),
              CellBefore(c, db0, t, found, j), cell);
    }
  }

  lemma ValueOn(c: Config, upd: bool, db0: Db, N: set<Node>, a: Db, db: Db, M: set<Node>, b: Db, db': Db,
                prop: Property, x: Value, isDefault: bool, was: Cell, cell: Cell)
    requires HoldsValue(c, upd, db0, N, a, db, prop, x, isDefault, was, cell) && Wider(c, upd, N, a, db, M, b, db')
    ensures HoldsValue(c, upd, db0, M, b, db', prop, x, isDefault, was, cell)
    decreases Height(x), 6
  {
    hide HoldsElem, Wider;
    if !LeftAlone(prop, x, isDefault) {
      if prop.isArray {
        if x.Vals? {
          forall k | 0 <= k < |x.elems| ensures HoldsElem(c, upd, db0, M, b, db', prop, x.elems[k], cell.es[k]) {
            ElemOn(c, upd, db0, N, a, db, M, b, db', prop, x.elems[k], cell.es[k]);
          }
        }
      } else if !x.Null? {
        ElemOn(c, upd, db0, N, a, db, M, b, db', prop, x, cell.e);
      }
    }
  }

  lemma ElemOn(c: Config, upd: bool, db0: Db, N: set<Node>, a: Db, db: Db, M: set<Node>, b: Db, db': Db,
               prop: Property, x: Value, e: Elem)
    requires HoldsElem(c, upd, db0, N, a, db, prop, x, e) && Wider(c, upd, N, a, db, M, b, db')
    ensures HoldsElem(c, upd, db0, M, b, db', prop, x, e)
    decreases Height(x), 3
  {
    hide Holds, Wider;
    if prop.base.Object? && x.Obj? {
      HoldsOn(c, upd, db0, N, a, db, M, b, db', prop.target, x, e.row);
    }
  }

  /** What protects the rows of a call from a later one. */
  ghost function Guard(c: Config, upd: bool, N: set<Node>, a: Db, db: Db): set<Id> {
    if upd then
      Ids(c, N) +
      set t: nat, row: nat | t < |db.tables| && row < |db.tables[t]| && row >= NumRows(a, t) :: Unkeyed(t, row)
    else {Everything}
  }

  lemma GuardedIsKept(c: Config, upd: bool, kw: bool, N: set<Node>, a: Db, W: set<Loc>, db: Db, db': Db)
    requires Evolves(c, kw, Guard(c, upd, N, a, db), W, db, db') && (kw ==> !upd)
    requires forall l :: l in W ==> !upd && l.row < NumRows(a, l.t)
    ensures Kept(c, upd, N, a, db, db')
  {
    hide UniqueKeys, LogSpares, LogGrows, KeysSpared, NoneAdded;
    var K := Guard(c, upd, N, a, db);
    forall t: nat, row: nat, p: nat | row < NumRows(db, t) && Mine(c, upd, N, a, db, t, row)
      ensures CellAt(db', t, row, p) == CellAt(db, t, row, p)
    {
      assert Held(K, RowId(c, db, t, row)) by {
        if upd && Primary(c, t).None? { assert Unkeyed(t, row) in K; }
      }
      if InRange(db, t, row, p) {
        assert Loc(t, row, p) !in W;
      } else {
        assert !InRange(db', t, row, p);
      }
    }
  }

  /** A later value describes other objects. */
  lemma GuardAvoids(c: Config, upd: bool, N: set<Node>, a: Db, db: Db, M: set<Node>)
    requires upd ==> Ids(c, N) !! Ids(c, M)
    ensures Avoids(c, Guard(c, upd, N, a, db), M)
  {
    forall n | upd && n in M && NodeId(c, n).Some? ensures NodeId(c, n).value !in Guard(c, upd, N, a, db) {
      assert NodeId(c, n).value in Ids(c, M);
    }
  }

  /** The cells a call writes of the row that it populates. */
  ghost function OwnLocs(c: Config, upd: bool, t: nat, row: nat): set<Loc> {
    if upd then {} else RowLocs(c, t, row)
  }

  lemma OwnMayBeWritten(c: Config, upd: bool, N: set<Node>, a: Db, db: Db, t: nat, row: nat, p: nat)
    requires t < |c.schema| && row < NumRows(db, t) && p < |Props(c, t)| && (IsPrimary(c, t, p) ==> WritesKeys(c, upd))
    requires row < NumRows(a, t) && (upd ==> RowId(c, db, t, row) !in Ids(c, N))
    ensures MayWrite(c, WritesKeys(c, upd), Guard(c, upd, N, a, db), OwnLocs(c, upd, t, row), db, t, row, p)
    ensures forall l :: l in OwnLocs(c, upd, t, row) ==> !upd && l.row < NumRows(a, l.t)
  {}

  // ---- The induction --------------------------------------------------------------------------------

  /** Between the call and a description: the rows that are described in `N` are as they were when the call began. */
  ghost predicate Underway(c: Config, db0: Db, db: Db, t: nat, N: set<Node>, upd: bool) {
    Started(c, db, t) && Fewer(db0, db) && Untouched(c, N, db0, db, upd)
  }

  lemma CreateHolds(c: Config, upd: bool, db0: Db, db: Db, t: nat, v: Value, cur: Option<nat>)
    requires Underway(c, db0, db, t, Nodes(c, t, v), upd) && v.Obj? && (upd ==> Distinct(c, t, v))
    requires cur.Some? ==> cur.value < NumRows(db, t)
    ensures var s := Create(c, db, t, v, upd, false, cur);
      s.res.Ok? ==> Holds(c, upd, db0, Nodes(c, t, v), db, s.db, t, v, s.res.value)
    decreases Height(v), 2, 0
  {
    hide Untouched, Evolves, Populate, DistinctFrom, Sound, HoldsProp;
    var s := Create(c, db, t, v, upd, false, cur);
    if s.res.Ok? {
      var at, found := Locate(c, db, t, v, upd, false, cur), RowBefore(c, db0, t, v, upd);
      var row, N := at.res.value.row, NodesFrom(c, t, v, 0);
      LocatedIsReady(c, upd, db0, db, t, v, cur);
      PopulateHolds(c, upd, db0, {}, at.db, at.db, t, at.res.value, v, 0);
      PopulateReturns(c, at.db, t, at.res.value, v, upd, false, 0);
      CreateIdentifies(c, db, t, v, upd, false, cur);
      NodesBelow(c, t, v);
      forall j: nat | j < |Props(c, t)| && !IsPrimary(c, t, j)
        ensures HoldsProp(c, upd, db0, Nodes(c, t, v), db, s.db, t, v, CellAt(s.db, t, row, j), j)
      {
        SameIsWider(c, upd, {} + N, at.db, s.db, Nodes(c, t, v), db);
        PropOn(c, upd, db0, {} + N, at.db, s.db, Nodes(c, t, v), db, s.db, t, v, CellAt(s.db, t, row, j), j);
      }
      assert Mine(c, upd, Nodes(c, t, v), db, s.db, t, row) by {
        assert Node(t, v) in Nodes(c, t, v);
      }
    }
  }

  lemma SameIsWider(c: Config, upd: bool, N: set<Node>, a: Db, db: Db, M: set<Node>, b: Db)
    requires N <= M && Fewer(b, a)
    ensures Wider(c, upd, N, a, db, M, b, db)
  {}

  /** Once its row is there, an object can be populated. */
  lemma LocatedIsReady(c: Config, upd: bool, db0: Db, db: Db, t: nat, v: Value, cur: Option<nat>)
    requires Underway(c, db0, db, t, Nodes(c, t, v), upd) && v.Obj? && (upd ==> Distinct(c, t, v))
    requires cur.Some? ==> cur.value < NumRows(db, t)
    requires Locate(c, db, t, v, upd, false, cur).res.Ok?
    ensures var at, found := Locate(c, db, t, v, upd, false, cur), RowBefore(c, db0, t, v, upd);
      var place := at.res.value;
      && Populable(c, upd, db0, {}, at.db, at.db, t, place, v, 0) && Fewer(db, at.db)
      && (if found.Some? then place.row == found.value else place.row >= NumRows(db0, t))
      && (!upd || Primary(c, t).None? ==> place.row >= NumRows(db, t))
  {
    hide Evolves, Untouched, Ids, DistinctFrom, Distinct, NodesFrom, Nodes, Sound, ValidConfig, RowBefore, Locate, Adds,
         AsBefore;
    LocateAdds(c, db0, db, t, v, upd, false, cur, 0, []);
    LocatedRow(c, upd, db0, db, t, v, cur);
    NoIds(c);
  }

  lemma LocatedRow(c: Config, upd: bool, db0: Db, db: Db, t: nat, v: Value, cur: Option<nat>)
    requires Underway(c, db0, db, t, Nodes(c, t, v), upd) && v.Obj? && (upd ==> Distinct(c, t, v))
    requires cur.Some? ==> cur.value < NumRows(db, t)
    requires Locate(c, db, t, v, upd, false, cur).res.Ok?
    ensures var at, found := Locate(c, db, t, v, upd, false, cur), RowBefore(c, db0, t, v, upd);
      var row := at.res.value.row;
      && AsBefore(c, db0, at.db, t, row, found, 0) && Fewer(db, at.db) && Fewer(db0, at.db)
      && (if found.Some? then row == found.value else row >= NumRows(db0, t))
      && (!upd || Primary(c, t).None? ==> row >= NumRows(db, t))
  {
    hide Evolves, Untouched, Ids, Distinct, Nodes;
    var at := Locate(c, db, t, v, upd, false, cur);
    AppendCells(db, t, EmptyRow(Props(c, t)));
    if Primary(c, t).Some? && KeyOf(c, t, Primary(c, t).value, v).Ok? {
      AppendCells(db, t, KeyedRow(Props(c, t), Primary(c, t).value, KeyOf(c, t, Primary(c, t).value, v).value));
    }
    if !WritesKeys(c, upd) { LocatedAsBefore(c, db0, db, t, v, upd, false, cur); }
    assert NumRows(db0, t) <= NumRows(db, t);
  }

  /** A row that is being populated: the properties before `i` are held, those from `i` on are as they were. */
  ghost predicate Populable(c: Config, upd: bool, db0: Db, done: set<Node>, a: Db, db: Db, t: nat, place: Place,
                            v: Value, i: nat) {
    var found, N := RowBefore(c, db0, t, v, upd), NodesFrom(c, t, v, i);
    && v.Obj? && Underway(c, db0, db, t, N, upd) && Fewer(db0, a) && Fewer(a, db) && place.row < NumRows(a, t)
    && place.row < NumRows(db, t) && (place.skipPrimary || WritesKeys(c, upd)) && place.created == found.None?
    && AsBefore(c, db0, db, t, place.row, found, i)
    && (upd ==>
          && DistinctFrom(c, t, v, i) && Ids(c, done) !! Ids(c, N)
          && RowId(c, db, t, place.row) !in Ids(c, N) && RowId(c, db, t, place.row) !in Ids(c, done))
  }

  ghost predicate HeldUpTo(c: Config, upd: bool, db0: Db, N: set<Node>, a: Db, db: Db, t: nat, v: Value, row: nat,
                           i: nat) {
    forall j: nat :: j < i && j < |Props(c, t)| && !IsPrimary(c, t, j) ==>
      HoldsProp(c, upd, db0, N, a, db, t, v, CellAt(db, t, row, j), j)
  }

  lemma PopulateHolds(c: Config, upd: bool, db0: Db, done: set<Node>, a: Db, db: Db, t: nat, place: Place, v: Value,
                      i: nat)
    requires Populable(c, upd, db0, done, a, db, t, place, v, i)
             && HeldUpTo(c, upd, db0, done, a, db, t, v, place.row, i)
    ensures var s := Populate(c, db, t, place, v, upd, false, i);
      s.res.Ok? ==>
        HeldUpTo(c, upd, db0, done + NodesFrom(c, t, v, i), a, s.db, t, v, place.row, |Props(c, t)|)
    decreases Height(v), 1, |Props(c, t)| - i
  {
    hide Populable, HeldUpTo, SetProp, Choose, Wider;
    if i >= |Props(c, t)| {
      NothingFrom(c, t, v, i);
      assert done + NodesFrom(c, t, v, i) == done;
      HeldToTheEnd(c, upd, db0, done, a, db, t, v, place.row, i);
    } else if Populate(c, db, t, place, v, upd, false, i).res.Ok? {
      var w, N := Choose(c, t, i, v, place), NodesFrom(c, t, v, i + 1);
      NodesStep(c, t, v, i);
      if w.Write? {
        var s, here := SetProp(c, db, t, place.row, i, w.x, upd, false, w.isDefault), PropNodes(c, Prop(c, t, i), w.x);
        OneIsHeld(c, upd, db0, done, a, db, t, place, v, i);
        PopulateHolds(c, upd, db0, done + here, a, s.db, t, place, v, i + 1);
        assert (done + here) + N == done + NodesFrom(c, t, v, i) by { ChosenIsSupplied(c, t, place, v, i); }
      } else {
        SkippedIsHeld(c, upd, db0, done, a, db, t, place, v, i);
        PopulateHolds(c, upd, db0, done, a, db, t, place, v, i + 1);
        var end := Populate(c, db, t, place, v, upd, false, i).db;
        SameIsWider(c, upd, done + N, a, end, done + NodesFrom(c, t, v, i), a);
        HeldOn(c, upd, db0, done + N, a, end, done + NodesFrom(c, t, v, i), a, end, t, v, place.row, |Props(c, t)|);
      }
    }
  }

  lemma NothingFrom(c: Config, t: nat, v: Value, i: nat)
    requires i >= |Props(c, t)|
    ensures NodesFrom(c, t, v, i) == {}
  {}

  lemma HeldToTheEnd(c: Config, upd: bool, db0: Db, N: set<Node>, a: Db, db: Db, t: nat, v: Value, row: nat, i: nat)
    requires HeldUpTo(c, upd, db0, N, a, db, t, v, row, i) && i >= |Props(c, t)|
    ensures HeldUpTo(c, upd, db0, N, a, db, t, v, row, |Props(c, t)|)
  {}

  lemma HeldOn(c: Config, upd: bool, db0: Db, N: set<Node>, a: Db, db: Db, M: set<Node>, b: Db, db': Db, t: nat,
               v: Value, row: nat, i: nat)
    requires HeldUpTo(c, upd, db0, N, a, db, t, v, row, i) && Wider(c, upd, N, a, db, M, b, db')
    requires forall j: nat :: j < i && j < |Props(c, t)| ==> CellAt(db', t, row, j) == CellAt(db, t, row, j)
    ensures HeldUpTo(c, upd, db0, M, b, db', t, v, row, i)
  {
    forall j: nat | j < i && j < |Props(c, t)| && !IsPrimary(c, t, j)
      ensures HoldsProp(c, upd, db0, M, b, db', t, v, CellAt(db', t, row, j), j)
    {
      PropOn(c, upd, db0, N, a, db, M, b, db', t, v, CellAt(db, t, row, j), j);
    }
  }

  lemma ChosenIsSupplied(c: Config, t: nat, place: Place, v: Value, i: nat)
    requires i < |Props(c, t)| && v.Obj? && Choose(c, t, i, v, place).Write?
    ensures PropNodes(c, Prop(c, t, i), Choose(c, t, i, v, place).x) == PropNodes(c, Prop(c, t, i), Supplied(v, i))
  {
    var w, prop := Choose(c, t, i, v, place), Prop(c, t, i);
    if w.isDefault {
      assert FieldHeight(prop.default) == 0;
      if prop.base.Object? && prop.isArray && w.x.Vals? {
        forall k: nat | k < |w.x.elems| ensures Nodes(c, prop.target, w.x.elems[k]) == {} {
          assert Height(w.x.elems[k]) <= Height(w.x);
        }
      }
    }
  }

  lemma SkippedIsHeld(c: Config, upd: bool, db0: Db, done: set<Node>, a: Db, db: Db, t: nat, place: Place, v: Value,
                      i: nat)
    requires Populable(c, upd, db0, done, a, db, t, place, v, i)
             && HeldUpTo(c, upd, db0, done, a, db, t, v, place.row, i)
    requires i < |Props(c, t)| && Choose(c, t, i, v, place).Skip?
    ensures Populable(c, upd, db0, done, a, db, t, place, v, i + 1)
    ensures HeldUpTo(c, upd, db0, done, a, db, t, v, place.row, i + 1)
  {
    hide Untouched, DistinctIn, Ids, Sound, HoldsValue;
    Skipped(c, db0, db, t, place.row, v, upd, i);
    NodesStep(c, t, v, i);
    IdsLess(c, NodesFrom(c, t, v, i + 1), NodesFrom(c, t, v, i));
  }

  /** Setting one property holds it, keeps what is held, and leaves the later ones as they were. */
  lemma OneIsHeld(c: Config, upd: bool, db0: Db, done: set<Node>, a: Db, db: Db, t: nat, place: Place, v: Value, i: nat)
    requires Populable(c, upd, db0, done, a, db, t, place, v, i)
             && HeldUpTo(c, upd, db0, done, a, db, t, v, place.row, i)
    requires i < |Props(c, t)| && Choose(c, t, i, v, place).Write?
    ensures var w := Choose(c, t, i, v, place);
      var s, M := SetProp(c, db, t, place.row, i, w.x, upd, false, w.isDefault),
          done + PropNodes(c, Prop(c, t, i), w.x);
      s.res.Ok? ==>
        && Populable(c, upd, db0, M, a, s.db, t, place, v, i + 1)
        && HeldUpTo(c, upd, db0, M, a, s.db, t, v, place.row, i + 1)
    decreases Height(v), 1, 0
  {
    hide Untouched, Evolves, SetProp, HoldsValue, HoldsProp, DistinctFrom, NodesFrom, Sound, ValidConfig, AsBefore,
         Wider, HeldUpTo;
    var w, prop, row := Choose(c, t, i, v, place), Prop(c, t, i), place.row;
    var s, N := SetProp(c, db, t, row, i, w.x, upd, false, w.isDefault), PropNodes(c, prop, w.x);
    var M, found := done + N, RowBefore(c, db0, t, v, upd);
    if s.res.Ok? {
      OneIsPopulable(c, upd, db0, done, a, db, t, place, v, i);
      KeptWhileSetting(c, upd, db0, done, a, db, t, place, v, i);
      ThenWider(c, upd, done, a, db, M, a, s.db);
      HeldOn(c, upd, db0, done, a, db, M, a, s.db, t, v, row, i);
      if !IsPrimary(c, t, i) {
        ChosenApart(c, db0, db, t, place, v, upd, i);
        SetHolds(c, upd, db0, db, t, row, i, w.x, w.isDefault);
        FirstAsBefore(c, db0, db, t, row, found, i);
        SameIsWider(c, upd, N, db, s.db, M, a);
        ValueOn(c, upd, db0, N, db, s.db, M, a, s.db, prop, w.x, w.isDefault, CellBefore(c, db0, t, found, i),
                CellAt(s.db, t, row, i));
        WrittenIsOffered(c, upd, db0, M, a, s.db, t, place, v, CellAt(s.db, t, row, i), i);
      }
      OneMoreHeld(c, upd, db0, M, a, s.db, t, v, row, i);
    }
  }

  lemma ThenWider(c: Config, upd: bool, N: set<Node>, a: Db, db: Db, M: set<Node>, b: Db, db': Db)
    requires Kept(c, upd, N, a, db, db') && N <= M && Fewer(b, a)
    ensures Wider(c, upd, N, a, db, M, b, db')
  {}

  lemma OneMoreHeld(c: Config, upd: bool, db0: Db, N: set<Node>, a: Db, db: Db, t: nat, v: Value, row: nat, i: nat)
    requires HeldUpTo(c, upd, db0, N, a, db, t, v, row, i)
    requires i < |Props(c, t)| && !IsPrimary(c, t, i) ==>
             HoldsProp(c, upd, db0, N, a, db, t, v, CellAt(db, t, row, i), i)
    ensures HeldUpTo(c, upd, db0, N, a, db, t, v, row, i + 1)
  {}

  /** What is written is what is offered. */
  lemma WrittenIsOffered(c: Config, upd: bool, db0: Db, N: set<Node>, a: Db, db: Db, t: nat, place: Place, v: Value,
                         cell: Cell, i: nat)
    requires v.Obj? && i < |Props(c, t)| && Choose(c, t, i, v, place).Write?
    requires place.created == RowBefore(c, db0, t, v, upd).None?
    requires var w, found := Choose(c, t, i, v, place), RowBefore(c, db0, t, v, upd);
      HoldsValue(c, upd, db0, N, a, db, Prop(c, t, i), w.x, w.isDefault, CellBefore(c, db0, t, found, i), cell)
    ensures HoldsProp(c, upd, db0, N, a, db, t, v, cell, i)
  {
    hide HoldsValue, RowBefore;
  }

  /** The row stays ready for the next property. */
  lemma OneIsPopulable(c: Config, upd: bool, db0: Db, done: set<Node>, a: Db, db: Db, t: nat, place: Place, v: Value,
                       i: nat)
    requires Populable(c, upd, db0, done, a, db, t, place, v, i)
    requires i < |Props(c, t)| && Choose(c, t, i, v, place).Write?
    ensures var w := Choose(c, t, i, v, place);
      var db' := SetProp(c, db, t, place.row, i, w.x, upd, false, w.isDefault).db;
      && Populable(c, upd, db0, done + PropNodes(c, Prop(c, t, i), w.x), a, db', t, place, v, i + 1)
      && (forall j: nat :: j < |Props(c, t)| && j != i ==> CellAt(db', t, place.row, j) == CellAt(db, t, place.row, j))
  {
    hide SetProp, NodesFrom, Distinct, DistinctFrom, Spares, LogSpares, LogGrows, UniqueKeys, NoneAdded, Choose,
         HoldsProp;
    var w, row := Choose(c, t, i, v, place), place.row;
    var db', N := SetProp(c, db, t, row, i, w.x, upd, false, w.isDefault).db, PropNodes(c, Prop(c, t, i), w.x);
    WrittenIsUntouched(c, db0, db, t, place, v, upd, false, i) by { StillPlaced(c, db0, t, v, place, upd); }
    ChosenApart(c, db0, db, t, place, v, upd, i);
    NextIsDistinct(c, t, v, i, upd);
    OwnRowAvoided(c, db, t, row, N, upd);
    var K := if upd then {RowId(c, db, t, row)} else {Everything};
    SetPropEvolves(c, WritesKeys(c, upd), K, {Loc(t, row, i)}, db, t, row, i, w.x, upd, false, w.isDefault);
    forall j: nat | j < |Props(c, t)| && j != i ensures CellAt(db', t, row, j) == CellAt(db, t, row, j) {
      SparedCell(c, WritesKeys(c, upd), K, {Loc(t, row, i)}, db, db', t, row, j);
    }
    assert Ids(c, done + N) == Ids(c, done) + Ids(c, N);
    assert RowId(c, db', t, row) == RowId(c, db, t, row) || !upd;
  }

  lemma StillPlaced(c: Config, db0: Db, t: nat, v: Value, place: Place, upd: bool)
    requires place.created == RowBefore(c, db0, t, v, upd).None? && (place.skipPrimary || WritesKeys(c, upd))
    ensures PlacedAsForetold(c, db0, t, v, place, upd, false)
  {}

  lemma NextIsDistinct(c: Config, t: nat, v: Value, i: nat, upd: bool)
    requires v.Obj? && i < |Props(c, t)| && (upd ==> DistinctFrom(c, t, v, i))
    ensures upd ==> DistinctFrom(c, t, v, i + 1)
    ensures Ids(c, NodesFrom(c, t, v, i + 1)) <= Ids(c, NodesFrom(c, t, v, i))
  {
    NodesStep(c, t, v, i);
    IdsLess(c, NodesFrom(c, t, v, i + 1), NodesFrom(c, t, v, i));
  }

  /** The properties set before describe other objects. */
  lemma KeptWhileSetting(c: Config, upd: bool, db0: Db, done: set<Node>, a: Db, db: Db, t: nat, place: Place,
                         v: Value, i: nat)
    requires Populable(c, upd, db0, done, a, db, t, place, v, i)
    requires i < |Props(c, t)| && Choose(c, t, i, v, place).Write?
    ensures var w := Choose(c, t, i, v, place);
      Kept(c, upd, done, a, db, SetProp(c, db, t, place.row, i, w.x, upd, false, w.isDefault).db)
  {
    hide SetProp, NodesFrom, Distinct, DistinctFrom, Evolves, Choose, HoldsProp, Ids, Guard, MayWrite, Kept;
    var w, row, N := Choose(c, t, i, v, place), place.row, PropNodes(c, Prop(c, t, i), Choose(c, t, i, v, place).x);
    ChosenApart(c, db0, db, t, place, v, upd, i);
    NodesStep(c, t, v, i);
    ChosenIsSupplied(c, t, place, v, i);
    IdsLess(c, N, NodesFrom(c, t, v, i));
    ChosenMayBeKey(c, t, place, v, upd, i);
    GuardAvoids(c, upd, done, a, db, N);
    OwnMayBeWritten(c, upd, done, a, db, t, row, i);
    var K, W := Guard(c, upd, done, a, db), OwnLocs(c, upd, t, row);
    assert Creating(K, upd) by { GuardIsNotAll(c, upd, done, a, db); }
    SetPropEvolves(c, WritesKeys(c, upd), K, W, db, t, row, i, w.x, upd, false, w.isDefault);
    GuardedIsKept(c, upd, WritesKeys(c, upd), done, a, W, db,
                  SetProp(c, db, t, row, i, w.x, upd, false, w.isDefault).db);
  }

  lemma ChosenMayBeKey(c: Config, t: nat, place: Place, v: Value, upd: bool, i: nat)
    requires Choose(c, t, i, v, place).Write? && (place.skipPrimary || WritesKeys(c, upd))
    ensures IsPrimary(c, t, i) ==> WritesKeys(c, upd)
  {}

  lemma GuardIsNotAll(c: Config, upd: bool, N: set<Node>, a: Db, db: Db)
    ensures Creating(Guard(c, upd, N, a, db), upd)
  {}

  // ---- One value ------------------------------------------------------------------------------------

  lemma SetHolds(c: Config, upd: bool, db0: Db, db: Db, t: nat, row: nat, p: nat, x: Value, isDefault: bool)
    requires Underway(c, db0, db, t, PropNodes(c, Prop(c, t, p), x), upd) && row < NumRows(db, t)
    requires p < |Props(c, t)| && !IsPrimary(c, t, p)
    requires upd ==>
             DistinctIn(c, Prop(c, t, p), x) && RowId(c, db, t, row) !in Ids(c, PropNodes(c, Prop(c, t, p), x))
    ensures var s, prop := SetProp(c, db, t, row, p, x, upd, false, isDefault), Prop(c, t, p);
      s.res.Ok? ==>
        HoldsValue(c, upd, db0, PropNodes(c, prop, x), db, s.db, prop, x, isDefault, CellAt(db, t, row, p),
                   CellAt(s.db, t, row, p))
    decreases Height(x), 6, 0
  {
    hide Untouched, Evolves, Create, Nodes, AssignPlain, HoldsElem, Distinct, DistinctAlong, Ids, Sound, ValidConfig;
    var prop, s := Prop(c, t, p), SetProp(c, db, t, row, p, x, upd, false, isDefault);
    assert ValidProperty(c, prop) by { PropertyIsValid(c, t, p); }
    CellIsThere(c, db, t, row, p);
    if prop.isArray && x.Vals? && s.res.Ok? {
      var cleared := Clear(db, t, row, p);
      ClearIsUntouched(c, db0, db, t, row, p, PropNodes(c, prop, x), upd);
      ElemsAre(c, prop, x);
      NoIds(c);
      LoopHolds(c, upd, db0, {}, db, cleared, t, row, p, x, 0);
      assert {} + ElemsFrom(c, prop, x.elems, 0) == PropNodes(c, prop, x);
    } else if prop.base.Object? && !prop.isArray && !x.Null? && s.res.Ok? {
      LinkHolds(c, upd, db0, db, t, row, p, x, isDefault);
    } else if !prop.base.Object? && !prop.isArray && s.res.Ok? {
      ScalarHolds(c, upd, db0, db, t, row, p, x, isDefault);
    }
  }

  lemma NoIds(c: Config)
    ensures Ids(c, {}) == {}
  {}

  lemma PropertyIsValid(c: Config, t: nat, p: nat)
    requires ValidConfig(c) && t < |c.schema| && p < |Props(c, t)|
    ensures ValidProperty(c, Prop(c, t, p))
  {}

  lemma CellIsThere(c: Config, db: Db, t: nat, row: nat, p: nat)
    requires Sound(c, db) && row < NumRows(db, t) && p < |Props(c, t)|
    ensures InRange(db, t, row, p) && CellAt(db, t, row, p).Many? == Prop(c, t, p).isArray
  {
    assert InRange(db, t, row, p) && CellOk(db, Prop(c, t, p), CellAt(db, t, row, p));
  }

  lemma ScalarHolds(c: Config, upd: bool, db0: Db, db: Db, t: nat, row: nat, p: nat, x: Value, isDefault: bool)
    requires !Prop(c, t, p).base.Object? && !Prop(c, t, p).isArray && InRange(db, t, row, p)
    ensures var s, prop := SetProp(c, db, t, row, p, x, upd, false, isDefault), Prop(c, t, p);
      s.res.Ok? ==>
        && CellAt(s.db, t, row, p) == One(ElemOf(x)) && Takes(prop, x)
        && HoldsElem(c, upd, db0, PropNodes(c, prop, x), db, s.db, prop, x, ElemOf(x))
  {
    PutOnlyAt(db, SetCell, Loc(t, row, p), One(ElemOf(x)));
  }

  lemma LinkHolds(c: Config, upd: bool, db0: Db, db: Db, t: nat, row: nat, p: nat, x: Value, isDefault: bool)
    requires Underway(c, db0, db, t, PropNodes(c, Prop(c, t, p), x), upd) && row < NumRows(db, t)
    requires p < |Props(c, t)| && !IsPrimary(c, t, p) && Prop(c, t, p).base.Object? && !Prop(c, t, p).isArray
             && !x.Null?
    requires upd ==>
             DistinctIn(c, Prop(c, t, p), x) && RowId(c, db, t, row) !in Ids(c, PropNodes(c, Prop(c, t, p), x))
    ensures var s, prop := SetProp(c, db, t, row, p, x, upd, false, isDefault), Prop(c, t, p);
      s.res.Ok? ==>
        && CellAt(s.db, t, row, p).One?
        && HoldsElem(c, upd, db0, PropNodes(c, prop, x), db, s.db, prop, x, CellAt(s.db, t, row, p).e)
    decreases Height(x), 5, 0
  {
    hide Create, Nodes, Distinct, Holds, Kept, Wider, Evolves, Ids, Sound, Guard, MayWrite;
    var prop, s, cur := Prop(c, t, p), SetProp(c, db, t, row, p, x, upd, false, isDefault),
        LinkOf(CellAt(db, t, row, p));
    var N, u := PropNodes(c, prop, x), UnboxItem(c, db, prop, x, upd, false, cur);
    if s.res.Ok? {
      LinkedIsThere(c, db, t, row, p);
      UnboxHolds(c, upd, db0, db, prop, x, cur);
      UnboxKeepsReady(c, upd, db0, db, t, row, p, x, cur);
      var link := One(Link(ItemRow(u.res.value)));
      PutOnlyAt(u.db, SetCell, Loc(t, row, p), link);
      PutIsKept(c, upd, N, db, u.db, SetCell, t, row, p, link);
      SameNodes(c, prop, x);
      ThenWider(c, upd, N, db, u.db, N, db, s.db);
      ElemOn(c, upd, db0, N, db, u.db, N, db, s.db, prop, x, Link(ItemRow(u.res.value)));
    }
  }

  lemma LinkedIsThere(c: Config, db: Db, t: nat, row: nat, p: nat)
    requires ValidConfig(c) && Sound(c, db) && t < |c.schema| && row < NumRows(db, t) && p < |Props(c, t)|
    ensures var cur := LinkOf(CellAt(db, t, row, p));
      && ValidProperty(c, Prop(c, t, p))
      && (cur.Some? && Prop(c, t, p).base.Object? ==> cur.value < NumRows(db, Prop(c, t, p).target))
  {
    assert InRange(db, t, row, p) && CellOk(db, Prop(c, t, p), CellAt(db, t, row, p));
  }

  lemma SameNodes(c: Config, prop: Property, x: Value)
    requires prop.base.Object? && !prop.isArray
    ensures PropNodes(c, prop, x) == ItemNodes(c, prop, x)
  {}

  /** What is unboxed for an element holds what it describes. */
  lemma UnboxHolds(c: Config, upd: bool, db0: Db, db: Db, prop: Property, x: Value, cur: Option<nat>)
    requires ValidConfig(c) && Sound(c, db) && ValidProperty(c, prop) && c.inWrite && Fewer(db0, db)
    requires Untouched(c, ItemNodes(c, prop, x), db0, db, upd)
             && (upd && prop.base.Object? ==> Distinct(c, prop.target, x))
    requires prop.base.Object? && cur.Some? ==> cur.value < NumRows(db, prop.target)
    ensures var u, e := UnboxItem(c, db, prop, x, upd, false, cur), UnboxItem(c, db, prop, x, upd, false, cur).res;
      e.Ok? ==>
        && (prop.base.Object? ==> e.value.RowItem?)
        && ((prop.isArray ==> Validate(u.db, prop, e.value).Ok?) ==>
              HoldsElem(c, upd, db0, ItemNodes(c, prop, x), db, u.db, prop, x, ItemElem(e.value)))
    decreases Height(x), 3, 0
  {
    hide Create, Nodes, Distinct, Holds, Evolves, Untouched, Sound;
    if prop.base.Object? && x.Obj? {
      CreateHolds(c, upd, db0, db, prop.target, x, cur);
    }
  }

  /** Unboxing leaves the cell and the identity of the row as they were. */
  lemma UnboxKeepsReady(c: Config, upd: bool, db0: Db, db: Db, t: nat, row: nat, p: nat, x: Value, cur: Option<nat>)
    requires Started(c, db, t) && row < NumRows(db, t) && p < |Props(c, t)|
    requires cur.Some? && Prop(c, t, p).base.Object? ==> cur.value < NumRows(db, Prop(c, t, p).target)
    requires upd ==> RowId(c, db, t, row) !in Ids(c, ItemNodes(c, Prop(c, t, p), x))
    ensures var u := UnboxItem(c, db, Prop(c, t, p), x, upd, false, cur);
      && Started(c, u.db, t) && Fewer(db, u.db) && row < NumRows(u.db, t) && InRange(u.db, t, row, p)
      && CellAt(u.db, t, row, p) == CellAt(db, t, row, p)
      && (upd ==> RowId(c, u.db, t, row) == RowId(c, db, t, row))
  {
    hide Create, Nodes, LogSpares, LogGrows, UniqueKeys, NoneAdded;
    var prop, K := Prop(c, t, p), if upd then {RowId(c, db, t, row)} else {Everything};
    PropertyIsValid(c, t, p);
    OwnRowAvoided(c, db, t, row, ItemNodes(c, prop, x), upd);
    UnboxItemEvolves(c, WritesKeys(c, upd), K, {}, db, prop, x, upd, false, cur);
    var u := UnboxItem(c, db, prop, x, upd, false, cur);
    CellIsThere(c, db, t, row, p);
    SparedCell(c, WritesKeys(c, upd), K, {}, db, u.db, t, row, p);
  }

  /** Writing a cell of a row of its own changes no row of the call. */
  lemma PutIsKept(c: Config, upd: bool, N: set<Node>, a: Db, db: Db, kind: Kind, t: nat, row: nat, p: nat, cell: Cell)
    requires InRange(db, t, row, p) && row < NumRows(a, t) && !IsPrimary(c, t, p)
    requires upd ==> RowId(c, db, t, row) !in Ids(c, N)
    ensures Kept(c, upd, N, a, db, Put(db, kind, t, row, p, cell))
  {
    PutCells(db, kind, t, row, p, cell);
  }

  // ---- Lists ------------------------------------------------------------------------------------------

  ghost predicate ElemsHeld(c: Config, upd: bool, db0: Db, N: set<Node>, a: Db, db: Db, prop: Property, vs: seq<Value>,
                            es: seq<Elem>) {
    |es| <= |vs| && forall k :: 0 <= k < |es| ==> HoldsElem(c, upd, db0, N, a, db, prop, vs[k], es[k])
  }

  lemma ElemsOn(c: Config, upd: bool, db0: Db, N: set<Node>, a: Db, db: Db, M: set<Node>, b: Db, db': Db,
                prop: Property, vs: seq<Value>, es: seq<Elem>)
    requires ElemsHeld(c, upd, db0, N, a, db, prop, vs, es) && Wider(c, upd, N, a, db, M, b, db')
    ensures ElemsHeld(c, upd, db0, M, b, db', prop, vs, es)
  {
    hide Wider, HoldsElem;
    forall k | 0 <= k < |es| ensures HoldsElem(c, upd, db0, M, b, db', prop, vs[k], es[k]) {
      ElemOn(c, upd, db0, N, a, db, M, b, db', prop, vs[k], es[k]);
    }
  }

  /** A cleared list to which the elements before `k` have been added. */
  ghost predicate Filling(c: Config, upd: bool, db0: Db, done: set<Node>, a: Db, db: Db, t: nat, row: nat, p: nat,
                          x: Value, k: nat)
    requires x.Vals?
  {
    var prop, N, es := Prop(c, t, p), ElemsFrom(c, Prop(c, t, p), x.elems, k), ListAt(db, t, row, p);
    && Underway(c, db0, db, t, N, upd) && Fewer(a, db) && row < NumRows(a, t) && row < NumRows(db, t)
    && CellAt(db, t, row, p).Many? && |es| == k && ElemsHeld(c, upd, db0, done, a, db, prop, x.elems, es)
    && (upd ==>
          && DistinctAlong(c, prop, x.elems, k) && Ids(c, done) !! Ids(c, N)
          && RowId(c, db, t, row) !in Ids(c, N) && RowId(c, db, t, row) !in Ids(c, done))
  }

  lemma LoopHolds(c: Config, upd: bool, db0: Db, done: set<Node>, a: Db, db: Db, t: nat, row: nat, p: nat, x: Value,
                  k: nat)
    requires p < |Props(c, t)| && !IsPrimary(c, t, p) && Prop(c, t, p).isArray && x.Vals? && k <= |x.elems|
    requires Filling(c, upd, db0, done, a, db, t, row, p, x, k)
    ensures var s, prop := AssignPlain(c, db, t, row, p, x.elems, upd, k), Prop(c, t, p);
      s.res.Ok? ==>
        && CellAt(s.db, t, row, p).Many? && |CellAt(s.db, t, row, p).es| == |x.elems|
        && ElemsHeld(c, upd, db0, done + ElemsFrom(c, prop, x.elems, k), a, s.db, prop, x.elems,
                     CellAt(s.db, t, row, p).es)
    decreases Height(x), 4, |x.elems| - k
  {
    hide AddValue, HoldsElem, ElemsHeld, ItemNodes, Filling;
    var prop := Prop(c, t, p);
    if k == |x.elems| {
      FilledUp(c, upd, db0, done, a, db, t, row, p, x);
    } else if AddValue(c, db, t, row, p, x.elems[k], upd).res.Ok? {
      var s, here := AddValue(c, db, t, row, p, x.elems[k], upd), ItemNodes(c, prop, x.elems[k]);
      ElementIsHeld(c, upd, db0, done, a, db, t, row, p, x, k);
      LoopHolds(c, upd, db0, done + here, a, s.db, t, row, p, x, k + 1);
      ElemsStep(c, prop, x.elems, k);
      assert (done + here) + ElemsFrom(c, prop, x.elems, k + 1) == done + ElemsFrom(c, prop, x.elems, k);
    }
  }

  lemma FilledUp(c: Config, upd: bool, db0: Db, done: set<Node>, a: Db, db: Db, t: nat, row: nat, p: nat, x: Value)
    requires x.Vals? && Filling(c, upd, db0, done, a, db, t, row, p, x, |x.elems|)
    ensures var prop := Prop(c, t, p);
      && CellAt(db, t, row, p).Many? && |CellAt(db, t, row, p).es| == |x.elems|
      && ElemsHeld(c, upd, db0, done + ElemsFrom(c, prop, x.elems, |x.elems|), a, db, prop, x.elems,
                   CellAt(db, t, row, p).es)
  {
    assert done + ElemsFrom(c, Prop(c, t, p), x.elems, |x.elems|) == done;
  }

  lemma ElementIsHeld(c: Config, upd: bool, db0: Db, done: set<Node>, a: Db, db: Db, t: nat, row: nat, p: nat, x: Value,
                      k: nat)
    requires p < |Props(c, t)| && !IsPrimary(c, t, p) && Prop(c, t, p).isArray && x.Vals? && k < |x.elems|
    requires Filling(c, upd, db0, done, a, db, t, row, p, x, k)
    requires AddValue(c, db, t, row, p, x.elems[k], upd).res.Ok?
    ensures var s, prop := AddValue(c, db, t, row, p, x.elems[k], upd), Prop(c, t, p);
      Filling(c, upd, db0, done + ItemNodes(c, prop, x.elems[k]), a, s.db, t, row, p, x, k + 1)
    decreases Height(x), 4, 0
  {
    hide Untouched, Evolves, UnboxItem, HoldsElem, ItemNodes, Ids, Sound, Kept, Wider, ElemsFrom, Distinct,
         DistinctAlong, ValidConfig, ElemsHeld;
    var prop, y, es := Prop(c, t, p), x.elems[k], ListAt(db, t, row, p);
    var u, s, N := UnboxItem(c, db, prop, y, upd, false, None), AddValue(c, db, t, row, p, y, upd),
        ItemNodes(c, prop, y);
    var M := done + N;
    PropertyIsValid(c, t, p);
    ElementApart(c, db0, db, t, row, p, x, upd, k);
    ElementIsUntouched(c, db0, db, t, row, p, x, upd, k, 0);
    UnboxKeepsReady(c, upd, db0, db, t, row, p, y, None);
    UnboxHolds(c, upd, db0, db, prop, y, None);
    KeptWhileUnboxing(c, upd, done, a, db, t, row, p, x, k);
    var e := ItemElem(u.res.value);
    assert s.db == Put(u.db, ListAdd, t, row, p, Many(es + [e])) by { AddedIsItem(c, db, t, row, p, y, upd); }
    PutOnlyAt(u.db, ListAdd, Loc(t, row, p), Many(es + [e]));
    assert Ids(c, M) == Ids(c, done) + Ids(c, N) by { IdsJoin(c, done, N); }
    ThenWider(c, upd, done, a, db, M, a, u.db);
    ElemsOn(c, upd, db0, done, a, db, M, a, u.db, prop, x.elems, es);
    SameIsWider(c, upd, N, db, u.db, M, a);
    ElemOn(c, upd, db0, N, db, u.db, M, a, u.db, prop, y, e);
    OneMoreElem(c, upd, db0, M, a, u.db, prop, x.elems, es, e);
    PutIsKept(c, upd, M, a, u.db, ListAdd, t, row, p, Many(es + [e]));
    ThenWider(c, upd, M, a, u.db, M, a, s.db);
    ElemsOn(c, upd, db0, M, a, u.db, M, a, s.db, prop, x.elems, es + [e]);
    PutKeepsIdentity(c, u.db, ListAdd, t, row, p, Many(es + [e]));
    ElemsStep(c, prop, x.elems, k);
    assert Ids(c, ElemsFrom(c, prop, x.elems, k + 1)) <= Ids(c, ElemsFrom(c, prop, x.elems, k)) by {
      IdsLess(c, ElemsFrom(c, prop, x.elems, k + 1), ElemsFrom(c, prop, x.elems, k));
    }
  }

  lemma IdsJoin(c: Config, N: set<Node>, M: set<Node>)
    ensures Ids(c, N + M) == Ids(c, N) + Ids(c, M)
  {}

  lemma PutKeepsIdentity(c: Config, db: Db, kind: Kind, t: nat, row: nat, p: nat, cell: Cell)
    requires InRange(db, t, row, p) && !IsPrimary(c, t, p)
    ensures RowId(c, Put(db, kind, t, row, p, cell), t, row) == RowId(c, db, t, row)
    ensures Fewer(db, Put(db, kind, t, row, p, cell))
  {
    PutCells(db, kind, t, row, p, cell);
  }

  lemma OneMoreElem(c: Config, upd: bool, db0: Db, N: set<Node>, a: Db, db: Db, prop: Property, vs: seq<Value>,
                    es: seq<Elem>, e: Elem)
    requires ElemsHeld(c, upd, db0, N, a, db, prop, vs, es) && |es| < |vs|
    requires HoldsElem(c, upd, db0, N, a, db, prop, vs[|es|], e)
    ensures ElemsHeld(c, upd, db0, N, a, db, prop, vs, es + [e])
  {
    hide HoldsElem;
  }

  lemma AddedIsItem(c: Config, db: Db, t: nat, row: nat, p: nat, x: Value, upd: bool)
    requires AddValue(c, db, t, row, p, x, upd).res.Ok?
    requires var u := UnboxItem(c, db, Prop(c, t, p), x, upd, false, None);
      CellAt(u.db, t, row, p) == CellAt(db, t, row, p)
    ensures var u := UnboxItem(c, db, Prop(c, t, p), x, upd, false, None);
      && u.res.Ok? && Validate(u.db, Prop(c, t, p), u.res.value).Ok?
      && AddValue(c, db, t, row, p, x, upd).db ==
         Put(u.db, ListAdd, t, row, p, Many(ListAt(db, t, row, p) + [ItemElem(u.res.value)]))
  {
    hide UnboxItem;
  }

  /** The elements before describe other objects. */
  lemma KeptWhileUnboxing(c: Config, upd: bool, done: set<Node>, a: Db, db: Db, t: nat, row: nat, p: nat, x: Value,
                          k: nat)
    requires Started(c, db, t) && p < |Props(c, t)| && x.Vals? && k < |x.elems|
    requires upd ==> Ids(c, done) !! Ids(c, ElemsFrom(c, Prop(c, t, p), x.elems, k))
    ensures Kept(c, upd, done, a, db, UnboxItem(c, db, Prop(c, t, p), x.elems[k], upd, false, None).db)
  {
    hide Evolves, Ids, Guard, Kept, ElemsFrom;
    var prop, N := Prop(c, t, p), ItemNodes(c, Prop(c, t, p), x.elems[k]);
    PropertyIsValid(c, t, p);
    ElemsStep(c, prop, x.elems, k);
    IdsLess(c, N, ElemsFrom(c, prop, x.elems, k));
    GuardAvoids(c, upd, done, a, db, N);
    var K := Guard(c, upd, done, a, db);
    assert Creating(K, upd) by { GuardIsNotAll(c, upd, done, a, db); }
    UnboxItemEvolves(c, WritesKeys(c, upd), K, {}, db, prop, x.elems[k], upd, false, None);
    GuardedIsKept(c, upd, WritesKeys(c, upd), done, a, {}, db,
                  UnboxItem(c, db, prop, x.elems[k], upd, false, None).db);
  }

  // ---- The theorem --------------------------------------------------------------------------------------

  /**
   * Full round trip: after a create every object that the value describes, at any depth of links and lists,
   * is in its row. That is the row that carried its key, if it is updated, or else a new one; it holds what is
   * supplied, and otherwise what it held, or its defaults if it is new. An update must not describe an object
   * twice; the diff mode must not be misled, and must not write keys.
   */
  lemma CreateStoresBelow(c: Config, db: Db, t: nat, v: Value, upd: bool, diff: bool)
    requires ValidConfig(c) && Sound(c, db) && t < |c.schema| && v.Obj? && (upd ==> Distinct(c, t, v))
    requires diff ==> !WritesKeys(c, upd) && !Misled(c, db, t, v, upd, true)
    ensures var s := Create(c, db, t, v, upd, diff, None);
      s.res.Ok? ==> Holds(c, upd, db, Nodes(c, t, v), db, s.db, t, v, s.res.value)
  {
    hide Create, Holds, Misled, Distinct, Nodes, Sound;
    var s, plain := Create(c, db, t, v, upd, diff, None), Create(c, db, t, v, upd, false, None);
    if s.res.Ok? {
      InsideOnly(c, db, t, v, upd, diff);
      if upd { EvolvesRefl(c, false, Ids(c, Nodes(c, t, v)), {}, db); }
      CreateHolds(c, upd, db, db, t, v, None);
      if diff {
        CreateModesPartIff(c, db, t, v, upd);
        SameTablesHold(c, upd, db, Nodes(c, t, v), plain.db, s.db, t, v, s.res.value);
      }
    }
  }

  /**
   * The same for setting a property, and so for assigning a list: afterwards its cell holds the value, and every
   * object that is described in it is in its row. An update must not describe an object twice, or the one it sets.
   */
  lemma SetPropertyValueStores(c: Config, db: Db, t: nat, row: nat, p: nat, x: Value, upd: bool)
    requires ValidConfig(c) && Sound(c, db) && t < |c.schema| && !IsPrimary(c, t, p)
    requires var prop := Prop(c, t, p);
      upd ==> DistinctIn(c, prop, x) && RowId(c, db, t, row) !in Ids(c, PropNodes(c, prop, x))
    ensures var s, prop := SetPropertyValue(c, db, t, row, p, x, upd), Prop(c, t, p);
      s.res.Ok? ==>
        HoldsValue(c, upd, db, PropNodes(c, prop, x), db, s.db, prop, x, false, CellAt(db, t, row, p),
                   CellAt(s.db, t, row, p))
  {
    hide SetProp, HoldsValue, Distinct, DistinctAlong, Evolves, Sound;
    if SetPropertyValue(c, db, t, row, p, x, upd).res.Ok? {
      if upd { EvolvesRefl(c, false, Ids(c, PropNodes(c, Prop(c, t, p), x)), {}, db); }
      SetHolds(c, upd, db, db, t, row, p, x, false);
    }
  }

  lemma InsideOnly(c: Config, db: Db, t: nat, v: Value, upd: bool, diff: bool)
    requires Create(c, db, t, v, upd, diff, None).res.Ok?
    ensures c.inWrite
  {}

  lemma SameTablesHold(c: Config, upd: bool, db0: Db, N: set<Node>, db: Db, db': Db, t: nat, v: Value, row: nat)
    requires Holds(c, upd, db0, N, db0, db, t, v, row) && db'.tables == db.tables
    ensures Holds(c, upd, db0, N, db0, db', t, v, row)
  {
    hide Holds;
    HoldsOn(c, upd, db0, N, db0, db, N, db0, db', t, v, row);
  }
}
