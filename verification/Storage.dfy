/** What is stored is what was supplied: creating and then reading gives the values back. */
module Storage {
  import opened Outcomes
  import opened Schemas
  import opened Tables
  import opened Upsert
  import opened Meanings
  import opened Trace
  import opened Evolution
  import opened Keeps
  import opened Reuse
  import opened DiffMode

  // ---- What a cell must hold for a value ----------------------------------------------------

  /**
   * The element stands for the value: the scalar itself, null, the given row, or a row that carries
   * the key the value describes.
   */
  ghost predicate Denotes(c: Config, db: Db, prop: Property, x: Value, e: Elem) {
    if !prop.base.Object? then Takes(prop, x) && e == ElemOf(x)
    else if x.Null? && !prop.isArray then e == Nothing
    else if x.RowRef? then e == Link(x.row)
    else e.Link? && e.row < NumRows(db, prop.target) && Carries(c, db, Node(prop.target, x), e.row)
  }

  ghost predicate AllDenote(c: Config, db: Db, prop: Property, vs: seq<Value>, es: seq<Elem>) {
    && |es| <= |vs|
    && forall k :: 0 <= k < |es| ==> Denotes(c, db, prop, vs[k], es[k]) && OfTarget(prop, vs[k])
  }

  /** A row in a list is one of the target table. */
  predicate OfTarget(prop: Property, x: Value) {
    prop.base.Object? && x.RowRef? ==> x.t == prop.target
  }

  ghost predicate Stored(c: Config, db: Db, prop: Property, x: Value, cell: Cell) {
    if prop.isArray then
      match x
      case Null => cell == Many([])
      case Vals(vs) => cell.Many? && |cell.es| == |vs| && AllDenote(c, db, prop, vs, cell.es)
      case _ => false
    else cell.One? && Denotes(c, db, prop, x, cell.e)
  }

  /** A defaulted null link is not written at all, nor is a list assigned to itself. */
  predicate LeftAlone(prop: Property, x: Value, isDefault: bool) {
    if prop.isArray then x.ListRef? else isDefault && prop.base.Object? && x.Null?
  }

  /** A row whose key a value describes is not the row that is being written. */
  predicate Elsewhere(c: Config, t: nat, row: nat, prop: Property, x: Value, e: Elem) {
    x.Obj? && e.Link? && Primary(c, prop.target).Some? ==> prop.target != t || e.row != row
  }

  ghost predicate AllElsewhere(c: Config, t: nat, row: nat, prop: Property, vs: seq<Value>, es: seq<Elem>) {
    forall k :: 0 <= k < |es| && k < |vs| ==> Elsewhere(c, t, row, prop, vs[k], es[k])
  }

  /** Writing within a row, and whatever else the guard allows, changes no identity of other rows. */
  ghost predicate Within(c: Config, kw: bool, K: set<Id>, W: set<Loc>, db: Db, db': Db, t: nat, row: nat) {
    Evolves(c, kw, K, W, db, db') && (kw ==> Everything in K) && forall l :: l in W ==> l.t == t && l.row == row
  }

  lemma DenotesStays(c: Config, kw: bool, K: set<Id>, W: set<Loc>, db: Db, db': Db, t: nat, row: nat,
                     prop: Property, x: Value, e: Elem)
    requires Within(c, kw, K, W, db, db', t, row) && Elsewhere(c, t, row, prop, x, e) && Denotes(c, db, prop, x, e)
    ensures Denotes(c, db', prop, x, e)
  {
    if kw && e.Link? && e.row < NumRows(db, prop.target) && Primary(c, prop.target).Some? {
      var p := Primary(c, prop.target).value;
      assert InRange(db, prop.target, e.row, p) == (p < |Props(c, prop.target)|) == InRange(db', prop.target, e.row, p);
    }
  }

  lemma AllDenoteStays(c: Config, kw: bool, K: set<Id>, W: set<Loc>, db: Db, db': Db, t: nat, row: nat,
                       prop: Property, vs: seq<Value>, es: seq<Elem>)
    requires Within(c, kw, K, W, db, db', t, row) && AllElsewhere(c, t, row, prop, vs, es)
    requires AllDenote(c, db, prop, vs, es)
    ensures AllDenote(c, db', prop, vs, es)
  {
    forall k | 0 <= k < |es| ensures Denotes(c, db', prop, vs[k], es[k]) && OfTarget(prop, vs[k]) {
      DenotesStays(c, kw, K, W, db, db', t, row, prop, vs[k], es[k]);
    }
  }

  /** The value is stored in the cell, and describes no object that is the row of the cell. */
  ghost predicate Settled(c: Config, db: Db, t: nat, row: nat, prop: Property, x: Value, cell: Cell) {
    && Stored(c, db, prop, x, cell)
    && match cell
       case One(e) => Elsewhere(c, t, row, prop, x, e)
       case Many(es) => x.Vals? ==> AllElsewhere(c, t, row, prop, x.elems, es)
  }

  lemma StoredStays(c: Config, kw: bool, K: set<Id>, W: set<Loc>, db: Db, db': Db, t: nat, row: nat,
                    prop: Property, x: Value, cell: Cell)
    requires Within(c, kw, K, W, db, db', t, row) && Settled(c, db, t, row, prop, x, cell)
    ensures Stored(c, db', prop, x, cell)
  {
    if prop.isArray {
      if x.Vals? { AllDenoteStays(c, kw, K, W, db, db', t, row, prop, x.elems, cell.es); }
    } else {
      DenotesStays(c, kw, K, W, db, db', t, row, prop, x, cell.e);
    }
  }

  /** Where keys are written and compared, no key may be one that a typed read of null returns. */
  ghost predicate KeysSafe(c: Config, upd: bool, diff: bool, N: set<Node>) {
    WritesKeys(c, upd) && diff ==> forall n :: n in N ==> KeySafe(c, n)
  }

  predicate KeySafe(c: Config, n: Node) {
    Primary(c, n.t).Some? && FieldOrDefault(c, n, Primary(c, n.t).value).Given? ==>
      var p := Primary(c, n.t).value;
      NullSafeFor(c, Prop(c, n.t, p), FieldOrDefault(c, n, p).v)
  }

  predicate Mistaken(c: Config, db: Db, t: nat, place: Place, v: Value, j: nat) {
    var w := Choose(c, t, j, v, place);
    w.Write? && MistakenAt(c, Prop(c, t, j), w.x, CellAt(db, t, place.row, j))
  }

  /** No row carries the key a value asks for. */
  ghost predicate Unclaimed(c: Config, db: Db, t: nat, v: Value) {
    forall key :: AsksFor(c, t, v, key) ==> !Carried(c, db, t, key)
  }

  lemma UnclaimedIff(c: Config, db: Db, t: nat, v: Value)
    ensures Unclaimed(c, db, t, v) <==>
            (Primary(c, t).Some? && KeyOf(c, t, Primary(c, t).value, v).Ok? ==>
               FindFirst(db, t, Primary(c, t).value, KeyOf(c, t, Primary(c, t).value, v).value).None?)
  {
    if Primary(c, t).Some? {
      var p := Primary(c, t).value;
      KeyIsOffered(c, t, p, v);
      if KeyOf(c, t, p, v).Ok? {
        var key := KeyOf(c, t, p, v).value;
        var found := FindFirst(db, t, p, key);
        assert AsksFor(c, t, v, key);
        if found.Some? { assert CellAt(db, t, found.value, p) == One(key); }
      }
    }
  }

  // ---- A row that is being populated --------------------------------------------------------------

  /**
   * A row being populated from property `i` on: protected by its identity, which the run never
   * comes back to, or, when nothing is updated, with all the rows there are.
   */
  ghost predicate Populating(c: Config, K: set<Id>, db: Db, t: nat, place: Place, v: Value, upd: bool, diff: bool,
                        i: nat) {
    && c.inWrite && ValidConfig(c) && Sound(c, db) && t < |c.schema|
    && place.row < NumRows(db, t) && (WritesKeys(c, upd) || place.skipPrimary)
    && (if Everything in K then !upd else K == {RowId(c, db, t, place.row)} && !WritesKeys(c, upd))
    && Avoids(c, K, ChildNodes(c, t, v))
    && (diff && v.Obj? ==> LeavesAlone(K, StepsFrom(c, db, t, place, v, upd, diff, i)))
  }

  /** The cells the population loop writes. */
  ghost function Chosen(c: Config, t: nat, v: Value, place: Place, i: nat): set<Loc> {
    set j: nat | i <= j < |Props(c, t)| && Choose(c, t, j, v, place).Write? :: Loc(t, place.row, j)
  }

  /** The rest of the loop evolves the database without touching other cells of the row. */
  lemma RestEvolves(c: Config, K: set<Id>, db: Db, t: nat, place: Place, v: Value, upd: bool, diff: bool, i: nat)
    requires Populating(c, K, db, t, place, v, upd, diff, i)
    ensures Within(c, WritesKeys(c, upd), K, Chosen(c, t, v, place, i), db,
                   Populate(c, db, t, place, v, upd, diff, i).db, t, place.row)
  {
    PopulateEvolves(c, WritesKeys(c, upd), K, Chosen(c, t, v, place, i), db, t, place, v, upd, diff, i);
  }

  lemma RestSparesCell(c: Config, K: set<Id>, db: Db, t: nat, place: Place, v: Value, upd: bool, diff: bool, i: nat,
                       j: nat)
    requires Populating(c, K, db, t, place, v, upd, diff, i) && j < |Props(c, t)| && j < i
    ensures CellAt(Populate(c, db, t, place, v, upd, diff, i).db, t, place.row, j) == CellAt(db, t, place.row, j)
  {
    RestEvolves(c, K, db, t, place, v, upd, diff, i);
    assert InRange(db, t, place.row, j) && Loc(t, place.row, j) !in Chosen(c, t, v, place, i);
    SparedCell(c, WritesKeys(c, upd), K, Chosen(c, t, v, place, i), db,
               Populate(c, db, t, place, v, upd, diff, i).db, t, place.row, j);
  }

  /** Setting one property leaves the row ready for the next and its other cells as they were. */
  lemma PopulatingStays(c: Config, K: set<Id>, db: Db, db': Db, t: nat, place: Place, v: Value, upd: bool, diff: bool,
                        i: nat)
    requires Populating(c, K, db, t, place, v, upd, diff, i)
    requires Evolves(c, WritesKeys(c, upd), K, {Loc(t, place.row, i)}, db, db')
    requires diff && v.Obj? ==> LeavesAlone(K, StepsFrom(c, db', t, place, v, upd, diff, i + 1))
    ensures Populating(c, K, db', t, place, v, upd, diff, i + 1)
    ensures forall j: nat :: j < |Props(c, t)| && j != i ==> CellAt(db', t, place.row, j) == CellAt(db, t, place.row, j)
  {
    forall j: nat | j < |Props(c, t)| && j != i ensures CellAt(db', t, place.row, j) == CellAt(db, t, place.row, j) {
      assert InRange(db, t, place.row, j) && Loc(t, place.row, j) !in {Loc(t, place.row, i)};
    }
  }

  /** A chosen value is set without touching other cells of the row. */
  lemma OneEvolves(c: Config, K: set<Id>, db: Db, t: nat, place: Place, v: Value, upd: bool, diff: bool, i: nat)
    requires Populating(c, K, db, t, place, v, upd, diff, i)
    requires i < |Props(c, t)| && Choose(c, t, i, v, place).Write?
    ensures var w := Choose(c, t, i, v, place);
      var s := SetProp(c, db, t, place.row, i, w.x, upd, diff, w.isDefault);
      && Within(c, WritesKeys(c, upd), K, {Loc(t, place.row, i)}, db, s.db, t, place.row)
      && (diff ==> LeavesAlone(K, StepsAt(c, db, t, place.row, i, w.x, upd, diff, w.isDefault)))
      && (diff && s.res.Ok? ==> LeavesAlone(K, StepsFrom(c, s.db, t, place, v, upd, diff, i + 1)))
  {
    var w := Choose(c, t, i, v, place);
    var s := SetProp(c, db, t, place.row, i, w.x, upd, diff, w.isDefault);
    LeavesAloneSplit(K, StepsAt(c, db, t, place.row, i, w.x, upd, diff, w.isDefault),
                     if s.res.Ok? then StepsFrom(c, s.db, t, place, v, upd, diff, i + 1) else []);
    ChosenNodes(c, t, i, v, place);
    SetPropEvolves(c, WritesKeys(c, upd), K, {Loc(t, place.row, i)}, db, t, place.row, i, w.x, upd, diff, w.isDefault);
  }

  // ---- The identity of a created object -----------------------------------------------------------

  /** In a migration the key of a duplicate is written by the population loop. */
  lemma {:induction false} PopulateWritesKey(c: Config, K: set<Id>, db: Db, t: nat, place: Place, v: Value,
                        diff: bool, i: nat, p: nat)
    requires Populating(c, K, db, t, place, v, false, diff, i) && Everything in K
    requires diff ==> KeySafe(c, Node(t, v))
    requires Primary(c, t) == Some(p) && KeyOf(c, t, p, v).Ok? && place.created && !place.skipPrimary && i <= p
    requires CellAt(db, t, place.row, p) == EmptyCell(Prop(c, t, p))
    ensures var s := Populate(c, db, t, place, v, false, diff, i);
      s.res.Ok? ==> CellAt(s.db, t, place.row, p) == One(KeyOf(c, t, p, v).value)
    decreases p - i
  {
    hide SetProp, StepsFrom, StepsAt, Evolves, Avoids;
    var w := Choose(c, t, i, v, place);
    if Populate(c, db, t, place, v, false, diff, i).res.Ok? {
      if w.Write? {
        var s := SetProp(c, db, t, place.row, i, w.x, false, diff, w.isDefault);
        OneEvolves(c, K, db, t, place, v, false, diff, i);
        PopulatingStays(c, K, db, s.db, t, place, v, false, diff, i);
        if i < p {
          PopulateWritesKey(c, K, s.db, t, place, v, diff, i + 1, p);
        } else {
          RestSparesCell(c, K, s.db, t, place, v, false, diff, i + 1, p);
          KeyIsSet(c, db, t, place, v, diff, p);
        }
      } else {
        SkippingStays(c, K, db, t, place, v, false, diff, i);
        if i < p {
          PopulateWritesKey(c, K, db, t, place, v, diff, i + 1, p);
        } else {
          RestSparesCell(c, K, db, t, place, v, false, diff, i + 1, p);
        }
      }
    }
  }

  lemma KeyIsSet(c: Config, db: Db, t: nat, place: Place, v: Value, diff: bool, p: nat)
    requires ValidConfig(c) && Sound(c, db) && t < |c.schema| && place.row < NumRows(db, t)
    requires diff ==> KeySafe(c, Node(t, v))
    requires Primary(c, t) == Some(p) && KeyOf(c, t, p, v).Ok? && Choose(c, t, p, v, place).Write?
    ensures var w := Choose(c, t, p, v, place);
      var s := SetProp(c, db, t, place.row, p, w.x, false, diff, w.isDefault);
      s.res.Ok? ==> CellAt(s.db, t, place.row, p) == One(KeyOf(c, t, p, v).value)
  {
    var w := Choose(c, t, p, v, place);
    assert InRange(db, t, place.row, p) && CellOk(db, Prop(c, t, p), CellAt(db, t, place.row, p));
    assert FieldOrDefault(c, Node(t, v), p) == Given(w.x);
    assert UnboxScalar(Prop(c, t, p), w.x) == KeyOf(c, t, p, v);
    PutOnlyAt(db, SetCell, Loc(t, place.row, p), One(KeyOf(c, t, p, v).value));
  }

  /** The key is stamped on the new row, or it is not taken for the null that is there. */
  ghost predicate KeyIsKept(c: Config, db: Db, t: nat, v: Value) {
    Unclaimed(c, db, t, v) || KeySafe(c, Node(t, v))
  }

  /** The row a create returns carries the key its value describes. */
  lemma CreateIdentifies(c: Config, db: Db, t: nat, v: Value, upd: bool, diff: bool, cur: Option<nat>)
    requires ValidConfig(c) && Sound(c, db) && t < |c.schema|
    requires cur.Some? ==> cur.value < NumRows(db, t)
    requires WritesKeys(c, upd) && diff ==> KeyIsKept(c, db, t, v) && (Primary(c, t).Some? || cur.None?)
    ensures var s := Create(c, db, t, v, upd, diff, cur);
      s.res.Ok? ==>
        && s.res.value < NumRows(s.db, t) && Carries(c, s.db, Node(t, v), s.res.value)
        && (!upd && (diff ==> Primary(c, t).Some? || cur.None?) ==> s.res.value == NumRows(db, t))
  {
    if Create(c, db, t, v, upd, diff, cur).res.Ok? {
      var kw, at := WritesKeys(c, upd), Locate(c, db, t, v, upd, diff, cur);
      if kw {
        KeyIsCreated(c, db, t, v, diff, cur);
      } else {
        LocateEvolves(c, false, {}, {}, db, t, v, upd, diff, cur);
        ChosenMayBeWritten(c, false, {}, {}, at.db, t, at.res.value, v);
        PopulateEvolves(c, false, {}, {}, at.db, t, at.res.value, v, upd, diff, 0);
      }
    }
  }

  lemma KeyIsCreated(c: Config, db: Db, t: nat, v: Value, diff: bool, cur: Option<nat>)
    requires ValidConfig(c) && Sound(c, db) && t < |c.schema| && c.inMigration
    requires cur.Some? ==> cur.value < NumRows(db, t)
    requires diff ==> KeyIsKept(c, db, t, v) && (Primary(c, t).Some? || cur.None?)
    requires Create(c, db, t, v, false, diff, cur).res.Ok?
    ensures var s := Create(c, db, t, v, false, diff, cur);
      && s.res.value == NumRows(db, t) < NumRows(s.db, t)
      && Carries(c, s.db, Node(t, v), s.res.value)
  {
    var at := Locate(c, db, t, v, false, diff, cur);
    var place, end := at.res.value, Create(c, db, t, v, false, diff, cur).db;
    UnclaimedIff(c, db, t, v);
    LocateEvolves(c, true, {Everything}, {}, db, t, v, false, diff, cur);
    NoFieldsNoChildren(c, t, v);
    if diff { NothingIsReusedBelow(c, db, t, v, cur); }
    RestEvolves(c, {Everything}, at.db, t, place, v, false, diff, 0);
    PopulateReturns(c, at.db, t, place, v, false, diff, 0);
    if Primary(c, t).Some? {
      var p := Primary(c, t).value;
      assert v.Obj? && InRange(at.db, t, place.row, p);
      if place.skipPrimary {
        assert Loc(t, place.row, p) !in Chosen(c, t, v, place, 0);
        SparedCell(c, true, {Everything}, Chosen(c, t, v, place, 0), at.db, end, t, place.row, p);
      } else {
        AppendCells(db, t, EmptyRow(Props(c, t)));
        PopulateWritesKey(c, {Everything}, at.db, t, place, v, diff, 0, p);
      }
    }
  }

  lemma NothingIsReusedBelow(c: Config, db: Db, t: nat, v: Value, cur: Option<nat>)
    requires ValidConfig(c) && Sound(c, db) && t < |c.schema| && (cur.Some? ==> cur.value < NumRows(db, t))
    requires (Primary(c, t).Some? || cur.None?) && c.inWrite && Locate(c, db, t, v, false, true, cur).res.Ok?
    ensures var at := Locate(c, db, t, v, false, true, cur);
      v.Obj? ==> LeavesAlone({Everything}, StepsFrom(c, at.db, t, at.res.value, v, false, true, 0))
  {
    var at := Locate(c, db, t, v, false, true, cur);
    CreateReusesNothing(c, db, t, v, cur);
    if v.Obj? {
      assert forall s :: s in StepsFrom(c, at.db, t, at.res.value, v, false, true, 0) ==>
             s in Steps(c, db, t, v, false, true, cur);
    }
  }

  /** Only an object description has anything below it. */
  lemma NoFieldsNoChildren(c: Config, t: nat, v: Value)
    ensures ChildNodes(c, t, v) <= Nodes(c, t, v)
  {}

  lemma {:induction false} PopulateReturns(c: Config, db: Db, t: nat, place: Place, v: Value, upd: bool, diff: bool,
                        i: nat)
    ensures var s := Populate(c, db, t, place, v, upd, diff, i); s.res.Ok? ==> s.res.value == place.row
    decreases |Props(c, t)| - i
  {
    if i < |Props(c, t)| {
      var w := Choose(c, t, i, v, place);
      PopulateReturns(c, if w.Write? then SetProp(c, db, t, place.row, i, w.x, upd, diff, w.isDefault).db else db,
                      t, place, v, upd, diff, i + 1);
    }
  }

  // ---- One element ----------------------------------------------------------------------------

  /** The cell may be written, and nothing still to come writes to its row. */
  ghost predicate Open(c: Config, K: set<Id>, db: Db, t: nat, row: nat, p: nat, upd: bool, N: set<Node>) {
    && ValidConfig(c) && Sound(c, db)
    && MayWrite(c, WritesKeys(c, upd), {}, {}, db, t, row, p)
    && (if Everything in K then !upd else K == {RowId(c, db, t, row)} && !WritesKeys(c, upd))
    && Avoids(c, K, N)
  }

  lemma OpenIsWritable(c: Config, K: set<Id>, db: Db, t: nat, row: nat, p: nat, upd: bool, N: set<Node>)
    requires Open(c, K, db, t, row, p, upd, N)
    ensures MayWrite(c, WritesKeys(c, upd), K, {Loc(t, row, p)}, db, t, row, p)
    ensures ValidConfig(c) && Sound(c, db) && ValidProperty(c, Prop(c, t, p)) && InRange(db, t, row, p)
    ensures CellOk(db, Prop(c, t, p), CellAt(db, t, row, p))
    ensures Held(K, RowId(c, db, t, row)) && (WritesKeys(c, upd) ==> Everything in K) && Creating(K, upd)
  {}

  /** An unboxed element that passes validation denotes the value it was unboxed from. */
  lemma UnboxDenotes(c: Config, K: set<Id>, db: Db, t: nat, row: nat, p: nat, x: Value, upd: bool, diff: bool,
                     cur: Option<nat>)
    requires Open(c, K, db, t, row, p, upd, ItemNodes(c, Prop(c, t, p), x))
    requires cur.Some? && Prop(c, t, p).base.Object? ==> cur.value < NumRows(db, Prop(c, t, p).target)
    requires diff ==> LeavesAlone(K, StepsIn(c, db, Prop(c, t, p), x, upd, diff, cur))
    requires KeysSafe(c, upd, diff, ItemNodes(c, Prop(c, t, p), x))
    requires Prop(c, t, p).isArray || !x.Null?
    ensures var u, prop := UnboxItem(c, db, Prop(c, t, p), x, upd, diff, cur), Prop(c, t, p);
      u.res.Ok? ==>
        && u.res.value.RowItem? == prop.base.Object? && IsItem(prop, x, u.res.value)
        && Denotes(c, u.db, prop, x, ItemElem(u.res.value)) && Elsewhere(c, t, row, prop, x, ItemElem(u.res.value))
  {
    hide Spares, LogSpares, LogGrows, UniqueKeys, KeysStay, NoneAdded, Create, Steps, LeavesAlone, Nodes, Evolves,
         Sound;
    var prop := Prop(c, t, p);
    OpenIsWritable(c, K, db, t, row, p, upd, ItemNodes(c, prop, x));
    if prop.base.Object? && !x.RowRef? && c.inWrite {
      if Everything in K && diff { LinkedHasKey(c, K, db, prop.target, x, upd, cur); }
      if x.Obj? { ItIsANode(c, prop.target, x); }
      CreateIdentifies(c, db, prop.target, x, upd, diff, cur);
      if !(Everything in K) {
        CreateEvolves(c, false, K, {}, db, prop.target, x, upd, diff, cur);
        OwnKeyStays(c, K, db, Create(c, db, prop.target, x, upd, diff, cur).db, t, row);
      }
    } else if prop.base.Object? && !x.RowRef? {
      NothingOutside(c, db, prop, x, upd, diff, cur);
    }
  }

  /** A row that is handed over is taken as it is. */
  predicate IsItem(prop: Property, x: Value, item: Item) {
    prop.base.Object? && x.RowRef? ==> item == RowItem(x.t, x.row)
  }

  lemma OwnKeyStays(c: Config, K: set<Id>, db: Db, db': Db, t: nat, row: nat)
    requires Evolves(c, false, K, {}, db, db') && row < NumRows(db, t)
    ensures RowId(c, db', t, row) == RowId(c, db, t, row)
  {}

  lemma ItIsANode(c: Config, t: nat, x: Value)
    requires x.Obj?
    ensures Node(t, x) in Nodes(c, t, x)
  {}

  lemma NothingOutside(c: Config, db: Db, prop: Property, x: Value, upd: bool, diff: bool, cur: Option<nat>)
    requires !c.inWrite && prop.base.Object? && !x.RowRef?
    ensures UnboxItem(c, db, prop, x, upd, diff, cur).res.Err?
  {}

  /** Where all rows are protected, none is reused. */
  lemma LinkedHasKey(c: Config, K: set<Id>, db: Db, t: nat, v: Value, upd: bool, cur: Option<nat>)
    requires Everything in K && c.inWrite && LeavesAlone(K, Steps(c, db, t, v, upd, true, cur))
    ensures Primary(c, t).Some? || cur.None?
  {
    match cur
    case None =>
    case Some(row) => assert Primary(c, t).None? ==> Reusing(t, row) in Steps(c, db, t, v, upd, true, cur);
  }

  /** The element an unboxed item becomes. */
  function ItemElem(item: Item): Elem {
    match item case ElemItem(e) => e case RowItem(_, row) => Link(row)
  }

  // ---- Lists ------------------------------------------------------------------------------------

  /** Between two elements the first `k` are in place and the rest of the old list follows. */
  ghost predicate ListSoFar(c: Config, db: Db, t: nat, row: nat, p: nat, vs: seq<Value>, k: nat, sz: nat) {
    var es := ListAt(db, t, row, p);
    && CellAt(db, t, row, p).Many?
    && |es| == (if k < sz then sz else k)
    && AllDenote(c, db, Prop(c, t, p), vs, es[..k]) && AllElsewhere(c, t, row, Prop(c, t, p), vs, es[..k])
  }

  lemma OpenStays(c: Config, K: set<Id>, W: set<Loc>, db: Db, db': Db, t: nat, row: nat, p: nat, upd: bool,
                  N: set<Node>)
    requires Open(c, K, db, t, row, p, upd, N) && Evolves(c, WritesKeys(c, upd), K, W, db, db')
    ensures Open(c, K, db', t, row, p, upd, N)
  {}

  /** Unboxing an element of a list leaves the list as it was. */
  lemma UnboxingSparesList(c: Config, K: set<Id>, db: Db, t: nat, row: nat, p: nat, x: Value, upd: bool, k: nat,
                           sz: nat)
    requires Open(c, K, db, t, row, p, upd, ItemNodes(c, Prop(c, t, p), x)) && Prop(c, t, p).isArray
    requires LeavesAlone(K, StepsBy(c, db, t, row, p, x, upd, k, sz)) && (k < sz ==> k < |ListAt(db, t, row, p)|)
    ensures var prop, cur := Prop(c, t, p), RowAt(db, t, row, p, k, sz);
      var u := UnboxItem(c, db, prop, x, upd, k < sz, cur);
      && (cur.Some? && prop.base.Object? ==> cur.value < NumRows(db, prop.target))
      && Evolves(c, WritesKeys(c, upd), K, {}, db, u.db)
      && CellAt(u.db, t, row, p) == CellAt(db, t, row, p) && CellAt(u.db, t, row, p).Many?
      && Open(c, K, u.db, t, row, p, upd, ItemNodes(c, prop, x))
      && (u.res.Ok? ==>
            && u.res.value.RowItem? == prop.base.Object?
            && (Validate(u.db, prop, u.res.value).Ok? ==> ElemOk(u.db, prop, Validate(u.db, prop, u.res.value).value)))
  {
    hide Spares, LogSpares, KeysStay, UniqueKeys, Grows, LogGrows, Nodes;
    var prop, cur := Prop(c, t, p), RowAt(db, t, row, p, k, sz);
    OpenIsWritable(c, K, db, t, row, p, upd, ItemNodes(c, prop, x));
    if k < sz && k < |ListAt(db, t, row, p)| { ListElemOk(c, db, t, row, p, k); }
    UnboxItemEvolves(c, WritesKeys(c, upd), K, {}, db, prop, x, upd, k < sz, cur);
    var u := UnboxItem(c, db, prop, x, upd, k < sz, cur);
    SparedCell(c, WritesKeys(c, upd), K, {}, db, u.db, t, row, p);
    OpenStays(c, K, {}, db, u.db, t, row, p, upd, ItemNodes(c, prop, x));
  }

  lemma ElementStores(c: Config, K: set<Id>, db: Db, t: nat, row: nat, p: nat, vs: seq<Value>, upd: bool, k: nat,
                      sz: nat)
    requires Prop(c, t, p).isArray && k < |vs|
    requires Open(c, K, db, t, row, p, upd, ItemNodes(c, Prop(c, t, p), vs[k]))
    requires LeavesAlone(K, StepsBy(c, db, t, row, p, vs[k], upd, k, sz))
    requires KeysSafe(c, upd, k < sz, ItemNodes(c, Prop(c, t, p), vs[k]))
    requires ListSoFar(c, db, t, row, p, vs, k, sz)
    ensures var s := if k < sz then SetValue(c, db, t, row, p, k, vs[k], upd)
            else AddValue(c, db, t, row, p, vs[k], upd);
      s.res.Ok? ==>
        && ListSoFar(c, s.db, t, row, p, vs, k + 1, sz)
        && Evolves(c, WritesKeys(c, upd), K, {Loc(t, row, p)}, db, s.db)
  {
    hide Spares, LogSpares, KeysStay, LogGrows, UniqueKeys, Grows, Avoids, NullSafe, Create, Nodes;
    var prop, es, kw := Prop(c, t, p), ListAt(db, t, row, p), WritesKeys(c, upd);
    OpenIsWritable(c, K, db, t, row, p, upd, ItemNodes(c, prop, vs[k]));
    var cur := RowAt(db, t, row, p, k, sz);
    UnboxingSparesList(c, K, db, t, row, p, vs[k], upd, k, sz);
    UnboxDenotes(c, K, db, t, row, p, vs[k], upd, k < sz, cur);
    var u := UnboxItem(c, db, prop, vs[k], upd, k < sz, cur);
    if u.res.Ok? {
      AllDenoteStays(c, kw, K, {}, db, u.db, t, row, prop, vs, es[..k]);
      PlacedStores(c, K, u.db, t, row, p, vs, upd, u.res.value, k, sz);
      var s := if k < sz then SetValue(c, db, t, row, p, k, vs[k], upd) else AddValue(c, db, t, row, p, vs[k], upd);
      EvolvesWeaken(c, kw, K, {}, {Loc(t, row, p)}, db, u.db);
      if s.res.Ok? { EvolvesTrans(c, kw, K, {Loc(t, row, p)}, db, u.db, s.db); }
    }
  }

  lemma AvoidsNothing(c: Config, K: set<Id>)
    ensures Avoids(c, K, {})
  {}

  lemma PlacedStores(c: Config, K: set<Id>, db: Db, t: nat, row: nat, p: nat, vs: seq<Value>, upd: bool, item: Item,
                     k: nat, sz: nat)
    requires Prop(c, t, p).isArray && k < |vs|
    requires Open(c, K, db, t, row, p, upd, ItemNodes(c, Prop(c, t, p), vs[k]))
    requires ListSoFar(c, db, t, row, p, vs, k, sz)
    requires Validate(db, Prop(c, t, p), item).Ok? ==>
             ElemOk(db, Prop(c, t, p), Validate(db, Prop(c, t, p), item).value)
    requires Denotes(c, db, Prop(c, t, p), vs[k], ItemElem(item)) && IsItem(Prop(c, t, p), vs[k], item)
    requires Elsewhere(c, t, row, Prop(c, t, p), vs[k], ItemElem(item))
    ensures var s := PlaceItem(db, Prop(c, t, p), t, row, p, k, sz, item);
      s.res.Ok? ==>
        && ListSoFar(c, s.db, t, row, p, vs, k + 1, sz)
        && Evolves(c, WritesKeys(c, upd), K, {Loc(t, row, p)}, db, s.db)
  {
    hide Evolves, Sound, Open, Denotes, Elsewhere, ItemNodes, MayWrite, AllDenote, AllElsewhere;
    var prop, es, kw, W := Prop(c, t, p), ListAt(db, t, row, p), WritesKeys(c, upd), {Loc(t, row, p)};
    OpenIsWritable(c, K, db, t, row, p, upd, ItemNodes(c, prop, vs[k]));
    EvolvesRefl(c, kw, K, W, db);
    if k < sz && !ItemDiffers(prop, es[k], item) {
      assert es[..k + 1] == es[..k] + [es[k]];
      OneMoreDenotes(c, db, t, row, prop, vs, es[..k], es[k]);
    } else if Validate(db, prop, item).Ok? {
      var e := Validate(db, prop, item).value;
      var es' := if k < sz then es[k := e] else es + [e];
      var kind := if k < sz then ListSet else ListAdd;
      ListElemsOk(c, db, t, row, p);
      PutEvolves(c, kw, K, W, db, kind, t, row, p, Many(es'));
      var db' := Put(db, kind, t, row, p, Many(es'));
      assert es'[..k + 1] == es[..k] + [e];
      OneMoreDenotes(c, db, t, row, prop, vs, es[..k], e);
      AllDenoteStays(c, kw, K, W, db, db', t, row, prop, vs, es[..k] + [e]);
    }
  }

  lemma OneMoreDenotes(c: Config, db: Db, t: nat, row: nat, prop: Property, vs: seq<Value>, es: seq<Elem>, e: Elem)
    requires AllDenote(c, db, prop, vs, es) && AllElsewhere(c, t, row, prop, vs, es) && |es| < |vs|
    requires Denotes(c, db, prop, vs[|es|], e) && OfTarget(prop, vs[|es|])
    requires Elsewhere(c, t, row, prop, vs[|es|], e)
    ensures AllDenote(c, db, prop, vs, es + [e]) && AllElsewhere(c, t, row, prop, vs, es + [e])
  {}

  lemma ListElemsOk(c: Config, db: Db, t: nat, row: nat, p: nat)
    requires Sound(c, db)
    ensures forall k :: 0 <= k < |ListAt(db, t, row, p)| ==> ElemOk(db, Prop(c, t, p), ListAt(db, t, row, p)[k])
  {}

  lemma {:induction false} LoopStores(c: Config, K: set<Id>, db: Db, t: nat, row: nat, p: nat, x: Value, upd: bool,
                        k: nat, sz: nat)
    requires Prop(c, t, p).isArray && x.Vals? && k <= |x.elems|
    requires Open(c, K, db, t, row, p, upd, PropNodes(c, Prop(c, t, p), x))
    requires LeavesAlone(K, StepsAlong(c, db, t, row, p, x.elems, upd, k, sz))
    requires KeysSafe(c, upd, sz > 0, PropNodes(c, Prop(c, t, p), x))
    requires ListSoFar(c, db, t, row, p, x.elems, k, sz)
    ensures var s := AssignDiff(c, db, t, row, p, x.elems, upd, k, sz);
      s.res.Ok? ==> Settled(c, s.db, t, row, Prop(c, t, p), x, CellAt(s.db, t, row, p))
    decreases |x.elems| - k
  {
    hide Evolves, Sound, SetValue, AddValue, StepsBy, LeavesAlone, AllDenote, AllElsewhere, Denotes;
    var kw, W := WritesKeys(c, upd), {Loc(t, row, p)};
    OpenIsWritable(c, K, db, t, row, p, upd, PropNodes(c, Prop(c, t, p), x));
    if k == |x.elems| {
      var es, db' := ListAt(db, t, row, p), Trim(db, t, row, p, k, sz).db;
      TrimCuts(db, Loc(t, row, p), k, sz);
      TrimEvolves(c, kw, K, W, db, t, row, p, k, sz);
      AllDenoteStays(c, kw, K, W, db, db', t, row, Prop(c, t, p), x.elems, es[..k]);
    } else {
      ElementNodes(c, Prop(c, t, p), x, k);
      assert ItemNodes(c, Prop(c, t, p), x.elems[k]) <= PropNodes(c, Prop(c, t, p), x);
      var s := if k < sz then SetValue(c, db, t, row, p, k, x.elems[k], upd)
               else AddValue(c, db, t, row, p, x.elems[k], upd);
      LeavesAloneSplit(K, StepsBy(c, db, t, row, p, x.elems[k], upd, k, sz),
                       if s.res.Ok? then StepsAlong(c, s.db, t, row, p, x.elems, upd, k + 1, sz) else []);
      ElementStores(c, K, db, t, row, p, x.elems, upd, k, sz);
      if s.res.Ok? {
        OpenStays(c, K, W, db, s.db, t, row, p, upd, PropNodes(c, Prop(c, t, p), x));
        LoopStores(c, K, s.db, t, row, p, x, upd, k + 1, sz);
      }
    }
  }

  /** Both modes of assignment leave the list holding exactly what was enumerated, in order. */
  lemma AssignStores(c: Config, K: set<Id>, db: Db, t: nat, row: nat, p: nat, x: Value, upd: bool, diff: bool)
    requires Prop(c, t, p).isArray && !x.ListRef?
    requires Open(c, K, db, t, row, p, upd, PropNodes(c, Prop(c, t, p), x))
    requires diff ==> LeavesAlone(K, StepsOf(c, db, t, row, p, x, upd, diff))
    requires KeysSafe(c, upd, diff, PropNodes(c, Prop(c, t, p), x))
    ensures var s := Assign(c, db, t, row, p, x, upd, diff);
      s.res.Ok? ==> Settled(c, s.db, t, row, Prop(c, t, p), x, CellAt(s.db, t, row, p))
  {
    var kw, W := WritesKeys(c, upd), {Loc(t, row, p)};
    OpenIsWritable(c, K, db, t, row, p, upd, PropNodes(c, Prop(c, t, p), x));
    PutEvolves(c, kw, K, W, db, ListClear, t, row, p, Many([]));
    if x.Vals? {
      if diff {
        LoopStores(c, K, db, t, row, p, x, upd, 0, |ListAt(db, t, row, p)|);
      } else {
        var db' := Clear(db, t, row, p);
        OpenStays(c, K, W, db, db', t, row, p, upd, PropNodes(c, Prop(c, t, p), x));
        PlainStepsAlong(c, db', t, row, p, x, upd, 0, 0);
        LoopStores(c, K, db', t, row, p, x, upd, 0, 0);
        DiffOfNothing(c, db', t, row, p, x.elems, upd, 0);
      }
    }
  }

  // ---- One property -----------------------------------------------------------------------------

  lemma SetPropStores(c: Config, K: set<Id>, db: Db, t: nat, row: nat, p: nat, x: Value, upd: bool, diff: bool,
                      isDefault: bool)
    requires Open(c, K, db, t, row, p, upd, PropNodes(c, Prop(c, t, p), x))
    requires diff ==> LeavesAlone(K, StepsAt(c, db, t, row, p, x, upd, diff, isDefault))
    requires KeysSafe(c, upd, diff, PropNodes(c, Prop(c, t, p), x))
    requires diff ==> !MistakenAt(c, Prop(c, t, p), x, CellAt(db, t, row, p))
    requires !LeftAlone(Prop(c, t, p), x, isDefault)
    ensures var s := SetProp(c, db, t, row, p, x, upd, diff, isDefault);
      s.res.Ok? ==> Settled(c, s.db, t, row, Prop(c, t, p), x, CellAt(s.db, t, row, p))
  {
    var prop, cell := Prop(c, t, p), CellAt(db, t, row, p);
    OpenIsWritable(c, K, db, t, row, p, upd, PropNodes(c, prop, x));
    if prop.nullable && x.Null? {
      PutOnlyAt(db, SetCell, Loc(t, row, p), One(Nothing));
    } else if prop.isArray {
      AssignStores(c, K, db, t, row, p, x, upd, diff);
    } else if prop.base.Object? {
      var below := StepsIn(c, db, prop, x, upd, diff, LinkOf(cell));
      LeavesAloneSplit(K, below, StepsAt(c, db, t, row, p, x, upd, diff, isDefault)[|below|..]);
      SetLinkStores(c, K, db, t, row, p, x, upd, diff, isDefault);
    } else if UnboxScalar(prop, x).Ok? {
      PutOnlyAt(db, SetCell, Loc(t, row, p), One(UnboxScalar(prop, x).value));
    }
  }

  lemma SetLinkStores(c: Config, K: set<Id>, db: Db, t: nat, row: nat, p: nat, x: Value, upd: bool, diff: bool,
                      isDefault: bool)
    requires Open(c, K, db, t, row, p, upd, PropNodes(c, Prop(c, t, p), x))
    requires diff ==> LeavesAlone(K, StepsIn(c, db, Prop(c, t, p), x, upd, diff, LinkOf(CellAt(db, t, row, p))))
    requires KeysSafe(c, upd, diff, PropNodes(c, Prop(c, t, p), x))
    requires Prop(c, t, p).base.Object? && !Prop(c, t, p).isArray && !x.Null?
    ensures var s := SetProp(c, db, t, row, p, x, upd, diff, isDefault);
      s.res.Ok? ==> Settled(c, s.db, t, row, Prop(c, t, p), x, CellAt(s.db, t, row, p))
  {
    hide Create, Nodes, Spares, LogSpares, KeysStay, LogGrows, UniqueKeys, Avoids, NullSafe;
    var prop, cell, kw := Prop(c, t, p), CellAt(db, t, row, p), WritesKeys(c, upd);
    OpenIsWritable(c, K, db, t, row, p, upd, PropNodes(c, prop, x));
    UnboxItemEvolves(c, kw, K, {}, db, prop, x, upd, diff, LinkOf(cell));
    UnboxDenotes(c, K, db, t, row, p, x, upd, diff, LinkOf(cell));
    var u := UnboxItem(c, db, prop, x, upd, diff, LinkOf(cell));
    if u.res.Ok? {
      SparedCell(c, kw, K, {}, db, u.db, t, row, p);
      var target := ItemRow(u.res.value);
      if target < NumRows(u.db, prop.target) { LinkStores(c, kw, K, db, u.db, t, row, p, x, target); }
    }
  }

  lemma LinkStores(c: Config, kw: bool, K: set<Id>, db: Db, mid: Db, t: nat, row: nat, p: nat, x: Value, target: nat)
    requires Evolves(c, kw, K, {}, db, mid) && MayWrite(c, kw, K, {Loc(t, row, p)}, db, t, row, p)
    requires (kw ==> Everything in K)
    requires Prop(c, t, p).base.Object? && !Prop(c, t, p).isArray && target < NumRows(mid, Prop(c, t, p).target)
    requires Denotes(c, mid, Prop(c, t, p), x, Link(target)) && Elsewhere(c, t, row, Prop(c, t, p), x, Link(target))
    ensures var db' := Put(mid, SetCell, t, row, p, One(Link(target)));
      Settled(c, db', t, row, Prop(c, t, p), x, CellAt(db', t, row, p)) && CellAt(db', t, row, p) == One(Link(target))
  {
    var W, link := {Loc(t, row, p)}, One(Link(target));
    EvolvesWeaken(c, kw, K, {}, W, db, mid);
    MayWriteStays(c, kw, K, W, db, mid, t, row, p);
    PutEvolves(c, kw, K, W, mid, SetCell, t, row, p, link);
    DenotesStays(c, kw, K, W, mid, Put(mid, SetCell, t, row, p, link), t, row, Prop(c, t, p), x, Link(target));
  }

  // ---- A whole object ---------------------------------------------------------------------------

  /**
   * Every property from `i` on holds its chosen value, or what it held before: because nothing is
   * chosen for it, or it is left alone, or the diff mode takes its value for the null it holds.
   */
  ghost predicate Populated(c: Config, db: Db, db': Db, t: nat, place: Place, v: Value, diff: bool, i: nat) {
    forall j: nat :: i <= j < |Props(c, t)| ==>
      match Choose(c, t, j, v, place)
      case Write(x, isDefault) =>
        if LeftAlone(Prop(c, t, j), x, isDefault) || (diff && Mistaken(c, db, t, place, v, j)) then
          CellAt(db', t, place.row, j) == CellAt(db, t, place.row, j)
        else Stored(c, db', Prop(c, t, j), x, CellAt(db', t, place.row, j))
      case Skip => CellAt(db', t, place.row, j) == CellAt(db, t, place.row, j)
      case Fail(_) => false
  }

  lemma {:induction false} PopulateStores(c: Config, K: set<Id>, db: Db, t: nat, place: Place, v: Value, upd: bool,
                        diff: bool, i: nat)
    requires Populating(c, K, db, t, place, v, upd, diff, i)
    requires KeysSafe(c, upd, diff, ChildNodes(c, t, v))
    ensures var s := Populate(c, db, t, place, v, upd, diff, i);
      s.res.Ok? ==> Populated(c, db, s.db, t, place, v, diff, i)
    decreases |Props(c, t)| - i
  {
    hide Choose, MistakenAt, Stored, SetProp, Evolves;
    if i < |Props(c, t)| && Populate(c, db, t, place, v, upd, diff, i).res.Ok? {
      match Choose(c, t, i, v, place)
      case Skip =>
        SkippingStays(c, K, db, t, place, v, upd, diff, i);
        PopulateStores(c, K, db, t, place, v, upd, diff, i + 1);
        RestSparesCell(c, K, db, t, place, v, upd, diff, i + 1, i);
      case Write(x, isDefault) =>
        OneWritten(c, K, db, t, place, v, upd, diff, i);
        PopulateStores(c, K, SetProp(c, db, t, place.row, i, x, upd, diff, isDefault).db, t, place, v, upd, diff,
                       i + 1);
    }
  }

  lemma SkippingStays(c: Config, K: set<Id>, db: Db, t: nat, place: Place, v: Value, upd: bool, diff: bool, i: nat)
    requires Populating(c, K, db, t, place, v, upd, diff, i) && i < |Props(c, t)| && Choose(c, t, i, v, place).Skip?
    ensures Populating(c, K, db, t, place, v, upd, diff, i + 1)
  {}

  /** The cell just written keeps its value to the end, and the later ones are still as they were. */
  lemma OneWritten(c: Config, K: set<Id>, db: Db, t: nat, place: Place, v: Value, upd: bool, diff: bool, i: nat)
    requires Populating(c, K, db, t, place, v, upd, diff, i)
    requires KeysSafe(c, upd, diff, ChildNodes(c, t, v))
    requires i < |Props(c, t)| && Choose(c, t, i, v, place).Write?
    requires Populate(c, db, t, place, v, upd, diff, i).res.Ok?
    ensures var w := Choose(c, t, i, v, place);
      var s := SetProp(c, db, t, place.row, i, w.x, upd, diff, w.isDefault);
      var end := Populate(c, db, t, place, v, upd, diff, i).db;
      && Populating(c, K, s.db, t, place, v, upd, diff, i + 1)
      && (if LeftAlone(Prop(c, t, i), w.x, w.isDefault) || (diff && Mistaken(c, db, t, place, v, i))
          then CellAt(end, t, place.row, i) == CellAt(db, t, place.row, i)
          else Stored(c, end, Prop(c, t, i), w.x, CellAt(end, t, place.row, i)))
      && (forall j: nat :: i < j < |Props(c, t)| ==> CellAt(s.db, t, place.row, j) == CellAt(db, t, place.row, j))
  {
    var w := Choose(c, t, i, v, place);
    WriteIsOpen(c, K, db, t, place, v, upd, diff, i);
    assert KeysSafe(c, upd, diff, PropNodes(c, Prop(c, t, i), w.x)) by { ChosenNodes(c, t, i, v, place); }
    if diff && Mistaken(c, db, t, place, v, i) { MistakenStays(c, db, t, place.row, i, w.x, upd, w.isDefault); }
    hide Choose, Avoids, Evolves, SetProp, Stored, MistakenAt;
    var s := SetProp(c, db, t, place.row, i, w.x, upd, diff, w.isDefault);
    OneEvolves(c, K, db, t, place, v, upd, diff, i);
    PopulatingStays(c, K, db, s.db, t, place, v, upd, diff, i);
    if LeftAlone(Prop(c, t, i), w.x, w.isDefault) {
      RestSparesCell(c, K, s.db, t, place, v, upd, diff, i + 1, i);
      LeftAloneStays(c, db, t, place.row, i, w.x, upd, diff, w.isDefault);
    } else if diff && Mistaken(c, db, t, place, v, i) {
      RestSparesCell(c, K, s.db, t, place, v, upd, diff, i + 1, i);
    } else {
      SetPropStores(c, K, db, t, place.row, i, w.x, upd, diff, w.isDefault);
      RestKeepsStored(c, K, s.db, t, place, v, upd, diff, i, w.x);
    }
  }

  lemma LeftAloneStays(c: Config, db: Db, t: nat, row: nat, p: nat, x: Value, upd: bool, diff: bool, isDefault: bool)
    requires LeftAlone(Prop(c, t, p), x, isDefault)
    requires Prop(c, t, p).base.Object? && !Prop(c, t, p).isArray ==> Prop(c, t, p).nullable
    ensures var s := SetProp(c, db, t, row, p, x, upd, diff, isDefault); s.res.Ok? ==> s.db == db
  {}

  lemma MistakenStays(c: Config, db: Db, t: nat, row: nat, p: nat, x: Value, upd: bool, isDefault: bool)
    requires MistakenAt(c, Prop(c, t, p), x, CellAt(db, t, row, p)) && ValidProperty(c, Prop(c, t, p))
    ensures SetProp(c, db, t, row, p, x, upd, true, isDefault).db == db
  {}

  lemma RestKeepsStored(c: Config, K: set<Id>, db: Db, t: nat, place: Place, v: Value, upd: bool, diff: bool, i: nat,
                        x: Value)
    requires Populating(c, K, db, t, place, v, upd, diff, i + 1) && i < |Props(c, t)|
    requires Settled(c, db, t, place.row, Prop(c, t, i), x, CellAt(db, t, place.row, i))
    ensures var db' := Populate(c, db, t, place, v, upd, diff, i + 1).db;
      Stored(c, db', Prop(c, t, i), x, CellAt(db', t, place.row, i))
  {
    RestEvolves(c, K, db, t, place, v, upd, diff, i + 1);
    RestSparesCell(c, K, db, t, place, v, upd, diff, i + 1, i);
    StoredStays(c, WritesKeys(c, upd), K, Chosen(c, t, v, place, i + 1), db,
                Populate(c, db, t, place, v, upd, diff, i + 1).db, t, place.row, Prop(c, t, i), x,
                CellAt(db, t, place.row, i));
  }

  lemma WriteIsOpen(c: Config, K: set<Id>, db: Db, t: nat, place: Place, v: Value, upd: bool, diff: bool, i: nat)
    requires Populating(c, K, db, t, place, v, upd, diff, i) && i < |Props(c, t)| && Choose(c, t, i, v, place).Write?
    ensures Open(c, K, db, t, place.row, i, upd, PropNodes(c, Prop(c, t, i), Choose(c, t, i, v, place).x))
  {
    ChosenNodes(c, t, i, v, place);
  }

  // ---- The theorems -----------------------------------------------------------------------------

  /** The object a value describes is not described again below it. */
  ghost predicate TopApart(c: Config, t: nat, v: Value) {
    NodeId(c, Node(t, v)).Some? ==> Avoids(c, {NodeId(c, Node(t, v)).value}, ChildNodes(c, t, v))
  }

  /** How a create placed the object: over an existing row, or in a new one. */
  function PlaceOf(c: Config, db: Db, t: nat, v: Value, upd: bool): Result<Place> {
    Locate(c, db, t, v, upd, false, None).res
  }

  /**
   * When what is supplied is stored: an update must not describe its own object again below it, and
   * the diff mode must not come back to a new row without a key; where duplicate keys are written
   * and compared no key below may be what a null cell reads as.
   */
  ghost predicate Storable(c: Config, db: Db, t: nat, v: Value, upd: bool, diff: bool) {
    && (upd ==> TopApart(c, t, v)) && (upd && diff ==> NeverReentered(Steps(c, db, t, v, upd, diff, None)))
    && KeysSafe(c, upd, diff, ChildNodes(c, t, v))
  }

  /** What a create protects of its own row while it populates it. */
  ghost function Own(c: Config, db: Db, t: nat, row: nat, upd: bool): set<Id> {
    if upd then {RowId(c, db, t, row)} else {Everything}
  }

  /** The run does not come back to the row of the object itself. */
  lemma OwnIsLeftAlone(c: Config, db: Db, t: nat, v: Value, upd: bool)
    requires ValidConfig(c) && Sound(c, db) && t < |c.schema| && Storable(c, db, t, v, upd, true)
    requires c.inWrite && v.Obj? && Locate(c, db, t, v, upd, true, None).res.Ok?
    ensures var at := Locate(c, db, t, v, upd, true, None);
      LeavesAlone(Own(c, at.db, t, at.res.value.row, upd), StepsFrom(c, at.db, t, at.res.value, v, upd, true, 0))
  {
    var at := Locate(c, db, t, v, upd, true, None);
    var row, steps, below := at.res.value.row, Steps(c, db, t, v, upd, true, None),
        StepsFrom(c, at.db, t, at.res.value, v, upd, true, 0);
    if upd {
      assert Primary(c, t).None? && Reusing(t, row) in below ==> Reentering(t, row) in steps;
    } else {
      CreateReusesNothing(c, db, t, v, None);
      assert forall s :: s in below ==> s in steps;
    }
  }

  /** A successful create has populated the row that it found or added. */
  lemma CreatePopulates(c: Config, db: Db, t: nat, v: Value, upd: bool, diff: bool)
    requires ValidConfig(c) && Sound(c, db) && t < |c.schema| && Storable(c, db, t, v, upd, diff)
    ensures var s := Create(c, db, t, v, upd, diff, None);
      s.res.Ok? ==>
        && PlaceOf(c, db, t, v, upd).Ok? && s.res.value == PlaceOf(c, db, t, v, upd).value.row
        && Populated(c, Locate(c, db, t, v, upd, false, None).db, s.db, t, PlaceOf(c, db, t, v, upd).value, v, diff, 0)
  {
    hide Evolves, StepsFrom, Populate, Populated, Sound, LeavesAlone, KeysSafe;
    if Create(c, db, t, v, upd, diff, None).res.Ok? {
      var at := Locate(c, db, t, v, upd, diff, None);
      assert at == Locate(c, db, t, v, upd, false, None);
      LocateEvolves(c, WritesKeys(c, upd), if upd then {} else {Everything}, {}, db, t, v, upd, diff, None);
      if diff && v.Obj? { OwnIsLeftAlone(c, db, t, v, upd); }
      PopulateStores(c, Own(c, at.db, t, at.res.value.row, upd), at.db, t, at.res.value, v, upd, diff, 0);
      PopulateReturns(c, at.db, t, at.res.value, v, upd, diff, 0);
    }
  }

  /** What a cell of a row held before a create; a row that is added starts empty. */
  function Was(c: Config, db: Db, t: nat, row: nat, p: nat): Cell {
    if row < NumRows(db, t) then CellAt(db, t, row, p) else EmptyCell(Prop(c, t, p))
  }

  /**
   * What a cell holds once a value is offered for it: the value, unless it is left alone, or the diff
   * mode takes the value for the null it holds.
   */
  ghost predicate Filled(c: Config, db: Db, prop: Property, x: Value, isDefault: bool, diff: bool, was: Cell,
                         cell: Cell)
  {
    if LeftAlone(prop, x, isDefault) || (diff && MistakenAt(c, prop, x, was)) then cell == was
    else Stored(c, db, prop, x, cell)
  }

  /** The property is the key, and it is not one that a migration takes a second time. */
  ghost predicate KeyIsStamped(c: Config, db: Db, t: nat, v: Value, upd: bool, p: nat) {
    IsPrimary(c, t, p) && (!WritesKeys(c, upd) || Unclaimed(c, db, t, v))
  }

  /**
   * What property `p` of the row holds after a create that had to write `v` to it: the key asked for;
   * what is supplied; where nothing is, what an existing row held, and of a new row the default, or
   * nothing without one.
   */
  ghost predicate AsOffered(c: Config, db: Db, db': Db, t: nat, row: nat, v: Value, upd: bool, diff: bool, p: nat) {
    var prop, was, cell := Prop(c, t, p), Was(c, db, t, row, p), CellAt(db', t, row, p);
    if KeyIsStamped(c, db, t, v, upd, p) then forall key :: AsksFor(c, t, v, key) ==> cell == One(key)
    else if Omits(v, p) then
      if row >= NumRows(db, t) && prop.default.Given? then Filled(c, db', prop, prop.default.v, true, diff, was, cell)
      else cell == was
    else v.Obj? && Filled(c, db', prop, v.fields[p].v, false, diff, was, cell)
  }

  /**
   * After a successful create, in either mode, each property of the returned row holds the value
   * supplied for it; of a new row, else its default, or nothing; and of a row that was there, else what it held.
   */
  lemma CreateStores(c: Config, db: Db, t: nat, v: Value, upd: bool, diff: bool)
    requires ValidConfig(c) && Sound(c, db) && t < |c.schema| && Storable(c, db, t, v, upd, diff)
    ensures var s := Create(c, db, t, v, upd, diff, None);
      s.res.Ok? ==> forall p: nat :: p < |Props(c, t)| ==> AsOffered(c, db, s.db, t, s.res.value, v, upd, diff, p)
  {
    hide Storable, Populated, AsOffered, Sound, KeyIsStamped, Locate;
    var s := Create(c, db, t, v, upd, diff, None);
    if s.res.Ok? {
      CreatePopulates(c, db, t, v, upd, diff);
      forall p: nat | p < |Props(c, t)| ensures AsOffered(c, db, s.db, t, s.res.value, v, upd, diff, p) {
        if KeyIsStamped(c, db, t, v, upd, p) { CreatedKey(c, db, t, v, upd, diff, p); }
        OneAsOffered(c, db, s.db, t, v, upd, diff, p);
      }
    }
  }

  lemma OneAsOffered(c: Config, db: Db, db': Db, t: nat, v: Value, upd: bool, diff: bool, p: nat)
    requires ValidConfig(c) && Sound(c, db) && t < |c.schema| && p < |Props(c, t)| && PlaceOf(c, db, t, v, upd).Ok?
    requires var at := Locate(c, db, t, v, upd, false, None);
      Populated(c, at.db, db', t, at.res.value, v, diff, 0)
    requires KeyIsStamped(c, db, t, v, upd, p) ==>
             forall key :: AsksFor(c, t, v, key) ==> CellAt(db', t, PlaceOf(c, db, t, v, upd).value.row, p) == One(key)
    ensures AsOffered(c, db, db', t, PlaceOf(c, db, t, v, upd).value.row, v, upd, diff, p)
  {
    hide Stored, Unclaimed, Locate;
    var at := Locate(c, db, t, v, upd, false, None);
    PlacedFor(c, db, t, v, upd);
    if !KeyIsStamped(c, db, t, v, upd, p) {
      assert CellAt(at.db, t, at.res.value.row, p) == Was(c, db, t, at.res.value.row, p);
    }
  }

  /** Where a create finds or adds its row. */
  lemma PlacedFor(c: Config, db: Db, t: nat, v: Value, upd: bool)
    requires ValidConfig(c) && Sound(c, db) && t < |c.schema|
    ensures var at := Locate(c, db, t, v, upd, false, None);
      at.res.Ok? ==>
        var place := at.res.value;
        && (place.created <==> place.row >= NumRows(db, t))
        && (place.skipPrimary <==> !WritesKeys(c, upd) || Unclaimed(c, db, t, v))
        && (forall p: nat :: p < |Props(c, t)| && !(place.skipPrimary && IsPrimary(c, t, p)) ==>
              CellAt(at.db, t, place.row, p) == Was(c, db, t, place.row, p))
  {
    UnclaimedIff(c, db, t, v);
    AppendCells(db, t, EmptyRow(Props(c, t)));
    if Primary(c, t).Some? && KeyOf(c, t, Primary(c, t).value, v).Ok? {
      AppendCells(db, t, KeyedRow(Props(c, t), Primary(c, t).value, KeyOf(c, t, Primary(c, t).value, v).value));
    }
  }

  lemma CreatedKey(c: Config, db: Db, t: nat, v: Value, upd: bool, diff: bool, p: nat)
    requires ValidConfig(c) && Sound(c, db) && t < |c.schema| && KeyIsStamped(c, db, t, v, upd, p)
    requires p < |Props(c, t)|
    ensures var s := Create(c, db, t, v, upd, diff, None);
      s.res.Ok? ==> forall key :: AsksFor(c, t, v, key) ==> CellAt(s.db, t, s.res.value, p) == One(key)
  {
    var s := Create(c, db, t, v, upd, diff, None);
    if s.res.Ok? {
      CreateIdentifies(c, db, t, v, upd, diff, None);
      CreateEvolves(c, true, {}, {}, db, t, v, upd, diff, None);
      KeyIsOffered(c, t, p, v);
      assert InRange(s.db, t, s.res.value, p) && CellOk(s.db, Prop(c, t, p), CellAt(s.db, t, s.res.value, p));
    }
  }

  /** The first row with the key is the returned one, unless a migration created a duplicate. */
  lemma CreatedComesFirst(c: Config, db: Db, t: nat, v: Value, upd: bool, diff: bool, p: nat)
    requires ValidConfig(c) && Sound(c, db) && UniqueKeys(c, db) && t < |c.schema| && Primary(c, t) == Some(p)
    requires Create(c, db, t, v, upd, diff, None).res.Ok?
    ensures var s := Create(c, db, t, v, upd, diff, None);
      && KeyOf(c, t, p, v).Ok? && FindFirst(s.db, t, p, KeyOf(c, t, p, v).value).Some?
      && (FindFirst(s.db, t, p, KeyOf(c, t, p, v).value) == Some(s.res.value) <==> upd || Unclaimed(c, db, t, v))
  {
    hide Steps;
    UnclaimedIff(c, db, t, v);
    var s, key := Create(c, db, t, v, upd, diff, None), KeyOf(c, t, p, v).value;
    CreateEvolves(c, true, {}, {}, db, t, v, upd, diff, None);
    if WritesKeys(c, upd) {
      if diff { CreateReusesNothing(c, db, t, v, None); }
      CreateEvolves(c, true, {Everything}, {}, db, t, v, upd, diff, None);
      forall k: nat | k < NumRows(db, t) ensures CellAt(s.db, t, k, p) == CellAt(db, t, k, p) {
        assert InRange(db, t, k, p);
      }
    }
    if WritesKeys(c, upd) && !Unclaimed(c, db, t, v) {
      var older := FindFirst(db, t, p, key).value;
      assert CellAt(s.db, t, older, p) == One(key);
      LocateEvolves(c, true, {}, {}, db, t, v, upd, diff, None);
      var at := Locate(c, db, t, v, upd, diff, None);
      PopulateReturns(c, at.db, t, at.res.value, v, upd, diff, 0);
    } else {
      CreateIdentifies(c, db, t, v, upd, diff, None);
      assert InRange(s.db, t, s.res.value, p) && CellOk(s.db, Prop(c, t, p), CellAt(s.db, t, s.res.value, p));
      assert CellAt(s.db, t, s.res.value, p) == One(key);
      var found := FindFirst(s.db, t, p, key).value;
      if !WritesKeys(c, upd) {
        CreateKeepsUnique(c, db, t, v, upd, diff);
        assert !(found < s.res.value);
      }
    }
  }

  /**
   * After a successful create, looking its key up finds the returned row, unless it was created in a
   * migration over a key that was there already.
   */
  lemma CreateThenFind(c: Config, db: Db, t: nat, v: Value, upd: bool, diff: bool, key: Value)
    requires ValidConfig(c) && Sound(c, db) && UniqueKeys(c, db) && t < |c.schema|
    requires Primary(c, t).Some? && Takes(Prop(c, t, Primary(c, t).value), key) && AsksFor(c, t, v, ElemOf(key))
    ensures var s := Create(c, db, t, v, upd, diff, None);
      s.res.Ok? ==> (GetForPrimaryKey(c, s.db, t, key) == Ok(Some(s.res.value)) <==> upd || Unclaimed(c, db, t, v))
  {
    KeyIsOffered(c, t, Primary(c, t).value, v);
    if Create(c, db, t, v, upd, diff, None).res.Ok? {
      CreatedComesFirst(c, db, t, v, upd, diff, Primary(c, t).value);
    }
  }

  /** Where keys are distinct, looking one up finds exactly the row that carries it. */
  lemma LookupFindsIff(c: Config, db: Db, t: nat, key: Value, row: nat)
    requires ValidConfig(c) && Sound(c, db) && UniqueKeys(c, db) && t < |c.schema| && row < NumRows(db, t)
    ensures GetForPrimaryKey(c, db, t, key) == Ok(Some(row)) <==>
            && Primary(c, t).Some? && Takes(Prop(c, t, Primary(c, t).value), key)
            && CellAt(db, t, row, Primary(c, t).value) == One(ElemOf(key))
  {}

  /**
   * A lookup finds no row, without an exception, exactly when the type has a key that the value can be
   * and no row carries it; it raises an exception exactly when there is no key, or the value cannot be it.
   */
  lemma LookupAnswers(c: Config, db: Db, t: nat, key: Value)
    requires ValidConfig(c) && t < |c.schema|
    ensures var found := GetForPrimaryKey(c, db, t, key);
      && (found == Ok(None) <==>
            && Primary(c, t).Some? && Takes(Prop(c, t, Primary(c, t).value), key)
            && !Carried(c, db, t, ElemOf(key)))
      && (found == Err(MissingPrimaryKey) <==> Primary(c, t).None?)
      && (Primary(c, t).Some? && !Takes(Prop(c, t, Primary(c, t).value), key) <==>
          found == Err(Refusal(key)))
      && (found.Ok? && found.value.Some? ==>
            && found.value.value < NumRows(db, t)
            && CellAt(db, t, found.value.value, Primary(c, t).value) == One(ElemOf(key)))
  {
    if Primary(c, t).Some? && Takes(Prop(c, t, Primary(c, t).value), key) {
      var p := Primary(c, t).value;
      var first := FindFirst(db, t, p, ElemOf(key));
      if first.Some? { assert CellAt(db, t, first.value, p) == One(ElemOf(key)); }
    }
  }

  lemma CreateKeepsUnique(c: Config, db: Db, t: nat, v: Value, upd: bool, diff: bool)
    requires ValidConfig(c) && Sound(c, db) && t < |c.schema| && (!c.inMigration || upd)
    ensures Sound(c, Create(c, db, t, v, upd, diff, None).db)
    ensures UniqueKeys(c, db) ==> UniqueKeys(c, Create(c, db, t, v, upd, diff, None).db)
  {
    assert Avoids(c, {}, Nodes(c, t, v));
    CreateEvolves(c, false, {}, {}, db, t, v, upd, diff, None);
  }

  /**
   * What reading a property answers: null, the scalar or the row that the cell holds, and for a list,
   * of objects too, its elements in order.
   */
  lemma ReadAnswers(c: Config, db: Db, t: nat, row: nat, p: nat)
    ensures var read := GetPropertyValue(c, db, t, row, p);
      && (read == Err(InvalidProperty) <==> p >= |Props(c, t)|)
      && (p < |Props(c, t)| ==> (read == Err(Detached) <==> row >= NumRows(db, t)))
      && (read.Ok? <==> p < |Props(c, t)| && row < NumRows(db, t))
      && (read.Ok? ==>
            match CellAt(db, t, row, p)
            case One(e) => Boxes(Prop(c, t, p), e, read.value)
            case Many(es) =>
              && read.value.Vals? && |read.value.elems| == |es|
              && forall k :: 0 <= k < |es| ==> Boxes(Prop(c, t, p), es[k], read.value.elems[k]))
  {}

  /** A value that reads back as itself: a scalar, null, or a list of those. */
  predicate Plain(prop: Property, x: Value) {
    !prop.base.Object? && (if prop.isArray then x.Vals? else x.Prim? || x.Null?)
  }

  lemma StoredReads(c: Config, db: Db, t: nat, row: nat, i: nat, x: Value)
    requires i < |Props(c, t)| && row < NumRows(db, t) && Plain(Prop(c, t, i), x)
    requires Stored(c, db, Prop(c, t, i), x, CellAt(db, t, row, i))
    ensures GetPropertyValue(c, db, t, row, i) == Ok(x)
  {
    var prop, cell := Prop(c, t, i), CellAt(db, t, row, i);
    if prop.isArray {
      var read := seq(|cell.es|, k requires 0 <= k < |cell.es| => BoxElem(prop, cell.es[k]));
      forall k | 0 <= k < |read| ensures read[k] == x.elems[k] {
        assert Denotes(c, db, prop, x.elems[k], cell.es[k]);
      }
      assert read == x.elems;
    }
  }

  /**
   * Round trip: reading a supplied scalar, null or scalar list gives the supplied value, unless the
   * diff mode took it for the null it found.
   */
  lemma CreateThenRead(c: Config, db: Db, t: nat, v: Value, upd: bool, diff: bool, i: nat, x: Value)
    requires ValidConfig(c) && Sound(c, db) && t < |c.schema| && Storable(c, db, t, v, upd, diff)
    requires i < |Props(c, t)| && Supplies(v, i, x) && Plain(Prop(c, t, i), x)
    ensures var s := Create(c, db, t, v, upd, diff, None);
      s.res.Ok? ==>
        (GetPropertyValue(c, s.db, t, s.res.value, i) == Ok(x) <==>
         !(diff && !KeyIsStamped(c, db, t, v, upd, i)
           && MistakenAt(c, Prop(c, t, i), x, Was(c, db, t, s.res.value, i))))
  {
    var s, prop := Create(c, db, t, v, upd, diff, None), Prop(c, t, i);
    if s.res.Ok? {
      CreateStores(c, db, t, v, upd, diff);
      CreateReturnsARow(c, db, t, v, upd, diff);
      assert AsOffered(c, db, s.db, t, s.res.value, v, upd, diff, i);
      var row := s.res.value;
      if KeyIsStamped(c, db, t, v, upd, i) {
        KeyIsOffered(c, t, i, v);
        assert AsksFor(c, t, v, ElemOf(x));
      } else if !(diff && MistakenAt(c, prop, x, Was(c, db, t, row, i))) {
        StoredReads(c, s.db, t, row, i, x);
      }
    }
  }

  /** A property of a new row for which there is no value at all reads as null, as zero or as an empty list. */
  lemma CreateLeavesEmpty(c: Config, db: Db, t: nat, v: Value, upd: bool, diff: bool, i: nat)
    requires ValidConfig(c) && Sound(c, db) && t < |c.schema| && Storable(c, db, t, v, upd, diff)
    requires i < |Props(c, t)| && !IsPrimary(c, t, i) && Omits(v, i) && Prop(c, t, i).default.Absent?
    ensures var s, prop := Create(c, db, t, v, upd, diff, None), Prop(c, t, i);
      s.res.Ok? && s.res.value >= NumRows(db, t) ==>
        GetPropertyValue(c, s.db, t, s.res.value, i) ==
        Ok(if prop.isArray then Vals([]) else if prop.nullable then Null else Prim(prop.base, 0))
  {
    var s := Create(c, db, t, v, upd, diff, None);
    if s.res.Ok? {
      CreateStores(c, db, t, v, upd, diff);
      CreateReturnsARow(c, db, t, v, upd, diff);
      assert AsOffered(c, db, s.db, t, s.res.value, v, upd, diff, i) && ValidProperty(c, Prop(c, t, i));
      ReadAnswers(c, s.db, t, s.res.value, i);
    }
  }

  lemma CreateReturnsARow(c: Config, db: Db, t: nat, v: Value, upd: bool, diff: bool)
    requires ValidConfig(c) && Sound(c, db) && t < |c.schema|
    ensures var s := Create(c, db, t, v, upd, diff, None);
      s.res.Ok? ==>
        && Sound(c, s.db) && s.res.value < NumRows(s.db, t)
        && (Primary(c, t).Some? ==> KeyOf(c, t, Primary(c, t).value, v).Ok?)
  {
    var s, at := Create(c, db, t, v, upd, diff, None), Locate(c, db, t, v, upd, diff, None);
    CreateEvolves(c, true, {}, {}, db, t, v, upd, diff, None);
    if s.res.Ok? {
      LocateEvolves(c, WritesKeys(c, upd), {}, {}, db, t, v, upd, diff, None);
      ChosenMayBeWritten(c, WritesKeys(c, upd), {}, {}, at.db, t, at.res.value, v);
      PopulateEvolves(c, WritesKeys(c, upd), {}, {}, at.db, t, at.res.value, v, upd, diff, 0);
      PopulateReturns(c, at.db, t, at.res.value, v, upd, diff, 0);
    }
  }

  /** The row that an element for a value names: the one handed over, or one with the key that is described. */
  ghost predicate Names(c: Config, db: Db, target: nat, x: Value, read: Value) {
    && read.RowRef? && read.t == target && read.row < NumRows(db, target)
    && (x.RowRef? ==> read.row == x.row) && (x.Obj? ==> IsOf(c, db, target, read.row, x))
  }

  lemma DenotedIsNamed(c: Config, db: Db, prop: Property, x: Value, e: Elem)
    requires ValidConfig(c) && Sound(c, db) && prop.base.Object? && prop.target < |c.schema| && ElemOk(db, prop, e)
    requires Denotes(c, db, prop, x, e) && (prop.isArray || !x.Null?)
    ensures Names(c, db, prop.target, x, BoxElem(prop, e))
  {
    if x.Obj? && Primary(c, prop.target).Some? {
      var p := Primary(c, prop.target).value;
      KeyIsOffered(c, prop.target, p, x);
      var cell := CellAt(db, prop.target, e.row, p);
      assert InRange(db, prop.target, e.row, p) && CellOk(db, Prop(c, prop.target, p), cell);
      assert AsksFor(c, prop.target, x, KeyOf(c, prop.target, p, x).value);
    }
  }

  /** A supplied link reads back as the row that was handed over, or as one carrying the key that was described. */
  lemma CreateThenFollow(c: Config, db: Db, t: nat, v: Value, upd: bool, diff: bool, i: nat, x: Value)
    requires ValidConfig(c) && Sound(c, db) && t < |c.schema| && Storable(c, db, t, v, upd, diff)
    requires i < |Props(c, t)| && Supplies(v, i, x)
    requires Prop(c, t, i).base.Object? && !Prop(c, t, i).isArray && !x.Null?
    ensures var s := Create(c, db, t, v, upd, diff, None);
      s.res.Ok? ==>
        var read := GetPropertyValue(c, s.db, t, s.res.value, i);
        read.Ok? && Names(c, s.db, Prop(c, t, i).target, x, read.value)
  {
    var s, prop := Create(c, db, t, v, upd, diff, None), Prop(c, t, i);
    if s.res.Ok? {
      CreateStores(c, db, t, v, upd, diff);
      CreateReturnsARow(c, db, t, v, upd, diff);
      assert ValidProperty(c, prop) && !IsPrimary(c, t, i);
      assert AsOffered(c, db, s.db, t, s.res.value, v, upd, diff, i);
      var cell := CellAt(s.db, t, s.res.value, i);
      assert InRange(s.db, t, s.res.value, i) && CellOk(s.db, prop, cell);
      DenotedIsNamed(c, s.db, prop, x, cell.e);
    }
  }

  /**
   * A supplied list of objects reads back with its elements in order: rows as themselves, described
   * objects as rows that carry their keys.
   */
  lemma CreateThenReadList(c: Config, db: Db, t: nat, v: Value, upd: bool, diff: bool, i: nat, vs: seq<Value>)
    requires ValidConfig(c) && Sound(c, db) && t < |c.schema| && Storable(c, db, t, v, upd, diff)
    requires i < |Props(c, t)| && Supplies(v, i, Vals(vs)) && Prop(c, t, i).base.Object? && Prop(c, t, i).isArray
    ensures var s := Create(c, db, t, v, upd, diff, None);
      s.res.Ok? ==>
        var read := GetPropertyValue(c, s.db, t, s.res.value, i);
        && read.Ok? && read.value.Vals? && |read.value.elems| == |vs|
        && forall k :: 0 <= k < |vs| ==>
             && Names(c, s.db, Prop(c, t, i).target, vs[k], read.value.elems[k])
             && (vs[k].RowRef? ==> read.value.elems[k] == vs[k])
  {
    var s, prop := Create(c, db, t, v, upd, diff, None), Prop(c, t, i);
    if s.res.Ok? {
      CreateStores(c, db, t, v, upd, diff);
      CreateReturnsARow(c, db, t, v, upd, diff);
      assert ValidProperty(c, prop) && !IsPrimary(c, t, i);
      assert AsOffered(c, db, s.db, t, s.res.value, v, upd, diff, i);
      var cell := CellAt(s.db, t, s.res.value, i);
      assert InRange(s.db, t, s.res.value, i) && CellOk(s.db, prop, cell);
      forall k | 0 <= k < |vs|
        ensures Names(c, s.db, prop.target, vs[k], BoxElem(prop, cell.es[k])) && OfTarget(prop, vs[k])
      {
        assert Denotes(c, s.db, prop, vs[k], cell.es[k]) && ElemOk(s.db, prop, cell.es[k]);
        DenotedIsNamed(c, s.db, prop, vs[k], cell.es[k]);
      }
    }
  }

  // ---- The condition is needed ----------------------------------------------------------------------

  // An object without a key, linked twice to object 1 of another type; the first time that is linked
  // back to it, the second time it is linked to a description.
  const NUMBER: Property := Property(Int, false, false, 0, Absent)
  const KEYED: Property := Property(Object, true, false, 1, Absent)
  const REENTER: Config :=
    Config([ObjectSchema([NUMBER, KEYED, KEYED], None),
            ObjectSchema([NUMBER, Property(Object, true, false, 0, Absent)], Some(0))], true, false, map[])
  const BACK: Value := Obj([Given(Prim(Int, 1)), Given(RowRef(0, 0))], false)
  const TWO: Value := Obj([Given(Prim(Int, 2))], false)
  const AGAIN: Value := Obj([Given(Prim(Int, 1)), Given(TWO)], false)
  const TWICE: Value := Obj([Given(Prim(Int, 1)), Given(BACK), Given(AGAIN)], false)

  // The object itself with its first value, then linked to object 1, which is linked back to it.
  const EMPTY: Db := Db([[], []], [])
  const BLANK: Db := Append(EMPTY, 0, [One(Scalar(0)), One(Nothing), One(Nothing)])
  const STARTED: Db := Put(BLANK, SetCell, 0, 0, 0, One(Scalar(1)))
  const ADDED: Db := Append(STARTED, 1, [One(Scalar(1)), One(Nothing)])
  const ENTERED: Db := Put(Put(ADDED, SetCell, 1, 0, 1, One(Link(0))), SetCell, 0, 0, 1, One(Link(0)))
  const OVERWRITTEN: Db := Put(ENTERED, SetCell, 0, 0, 0, One(Scalar(2)))
  const ENDED: Db := Put(OVERWRITTEN, SetCell, 0, 0, 2, One(Link(0)))

  lemma FirstLinkRuns()
    ensures SetProp(REENTER, STARTED, 0, 0, 1, BACK, true, true, false) == Ran(ENTERED, Ok(()))
  {
    var c, place := REENTER, Place(0, true, true);
    var back := Put(ADDED, SetCell, 1, 0, 1, One(Link(0)));
    assert KeyedRow(Props(c, 1), 0, Scalar(1)) == [One(Scalar(1)), One(Nothing)];
    assert SetProp(c, ADDED, 1, 0, 1, RowRef(0, 0), true, true, false) == Ran(back, Ok(()));
    assert Populate(c, back, 1, place, BACK, true, true, 2) == Ran(back, Ok(0));
    assert Populate(c, ADDED, 1, place, BACK, true, true, 1) == Ran(back, Ok(0));
    assert Create(c, STARTED, 1, BACK, true, true, None) == Ran(back, Ok(0));
  }

  lemma SecondLinkRuns()
    ensures SetProp(REENTER, ENTERED, 0, 0, 2, AGAIN, true, true, false) == Ran(ENDED, Ok(()))
  {
    var c, place, again := REENTER, Place(0, false, true), OVERWRITTEN;
    assert SetProp(c, ENTERED, 0, 0, 0, Prim(Int, 2), true, true, false) == Ran(again, Ok(()));
    assert Populate(c, again, 0, place, TWO, true, true, 3) == Ran(again, Ok(0));
    assert Populate(c, again, 0, place, TWO, true, true, 2) == Ran(again, Ok(0));
    assert Populate(c, again, 0, place, TWO, true, true, 1) == Ran(again, Ok(0));
    assert Create(c, ENTERED, 0, TWO, true, true, Some(0)) == Ran(again, Ok(0));
    assert SetProp(c, ENTERED, 1, 0, 1, TWO, true, true, false) == Ran(again, Ok(()));
    assert Populate(c, again, 1, place, AGAIN, true, true, 2) == Ran(again, Ok(0));
    assert Populate(c, ENTERED, 1, place, AGAIN, true, true, 1) == Ran(again, Ok(0));
    assert FindFirst(ENTERED, 1, 0, Scalar(1)) == Some(0);
    assert Create(c, ENTERED, 1, AGAIN, true, true, None) == Ran(again, Ok(0));
  }

  // What is written after the object has its row.
  lemma BothLinksRun()
    ensures Populate(REENTER, STARTED, 0, Place(0, true, true), TWICE, true, true, 1) == Ran(ENDED, Ok(0))
  {
    var c, place := REENTER, Place(0, true, true);
    FirstLinkRuns();
    SecondLinkRuns();
    hide SetProp;
    assert Populate(c, ENDED, 0, place, TWICE, true, true, 3) == Ran(ENDED, Ok(0));
    assert Populate(c, ENTERED, 0, place, TWICE, true, true, 2) == Ran(ENDED, Ok(0));
  }

  lemma TwiceRuns()
    ensures Create(REENTER, EMPTY, 0, TWICE, true, true, None) == Ran(ENDED, Ok(0))
  {
    var c, place := REENTER, Place(0, true, true);
    BothLinksRun();
    assert EmptyRow(Props(c, 0)) == [One(Scalar(0)), One(Nothing), One(Nothing)];
    assert SetProp(c, BLANK, 0, 0, 0, Prim(Int, 1), true, true, false) == Ran(STARTED, Ok(()));
    assert Populate(c, BLANK, 0, place, TWICE, true, true, 0) ==
           Populate(c, STARTED, 0, place, TWICE, true, true, 1);
  }

  /** So an object without a key that the diff mode comes back to does not hold what it was given first. */
  lemma ReenteredRowIsOverwritten()
    ensures ValidConfig(REENTER) && Sound(REENTER, EMPTY) && TopApart(REENTER, 0, TWICE)
    ensures var s := Create(REENTER, EMPTY, 0, TWICE, true, true, None);
      s.res == Ok(0) && FieldOf(TWICE, 0) == Ok(Given(Prim(Int, 1))) &&
      GetPropertyValue(REENTER, s.db, 0, 0, 0) == Ok(Prim(Int, 2))
  {
    TwiceRuns();
    hide Create;
  }
}
