/** The diff mode against the plain mode: exactly when they part, and why each condition is there. */
module DiffTheorems {
  import opened Outcomes
  import opened Schemas
  import opened Tables
  import opened Upsert
  import opened Trace
  import opened Evolution
  import opened Reuse
  import opened Descriptions
  import opened DiffMode

  // ---- The theorems ---------------------------------------------------------------------------------

  /** An update protects nothing beforehand, anything else all rows. */
  ghost function Guarded(upd: bool): set<Id> {
    if upd then {} else {Everything}
  }

  /**
   * Where nothing misleads the diff mode, creating in it and creating plainly return the same row or
   * raise the same exception, and when they return the tables are the same. An update must not
   * describe an object inside itself.
   */
  lemma DiffRefinesPlain(c: Config, db: Db, t: nat, v: Value, upd: bool)
    requires ValidConfig(c) && Sound(c, db) && t < |c.schema|
    requires Faithful(Steps(c, db, t, v, upd, true, None)) && (upd ==> SelfApart(c, Nodes(c, t, v)))
    ensures var d, plain := Create(c, db, t, v, upd, true, None), Create(c, db, t, v, upd, false, None);
      d.res == plain.res && (d.res.Ok? ==> d.db.tables == plain.db.tables)
  {
    var d, plain := Create(c, db, t, v, upd, true, None), Create(c, db, t, v, upd, false, None);
    assert Mistakes(Steps(c, db, t, v, upd, true, None)) == {};
    if c.inWrite { CreateAgrees(c, Guarded(upd), {}, {}, db, db, t, v, upd, true, None, None); }
    if d.res.Ok? { SimilarIsSame(plain.db, d.db); }
  }

  /** Keys are taken for null only where they are written. */
  lemma StampedKeysAreTrusted(c: Config, db: Db, t: nat, v: Value, upd: bool)
    requires ValidConfig(c) && t < |c.schema| && !WritesKeys(c, upd)
    requires ReusesNothing(Steps(c, db, t, v, upd, true, None))
    ensures Trusted(c, Steps(c, db, t, v, upd, true, None))
  {
    StepsAreDescribed(c, Nodes(c, t, v), db, t, v, upd, None);
  }

  /**
   * Both modes always end with the same result, and on success with the same tables exactly when the
   * diff mode takes no scalar for the null it finds: of any create, and of updates that describe no
   * object twice and that update no row for being linked.
   */
  lemma ModesPartIff(c: Config, db: Db, t: nat, v: Value, upd: bool)
    requires ValidConfig(c) && Sound(c, db) && t < |c.schema|
    requires upd ==> Distinct(c, t, v) && ReusesNothing(Steps(c, db, t, v, upd, true, None))
    requires WritesKeys(c, upd) ==> Trusted(c, Steps(c, db, t, v, upd, true, None))
    ensures var d, plain := Create(c, db, t, v, upd, true, None), Create(c, db, t, v, upd, false, None);
      && d.res == plain.res
      && (d.res.Ok? ==> (d.db.tables == plain.db.tables <==> Mistakes(Steps(c, db, t, v, upd, true, None)) == {}))
  {
    var steps := Steps(c, db, t, v, upd, true, None);
    var d, plain := Create(c, db, t, v, upd, true, None), Create(c, db, t, v, upd, false, None);
    if upd { DistinctIsApart(c, t, v); } else { CreateReusesNothing(c, db, t, v, None); }
    if !WritesKeys(c, upd) { StampedKeysAreTrusted(c, db, t, v, upd); }
    if c.inWrite {
      CreateAgrees(c, Guarded(upd), {}, {}, db, db, t, v, upd, true, None, None);
      if d.res.Ok? { ApartOrSame(plain.db, d.db, Mistakes(steps)); }
    }
  }

  /** Databases that differ in exactly some cells are the same if those are none. */
  lemma ApartOrSame(a: Db, b: Db, M: set<Loc>)
    requires Similar(a, b, {} + M) && Apart(a, b, {} + M)
    ensures b.tables == a.tables <==> M == {}
  {
    if l :| l in M {
      assert l in {} + M && CellAt(a, l.t, l.row, l.p) != CellAt(b, l.t, l.row, l.p);
    } else {
      assert {} + M == {};
      SimilarIsSame(a, b);
    }
  }

  /**
   * The same for one list, for every old and new length: elements beyond the old end are not compared,
   * so nothing about them can part the modes.
   */
  lemma AssignModesAgree(c: Config, db: Db, t: nat, row: nat, p: nat, x: Value, upd: bool)
    requires ValidConfig(c) && Sound(c, db) && c.inWrite
    requires ListCell(c, t, p) && row < NumRows(db, t)
    requires Faithful(StepsOf(c, db, t, row, p, x, upd, true))
    requires var N := PropNodes(c, Prop(c, t, p), x);
      upd ==> Avoids(c, {RowId(c, db, t, row)}, N) && SelfApart(c, N)
    ensures var d, plain := Assign(c, db, t, row, p, x, upd, true), Assign(c, db, t, row, p, x, upd, false);
      d.res == plain.res && (d.res.Ok? ==> d.db.tables == plain.db.tables)
  {
    var d, plain := Assign(c, db, t, row, p, x, upd, true), Assign(c, db, t, row, p, x, upd, false);
    assert Mistakes(StepsOf(c, db, t, row, p, x, upd, true)) == {};
    AssignAgrees(c, if upd then {RowId(c, db, t, row)} else {Everything}, {}, {}, db, db, t, row, p, x, upd, true);
    if d.res.Ok? { SimilarIsSame(plain.db, d.db); }
  }

  /** And both directions where the elements describe no object twice. */
  lemma AssignModesPartIff(c: Config, db: Db, t: nat, row: nat, p: nat, x: Value, upd: bool)
    requires ValidConfig(c) && Sound(c, db) && c.inWrite
    requires ListCell(c, t, p) && row < NumRows(db, t)
    requires Trusted(c, StepsOf(c, db, t, row, p, x, upd, true))
    requires var prop := Prop(c, t, p);
      upd ==> Avoids(c, {RowId(c, db, t, row)}, PropNodes(c, prop, x)) && DistinctIn(c, prop, x)
    ensures var d, plain := Assign(c, db, t, row, p, x, upd, true), Assign(c, db, t, row, p, x, upd, false);
      && d.res == plain.res
      && (d.res.Ok? ==> (d.db.tables == plain.db.tables <==> Mistakes(StepsOf(c, db, t, row, p, x, upd, true)) == {}))
  {
    var d, plain := Assign(c, db, t, row, p, x, upd, true), Assign(c, db, t, row, p, x, upd, false);
    if upd { DistinctInIsApart(c, Prop(c, t, p), x); }
    AssignAgrees(c, if upd then {RowId(c, db, t, row)} else {Everything}, {}, {}, db, db, t, row, p, x, upd, true);
    if d.res.Ok? { ApartOrSame(plain.db, d.db, Mistakes(StepsOf(c, db, t, row, p, x, upd, true))); }
  }

  /** Elements of a list that was empty cannot mislead the diff mode. */
  lemma NewListIsFaithful(c: Config, db: Db, t: nat, row: nat, p: nat, x: Value, upd: bool)
    requires ListAt(db, t, row, p) == []
    ensures Faithful(StepsOf(c, db, t, row, p, x, upd, true))
  {
    if x.Vals? { PlainStepsAlong(c, db, t, row, p, x, upd, 0, 0); }
  }

  lemma SimilarIsSame(a: Db, b: Db)
    requires Similar(a, b, {})
    ensures a.tables == b.tables
  {
    forall t1: nat, r1: nat, p1: nat ensures CellAt(a, t1, r1, p1) == CellAt(b, t1, r1, p1) {
      assert Loc(t1, r1, p1) !in {};
    }
    SameCellsSameTables(a, b);
  }

  // ---- One scalar cell ------------------------------------------------------------------------------

  /**
   * On one scalar cell the modes part exactly when the cell is null and the new value is the one a
   * typed read of a null cell returns.
   */
  lemma ScalarModesPartIff(c: Config, db: Db, t: nat, row: nat, p: nat, x: Value, upd: bool)
    requires ValidConfig(c) && Sound(c, db) && InRange(db, t, row, p)
    requires !Prop(c, t, p).base.Object? && !Prop(c, t, p).isArray && UnboxScalar(Prop(c, t, p), x).Ok?
    ensures var d := SetProp(c, db, t, row, p, x, upd, true, false);
      var plain := SetProp(c, db, t, row, p, x, upd, false, false);
      d.db.tables == plain.db.tables <==>
      !(CellAt(db, t, row, p) == One(Nothing) && !NullSafeFor(c, Prop(c, t, p), x))
  {
    var prop, cell := Prop(c, t, p), CellAt(db, t, row, p);
    assert CellOk(db, prop, cell);
    var d := SetProp(c, db, t, row, p, x, upd, true, false);
    var plain := SetProp(c, db, t, row, p, x, upd, false, false);
    var e := UnboxScalar(prop, x).value;
    PutCells(db, SetCell, t, row, p, One(e));
    assert CellAt(plain.db, t, row, p) == One(e);
    if cell == One(e) {
      SameCellsSameTables(db, plain.db);
    } else if cell == One(Nothing) && !NullSafeFor(c, prop, x) {
      assert d.db == db && CellAt(d.db, t, row, p) != CellAt(plain.db, t, row, p);
    }
  }

  // ---- The conditions are needed ------------------------------------------------------------------

  /** An integer key, then one more property. */
  function TwoProps(second: Property): ObjectSchema {
    ObjectSchema([Property(Int, false, false, 0, Absent), second], Some(0))
  }

  const LINK: Property := Property(Object, true, false, 0, Absent)

  // Object 1 links to itself; it is updated with a link to object 1 whose own link is null.
  const SELF: Config := Config([TwoProps(LINK)], true, false, map[])
  const LOOP: Db := Db([[[One(Scalar(1)), One(Link(0))]]], [])
  const UNLINK: Value := Obj([Given(Prim(Int, 1)), Given(Null)], false)
  const RELINK: Value := Obj([Given(Prim(Int, 1)), Given(UNLINK)], false)

  lemma UnlinkRuns(diff: bool)
    ensures Create(SELF, LOOP, 0, UNLINK, true, diff, Some(0)) == Ran(Put(LOOP, SetCell, 0, 0, 1, One(Nothing)), Ok(0))
  {
    var c, db, v, there := SELF, LOOP, UNLINK, Place(0, false, true);
    var nulled := Put(db, SetCell, 0, 0, 1, One(Nothing));
    assert FindFirst(db, 0, 0, Scalar(1)) == Some(0);
    assert SetProp(c, db, 0, 0, 1, Null, true, diff, false) == Ran(nulled, Ok(()));
    assert Populate(c, nulled, 0, there, v, true, diff, 2) == Ran(nulled, Ok(0));
    assert Populate(c, db, 0, there, v, true, diff, 1) == Ran(nulled, Ok(0));
  }

  /** The diff mode ends with the inner null link, the plain mode with the outer link restored. */
  lemma RelinkRuns(diff: bool)
    ensures var s := Create(SELF, LOOP, 0, RELINK, true, diff, None);
      s.res == Ok(0) && CellAt(s.db, 0, 0, 1) == One(if diff then Nothing else Link(0))
  {
    var c, db, v, there := SELF, LOOP, RELINK, Place(0, false, true);
    var nulled := Put(db, SetCell, 0, 0, 1, One(Nothing));
    var last := if diff then nulled else Put(nulled, SetCell, 0, 0, 1, One(Link(0)));
    assert FindFirst(db, 0, 0, Scalar(1)) == Some(0);
    UnlinkRuns(diff);
    assert UnboxItem(c, db, LINK, UNLINK, true, diff, Some(0)) == Ran(nulled, Ok(RowItem(0, 0)));
    assert SetProp(c, db, 0, 0, 1, UNLINK, true, diff, false) == Ran(last, Ok(()));
    assert Populate(c, last, 0, there, v, true, diff, 2) == Ran(last, Ok(0));
    assert Populate(c, db, 0, there, v, true, diff, 1) == Ran(last, Ok(0));
  }

  /** So a value that describes an object inside itself parts the modes, with every other condition met. */
  lemma SelfNestingPartsTheModes()
    ensures ValidConfig(SELF) && Sound(SELF, LOOP) && LinksKeyed(SELF, Nodes(SELF, 0, RELINK))
    ensures NullSafe(SELF, Nodes(SELF, 0, RELINK), true) && !SelfApart(SELF, Nodes(SELF, 0, RELINK))
    ensures Create(SELF, LOOP, 0, RELINK, true, true, None).db.tables !=
            Create(SELF, LOOP, 0, RELINK, true, false, None).db.tables
  {
    hide Create, Nodes, Sound, SelfApart, NullSafe, LinksKeyed, ValidConfig;
    RelinkRuns(true);
    RelinkRuns(false);
    LoopIsSound();
    SelfIsNested();
    SelfIsSafe();
  }

  lemma SelfIsSafe()
    ensures ValidConfig(SELF) && LinksKeyed(SELF, Nodes(SELF, 0, RELINK))
            && NullSafe(SELF, Nodes(SELF, 0, RELINK), true)
  {}

  lemma LoopIsSound()
    ensures Sound(SELF, LOOP)
  {}

  lemma SelfIsNested()
    ensures !SelfApart(SELF, Nodes(SELF, 0, RELINK))
  {
    ChildIsNode(SELF, 0, RELINK, 1, UNLINK);
    var n, m := Node(0, RELINK), Node(0, UNLINK);
    assert n in Nodes(SELF, 0, RELINK) && m in ChildNodes(SELF, n.t, n.v);
    assert NodeId(SELF, n) == Some(Keyed(0, Scalar(1))) == NodeId(SELF, m);
  }

  lemma ChildIsNode(c: Config, t: nat, v: Value, i: nat, x: Value)
    requires v.Obj? && i < |Props(c, t)| && FieldOf(v, i) == Ok(Given(x)) && x.Obj?
    requires Prop(c, t, i).base.Object? && !Prop(c, t, i).isArray
    ensures Node(Prop(c, t, i).target, x) in ChildNodes(c, t, v)
  {
    assert Node(Prop(c, t, i).target, x) in PropNodes(c, Prop(c, t, i), FieldOf(v, i).value.v);
  }

  // An object of type 0 linked to an object of type 1, which has no key; and an update for both.
  const NUM: Property := Property(Int, false, false, 0, Absent)
  const KEYLESS: Config :=
    Config([TwoProps(Property(Object, true, false, 1, Absent)), ObjectSchema([NUM], None)], true, false, map[])
  const LINKED: Db := Db([[[One(Scalar(1)), One(Link(0))]], [[One(Scalar(4))]]], [])
  const FIVE: Value := Obj([Given(Prim(Int, 5))], false)
  const UPDATE: Value := Obj([Given(Prim(Int, 1)), Given(FIVE)], false)

  /** In the diff mode the row already linked is rewritten. */
  lemma KeylessTargetIsReused()
    ensures var s := Create(KEYLESS, LINKED, 0, UPDATE, true, true, None);
      s.res == Ok(0) && NumRows(s.db, 1) == 1
  {
    var c, db, v, there := KEYLESS, LINKED, UPDATE, Place(0, false, true);
    assert FindFirst(db, 0, 0, Scalar(1)) == Some(0);
    var reused := Put(db, SetCell, 1, 0, 0, One(Scalar(5)));
    assert SetProp(c, db, 1, 0, 0, Prim(Int, 5), true, true, false) == Ran(reused, Ok(()));
    assert Populate(c, reused, 1, there, FIVE, true, true, 1) == Ran(reused, Ok(0));
    assert Create(c, db, 1, FIVE, true, true, Some(0)) == Ran(reused, Ok(0));
    assert SetProp(c, db, 0, 0, 1, FIVE, true, true, false) == Ran(reused, Ok(()));
    assert Populate(c, reused, 0, there, v, true, true, 2) == Ran(reused, Ok(0));
    assert Populate(c, db, 0, there, v, true, true, 1) == Ran(reused, Ok(0));
  }

  /** In the plain mode a second row is added and linked instead. */
  lemma KeylessTargetIsAdded()
    ensures var s := Create(KEYLESS, LINKED, 0, UPDATE, true, false, None);
      s.res == Ok(0) && NumRows(s.db, 1) == 2
  {
    var c, db, v, there, newest := KEYLESS, LINKED, UPDATE, Place(0, false, true), Place(1, true, true);
    assert FindFirst(db, 0, 0, Scalar(1)) == Some(0);
    var added := Append(db, 1, EmptyRow([NUM]));
    var filled := Put(added, SetCell, 1, 1, 0, One(Scalar(5)));
    var linked := Put(filled, SetCell, 0, 0, 1, One(Link(1)));
    assert SetProp(c, added, 1, 1, 0, Prim(Int, 5), true, false, false) == Ran(filled, Ok(()));
    assert Populate(c, filled, 1, newest, FIVE, true, false, 1) == Ran(filled, Ok(1));
    assert Create(c, db, 1, FIVE, true, false, Some(0)) == Ran(filled, Ok(1));
    assert SetProp(c, db, 0, 0, 1, FIVE, true, false, false) == Ran(linked, Ok(()));
    assert Populate(c, linked, 0, there, v, true, false, 2) == Ran(linked, Ok(0));
    assert Populate(c, db, 0, there, v, true, false, 1) == Ran(linked, Ok(0));
  }

  /** So a link to a type without keys parts the modes, with every other condition met. */
  lemma KeylessTargetPartsTheModes()
    ensures ValidConfig(KEYLESS) && !LinksKeyed(KEYLESS, Nodes(KEYLESS, 0, UPDATE)) && Sound(KEYLESS, LINKED)
    ensures SelfApart(KEYLESS, Nodes(KEYLESS, 0, UPDATE)) && NullSafe(KEYLESS, Nodes(KEYLESS, 0, UPDATE), true)
    ensures Create(KEYLESS, LINKED, 0, UPDATE, true, true, None).db.tables !=
            Create(KEYLESS, LINKED, 0, UPDATE, true, false, None).db.tables
  {
    KeylessTargetIsReused();
    KeylessTargetIsAdded();
    KeylessNodes();
    TargetIsLinked();
    LinkedIsSound();
    hide Create, Sound, SelfApart, Linked;
  }

  lemma TargetIsLinked()
    ensures Linked(KEYLESS, Nodes(KEYLESS, 0, UPDATE), 1)
  {
    var n := Node(0, UPDATE);
    assert n in Nodes(KEYLESS, 0, UPDATE) && FieldOrDefault(KEYLESS, n, 1) == Given(FIVE);
    assert MayCreate(Prop(KEYLESS, n.t, 1), FieldOrDefault(KEYLESS, n, 1).v);
  }

  lemma KeylessNodes()
    ensures SelfApart(KEYLESS, Nodes(KEYLESS, 0, UPDATE))
  {
    assert ChildNodes(KEYLESS, 1, FIVE) == {};
    assert Nodes(KEYLESS, 1, FIVE) == {Node(1, FIVE)};
    forall m | m in ChildNodes(KEYLESS, 0, UPDATE) ensures m == Node(1, FIVE) {
      var i: nat :| i < 2 && m in PropNodes(KEYLESS, Prop(KEYLESS, 0, i), FieldOf(UPDATE, i).value.v);
    }
  }

  lemma LinkedIsSound()
    ensures Sound(KEYLESS, LINKED)
  {}
}
