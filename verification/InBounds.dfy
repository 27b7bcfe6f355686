/** Every list index the object store gets, sets or removes is in bounds, in both modes. */
module InBounds {
  import opened Outcomes
  import opened Schemas
  import opened Tables
  import opened Upsert
  import opened Trace
  import opened Evolution
  import opened Keeps
  import opened Reuse
  import opened Descriptions
  import opened DiffMode
  import opened Storage
  import opened Writes

  // ---- The plain mode ---------------------------------------------------------------------------

  /** Plain writing indexes no list. */
  lemma PlainInBounds(c: Config, db: Db, t: nat, v: Value, upd: bool, cur: Option<nat>)
    ensures Create(c, db, t, v, upd, false, cur).res != Err(OutOfBounds)
    decreases Height(v), 2, 0
  {
    var at := Locate(c, db, t, v, upd, false, cur);
    if c.inWrite && at.res.Ok? { PlainPopulateInBounds(c, at.db, t, at.res.value, v, upd, 0); }
  }

  lemma PlainPopulateInBounds(c: Config, db: Db, t: nat, place: Place, v: Value, upd: bool, i: nat)
    ensures Populate(c, db, t, place, v, upd, false, i).res != Err(OutOfBounds)
    decreases Height(v), 1, |Props(c, t)| - i
  {
    if i < |Props(c, t)| {
      match Choose(c, t, i, v, place)
      case Skip => PlainPopulateInBounds(c, db, t, place, v, upd, i + 1);
      case Fail(_) =>
      case Write(x, isDefault) =>
        PlainSetInBounds(c, db, t, place.row, i, x, upd, isDefault);
        PlainPopulateInBounds(c, SetProp(c, db, t, place.row, i, x, upd, false, isDefault).db, t, place, v, upd, i + 1);
    }
  }

  lemma PlainSetInBounds(c: Config, db: Db, t: nat, row: nat, p: nat, x: Value, upd: bool, isDefault: bool)
    ensures SetProp(c, db, t, row, p, x, upd, false, isDefault).res != Err(OutOfBounds)
    decreases Height(x), 6, 0
  {
    if Prop(c, t, p).isArray {
      if x.Vals? { PlainAssignInBounds(c, Clear(db, t, row, p), t, row, p, x, upd, 0); }
    } else {
      PlainUnboxInBounds(c, db, Prop(c, t, p), x, upd, LinkOf(CellAt(db, t, row, p)));
    }
  }

  lemma PlainUnboxInBounds(c: Config, db: Db, prop: Property, x: Value, upd: bool, cur: Option<nat>)
    ensures UnboxItem(c, db, prop, x, upd, false, cur).res != Err(OutOfBounds)
    decreases Height(x), 3, 0
  {
    if prop.base.Object? && !x.RowRef? { PlainInBounds(c, db, prop.target, x, upd, cur); }
  }

  lemma PlainAssignInBounds(c: Config, db: Db, t: nat, row: nat, p: nat, x: Value, upd: bool, k: nat)
    requires x.Vals?
    ensures AssignPlain(c, db, t, row, p, x.elems, upd, k).res != Err(OutOfBounds)
    decreases Height(x), 4, |x.elems| - k
  {
    if k < |x.elems| {
      PlainUnboxInBounds(c, db, Prop(c, t, p), x.elems[k], upd, None);
      PlainAssignInBounds(c, AddValue(c, db, t, row, p, x.elems[k], upd).db, t, row, p, x, upd, k + 1);
    }
  }

  // ---- The diff mode ----------------------------------------------------------------------------

  /**
   * The diff mode indexes within the list that is there, at any depth: nothing the elements describe
   * makes it shorter, as long as an update does not come back to an object while it is populating it.
   */
  lemma DiffInBounds(c: Config, db: Db, t: nat, v: Value, upd: bool)
    requires ValidConfig(c) && Sound(c, db) && t < |c.schema|
    requires upd ==> SelfApart(c, Nodes(c, t, v)) && NeverReentered(Steps(c, db, t, v, upd, true, None))
    ensures Create(c, db, t, v, upd, true, None).res != Err(OutOfBounds)
  {
    if !upd { CreateReusesNothing(c, db, t, v, None); }
    CreateInBounds(c, db, t, v, upd, None);
  }

  lemma CreateInBounds(c: Config, db: Db, t: nat, v: Value, upd: bool, cur: Option<nat>)
    requires ValidConfig(c) && Sound(c, db) && t < |c.schema| && (cur.Some? ==> cur.value < NumRows(db, t))
    requires Orderly(c, upd, Nodes(c, t, v), Steps(c, db, t, v, upd, true, cur))
    ensures Create(c, db, t, v, upd, true, cur).res != Err(OutOfBounds)
    decreases Height(v), 2, 0
  {
    hide StepsFrom, Populate, Nodes, ChildNodes, Orderly, Sound, Steps;
    if c.inWrite {
      var at := Locate(c, db, t, v, upd, true, cur);
      if at.res.Ok? {
        if v.Obj? {
          LocatedIsSteady(c, db, t, v, upd, true, cur);
          PopulateInBounds(c, Own(c, at.db, t, at.res.value.row, upd), at.db, t, at.res.value, v, upd, 0);
        } else {
          NotAnObject(c, at.db, at.db, t, at.res.value, v, upd, true, 0);
          PlainPopulateInBounds(c, at.db, t, at.res.value, v, upd, 0);
        }
      }
    }
  }

  lemma PopulateInBounds(c: Config, K: set<Id>, db: Db, t: nat, place: Place, v: Value, upd: bool, i: nat)
    requires ValidConfig(c) && Sound(c, db) && t < |c.schema| && v.Obj? && c.inWrite
    requires place.row < NumRows(db, t) && (place.skipPrimary || WritesKeys(c, upd))
    requires Steady(c, K, db, t, place.row, upd, ChildNodes(c, t, v), StepsFrom(c, db, t, place, v, upd, true, i))
    ensures Populate(c, db, t, place, v, upd, true, i).res != Err(OutOfBounds)
    decreases Height(v), 1, |Props(c, t)| - i
  {
    hide Evolves, Choose, SetProp, StepsAt, Nodes, ChildNodes, Sound, Steady;
    if i < |Props(c, t)| {
      match Choose(c, t, i, v, place)
      case Skip => PopulateInBounds(c, K, db, t, place, v, upd, i + 1);
      case Fail(e) => ChooseInBounds(c, t, i, v, place);
      case Write(x, isDefault) =>
        var s, here := SetProp(c, db, t, place.row, i, x, upd, true, isDefault),
            StepsAt(c, db, t, place.row, i, x, upd, true, isDefault);
        var after := if s.res.Ok? then StepsFrom(c, s.db, t, place, v, upd, true, i + 1) else [];
        ChosenNodes(c, t, i, v, place);
        SteadySplit(c, K, db, t, place.row, upd, ChildNodes(c, t, v), PropNodes(c, Prop(c, t, i), x), here, after);
        WriteIsWritable(c, db, t, place, v, upd, true, i);
        SetPropInBounds(c, K, db, t, place.row, i, x, upd, isDefault);
        if s.res.Ok? {
          SteadyOn(c, K, db, s.db, t, place.row, upd, ChildNodes(c, t, v), after);
          PopulateInBounds(c, K, s.db, t, place, v, upd, i + 1);
        }
    }
  }

  lemma ChooseInBounds(c: Config, t: nat, i: nat, v: Value, place: Place)
    ensures Choose(c, t, i, v, place) != Fail(OutOfBounds)
  {}

  lemma SetPropInBounds(c: Config, K: set<Id>, db: Db, t: nat, row: nat, p: nat, x: Value, upd: bool, isDefault: bool)
    requires Writable(c, db, t, row, p, upd) && c.inWrite
    requires Steady(c, K, db, t, row, upd, PropNodes(c, Prop(c, t, p), x),
                    StepsAt(c, db, t, row, p, x, upd, true, isDefault))
    ensures SetProp(c, db, t, row, p, x, upd, true, isDefault).res != Err(OutOfBounds)
    decreases Height(x), 6, 0
  {
    hide SelfApart, Writable, Steady, StepsIn, StepsOf;
    var prop, cur := Prop(c, t, p), LinkOf(CellAt(db, t, row, p));
    WritableCell(c, db, t, row, p, upd);
    if prop.isArray {
      if !(prop.nullable && x.Null?) { AssignInBounds(c, K, db, t, row, p, x, upd); }
    } else if prop.base.Object? && !x.RowRef? && !(prop.nullable && x.Null?) {
      var below := StepsIn(c, db, prop, x, upd, true, cur);
      var own := StepsAt(c, db, t, row, p, x, upd, true, isDefault)[|below|..];
      SteadySplit(c, K, db, t, row, upd, PropNodes(c, prop, x), ItemNodes(c, prop, x), below, own);
      UnboxInBounds(c, db, prop, x, upd, cur);
    }
  }

  lemma UnboxInBounds(c: Config, db: Db, prop: Property, x: Value, upd: bool, cur: Option<nat>)
    requires ValidConfig(c) && Sound(c, db) && ValidProperty(c, prop)
    requires cur.Some? && prop.base.Object? ==> cur.value < NumRows(db, prop.target)
    requires Orderly(c, upd, ItemNodes(c, prop, x), StepsIn(c, db, prop, x, upd, true, cur))
    ensures UnboxItem(c, db, prop, x, upd, true, cur).res != Err(OutOfBounds)
    decreases Height(x), 3, 0
  {
    hide Create, Steps, Nodes, Orderly;
    if prop.base.Object? && !x.RowRef? { CreateInBounds(c, db, prop.target, x, upd, cur); }
  }

  /** The same for one list: the loop's index runs within the recorded length, which stays. */
  lemma AssignInBounds(c: Config, K: set<Id>, db: Db, t: nat, row: nat, p: nat, x: Value, upd: bool)
    requires Writable(c, db, t, row, p, upd) && c.inWrite && Prop(c, t, p).isArray
    requires Steady(c, K, db, t, row, upd, PropNodes(c, Prop(c, t, p), x), StepsOf(c, db, t, row, p, x, upd, true))
    ensures Assign(c, db, t, row, p, x, upd, true).res != Err(OutOfBounds)
    decreases Height(x), 5, 0
  {
    hide Writable, Steady, StepsAlong, AssignDiff;
    if x.Vals? { LoopInBounds(c, K, db, t, row, p, x, upd, 0, |ListAt(db, t, row, p)|); }
  }

  lemma LoopInBounds(c: Config, K: set<Id>, db: Db, t: nat, row: nat, p: nat, x: Value, upd: bool, k: nat, sz: nat)
    requires Writable(c, db, t, row, p, upd) && c.inWrite && Prop(c, t, p).isArray && x.Vals? && k <= |x.elems|
    requires k < sz ==>
               && |ListAt(db, t, row, p)| == sz
               && Steady(c, K, db, t, row, upd, PropNodes(c, Prop(c, t, p), x),
                         StepsAlong(c, db, t, row, p, x.elems, upd, k, sz))
    ensures AssignDiff(c, db, t, row, p, x.elems, upd, k, sz).res != Err(OutOfBounds)
    decreases Height(x), 4, |x.elems| - k
  {
    hide Steady, Writable, StepsBy, SetValue, AddValue, Evolves, Nodes, CountedOne;
    var prop := Prop(c, t, p);
    WritableCell(c, db, t, row, p, upd);
    if k == |x.elems| {
      if k < sz { TrimCuts(db, Loc(t, row, p), k, sz); }
    } else {
      var y := x.elems[k];
      var s := if k < sz then SetValue(c, db, t, row, p, k, y, upd) else AddValue(c, db, t, row, p, y, upd);
      var here := StepsBy(c, db, t, row, p, y, upd, k, sz);
      var after := if s.res.Ok? then StepsAlong(c, s.db, t, row, p, x.elems, upd, k + 1, sz) else [];
      ElementNodes(c, prop, x, k);
      WritableHasRow(c, db, t, row, p, upd);
      ElementIsWritable(c, db, t, row, p, y, upd, k, sz);
      if k < sz {
        SteadySplit(c, K, db, t, row, upd, PropNodes(c, prop, x), ItemNodes(c, prop, y), here, after);
        ElementInBounds(c, K, db, t, row, p, y, upd, k, sz);
        if s.res.Ok? { SteadyOn(c, K, db, s.db, t, row, upd, PropNodes(c, prop, x), after); }
      } else {
        AddInBounds(c, db, t, row, p, y, upd);
      }
      if s.res.Ok? { LoopInBounds(c, K, s.db, t, row, p, x, upd, k + 1, sz); }
    }
  }

  lemma AddInBounds(c: Config, db: Db, t: nat, row: nat, p: nat, x: Value, upd: bool)
    ensures AddValue(c, db, t, row, p, x, upd).res != Err(OutOfBounds)
  {
    PlainUnboxInBounds(c, db, Prop(c, t, p), x, upd, None);
  }

  lemma ElementInBounds(c: Config, K: set<Id>, db: Db, t: nat, row: nat, p: nat, x: Value, upd: bool, k: nat, sz: nat)
    requires Writable(c, db, t, row, p, upd) && c.inWrite && Prop(c, t, p).isArray
    requires k < sz == |ListAt(db, t, row, p)|
    requires Steady(c, K, db, t, row, upd, ItemNodes(c, Prop(c, t, p), x), StepsBy(c, db, t, row, p, x, upd, k, sz))
    ensures var s := SetValue(c, db, t, row, p, k, x, upd);
      s.res != Err(OutOfBounds) && (s.res.Ok? ==> |ListAt(s.db, t, row, p)| == sz)
    decreases Height(x), 4, 0
  {
    hide Create, Nodes, Evolves, Avoids, Sound, Steady, Orderly, UnboxItem, StepsIn, LeavesAlone;
    var prop, cur := Prop(c, t, p), RowAt(db, t, row, p, k, sz);
    SteadyIsOpen(c, K, db, t, row, p, upd, ItemNodes(c, prop, x), StepsBy(c, db, t, row, p, x, upd, k, sz));
    WritableCell(c, db, t, row, p, upd);
    WritableElement(c, db, t, row, p, upd, k);
    UnboxInBounds(c, db, prop, x, upd, cur);
    UnboxingSparesList(c, K, db, t, row, p, x, upd, k, sz);
    ElementCounts(c, K, db, t, row, p, x, upd, k, sz);
    var s := SetValue(c, db, t, row, p, k, x, upd);
    if s.res.Ok? { CountedLength(db, s.db, Loc(t, row, p), k, sz); }
  }

  // ---- The condition is needed --------------------------------------------------------------------

  // Object 1 lists object 2; it is updated with a list of object 1 whose own list is empty.
  const NEST: Config :=
    Config([ObjectSchema([KEY, Property(Object, false, true, 0, Absent)], Some(0))], true, false, map[])
  const PAIR: Db := Db([[[One(Scalar(1)), Many([Link(1)])], [One(Scalar(2)), Many([])]]], [])
  const EMPTIED: Value := Obj([Given(Prim(Int, 1)), Given(Vals([]))], false)
  const NESTED: Value := Obj([Given(Prim(Int, 1)), Given(Vals([EMPTIED]))], false)

  lemma EmptyingRuns()
    ensures Create(NEST, PAIR, 0, EMPTIED, true, true, Some(1)) == Ran(Put(PAIR, ListRemove, 0, 0, 1, Many([])), Ok(0))
  {
    var c, db, there := NEST, PAIR, Place(0, false, true);
    var emptied := Put(db, ListRemove, 0, 0, 1, Many([]));
    assert FindFirst(db, 0, 0, Scalar(1)) == Some(0);
    assert [Link(1)][..0] + [Link(1)][1..] == [];
    assert Trim(emptied, 0, 0, 1, 0, 0) == Ran(emptied, Ok(()));
    assert Trim(db, 0, 0, 1, 0, 1) == Ran(emptied, Ok(()));
    assert Assign(c, db, 0, 0, 1, Vals([]), true, true) == Ran(emptied, Ok(()));
    assert SetProp(c, db, 0, 0, 1, Vals([]), true, true, false) == Ran(emptied, Ok(()));
    assert Populate(c, emptied, 0, there, EMPTIED, true, true, 2) == Ran(emptied, Ok(0));
    assert Populate(c, db, 0, there, EMPTIED, true, true, 1) == Ran(emptied, Ok(0));
  }

  lemma PairIsSound()
    ensures ValidConfig(NEST) && Sound(NEST, PAIR)
  {}

  /** An update that describes an object inside itself can empty the list that is being assigned. */
  lemma SelfNestingLeavesTheBounds()
    ensures ValidConfig(NEST) && Sound(NEST, PAIR)
    ensures Create(NEST, PAIR, 0, NESTED, true, true, None).res == Err(OutOfBounds)
  {
    hide Sound, ValidConfig;
    var c, db, there := NEST, PAIR, Place(0, false, true);
    var emptied := Put(db, ListRemove, 0, 0, 1, Many([]));
    PairIsSound();
    EmptyingRuns();
    assert FindFirst(db, 0, 0, Scalar(1)) == Some(0);
    assert UnboxItem(c, db, Prop(c, 0, 1), EMPTIED, true, true, Some(1)) == Ran(emptied, Ok(RowItem(0, 0)));
    assert SetValue(c, db, 0, 0, 1, 0, EMPTIED, true) == Ran(emptied, Err(OutOfBounds));
    assert AssignDiff(c, db, 0, 0, 1, [EMPTIED], true, 0, 1) == Ran(emptied, Err(OutOfBounds));
    assert Assign(c, db, 0, 0, 1, Vals([EMPTIED]), true, true) == Ran(emptied, Err(OutOfBounds));
    assert SetProp(c, db, 0, 0, 1, Vals([EMPTIED]), true, true, false) == Ran(emptied, Err(OutOfBounds));
    assert Populate(c, db, 0, there, NESTED, true, true, 1) == Ran(emptied, Err(OutOfBounds));
  }

  // Object 1 is linked to an object without a key that lists itself twice, and is updated with that
  // listing two objects, of which the first has an empty list.
  const HOLDER: Config :=
    Config([ObjectSchema([KEY, Property(Object, true, false, 1, Absent)], Some(0)),
            ObjectSchema([Property(Object, false, true, 1, Absent)], None)], true, false, map[])
  const RING: Db := Db([[[One(Scalar(1)), One(Link(0))]], [[Many([Link(0), Link(0)])]]], [])
  const DROPPED: Db := Put(Put(RING, ListRemove, 1, 0, 0, Many([Link(0)])), ListRemove, 1, 0, 0, Many([]))
  const BARE: Value := Obj([Given(Vals([]))], false)
  const LISTING: Value := Obj([Given(Vals([BARE, BARE]))], false)
  const HOLDING: Value := Obj([Given(Prim(Int, 1)), Given(LISTING)], false)

  lemma DroppingRuns()
    ensures Create(HOLDER, RING, 1, BARE, true, true, Some(0)) == Ran(DROPPED, Ok(0))
  {
    var c, there, half := HOLDER, Place(0, false, true), Put(RING, ListRemove, 1, 0, 0, Many([Link(0)]));
    assert [Link(0)][..0] + [Link(0)][1..] == [];
    assert [Link(0), Link(0)][..0] + [Link(0), Link(0)][1..] == [Link(0)];
    assert Trim(DROPPED, 1, 0, 0, 0, 0) == Ran(DROPPED, Ok(()));
    assert Trim(half, 1, 0, 0, 0, 1) == Ran(DROPPED, Ok(()));
    assert Trim(RING, 1, 0, 0, 0, 2) == Ran(DROPPED, Ok(()));
    assert Assign(c, RING, 1, 0, 0, Vals([]), true, true) == Ran(DROPPED, Ok(()));
    assert SetProp(c, RING, 1, 0, 0, Vals([]), true, true, false) == Ran(DROPPED, Ok(()));
    assert Populate(c, DROPPED, 1, there, BARE, true, true, 1) == Ran(DROPPED, Ok(0));
  }

  lemma ListingRuns()
    ensures Create(HOLDER, RING, 1, LISTING, true, true, Some(0)) == Ran(DROPPED, Err(OutOfBounds))
  {
    var c, there := HOLDER, Place(0, false, true);
    DroppingRuns();
    assert UnboxItem(c, RING, Prop(c, 1, 0), BARE, true, true, Some(0)) == Ran(DROPPED, Ok(RowItem(1, 0)));
    assert SetValue(c, RING, 1, 0, 0, 0, BARE, true) == Ran(DROPPED, Ok(()));
    assert SetValue(c, DROPPED, 1, 0, 0, 1, BARE, true) == Ran(DROPPED, Err(OutOfBounds));
    assert AssignDiff(c, DROPPED, 1, 0, 0, [BARE, BARE], true, 1, 2) == Ran(DROPPED, Err(OutOfBounds));
    assert AssignDiff(c, RING, 1, 0, 0, [BARE, BARE], true, 0, 2) == Ran(DROPPED, Err(OutOfBounds));
    assert Assign(c, RING, 1, 0, 0, Vals([BARE, BARE]), true, true) == Ran(DROPPED, Err(OutOfBounds));
    assert SetProp(c, RING, 1, 0, 0, Vals([BARE, BARE]), true, true, false) == Ran(DROPPED, Err(OutOfBounds));
    assert Populate(c, RING, 1, there, LISTING, true, true, 0) == Ran(DROPPED, Err(OutOfBounds));
  }

  lemma RingIsSound()
    ensures ValidConfig(HOLDER) && Sound(HOLDER, RING)
  {}

  /** Only the object itself has a key. */
  lemma HoldingIsApart()
    ensures SelfApart(HOLDER, Nodes(HOLDER, 0, HOLDING))
  {
    assert ChildNodes(HOLDER, 1, BARE) == {};
    assert Nodes(HOLDER, 1, BARE) == {Node(1, BARE)};
    forall m | m in ChildNodes(HOLDER, 1, LISTING) ensures m.t == 1 {
      var i: nat :| i < 1 && m in PropNodes(HOLDER, Prop(HOLDER, 1, i), FieldOf(LISTING, i).value.v);
      var k: nat :| k < 2 && m in Nodes(HOLDER, 1, [BARE, BARE][k]);
    }
    forall m | m in ChildNodes(HOLDER, 0, HOLDING) ensures m.t == 1 {
      var i: nat :| i < 2 && m in PropNodes(HOLDER, Prop(HOLDER, 0, i), FieldOf(HOLDING, i).value.v);
      assert m in Nodes(HOLDER, 1, LISTING);
    }
  }

  /** Nor is it enough that no description names an object that contains it. */
  lemma ReenteringLeavesTheBounds()
    ensures ValidConfig(HOLDER) && Sound(HOLDER, RING) && SelfApart(HOLDER, Nodes(HOLDER, 0, HOLDING))
    ensures Create(HOLDER, RING, 0, HOLDING, true, true, None).res == Err(OutOfBounds)
  {
    var c, there := HOLDER, Place(0, false, true);
    RingIsSound();
    HoldingIsApart();
    ListingRuns();
    hide Sound, ValidConfig, SelfApart, Nodes;
    assert FindFirst(RING, 0, 0, Scalar(1)) == Some(0);
    assert SetProp(c, RING, 0, 0, 1, LISTING, true, true, false) == Ran(DROPPED, Err(OutOfBounds));
    assert Populate(c, RING, 0, there, HOLDING, true, true, 1) == Ran(DROPPED, Err(OutOfBounds));
  }
}
