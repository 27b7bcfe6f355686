/** What is written in vain, in either mode, and how few list operations the diff mode performs. */
module Writes {
  import opened Outcomes
  import opened Schemas
  import opened Tables
  import opened Upsert
  import opened Trace
  import opened Evolution
  import opened Keeps
  import opened Reuse
  import opened Descriptions
  import opened DiffMode
  import opened Storage

  // ---- Only what differs ------------------------------------------------------------------------

  /** A write that changes its cell. */
  predicate Changing(e: Event) {
    e.Wrote? ==> e.before != e.after
  }

  ghost predicate OnlyChanges(db: Db, db': Db) {
    forall i: nat :: |db.log| <= i < |db'.log| ==> Changing(db'.log[i])
  }

  lemma OnlyChangesSplit(a: Db, b: Db, d: Db)
    requires LogGrows(a, b) && LogGrows(b, d)
    ensures LogGrows(a, d) && (OnlyChanges(a, d) <==> OnlyChanges(a, b) && OnlyChanges(b, d))
  {
    LogGrowsTrans(a, b, d);
    if OnlyChanges(a, d) {
      forall i: nat | |a.log| <= i < |b.log| ensures Changing(b.log[i]) { assert d.log[i] == b.log[i]; }
    }
    if OnlyChanges(a, b) && OnlyChanges(b, d) {
      forall i: nat | |a.log| <= i < |d.log| ensures Changing(d.log[i]) {
        if i < |b.log| { assert d.log[i] == b.log[i]; }
      }
    }
  }

  lemma NoChange(db: Db)
    ensures OnlyChanges(db, db) && LogGrows(db, db)
  {}

  lemma PutChangesIff(db: Db, kind: Kind, t: nat, row: nat, p: nat, cell: Cell)
    ensures LogGrows(db, Put(db, kind, t, row, p, cell))
    ensures OnlyChanges(db, Put(db, kind, t, row, p, cell)) <==> InRange(db, t, row, p) ==>
            CellAt(db, t, row, p) != cell
  {
    var db' := Put(db, kind, t, row, p, cell);
    if InRange(db, t, row, p) { assert db'.log[|db.log|] == Wrote(kind, t, row, p, CellAt(db, t, row, p), cell); }
  }

  // ---- What repeats ---------------------------------------------------------------------------------

  /** No cell is overwritten with what it holds. */
  ghost predicate RepeatsNothing(steps: seq<Step>) {
    forall s :: s in steps ==> !s.Repeating?
  }

  lemma RepeatsSplit(a: seq<Step>, b: seq<Step>)
    ensures RepeatsNothing(a + b) <==> RepeatsNothing(a) && RepeatsNothing(b)
  {
    if RepeatsNothing(a + b) {
      assert forall s :: s in a ==> s in a + b;
      assert forall s :: s in b ==> s in a + b;
    }
  }

  lemma OneRepeats(b: bool, t: nat, row: nat, p: nat)
    ensures RepeatsNothing(StepIf(b, Repeating(t, row, p))) <==> !b
  {
    if b { assert Repeating(t, row, p) in StepIf(b, Repeating(t, row, p)); }
  }

  /**
   * No row is updated while it is being populated: no description names an object that contains it,
   * and no row without a key is reused inside itself, or none at all where nothing is updated.
   */
  ghost predicate Orderly(c: Config, upd: bool, N: set<Node>, steps: seq<Step>) {
    if upd then SelfApart(c, N) && (NeverReentered(steps) || ReusesNothing(steps)) else ReusesNothing(steps)
  }

  /** The row stays as it is while the steps below it are taken. */
  ghost predicate Steady(c: Config, K: set<Id>, db: Db, t: nat, row: nat, upd: bool, N: set<Node>, steps: seq<Step>) {
    && (if Everything in K then !upd else K == {RowId(c, db, t, row)} && !WritesKeys(c, upd))
    && Avoids(c, K, N) && LeavesAlone(K, steps) && Orderly(c, upd, N, steps) && (upd || Everything in K)
  }

  lemma SteadySplit(c: Config, K: set<Id>, db: Db, t: nat, row: nat, upd: bool, N: set<Node>, M: set<Node>,
                    a: seq<Step>, b: seq<Step>)
    requires Steady(c, K, db, t, row, upd, N, a + b) && M <= N
    ensures Steady(c, K, db, t, row, upd, M, a) && Steady(c, K, db, t, row, upd, N, b)
    ensures Orderly(c, upd, M, a)
  {
    LeavesAloneSplit(K, a, b);
    assert forall s :: s in a ==> s in a + b;
    assert forall s :: s in b ==> s in a + b;
  }

  lemma SteadyOn(c: Config, K: set<Id>, db: Db, db': Db, t: nat, row: nat, upd: bool, N: set<Node>, steps: seq<Step>)
    requires Steady(c, K, db, t, row, upd, N, steps) && Evolves(c, WritesKeys(c, upd), {}, {}, db, db')
    requires row < NumRows(db, t)
    ensures Steady(c, K, db', t, row, upd, N, steps)
  {}

  /** The cell is there, and may be written. */
  ghost predicate Writable(c: Config, db: Db, t: nat, row: nat, p: nat, upd: bool) {
    ValidConfig(c) && Sound(c, db) && MayWrite(c, WritesKeys(c, upd), {}, {}, db, t, row, p)
  }

  lemma WritableCell(c: Config, db: Db, t: nat, row: nat, p: nat, upd: bool)
    requires Writable(c, db, t, row, p, upd)
    ensures InRange(db, t, row, p) && CellOk(db, Prop(c, t, p), CellAt(db, t, row, p))
            && ValidProperty(c, Prop(c, t, p))
    ensures ValidConfig(c) && Sound(c, db)
  {}

  lemma WritableOn(c: Config, db: Db, db': Db, t: nat, row: nat, p: nat, upd: bool)
    requires Writable(c, db, t, row, p, upd) && Evolves(c, WritesKeys(c, upd), {}, {}, db, db')
    ensures Writable(c, db', t, row, p, upd)
  {
    MayWriteStays(c, WritesKeys(c, upd), {}, {}, db, db', t, row, p);
  }

  lemma SteadyIsOpen(c: Config, K: set<Id>, db: Db, t: nat, row: nat, p: nat, upd: bool, N: set<Node>, steps: seq<Step>)
    requires Writable(c, db, t, row, p, upd) && Steady(c, K, db, t, row, upd, N, steps)
    ensures Open(c, K, db, t, row, p, upd, N) && LeavesAlone(K, steps) && Orderly(c, upd, N, steps)
  {}

  /** A cell of a steady row is still as it was after an unboxing. */
  lemma SteadyCell(c: Config, K: set<Id>, db: Db, t: nat, row: nat, p: nat, x: Value, upd: bool, cur: Option<nat>)
    requires Writable(c, db, t, row, p, upd)
    requires Steady(c, K, db, t, row, upd, ItemNodes(c, Prop(c, t, p), x),
                    StepsIn(c, db, Prop(c, t, p), x, upd, true, cur))
    requires cur.Some? && Prop(c, t, p).base.Object? ==> cur.value < NumRows(db, Prop(c, t, p).target)
    ensures CellAt(UnboxItem(c, db, Prop(c, t, p), x, upd, true, cur).db, t, row, p) == CellAt(db, t, row, p)
  {
    hide Spares, LogSpares, UniqueKeys, KeysStay, LogGrows, NoneAdded;
    WritableCell(c, db, t, row, p, upd);
    UnboxItemEvolves(c, WritesKeys(c, upd), K, {}, db, Prop(c, t, p), x, upd, true, cur);
    SparedCell(c, WritesKeys(c, upd), K, {}, db, UnboxItem(c, db, Prop(c, t, p), x, upd, true, cur).db, t, row, p);
  }

  // ---- In either mode only that is written in vain ------------------------------------------------------

  lemma LocateWritesNothing(c: Config, db: Db, t: nat, v: Value, upd: bool, diff: bool, cur: Option<nat>)
    ensures OnlyChanges(db, Locate(c, db, t, v, upd, diff, cur).db)
    ensures LogGrows(db, Locate(c, db, t, v, upd, diff, cur).db)
  {}

  lemma CreateWritesIff(c: Config, db: Db, t: nat, v: Value, upd: bool, diff: bool, cur: Option<nat>)
    requires ValidConfig(c) && Sound(c, db) && t < |c.schema| && (cur.Some? ==> cur.value < NumRows(db, t))
    requires diff ==> Orderly(c, upd, Nodes(c, t, v), Steps(c, db, t, v, upd, diff, cur))
    ensures var s := Create(c, db, t, v, upd, diff, cur);
      LogGrows(db, s.db) && (OnlyChanges(db, s.db) <==> RepeatsNothing(Steps(c, db, t, v, upd, diff, cur)))
    decreases Height(v), 2, 0
  {
    hide Evolves, Locate, StepsFrom, Populate, OnlyChanges, LogGrows, Nodes, Orderly, Sound, ValidConfig, Carries;
    NoChange(db);
    if c.inWrite {
      LocateEvolves(c, WritesKeys(c, upd), {}, {}, db, t, v, upd, diff, cur);
      LocateWritesNothing(c, db, t, v, upd, diff, cur);
      var at := Locate(c, db, t, v, upd, diff, cur);
      if at.res.Ok? {
        var place := at.res.value;
        if v.Obj? {
          LocatedIsSteady(c, db, t, v, upd, diff, cur);
          PopulateWritesIff(c, Own(c, at.db, t, place.row, upd), at.db, t, place, v, upd, diff, 0);
          OnlyChangesSplit(db, at.db, Create(c, db, t, v, upd, diff, cur).db);
          RepeatsBelow(c, t, diff, cur, place.row, StepsFrom(c, at.db, t, place, v, upd, diff, 0));
        } else {
          NotAnObject(c, at.db, at.db, t, place, v, upd, diff, 0);
        }
      }
    }
  }

  lemma RepeatsBelow(c: Config, t: nat, diff: bool, cur: Option<nat>, row: nat, below: seq<Step>)
    ensures RepeatsNothing(StepIf(Primary(c, t).None? && diff && cur.Some?, Reusing(t, row)) +
                           StepIf(Primary(c, t).None? && Reusing(t, row) in below, Reentering(t, row)) + below) <==>
            RepeatsNothing(below)
  {
    RepeatsSplit(StepIf(Primary(c, t).None? && diff && cur.Some?, Reusing(t, row)) +
                 StepIf(Primary(c, t).None? && Reusing(t, row) in below, Reentering(t, row)), below);
  }

  /** The row found or added is not written by anything described below it. */
  lemma LocatedIsSteady(c: Config, db: Db, t: nat, v: Value, upd: bool, diff: bool, cur: Option<nat>)
    requires ValidConfig(c) && Sound(c, db) && t < |c.schema| && (cur.Some? ==> cur.value < NumRows(db, t))
    requires diff ==> Orderly(c, upd, Nodes(c, t, v), Steps(c, db, t, v, upd, diff, cur))
    requires c.inWrite && v.Obj? && Locate(c, db, t, v, upd, diff, cur).res.Ok?
    ensures var at := Locate(c, db, t, v, upd, diff, cur);
      var row := at.res.value.row;
      && Sound(c, at.db) && row < NumRows(at.db, t) && (at.res.value.skipPrimary || WritesKeys(c, upd))
      && (diff ==> Steady(c, Own(c, at.db, t, row, upd), at.db, t, row, upd, ChildNodes(c, t, v),
                          StepsFrom(c, at.db, t, at.res.value, v, upd, diff, 0)))
  {
    hide StepsFrom, Spares, LogSpares, UniqueKeys, KeysStay, LogGrows, NoneAdded;
    LocateEvolves(c, WritesKeys(c, upd), {}, {}, db, t, v, upd, diff, cur);
    if diff {
      var at := Locate(c, db, t, v, upd, diff, cur);
      var row, below := at.res.value.row, StepsFrom(c, at.db, t, at.res.value, v, upd, diff, 0);
      assert Node(t, v) in Nodes(c, t, v) && ChildNodes(c, t, v) <= Nodes(c, t, v);
      assert forall s :: s in below ==> s in Steps(c, db, t, v, upd, diff, cur);
      assert Primary(c, t).None? && Reusing(t, row) in below ==>
             Reentering(t, row) in Steps(c, db, t, v, upd, diff, cur);
    }
  }

  lemma PopulateWritesIff(c: Config, K: set<Id>, db: Db, t: nat, place: Place, v: Value, upd: bool, diff: bool, i: nat)
    requires ValidConfig(c) && Sound(c, db) && t < |c.schema| && v.Obj? && c.inWrite
    requires place.row < NumRows(db, t) && (place.skipPrimary || WritesKeys(c, upd))
    requires diff ==> Steady(c, K, db, t, place.row, upd, ChildNodes(c, t, v),
                             StepsFrom(c, db, t, place, v, upd, diff, i))
    ensures var s := Populate(c, db, t, place, v, upd, diff, i);
      LogGrows(db, s.db) && (OnlyChanges(db, s.db) <==> RepeatsNothing(StepsFrom(c, db, t, place, v, upd, diff, i)))
    decreases Height(v), 1, |Props(c, t)| - i
  {
    hide Evolves, Choose, SetProp, StepsAt, OnlyChanges, LogGrows, Nodes, ChildNodes, Sound, Steady, RepeatsNothing;
    NoChange(db);
    NothingRepeats();
    if i < |Props(c, t)| {
      match Choose(c, t, i, v, place)
      case Skip => PopulateWritesIff(c, K, db, t, place, v, upd, diff, i + 1);
      case Fail(_) =>
      case Write(x, isDefault) =>
        var s := SetProp(c, db, t, place.row, i, x, upd, diff, isDefault);
        var here := StepsAt(c, db, t, place.row, i, x, upd, diff, isDefault);
        var after := if s.res.Ok? then StepsFrom(c, s.db, t, place, v, upd, diff, i + 1) else [];
        ChosenNodes(c, t, i, v, place);
        if diff {
          SteadySplit(c, K, db, t, place.row, upd, ChildNodes(c, t, v), PropNodes(c, Prop(c, t, i), x), here, after);
        }
        WriteIsWritable(c, db, t, place, v, upd, diff, i);
        SetPropWritesIff(c, K, db, t, place.row, i, x, upd, diff, isDefault);
        RepeatsSplit(here, after);
        if s.res.Ok? {
          if diff { SteadyOn(c, K, db, s.db, t, place.row, upd, ChildNodes(c, t, v), after); }
          PopulateWritesIff(c, K, s.db, t, place, v, upd, diff, i + 1);
          OnlyChangesSplit(db, s.db, Populate(c, s.db, t, place, v, upd, diff, i + 1).db);
        }
    }
  }

  lemma NothingRepeats()
    ensures RepeatsNothing([])
  {}

  lemma WriteIsWritable(c: Config, db: Db, t: nat, place: Place, v: Value, upd: bool, diff: bool, i: nat)
    requires ValidConfig(c) && Sound(c, db) && t < |c.schema| && v.Obj?
    requires place.row < NumRows(db, t) && (place.skipPrimary || WritesKeys(c, upd))
    requires i < |Props(c, t)| && Choose(c, t, i, v, place).Write?
    ensures var w := Choose(c, t, i, v, place);
      var db' := SetProp(c, db, t, place.row, i, w.x, upd, diff, w.isDefault).db;
      && Writable(c, db, t, place.row, i, upd)
      && Evolves(c, WritesKeys(c, upd), {}, {}, db, db') && Sound(c, db') && place.row < NumRows(db', t)
  {
    hide SetProp, Spares, LogSpares, UniqueKeys, KeysStay, LogGrows, NoneAdded;
    var w := Choose(c, t, i, v, place);
    SetPropEvolves(c, WritesKeys(c, upd), {}, {}, db, t, place.row, i, w.x, upd, diff, w.isDefault);
  }

  lemma SetPropWritesIff(c: Config, K: set<Id>, db: Db, t: nat, row: nat, p: nat, x: Value, upd: bool, diff: bool,
                         isDefault: bool)
    requires Writable(c, db, t, row, p, upd) && c.inWrite
    requires diff ==>
               Steady(c, K, db, t, row, upd, PropNodes(c, Prop(c, t, p), x),
                      StepsAt(c, db, t, row, p, x, upd, diff, isDefault))
    ensures var s := SetProp(c, db, t, row, p, x, upd, diff, isDefault);
      LogGrows(db, s.db) && (OnlyChanges(db, s.db) <==>
                             RepeatsNothing(StepsAt(c, db, t, row, p, x, upd, diff, isDefault)))
    decreases Height(x), 6, 0
  {
    hide OnlyChanges, LogGrows, Writable, Steady, RepeatsNothing, StepsIn, StepsOf, UnboxItem, Assign, Nodes, SetLink;
    var prop, cell := Prop(c, t, p), CellAt(db, t, row, p);
    WritableCell(c, db, t, row, p, upd);
    NoChange(db);
    NothingRepeats();
    OneRepeats(true, t, row, p);
    if prop.nullable && x.Null? {
      PutChangesIff(db, SetCell, t, row, p, One(Nothing));
    } else if prop.isArray {
      AssignWritesIff(c, K, db, t, row, p, x, upd, diff);
    } else if prop.base.Object? {
      LinkWritesIff(c, K, db, t, row, p, x, upd, diff, isDefault);
    } else if UnboxScalar(prop, x).Ok? {
      PutChangesIff(db, SetCell, t, row, p, One(UnboxScalar(prop, x).value));
      if diff { MistakesRepeatNothing(MistakenAt(c, prop, x, cell), t, row, p); }
    }
  }

  lemma MistakesRepeatNothing(b: bool, t: nat, row: nat, p: nat)
    ensures RepeatsNothing(StepIf(b, Mistaking(t, row, p)))
  {}

  lemma LinkWritesIff(c: Config, K: set<Id>, db: Db, t: nat, row: nat, p: nat, x: Value, upd: bool, diff: bool,
                      isDefault: bool)
    requires Writable(c, db, t, row, p, upd) && c.inWrite
    requires diff ==>
               Steady(c, K, db, t, row, upd, PropNodes(c, Prop(c, t, p), x),
                      StepsAt(c, db, t, row, p, x, upd, diff, isDefault))
    requires Prop(c, t, p).base.Object? && !Prop(c, t, p).isArray && !x.Null?
    ensures var s := SetProp(c, db, t, row, p, x, upd, diff, isDefault);
      LogGrows(db, s.db) && (OnlyChanges(db, s.db) <==>
                             RepeatsNothing(StepsAt(c, db, t, row, p, x, upd, diff, isDefault)))
    decreases Height(x), 4, 0
  {
    hide OnlyChanges, LogGrows, Writable, Steady, RepeatsNothing, StepsIn, UnboxItem, Nodes, Orderly, Evolves;
    var prop, cell := Prop(c, t, p), CellAt(db, t, row, p);
    WritableCell(c, db, t, row, p, upd);
    var below, u := StepsIn(c, db, prop, x, upd, diff, LinkOf(cell)),
        UnboxItem(c, db, prop, x, upd, diff, LinkOf(cell));
    var inVain := !diff && u.res.Ok? && CellAt(u.db, t, row, p) == One(Link(ItemRow(u.res.value)));
    var own := StepIf(inVain, Repeating(t, row, p));
    assert StepsAt(c, db, t, row, p, x, upd, diff, isDefault) == below + own;
    if diff {
      SteadySplit(c, K, db, t, row, upd, PropNodes(c, prop, x), ItemNodes(c, prop, x), below, own);
      SteadyCell(c, K, db, t, row, p, x, upd, LinkOf(cell));
    }
    UnboxWritesIff(c, db, prop, x, upd, diff, LinkOf(cell));
    UnboxedIsWritable(c, db, t, row, p, x, upd, diff, LinkOf(cell));
    RepeatsSplit(below, own);
    OneRepeats(inVain, t, row, p);
    if u.res.Ok? {
      NoChange(u.db);
      PutChangesIff(u.db, SetCell, t, row, p, One(Link(ItemRow(u.res.value))));
      LinkIsInRange(c, u.db, t, row, p, ItemRow(u.res.value), upd);
      OnlyChangesSplit(db, u.db, SetLink(u.db, prop, t, row, p, LinkOf(cell), u.res.value, diff).db);
    }
  }

  lemma UnboxedIsWritable(c: Config, db: Db, t: nat, row: nat, p: nat, x: Value, upd: bool, diff: bool,
                          cur: Option<nat>)
    requires Writable(c, db, t, row, p, upd)
    requires cur.Some? && Prop(c, t, p).base.Object? ==> cur.value < NumRows(db, Prop(c, t, p).target)
    ensures var u := UnboxItem(c, db, Prop(c, t, p), x, upd, diff, cur);
      Writable(c, u.db, t, row, p, upd) && Evolves(c, WritesKeys(c, upd), {}, {}, db, u.db)
  {
    hide UnboxItem, Spares, LogSpares, UniqueKeys, KeysStay, LogGrows, NoneAdded;
    WritableCell(c, db, t, row, p, upd);
    UnboxItemEvolves(c, WritesKeys(c, upd), {}, {}, db, Prop(c, t, p), x, upd, diff, cur);
    WritableOn(c, db, UnboxItem(c, db, Prop(c, t, p), x, upd, diff, cur).db, t, row, p, upd);
  }

  lemma LinkIsInRange(c: Config, db: Db, t: nat, row: nat, p: nat, target: nat, upd: bool)
    requires Writable(c, db, t, row, p, upd)
    ensures InRange(db, t, row, p)
            && (CellAt(db, t, row, p) == One(Link(target)) ==> target < NumRows(db, Prop(c, t, p).target))
  {}

  /** Unboxing an object; anything else writes nothing. */
  lemma UnboxWritesIff(c: Config, db: Db, prop: Property, x: Value, upd: bool, diff: bool, cur: Option<nat>)
    requires ValidConfig(c) && Sound(c, db) && ValidProperty(c, prop)
    requires cur.Some? && prop.base.Object? ==> cur.value < NumRows(db, prop.target)
    requires diff ==> Orderly(c, upd, ItemNodes(c, prop, x), StepsIn(c, db, prop, x, upd, diff, cur))
    ensures var u := UnboxItem(c, db, prop, x, upd, diff, cur);
      LogGrows(db, u.db) && (OnlyChanges(db, u.db) <==> RepeatsNothing(StepsIn(c, db, prop, x, upd, diff, cur)))
    decreases Height(x), 3, 0
  {
    hide OnlyChanges, LogGrows, RepeatsNothing, Create, Steps, Nodes, Orderly;
    NoChange(db);
    NothingRepeats();
    if prop.base.Object? && !x.RowRef? { CreateWritesIff(c, db, prop.target, x, upd, diff, cur); }
  }

  lemma AssignWritesIff(c: Config, K: set<Id>, db: Db, t: nat, row: nat, p: nat, x: Value, upd: bool, diff: bool)
    requires Writable(c, db, t, row, p, upd) && c.inWrite && Prop(c, t, p).isArray
    requires diff ==>
               Steady(c, K, db, t, row, upd, PropNodes(c, Prop(c, t, p), x), StepsOf(c, db, t, row, p, x, upd, diff))
    ensures var s := Assign(c, db, t, row, p, x, upd, diff);
      LogGrows(db, s.db) && (OnlyChanges(db, s.db) <==> RepeatsNothing(StepsOf(c, db, t, row, p, x, upd, diff)))
    decreases Height(x), 5, 0
  {
    hide OnlyChanges, LogGrows, Steady, RepeatsNothing, StepsAlong, AssignDiff, AssignPlain, Spares, LogSpares, Evolves;
    WritableCell(c, db, t, row, p, upd);
    var inVain, cleared := CellAt(db, t, row, p) == Many([]), Clear(db, t, row, p);
    NoChange(db);
    NothingRepeats();
    OneRepeats(inVain, t, row, p);
    PutChangesIff(db, ListClear, t, row, p, Many([]));
    if x.Vals? {
      if diff {
        LoopWritesIff(c, K, db, t, row, p, x, upd, 0, |ListAt(db, t, row, p)|);
      } else {
        var along := StepsAlong(c, cleared, t, row, p, x.elems, upd, 0, 0);
        PutEvolves(c, WritesKeys(c, upd), {}, {}, db, ListClear, t, row, p, Many([]));
        WritableOn(c, db, cleared, t, row, p, upd);
        DiffOfNothing(c, cleared, t, row, p, x.elems, upd, 0);
        LoopWritesIff(c, {}, cleared, t, row, p, x, upd, 0, 0);
        OnlyChangesSplit(db, cleared, AssignPlain(c, cleared, t, row, p, x.elems, upd, 0).db);
        RepeatsSplit(StepIf(inVain, Repeating(t, row, p)), along);
      }
    } else {
      assert StepIf(inVain, Repeating(t, row, p)) + [] == StepIf(inVain, Repeating(t, row, p));
    }
  }

  lemma LoopWritesIff(c: Config, K: set<Id>, db: Db, t: nat, row: nat, p: nat, x: Value, upd: bool, k: nat, sz: nat)
    requires Writable(c, db, t, row, p, upd) && c.inWrite && Prop(c, t, p).isArray && x.Vals?
    requires k < sz ==> Steady(c, K, db, t, row, upd, PropNodes(c, Prop(c, t, p), x),
                               StepsAlong(c, db, t, row, p, x.elems, upd, k, sz))
    ensures var s := AssignDiff(c, db, t, row, p, x.elems, upd, k, sz);
      LogGrows(db, s.db) && (OnlyChanges(db, s.db) <==>
                             RepeatsNothing(StepsAlong(c, db, t, row, p, x.elems, upd, k, sz)))
    decreases Height(x), 4, if k < |x.elems| then |x.elems| - k else 0
  {
    hide OnlyChanges, LogGrows, Steady, RepeatsNothing, Writable, StepsBy, SetValue, AddValue, Evolves, Nodes;
    NoChange(db);
    NothingRepeats();
    if k >= |x.elems| {
      TrimWritesOnlyChanges(db, t, row, p, k, sz);
    } else {
      var prop, y := Prop(c, t, p), x.elems[k];
      var s := if k < sz then SetValue(c, db, t, row, p, k, y, upd) else AddValue(c, db, t, row, p, y, upd);
      var here := StepsBy(c, db, t, row, p, y, upd, k, sz);
      var after := if s.res.Ok? then StepsAlong(c, s.db, t, row, p, x.elems, upd, k + 1, sz) else [];
      ElementNodes(c, prop, x, k);
      if k < sz { SteadySplit(c, K, db, t, row, upd, PropNodes(c, prop, x), ItemNodes(c, prop, y), here, after); }
      ElementWritesIff(c, K, db, t, row, p, y, upd, k, sz);
      RepeatsSplit(here, after);
      if s.res.Ok? {
        WritableHasRow(c, db, t, row, p, upd);
        if k < sz { SteadyOn(c, K, db, s.db, t, row, upd, PropNodes(c, prop, x), after); }
        LoopWritesIff(c, K, s.db, t, row, p, x, upd, k + 1, sz);
        OnlyChangesSplit(db, s.db, AssignDiff(c, s.db, t, row, p, x.elems, upd, k + 1, sz).db);
      }
    }
  }

  lemma WritableHasRow(c: Config, db: Db, t: nat, row: nat, p: nat, upd: bool)
    requires Writable(c, db, t, row, p, upd)
    ensures row < NumRows(db, t)
  {}

  lemma ElementWritesIff(c: Config, K: set<Id>, db: Db, t: nat, row: nat, p: nat, x: Value, upd: bool, k: nat, sz: nat)
    requires Writable(c, db, t, row, p, upd) && c.inWrite && Prop(c, t, p).isArray
    requires k < sz ==> Steady(c, K, db, t, row, upd, ItemNodes(c, Prop(c, t, p), x),
                               StepsBy(c, db, t, row, p, x, upd, k, sz))
    ensures var s := if k < sz then SetValue(c, db, t, row, p, k, x, upd) else AddValue(c, db, t, row, p, x, upd);
      && Evolves(c, WritesKeys(c, upd), {}, {}, db, s.db) && Writable(c, s.db, t, row, p, upd)
      && LogGrows(db, s.db) && (OnlyChanges(db, s.db) <==> RepeatsNothing(StepsBy(c, db, t, row, p, x, upd, k, sz)))
    decreases Height(x), 4, 0
  {
    hide OnlyChanges, LogGrows, Steady, RepeatsNothing, Writable, UnboxItem, StepsIn, Evolves, ItemNodes;
    var prop, cur := Prop(c, t, p), RowAt(db, t, row, p, k, sz);
    WritableCell(c, db, t, row, p, upd);
    NoChange(db);
    NothingRepeats();
    ElementIsWritable(c, db, t, row, p, x, upd, k, sz);
    if k < sz ==> k < |ListAt(db, t, row, p)| {
      if k < sz {
        WritableElement(c, db, t, row, p, upd, k);
        SteadyIsOrderly(c, K, db, t, row, upd, ItemNodes(c, prop, x), StepsIn(c, db, prop, x, upd, true, cur));
        SteadyCell(c, K, db, t, row, p, x, upd, cur);
      }
      UnboxWritesIff(c, db, prop, x, upd, k < sz, cur);
      var u := UnboxItem(c, db, prop, x, upd, k < sz, cur);
      if u.res.Ok? {
        NoChange(u.db);
        PlacedWrites(u.db, prop, t, row, p, k, sz, u.res.value);
        var s := if k < sz then SetValue(c, db, t, row, p, k, x, upd) else AddValue(c, db, t, row, p, x, upd);
        assert s.db == PlaceItem(u.db, prop, t, row, p, k, sz, u.res.value).db;
        OnlyChangesSplit(db, u.db, s.db);
      }
    }
  }

  lemma SteadyIsOrderly(c: Config, K: set<Id>, db: Db, t: nat, row: nat, upd: bool, N: set<Node>, steps: seq<Step>)
    requires Steady(c, K, db, t, row, upd, N, steps)
    ensures Orderly(c, upd, N, steps)
  {}

  lemma WritableElement(c: Config, db: Db, t: nat, row: nat, p: nat, upd: bool, k: nat)
    requires Writable(c, db, t, row, p, upd) && Prop(c, t, p).isArray && k < |ListAt(db, t, row, p)|
    ensures ElemOk(db, Prop(c, t, p), ListAt(db, t, row, p)[k])
  {
    ListElemOk(c, db, t, row, p, k);
  }

  lemma ElementIsWritable(c: Config, db: Db, t: nat, row: nat, p: nat, x: Value, upd: bool, k: nat, sz: nat)
    requires Writable(c, db, t, row, p, upd) && Prop(c, t, p).isArray
    ensures var s := if k < sz then SetValue(c, db, t, row, p, k, x, upd) else AddValue(c, db, t, row, p, x, upd);
      && Evolves(c, WritesKeys(c, upd), {}, {}, db, s.db) && Writable(c, s.db, t, row, p, upd)
      && ValidConfig(c) && Sound(c, db)
  {
    hide SetValue, AddValue, Spares, LogSpares, UniqueKeys, KeysStay, LogGrows, NoneAdded;
    var kw := WritesKeys(c, upd);
    if k < sz {
      SetValueEvolves(c, kw, {}, {}, db, t, row, p, k, x, upd);
      WritableOn(c, db, SetValue(c, db, t, row, p, k, x, upd).db, t, row, p, upd);
    } else {
      AddValueEvolves(c, kw, {}, {}, db, t, row, p, x, upd);
      WritableOn(c, db, AddValue(c, db, t, row, p, x, upd).db, t, row, p, upd);
    }
  }

  lemma PlacedWrites(db: Db, prop: Property, t: nat, row: nat, p: nat, k: nat, sz: nat, item: Item)
    ensures OnlyChanges(db, PlaceItem(db, prop, t, row, p, k, sz, item).db)
    ensures LogGrows(db, PlaceItem(db, prop, t, row, p, k, sz, item).db)
  {}

  lemma {:induction false} TrimWritesOnlyChanges(db: Db, t: nat, row: nat, p: nat, k: nat, sz: nat)
    ensures OnlyChanges(db, Trim(db, t, row, p, k, sz).db) && LogGrows(db, Trim(db, t, row, p, k, sz).db)
    decreases sz
  {
    hide LogGrows, OnlyChanges, Put, InRange;
    var es := ListAt(db, t, row, p);
    NoChange(db);
    if k < sz && k < |es| {
      var fewer := es[..k] + es[k + 1..];
      assert |fewer| == |es| - 1;
      var db' := Put(db, ListRemove, t, row, p, Many(fewer));
      PutChangesIff(db, ListRemove, t, row, p, Many(fewer));
      TrimWritesOnlyChanges(db', t, row, p, k, sz - 1);
      OnlyChangesSplit(db, db', Trim(db', t, row, p, k, sz - 1).db);
    }
  }

  // ---- The theorem ----------------------------------------------------------------------------------

  /**
   * A create writes only what changes exactly when no step of it repeats what a cell holds, in either
   * mode, at any depth and however it ends. The plain mode repeats a value, a null or a link that is
   * there already, and clears an empty list. The diff mode compares instead: it repeats only within
   * objects beyond the old end of a list, and where a list is given null. An update in the diff mode
   * must not come back to an object while it is populating it.
   */
  lemma CreateWritesOnlyChangesIff(c: Config, db: Db, t: nat, v: Value, upd: bool, diff: bool)
    requires ValidConfig(c) && Sound(c, db) && t < |c.schema|
    requires upd && diff ==> SelfApart(c, Nodes(c, t, v)) && NeverReentered(Steps(c, db, t, v, upd, diff, None))
    ensures var s := Create(c, db, t, v, upd, diff, None);
      OnlyChanges(db, s.db) <==> RepeatsNothing(Steps(c, db, t, v, upd, diff, None))
  {
    if diff && !upd { CreateReusesNothing(c, db, t, v, None); }
    CreateWritesIff(c, db, t, v, upd, diff, None);
  }

  // ---- How many list operations -----------------------------------------------------------------

  /** How often a kind of write to a cell occurs in a log. */
  function Count(log: seq<Event>, kind: Kind, l: Loc): nat {
    if log == [] then 0
    else
      var e := log[|log| - 1];
      Count(log[..|log| - 1], kind, l) +
      if e.Wrote? && e.kind == kind && Loc(e.t, e.row, e.p) == l then 1 else 0
  }

  /** How many writes of a kind to a cell one database has seen more than another. */
  ghost function Fresh(db: Db, db': Db, kind: Kind, l: Loc): int {
    Count(db'.log, kind, l) - Count(db.log, kind, l)
  }

  /** At how many positions of a stretch two lists differ. */
  function Differing(a: seq<Elem>, b: seq<Elem>, from: nat, to: nat): nat
    requires to <= |a| && to <= |b|
    decreases if from < to then to - from else 0
  {
    if from >= to then 0 else Differing(a, b, from + 1, to) + if a[from] != b[from] then 1 else 0
  }

  lemma {:induction false} DifferingSame(a: seq<Elem>, a': seq<Elem>, b: seq<Elem>, from: nat, to: nat)
    requires to <= |a| && to <= |b| && to <= |a'|
    requires forall k :: from <= k < to ==> a[k] == a'[k]
    ensures Differing(a, b, from, to) == Differing(a', b, from, to)
    decreases if from < to then to - from else 0
  {
    if from < to { DifferingSame(a, a', b, from + 1, to); }
  }

  /** Runs that spare a row write none of its cells. */
  lemma CountSpared(c: Config, K: set<Id>, db: Db, db': Db, kind: Kind, l: Loc)
    requires LogGrows(db, db') && LogSpares(c, K, {}, db, db')
    requires l.row < NumRows(db, l.t) && Held(K, RowId(c, db, l.t, l.row))
    ensures Fresh(db, db', kind, l) == 0
  {
    CountSparedUpTo(c, K, db, db', kind, l, |db'.log|);
    assert db'.log[..|db'.log|] == db'.log;
  }

  lemma {:induction false} CountSparedUpTo(c: Config, K: set<Id>, db: Db, db': Db, kind: Kind, l: Loc, n: nat)
    requires LogGrows(db, db') && LogSpares(c, K, {}, db, db') && |db.log| <= n <= |db'.log|
    requires l.row < NumRows(db, l.t) && Held(K, RowId(c, db, l.t, l.row))
    ensures Count(db'.log[..n], kind, l) == Count(db.log, kind, l)
    decreases n
  {
    if n > |db.log| {
      CountSparedUpTo(c, K, db, db', kind, l, n - 1);
      assert SparedBy(c, K, {}, db, db'.log[n - 1]);
      assert db'.log[..n][..n - 1] == db'.log[..n - 1];
    }
  }

  lemma CountPut(db: Db, kind: Kind, l: Loc, cell: Cell, k1: Kind)
    requires InRange(db, l.t, l.row, l.p)
    ensures Fresh(db, Put(db, kind, l.t, l.row, l.p, cell), k1, l) == if k1 == kind then 1 else 0
  {}

  /** What the remaining loop does to the list and to the log, when `k` elements are in place. */
  ghost predicate Counted(db: Db, db': Db, l: Loc, n: nat, k: nat, sz: nat) {
    var es, es' := ListAt(db, l.t, l.row, l.p), ListAt(db', l.t, l.row, l.p);
    var len := if k < sz then sz else k;
    var common := if sz < n then sz else n;
    && k <= n == |es'| && |es| == len && es[..k] == es'[..k]
    && Fresh(db, db', ListSet, l) == Differing(es, es', k, common)
    && Fresh(db, db', ListAdd, l) == (if len < n then n - len else 0)
    && Fresh(db, db', ListRemove, l) == (if n < len then len - n else 0)
    && Fresh(db, db', ListClear, l) == 0
  }

  lemma {:induction false} TrimCounts(db: Db, l: Loc, k: nat, sz: nat)
    requires InRange(db, l.t, l.row, l.p) && CellAt(db, l.t, l.row, l.p).Many?
    requires k <= |ListAt(db, l.t, l.row, l.p)| == if k < sz then sz else k
    ensures Counted(db, Trim(db, l.t, l.row, l.p, k, sz).db, l, k, k, sz)
    decreases sz
  {
    TrimCuts(db, l, k, sz);
    var es := ListAt(db, l.t, l.row, l.p);
    if k < sz {
      var cell := Many(es[..k] + es[k + 1..]);
      var db' := Put(db, ListRemove, l.t, l.row, l.p, cell);
      PutOnlyAt(db, ListRemove, l, cell);
      assert InRange(db', l.t, l.row, l.p);
      TrimCounts(db', l, k, sz - 1);
      forall k1 ensures Fresh(db, db', k1, l) == if k1 == ListRemove then 1 else 0 {
        CountPut(db, ListRemove, l, cell, k1);
      }
    }
  }

  lemma {:induction false} LoopCounts(c: Config, K: set<Id>, db: Db, t: nat, row: nat, p: nat, x: Value, upd: bool,
                        k: nat, sz: nat)
    requires Prop(c, t, p).isArray && x.Vals? && k <= |x.elems|
    requires Open(c, K, db, t, row, p, upd, PropNodes(c, Prop(c, t, p), x))
    requires LeavesAlone(K, StepsAlong(c, db, t, row, p, x.elems, upd, k, sz))
    requires |ListAt(db, t, row, p)| == if k < sz then sz else k
    ensures var s := AssignDiff(c, db, t, row, p, x.elems, upd, k, sz);
      s.res.Ok? ==> Counted(db, s.db, Loc(t, row, p), |x.elems|, k, sz)
    decreases |x.elems| - k
  {
    hide Spares, LogSpares, KeysStay, UniqueKeys, Grows, LogGrows, Avoids, SetValue, AddValue, Trim;
    var l := Loc(t, row, p);
    OpenIsWritable(c, K, db, t, row, p, upd, PropNodes(c, Prop(c, t, p), x));
    if k == |x.elems| {
      TrimCounts(db, l, k, sz);
    } else {
      ElementNodes(c, Prop(c, t, p), x, k);
      assert ItemNodes(c, Prop(c, t, p), x.elems[k]) <= PropNodes(c, Prop(c, t, p), x);
      AvoidsLess(c, K, ItemNodes(c, Prop(c, t, p), x.elems[k]), PropNodes(c, Prop(c, t, p), x));
      var s := if k < sz then SetValue(c, db, t, row, p, k, x.elems[k], upd)
               else AddValue(c, db, t, row, p, x.elems[k], upd);
      LeavesAloneSplit(K, StepsBy(c, db, t, row, p, x.elems[k], upd, k, sz),
                       if s.res.Ok? then StepsAlong(c, s.db, t, row, p, x.elems, upd, k + 1, sz) else []);
      ElementCounts(c, K, db, t, row, p, x.elems[k], upd, k, sz);
      if s.res.Ok? {
        OpenStays(c, K, {l}, db, s.db, t, row, p, upd, PropNodes(c, Prop(c, t, p), x));
        LoopCounts(c, K, s.db, t, row, p, x, upd, k + 1, sz);
        var s' := AssignDiff(c, s.db, t, row, p, x.elems, upd, k + 1, sz);
        if s'.res.Ok? { CountsAdd(db, s.db, s'.db, l, |x.elems|, k, sz); }
      }
    }
  }

  /** One element: at most one operation on the list, and a set only where the element changes. */
  ghost predicate CountedOne(db: Db, db': Db, l: Loc, k: nat, sz: nat) {
    var es, es' := ListAt(db, l.t, l.row, l.p), ListAt(db', l.t, l.row, l.p);
    && k < |es'|
    && (if k < sz then k < |es| && es' == es[k := es'[k]] else es' == es + [es'[k]])
    && Fresh(db, db', ListSet, l) == (if k < sz && es[k] != es'[k] then 1 else 0)
    && Fresh(db, db', ListAdd, l) == (if k < sz then 0 else 1)
    && Fresh(db, db', ListRemove, l) == 0
    && Fresh(db, db', ListClear, l) == 0
  }

  lemma CountedLength(db: Db, db': Db, l: Loc, k: nat, sz: nat)
    requires CountedOne(db, db', l, k, sz) && |ListAt(db, l.t, l.row, l.p)| == if k < sz then sz else k
    ensures |ListAt(db', l.t, l.row, l.p)| == if k + 1 < sz then sz else k + 1
  {}

  lemma ElementCounts(c: Config, K: set<Id>, db: Db, t: nat, row: nat, p: nat, x: Value, upd: bool, k: nat, sz: nat)
    requires Prop(c, t, p).isArray
    requires Open(c, K, db, t, row, p, upd, ItemNodes(c, Prop(c, t, p), x))
    requires LeavesAlone(K, StepsBy(c, db, t, row, p, x, upd, k, sz))
    requires |ListAt(db, t, row, p)| == if k < sz then sz else k
    ensures var s := if k < sz then SetValue(c, db, t, row, p, k, x, upd) else AddValue(c, db, t, row, p, x, upd);
      s.res.Ok? ==>
        CountedOne(db, s.db, Loc(t, row, p), k, sz) && Evolves(c, WritesKeys(c, upd), K, {Loc(t, row, p)}, db, s.db)
  {
    hide Open, UnboxItem, Nodes, Evolves, Avoids, CountedOne, Count, Sound, StepsBy, ElemOk, Fresh, MayWrite;
    var prop, es, l, kw := Prop(c, t, p), ListAt(db, t, row, p), Loc(t, row, p), WritesKeys(c, upd);
    OpenIsWritable(c, K, db, t, row, p, upd, ItemNodes(c, prop, x));
    UnboxingSparesList(c, K, db, t, row, p, x, upd, k, sz);
    var u := UnboxItem(c, db, prop, x, upd, k < sz, RowAt(db, t, row, p, k, sz));
    if u.res.Ok? {
      SparedCounts(c, kw, K, db, u.db, t, row, p);
      OpenIsWritable(c, K, u.db, t, row, p, upd, ItemNodes(c, prop, x));
      EvolvesWeaken(c, kw, K, {}, {l}, db, u.db);
      PlacedCounts(c, kw, K, db, u.db, t, row, p, u.res.value, k, sz);
      var s := if k < sz then SetValue(c, db, t, row, p, k, x, upd) else AddValue(c, db, t, row, p, x, upd);
      if s.res.Ok? { EvolvesTrans(c, kw, K, {l}, db, u.db, s.db); }
    }
  }

  lemma SparedCounts(c: Config, kw: bool, K: set<Id>, db: Db, db': Db, t: nat, row: nat, p: nat)
    requires Evolves(c, kw, K, {}, db, db') && (kw ==> Everything in K)
    requires InRange(db, t, row, p) && Held(K, RowId(c, db, t, row))
    ensures forall k1 :: Fresh(db, db', k1, Loc(t, row, p)) == 0
  {
    forall k1 ensures Fresh(db, db', k1, Loc(t, row, p)) == 0 { CountSpared(c, K, db, db', k1, Loc(t, row, p)); }
  }

  lemma PlacedCounts(c: Config, kw: bool, K: set<Id>, db: Db, mid: Db, t: nat, row: nat, p: nat, item: Item, k: nat,
                     sz: nat)
    requires Sound(c, mid) && MayWrite(c, kw, K, {Loc(t, row, p)}, mid, t, row, p) && Prop(c, t, p).isArray
    requires CellAt(mid, t, row, p) == CellAt(db, t, row, p)
    requires |ListAt(mid, t, row, p)| == if k < sz then sz else k
    requires forall k1 :: Fresh(db, mid, k1, Loc(t, row, p)) == 0
    requires Validate(mid, Prop(c, t, p), item).Ok? ==>
             ElemOk(mid, Prop(c, t, p), Validate(mid, Prop(c, t, p), item).value)
    ensures var s := PlaceItem(mid, Prop(c, t, p), t, row, p, k, sz, item);
      s.res.Ok? ==> CountedOne(db, s.db, Loc(t, row, p), k, sz) && Evolves(c, kw, K, {Loc(t, row, p)}, mid, s.db)
  {
    hide Count, Evolves, Sound;
    var prop, es, l := Prop(c, t, p), ListAt(mid, t, row, p), Loc(t, row, p);
    EvolvesRefl(c, kw, K, {l}, mid);
    CellIsList(c, kw, K, mid, t, row, p);
    var s := PlaceItem(mid, prop, t, row, p, k, sz, item);
    if k < sz && !ItemDiffers(prop, es[k], item) {
      assert es == es[k := es[k]] && s == Ran(mid, Ok(()));
      assert forall k1 :: Fresh(db, s.db, k1, l) == 0;
    } else if Validate(mid, prop, item).Ok? {
      var e := Validate(mid, prop, item).value;
      var kind := if k < sz then ListSet else ListAdd;
      var es' := if k < sz then es[k := e] else es + [e];
      if k < sz {
        SetItemEvolves(c, kw, K, {l}, mid, t, row, p, k, item);
      } else {
        AddItemEvolves(c, kw, K, {l}, mid, t, row, p, item);
      }
      assert s == Ran(Put(mid, kind, t, row, p, Many(es')), Ok(()));
      PutOnlyAt(mid, kind, l, Many(es'));
      forall k1 ensures Fresh(db, s.db, k1, l) == if k1 == kind then 1 else 0 {
        CountPut(mid, kind, l, Many(es'), k1);
        assert Fresh(db, mid, k1, l) == 0;
      }
    }
  }

  lemma CellIsList(c: Config, kw: bool, K: set<Id>, db: Db, t: nat, row: nat, p: nat)
    requires Sound(c, db) && MayWrite(c, kw, K, {Loc(t, row, p)}, db, t, row, p) && Prop(c, t, p).isArray
    ensures InRange(db, t, row, p) && CellAt(db, t, row, p).Many?
  {}

  lemma CountsAdd(a: Db, b: Db, d: Db, l: Loc, n: nat, k: nat, sz: nat)
    requires CountedOne(a, b, l, k, sz) && Counted(b, d, l, n, k + 1, sz) && k < n
    requires |ListAt(a, l.t, l.row, l.p)| == if k < sz then sz else k
    ensures Counted(a, d, l, n, k, sz)
  {
    var ea, eb, ed := ListAt(a, l.t, l.row, l.p), ListAt(b, l.t, l.row, l.p), ListAt(d, l.t, l.row, l.p);
    assert eb[..k + 1] == ed[..k + 1];
    assert eb[k] == ed[k] by { assert eb[..k + 1][k] == ed[..k + 1][k]; }
    assert ea[..k] == ed[..k] by {
      assert ea[..k] == eb[..k] == eb[..k + 1][..k] == ed[..k + 1][..k] == ed[..k];
    }
    var common := if sz < n then sz else n;
    if k < sz { DifferingSame(ea, eb, ed, k + 1, common); }
  }

  /**
   * Assigning in the diff mode sets exactly the positions of the common prefix that differ, adds
   * exactly the surplus of the new values, removes exactly the surplus of the old, and never clears.
   */
  lemma DiffAssignCounts(c: Config, K: set<Id>, db: Db, t: nat, row: nat, p: nat, x: Value, upd: bool)
    requires Prop(c, t, p).isArray && x.Vals?
    requires Open(c, K, db, t, row, p, upd, PropNodes(c, Prop(c, t, p), x))
    requires LeavesAlone(K, StepsOf(c, db, t, row, p, x, upd, true))
    ensures var s, l := Assign(c, db, t, row, p, x, upd, true), Loc(t, row, p);
      var was, now, n := ListAt(db, t, row, p), ListAt(s.db, t, row, p), |x.elems|;
      s.res.Ok? ==>
        && |now| == n
        && Fresh(db, s.db, ListSet, l) == Differing(was, now, 0, if |was| < n then |was| else n)
        && Fresh(db, s.db, ListAdd, l) == (if |was| < n then n - |was| else 0)
        && Fresh(db, s.db, ListRemove, l) == (if n < |was| then |was| - n else 0)
        && Fresh(db, s.db, ListClear, l) == 0
  {
    LoopCounts(c, K, db, t, row, p, x, upd, 0, |ListAt(db, t, row, p)|);
  }

  // ---- The exception: appended objects ------------------------------------------------------------

  // An object with an empty list; object 1 of another type, which holds 7; and an update in the
  // diff mode that appends object 1 with the value it already has.
  const KEY: Property := Property(Int, false, false, 0, Absent)
  const LISTS: Config :=
    Config([ObjectSchema([KEY, Property(Object, false, true, 1, Absent)], Some(0)),
            ObjectSchema([KEY, KEY], Some(0))], true, false, map[])
  const SEVEN: Db := Db([[[One(Scalar(1)), Many([])]], [[One(Scalar(1)), One(Scalar(7))]]], [])
  const SAME: Value := Obj([Given(Prim(Int, 1)), Given(Prim(Int, 7))], false)
  const APPENDING: Value := Obj([Given(Prim(Int, 1)), Given(Vals([SAME]))], false)

  /**
   * An element beyond the old end of the list is added by the plain mode, so an object appended
   * with the values it already has is rewritten all the same.
   */
  lemma AppendedObjectsAreRewritten()
    ensures var s := Create(LISTS, SEVEN, 0, APPENDING, true, true, None);
      && s.res == Ok(0)
      && |s.db.log| > 0 && s.db.log[0] == Wrote(SetCell, 1, 0, 1, One(Scalar(7)), One(Scalar(7)))
      && !OnlyChanges(SEVEN, s.db)
  {
    var c, db, there := LISTS, SEVEN, Place(0, false, true);
    assert FindFirst(db, 0, 0, Scalar(1)) == Some(0) == FindFirst(db, 1, 0, Scalar(1));
    var again := Put(db, SetCell, 1, 0, 1, One(Scalar(7)));
    assert SetProp(c, db, 1, 0, 1, Prim(Int, 7), true, false, false) == Ran(again, Ok(()));
    assert Populate(c, again, 1, there, SAME, true, false, 2) == Ran(again, Ok(0));
    assert Populate(c, db, 1, there, SAME, true, false, 1) == Ran(again, Ok(0));
    assert Create(c, db, 1, SAME, true, false, None) == Ran(again, Ok(0));
    AppendingEnds(again);
  }

  lemma AppendingEnds(again: Db)
    requires again == Put(SEVEN, SetCell, 1, 0, 1, One(Scalar(7)))
    requires Create(LISTS, SEVEN, 1, SAME, true, false, None) == Ran(again, Ok(0))
    ensures var s := Create(LISTS, SEVEN, 0, APPENDING, true, true, None);
      && s.res == Ok(0)
      && |s.db.log| > 0 && s.db.log[0] == Wrote(SetCell, 1, 0, 1, One(Scalar(7)), One(Scalar(7)))
      && !OnlyChanges(SEVEN, s.db)
  {
    var c, db, there := LISTS, SEVEN, Place(0, false, true);
    var listed := Put(again, ListAdd, 0, 0, 1, Many([Link(0)]));
    assert UnboxItem(c, db, Prop(c, 0, 1), SAME, true, false, None) == Ran(again, Ok(RowItem(1, 0)));
    assert ListAt(again, 0, 0, 1) + [Link(0)] == [Link(0)];
    assert AddValue(c, db, 0, 0, 1, SAME, true) == Ran(listed, Ok(()));
    assert Trim(listed, 0, 0, 1, 1, 0) == Ran(listed, Ok(()));
    assert AssignDiff(c, listed, 0, 0, 1, [SAME], true, 1, 0) == Ran(listed, Ok(()));
    assert AssignDiff(c, db, 0, 0, 1, [SAME], true, 0, 0) == Ran(listed, Ok(()));
    assert Assign(c, db, 0, 0, 1, Vals([SAME]), true, true) == Ran(listed, Ok(()));
    assert SetProp(c, db, 0, 0, 1, Vals([SAME]), true, true, false) == Ran(listed, Ok(()));
    assert Populate(c, listed, 0, there, APPENDING, true, true, 2) == Ran(listed, Ok(0));
    assert Populate(c, db, 0, there, APPENDING, true, true, 1) == Ran(listed, Ok(0));
    assert FindFirst(db, 0, 0, Scalar(1)) == Some(0);
    assert !Changing(listed.log[0]);
  }
}
