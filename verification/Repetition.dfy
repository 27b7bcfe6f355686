/**
 * What is written in vain, told from the value and the database before the call: a value that its cell
 * holds already, where the cell is written without a comparison.
 */
module Repetition {
  import opened Outcomes
  import opened Schemas
  import opened Tables
  import opened Upsert
  import opened Trace
  import opened Evolution
  import opened Keeps
  import opened Reuse
  import opened Descriptions
  import opened DiffMode
  import opened Storage
  import opened Writes
  import opened Parting
  import opened Additions

  // ---- What will be written in vain -------------------------------------------------------------------

  ghost predicate InVain(c: Config, db: Db, t: nat, v: Value, upd: bool, diff: bool)
    decreases Height(v), 2, 0
  {
    v.Obj? && InVainFrom(c, db, t, v, upd, diff, 0)
  }

  ghost predicate InVainFrom(c: Config, db: Db, t: nat, v: Value, upd: bool, diff: bool, i: nat)
    requires v.Obj?
    decreases Height(v), 1, |Props(c, t)| - i
  {
    var found := RowBefore(c, db, t, v, upd);
    var w := Choose(c, t, i, v, Place(0, found.None?, true));
    i < |Props(c, t)| &&
    ((w.Write? && InVainAt(c, db, Prop(c, t, i), w.x, upd, diff, w.isDefault, CellBefore(c, db, t, found, i))) ||
     InVainFrom(c, db, t, v, upd, diff, i + 1))
  }

  /**
   * Setting a cell that holds `cell`: the plain mode repeats the value, the null or the link that is
   * there, and clears an empty list; the diff mode clears one only for null.
   */
  ghost predicate InVainAt(c: Config, db: Db, prop: Property, x: Value, upd: bool, diff: bool, isDefault: bool,
                           cell: Cell)
    decreases Height(x), 6, 0
  {
    if prop.isArray then
      || (cell == Many([]) && (x.Null? || (!diff && x.Vals?)))
      || (x.Vals? && InVainAlong(c, db, prop, x.elems, upd, 0, if diff && cell.Many? then |cell.es| else 0))
    else if prop.nullable && x.Null? then
      !diff && !(prop.base.Object? && isDefault) && cell == One(Nothing)
    else if prop.base.Object? then
      InVainIn(c, db, prop, x, upd, diff) || (!diff && LinksBefore(c, db, prop, x, upd, cell))
    else
      !diff && UnboxScalar(prop, x).Ok? && cell == One(UnboxScalar(prop, x).value)
  }

  /** The link is to the row that the value stands for. */
  predicate LinksBefore(c: Config, db: Db, prop: Property, x: Value, upd: bool, cell: Cell) {
    var row := if x.RowRef? then Some(x.row) else RowBefore(c, db, prop.target, x, upd);
    row.Some? && cell == One(Link(row.value))
  }

  ghost predicate InVainIn(c: Config, db: Db, prop: Property, x: Value, upd: bool, diff: bool)
    decreases Height(x), 3, 0
  {
    prop.base.Object? && !x.RowRef? && InVain(c, db, prop.target, x, upd, diff)
  }

  /** Objects beyond the old end of a list are written plainly. */
  ghost predicate InVainAlong(c: Config, db: Db, prop: Property, vs: seq<Value>, upd: bool, k: nat, sz: nat)
    decreases ValuesHeight(vs), 4, |vs| - k
  {
    k < |vs| && (InVainIn(c, db, prop, vs[k], upd, k < sz) || InVainAlong(c, db, prop, vs, upd, k + 1, sz))
  }

  // ---- It is told before the call ---------------------------------------------------------------------

  /** A successful run writes something in vain exactly if that is told beforehand. */
  ghost predicate Told<T>(vain: bool, steps: seq<Step>, res: Result<T>) {
    res.Ok? ==> (RepeatsNothing(steps) <==> !vain)
  }

  lemma ThenTold<T, U>(first: bool, after: bool, a: seq<Step>, b: seq<Step>, mid: Result<T>, end: Result<U>)
    requires Told(first, a, mid) && (end.Ok? ==> mid.Ok? && Told(after, b, end))
    ensures Told(first || after, a + b, end)
  {
    RepeatsSplit(a, b);
  }

  lemma CreateIsTold(c: Config, db0: Db, db: Db, t: nat, v: Value, upd: bool, diff: bool, cur: Option<nat>)
    requires Started(c, db, t) && !WritesKeys(c, upd) && (cur.Some? ==> cur.value < NumRows(db, t))
    requires Untouched(c, Nodes(c, t, v), db0, db, upd) && (upd ==> Distinct(c, t, v))
    requires diff ==> ReusesNothing(Steps(c, db, t, v, upd, diff, cur))
    ensures var s, found := Create(c, db, t, v, upd, diff, cur), RowBefore(c, db0, t, v, upd);
      && Told(InVain(c, db0, t, v, upd, diff), Steps(c, db, t, v, upd, diff, cur), s.res)
      && (s.res.Ok? ==> s.res.value == if found.Some? then found.value else NumRows(db, t))
    decreases Height(v), 2, 0
  {
    hide Untouched, Evolves, StepsFrom, Populate, InVainFrom, Locate, DistinctFrom, Nodes, RepeatsNothing, Told;
    var at := Locate(c, db, t, v, upd, diff, cur);
    if at.res.Ok? && Create(c, db, t, v, upd, diff, cur).res.Ok? {
      var place := at.res.value;
      if diff { NothingReused(c, db, t, v, upd, cur); }
      PopulateReturns(c, at.db, t, place, v, upd, diff, 0);
      if v.Obj? {
        LocatedAsBefore(c, db0, db, t, v, upd, diff, cur);
        LocatedIsStarted(c, db, t, v, upd, diff, cur);
        PopulateIsTold(c, db0, at.db, t, place, v, upd, diff, 0);
        RepeatsBelow(c, t, diff, cur, place.row, StepsFrom(c, at.db, t, place, v, upd, diff, 0));
        ToldBelow(InVainFrom(c, db0, t, v, upd, diff, 0), StepsFrom(c, at.db, t, place, v, upd, diff, 0),
                  Steps(c, db, t, v, upd, diff, cur), Create(c, db, t, v, upd, diff, cur).res);
      } else {
        OnlyObjectsHaveKeys(c, db, t, v, upd, diff, cur);
        KeylessIsAdded(c, db, t, v, upd, diff, cur);
        RepeatsBelow(c, t, diff, cur, place.row, []);
        NothingTold(Steps(c, db, t, v, upd, diff, cur), Create(c, db, t, v, upd, diff, cur).res)
            by { NothingRepeats(); }
      }
    } else {
      FailedIsTold(InVain(c, db0, t, v, upd, diff), Steps(c, db, t, v, upd, diff, cur),
                   Create(c, db, t, v, upd, diff, cur).res);
    }
  }

  lemma FailedIsTold<T>(vain: bool, steps: seq<Step>, res: Result<T>)
    requires res.Err?
    ensures Told(vain, steps, res)
  {}

  lemma NothingTold<T>(steps: seq<Step>, res: Result<T>)
    requires RepeatsNothing(steps)
    ensures Told(false, steps, res)
  {}

  lemma ToldBelow<T>(vain: bool, below: seq<Step>, steps: seq<Step>, res: Result<T>)
    requires Told(vain, below, res) && (RepeatsNothing(steps) <==> RepeatsNothing(below))
    ensures Told(vain, steps, res)
  {}

  lemma NothingReused(c: Config, db: Db, t: nat, v: Value, upd: bool, cur: Option<nat>)
    requires c.inWrite && Locate(c, db, t, v, upd, true, cur).res.Ok?
    requires ReusesNothing(Steps(c, db, t, v, upd, true, cur))
    ensures Primary(c, t).Some? || cur.None?
    ensures var at := Locate(c, db, t, v, upd, true, cur);
      v.Obj? ==> ReusesNothing(StepsFrom(c, at.db, t, at.res.value, v, upd, true, 0))
  {
    var at, steps := Locate(c, db, t, v, upd, true, cur), Steps(c, db, t, v, upd, true, cur);
    match cur
    case None =>
    case Some(row) => assert Primary(c, t).None? ==> Reusing(t, row) in steps;
    if v.Obj? { assert forall s :: s in StepsFrom(c, at.db, t, at.res.value, v, upd, true, 0) ==> s in steps; }
  }

  lemma LocatedIsStarted(c: Config, db: Db, t: nat, v: Value, upd: bool, diff: bool, cur: Option<nat>)
    requires Started(c, db, t) && (cur.Some? ==> cur.value < NumRows(db, t))
             && Locate(c, db, t, v, upd, diff, cur).res.Ok?
    ensures var at := Locate(c, db, t, v, upd, diff, cur); Started(c, at.db, t) && at.res.value.row < NumRows(at.db, t)
  {
    LocateEvolves(c, WritesKeys(c, upd), {}, {}, db, t, v, upd, diff, cur);
  }

  lemma KeylessIsAdded(c: Config, db: Db, t: nat, v: Value, upd: bool, diff: bool, cur: Option<nat>)
    requires Primary(c, t).None? && (diff ==> cur.None?)
    ensures Locate(c, db, t, v, upd, diff, cur).res.Ok?
    ensures Locate(c, db, t, v, upd, diff, cur).res.value.row == NumRows(db, t)
  {}

  lemma PopulateIsTold(c: Config, db0: Db, db: Db, t: nat, place: Place, v: Value, upd: bool, diff: bool, i: nat)
    requires Started(c, db, t) && !WritesKeys(c, upd) && v.Obj?
    requires place.row < NumRows(db, t) && place.skipPrimary && place.created == RowBefore(c, db0, t, v, upd).None?
    requires AsBefore(c, db0, db, t, place.row, RowBefore(c, db0, t, v, upd), i)
    requires Untouched(c, NodesFrom(c, t, v, i), db0, db, upd) && (upd ==> DistinctFrom(c, t, v, i))
    requires upd ==> RowId(c, db, t, place.row) !in Ids(c, NodesFrom(c, t, v, i))
    requires diff ==> ReusesNothing(StepsFrom(c, db, t, place, v, upd, diff, i))
    ensures Told(InVainFrom(c, db0, t, v, upd, diff, i), StepsFrom(c, db, t, place, v, upd, diff, i),
                 Populate(c, db, t, place, v, upd, diff, i).res)
    decreases Height(v), 1, |Props(c, t)| - i
  {
    hide Untouched, Evolves, Told, SetProp, StepsAt, InVainAt, NodesFrom, Ids, Sound, ValidConfig, AsBefore, DistinctIn,
         RepeatsNothing, ReusesNothing;
    var found, end := RowBefore(c, db0, t, v, upd), Populate(c, db, t, place, v, upd, diff, i);
    if end.res.Err? {
      FailedIsTold(InVainFrom(c, db0, t, v, upd, diff, i), StepsFrom(c, db, t, place, v, upd, diff, i), end.res);
    } else if i >= |Props(c, t)| {
      NothingRepeats();
      NothingTold([], end.res);
    } else {
      var w := Choose(c, t, i, v, place);
      assert Choose(c, t, i, v, Place(0, found.None?, true)) == w;
      match w
      case Skip =>
        Skipped(c, db0, db, t, place.row, v, upd, i);
        PopulateIsTold(c, db0, db, t, place, v, upd, diff, i + 1);
      case Fail(_) =>
      case Write(x, isDefault) =>
        var here := StepsAt(c, db, t, place.row, i, x, upd, diff, isDefault);
        var s := SetProp(c, db, t, place.row, i, x, upd, diff, isDefault);
        var rest := StepsFrom(c, s.db, t, place, v, upd, diff, i + 1);
        assert CellAt(db, t, place.row, i) == CellBefore(c, db0, t, found, i)
               by { FirstAsBefore(c, db0, db, t, place.row, found, i); }
        if diff { ReusesNothingSplit(here, rest); }
        ChosenApart(c, db0, db, t, place, v, upd, i);
        SetIsTold(c, db0, db, t, place.row, i, x, upd, diff, isDefault);
        WrittenAsBefore(c, db0, db, t, place, v, upd, diff, i);
        PopulateIsTold(c, db0, s.db, t, place, v, upd, diff, i + 1);
        ThenTold(InVainAt(c, db0, Prop(c, t, i), x, upd, diff, isDefault, CellBefore(c, db0, t, found, i)),
                 InVainFrom(c, db0, t, v, upd, diff, i + 1), here, rest, s.res, end.res);
    }
  }

  lemma SetIsTold(c: Config, db0: Db, db: Db, t: nat, row: nat, p: nat, x: Value, upd: bool, diff: bool,
                  isDefault: bool)
    requires Started(c, db, t) && !WritesKeys(c, upd)
    requires row < NumRows(db, t) && p < |Props(c, t)| && !IsPrimary(c, t, p)
    requires var N := PropNodes(c, Prop(c, t, p), x);
      Untouched(c, N, db0, db, upd) && (upd ==> DistinctIn(c, Prop(c, t, p), x) && RowId(c, db, t, row) !in Ids(c, N))
    requires diff ==> ReusesNothing(StepsAt(c, db, t, row, p, x, upd, diff, isDefault))
    ensures Told(InVainAt(c, db0, Prop(c, t, p), x, upd, diff, isDefault, CellAt(db, t, row, p)),
                 StepsAt(c, db, t, row, p, x, upd, diff, isDefault),
                 SetProp(c, db, t, row, p, x, upd, diff, isDefault).res)
    decreases Height(x), 6, 0
  {
    hide Untouched, Evolves, Create, Steps, InVainIn, InVainAlong, StepsAlong, StepsIn, StepsOf, Assign, AssignDiff,
         Distinct, DistinctAlong, Ids, RepeatsNothing, ReusesNothing, UnboxItem;
    var prop, cell := Prop(c, t, p), CellAt(db, t, row, p);
    SoundCell(c, db, t, row, p);
    assert ValidProperty(c, prop);
    NothingRepeats();
    OneRepeats(true, t, row, p);
    if prop.nullable && x.Null? {
    } else if prop.isArray {
      AssignIsTold(c, db0, db, t, row, p, x, upd, diff, isDefault);
    } else if prop.base.Object? {
      LinkIsTold(c, db0, db, t, row, p, x, upd, diff, isDefault);
    } else if diff {
      MistakesRepeatNothing(UnboxScalar(prop, x).Ok? && MistakenAt(c, prop, x, cell), t, row, p);
    }
  }

  lemma LinkIsTold(c: Config, db0: Db, db: Db, t: nat, row: nat, p: nat, x: Value, upd: bool, diff: bool,
                   isDefault: bool)
    requires Started(c, db, t) && !WritesKeys(c, upd)
    requires row < NumRows(db, t) && p < |Props(c, t)| && !IsPrimary(c, t, p)
    requires Prop(c, t, p).base.Object? && !Prop(c, t, p).isArray && !x.Null?
    requires var N := PropNodes(c, Prop(c, t, p), x);
      Untouched(c, N, db0, db, upd) && (upd ==> DistinctIn(c, Prop(c, t, p), x) && RowId(c, db, t, row) !in Ids(c, N))
    requires diff ==> ReusesNothing(StepsAt(c, db, t, row, p, x, upd, diff, isDefault))
    ensures Told(InVainAt(c, db0, Prop(c, t, p), x, upd, diff, isDefault, CellAt(db, t, row, p)),
                 StepsAt(c, db, t, row, p, x, upd, diff, isDefault),
                 SetProp(c, db, t, row, p, x, upd, diff, isDefault).res)
    decreases Height(x), 4, 0
  {
    hide Untouched, Evolves, InVainIn, StepsIn, Distinct, Ids, RepeatsNothing, ReusesNothing, UnboxItem, Told, Sound;
    var prop, cell := Prop(c, t, p), CellAt(db, t, row, p);
    SoundCell(c, db, t, row, p);
    assert ValidProperty(c, prop);
    var below, u := StepsIn(c, db, prop, x, upd, diff, LinkOf(cell)),
        UnboxItem(c, db, prop, x, upd, diff, LinkOf(cell));
    var inVain := !diff && u.res.Ok? && CellAt(u.db, t, row, p) == One(Link(ItemRow(u.res.value)));
    var own, end := StepIf(inVain, Repeating(t, row, p)), SetProp(c, db, t, row, p, x, upd, diff, isDefault);
    assert StepsAt(c, db, t, row, p, x, upd, diff, isDefault) == below + own;
    if diff { ReusesNothingSplit(below, own); }
    UnboxIsTold(c, db0, db, prop, x, upd, diff, LinkOf(cell));
    if u.res.Ok? {
      LinkAsBefore(c, db0, db, t, row, p, x, upd, diff);
      OneRepeats(inVain, t, row, p);
      OwnIsTold(inVain, own, end.res);
      ThenTold(InVainIn(c, db0, prop, x, upd, diff), inVain, below, own, u.res, end.res);
    } else {
      FailedIsTold(InVainAt(c, db0, prop, x, upd, diff, isDefault, cell), below + own, end.res);
    }
  }

  lemma OwnIsTold<T>(vain: bool, own: seq<Step>, res: Result<T>)
    requires RepeatsNothing(own) <==> !vain
    ensures Told(vain, own, res)
  {}

  /** After unboxing, the cell links to the unboxed row exactly if it did so before. */
  lemma LinkAsBefore(c: Config, db0: Db, db: Db, t: nat, row: nat, p: nat, x: Value, upd: bool, diff: bool)
    requires Started(c, db, t) && !WritesKeys(c, upd) && row < NumRows(db, t) && p < |Props(c, t)|
    requires Prop(c, t, p).base.Object? && !Prop(c, t, p).isArray && ValidProperty(c, Prop(c, t, p))
    requires var N := PropNodes(c, Prop(c, t, p), x);
      Untouched(c, N, db0, db, upd) && (upd ==> DistinctIn(c, Prop(c, t, p), x) && RowId(c, db, t, row) !in Ids(c, N))
    requires var cur := LinkOf(CellAt(db, t, row, p));
      && (diff ==> ReusesNothing(StepsIn(c, db, Prop(c, t, p), x, upd, diff, cur)))
      && UnboxItem(c, db, Prop(c, t, p), x, upd, diff, cur).res.Ok?
    ensures var cell := CellAt(db, t, row, p);
      var u := UnboxItem(c, db, Prop(c, t, p), x, upd, diff, LinkOf(cell));
      CellAt(u.db, t, row, p) == One(Link(ItemRow(u.res.value))) <==> LinksBefore(c, db0, Prop(c, t, p), x, upd, cell)
    decreases Height(x), 3, 1
  {
    hide Untouched, Spares, LogSpares, UniqueKeys, LogGrows, NoneAdded, Distinct, Ids, Create, Steps;
    var prop, cell := Prop(c, t, p), CellAt(db, t, row, p);
    SoundCell(c, db, t, row, p);
    var K := if upd then {RowId(c, db, t, row)} else {Everything};
    OwnRowAvoided(c, db, t, row, ItemNodes(c, prop, x), upd);
    UnboxItemEvolves(c, false, K, {}, db, prop, x, upd, diff, LinkOf(cell));
    SparedCell(c, false, K, {}, db, UnboxItem(c, db, prop, x, upd, diff, LinkOf(cell)).db, t, row, p);
    if !x.RowRef? { CreateIsTold(c, db0, db, prop.target, x, upd, diff, LinkOf(cell)); }
  }

  lemma UnboxIsTold(c: Config, db0: Db, db: Db, prop: Property, x: Value, upd: bool, diff: bool, cur: Option<nat>)
    requires ValidConfig(c) && Sound(c, db) && ValidProperty(c, prop) && !WritesKeys(c, upd) && c.inWrite
    requires cur.Some? && prop.base.Object? ==> cur.value < NumRows(db, prop.target)
    requires Untouched(c, ItemNodes(c, prop, x), db0, db, upd)
             && (upd && prop.base.Object? ==> Distinct(c, prop.target, x))
    requires diff ==> ReusesNothing(StepsIn(c, db, prop, x, upd, diff, cur))
    ensures Told(InVainIn(c, db0, prop, x, upd, diff), StepsIn(c, db, prop, x, upd, diff, cur),
                 UnboxItem(c, db, prop, x, upd, diff, cur).res)
    decreases Height(x), 3, 0
  {
    hide Untouched, Evolves, Distinct, InVain, StepsFrom, Populate, RepeatsNothing, ReusesNothing, Create, Steps, Nodes;
    NothingRepeats();
    if prop.base.Object? && !x.RowRef? { CreateIsTold(c, db0, db, prop.target, x, upd, diff, cur); }
  }

  lemma AssignIsTold(c: Config, db0: Db, db: Db, t: nat, row: nat, p: nat, x: Value, upd: bool, diff: bool,
                     isDefault: bool)
    requires Started(c, db, t) && !WritesKeys(c, upd)
    requires row < NumRows(db, t) && p < |Props(c, t)| && !IsPrimary(c, t, p)
    requires Prop(c, t, p).isArray
    requires var N := PropNodes(c, Prop(c, t, p), x);
      Untouched(c, N, db0, db, upd) && (upd ==> DistinctIn(c, Prop(c, t, p), x) && RowId(c, db, t, row) !in Ids(c, N))
    requires diff ==> ReusesNothing(StepsOf(c, db, t, row, p, x, upd, diff))
    ensures Told(InVainAt(c, db0, Prop(c, t, p), x, upd, diff, isDefault, CellAt(db, t, row, p)),
                 StepsOf(c, db, t, row, p, x, upd, diff), Assign(c, db, t, row, p, x, upd, diff).res)
    decreases Height(x), 5, 0
  {
    hide Untouched, Evolves, InVainAlong, StepsAlong, AssignDiff, AssignPlain, Distinct, DistinctAlong, Ids,
         RepeatsNothing, ReusesNothing, Sound, ValidConfig;
    var prop, cell, s := Prop(c, t, p), CellAt(db, t, row, p), Assign(c, db, t, row, p, x, upd, diff);
    assert cell.Many? by { SoundCell(c, db, t, row, p); }
    NothingRepeats();
    OneRepeats(cell == Many([]), t, row, p);
    if x.Vals? && s.res.Ok? {
      ElemsAre(c, prop, x);
      if diff {
        LoopIsTold(c, db0, db, t, row, p, x, upd, 0, |cell.es|);
      } else {
        var cleared := Clear(db, t, row, p);
        var along := StepsAlong(c, cleared, t, row, p, x.elems, upd, 0, 0);
        ClearIsUntouched(c, db0, db, t, row, p, PropNodes(c, prop, x), upd);
        DiffOfNothing(c, cleared, t, row, p, x.elems, upd, 0);
        LoopIsTold(c, db0, cleared, t, row, p, x, upd, 0, 0);
        RepeatsSplit(StepIf(cell == Many([]), Repeating(t, row, p)), along);
      }
    }
  }

  lemma LoopIsTold(c: Config, db0: Db, db: Db, t: nat, row: nat, p: nat, x: Value, upd: bool, k: nat, sz: nat)
    requires Started(c, db, t) && !WritesKeys(c, upd)
    requires row < NumRows(db, t) && p < |Props(c, t)| && !IsPrimary(c, t, p) && Prop(c, t, p).isArray && x.Vals?
    requires var N := ElemsFrom(c, Prop(c, t, p), x.elems, k);
      && Untouched(c, N, db0, db, upd)
      && (upd ==> DistinctAlong(c, Prop(c, t, p), x.elems, k) && RowId(c, db, t, row) !in Ids(c, N))
    requires k < sz ==> ReusesNothing(StepsAlong(c, db, t, row, p, x.elems, upd, k, sz))
    ensures Told(InVainAlong(c, db0, Prop(c, t, p), x.elems, upd, k, sz),
                 StepsAlong(c, db, t, row, p, x.elems, upd, k, sz),
                 AssignDiff(c, db, t, row, p, x.elems, upd, k, sz).res)
    decreases Height(x), 4, |x.elems| - k
  {
    hide Untouched, Evolves, Distinct, InVainIn, StepsBy, ElemsFrom, Ids, SetValue, AddValue, Trim, Told, Sound,
         ValidConfig, RepeatsNothing, ReusesNothing;
    var prop, end := Prop(c, t, p), AssignDiff(c, db, t, row, p, x.elems, upd, k, sz);
    if end.res.Err? {
      FailedIsTold(InVainAlong(c, db0, prop, x.elems, upd, k, sz), StepsAlong(c, db, t, row, p, x.elems, upd, k, sz),
                   end.res);
    } else if k >= |x.elems| {
      NothingRepeats();
      NothingTold([], end.res);
    } else {
      var y := x.elems[k];
      var s := if k < sz then SetValue(c, db, t, row, p, k, y, upd) else AddValue(c, db, t, row, p, y, upd);
      var here, rest := StepsBy(c, db, t, row, p, y, upd, k, sz),
          StepsAlong(c, s.db, t, row, p, x.elems, upd, k + 1, sz);
      if k < sz { ReusesNothingSplit(here, rest); }
      Parting.ElementApart(c, db0, db, t, row, p, x, upd, k);
      ElementIsUntouched(c, db0, db, t, row, p, x, upd, k, sz);
      ElementIsTold(c, db0, db, t, row, p, y, upd, k, sz);
      LoopIsTold(c, db0, s.db, t, row, p, x, upd, k + 1, sz);
      ThenTold(InVainIn(c, db0, prop, y, upd, k < sz), InVainAlong(c, db0, prop, x.elems, upd, k + 1, sz), here, rest,
               s.res, end.res);
    }
  }

  lemma ElementIsTold(c: Config, db0: Db, db: Db, t: nat, row: nat, p: nat, x: Value, upd: bool, k: nat, sz: nat)
    requires Started(c, db, t) && !WritesKeys(c, upd) && row < NumRows(db, t) && p < |Props(c, t)|
             && Prop(c, t, p).isArray
    requires Untouched(c, ItemNodes(c, Prop(c, t, p), x), db0, db, upd)
    requires upd && Prop(c, t, p).base.Object? ==> Distinct(c, Prop(c, t, p).target, x)
    requires k < sz ==> ReusesNothing(StepsBy(c, db, t, row, p, x, upd, k, sz))
    ensures var s := if k < sz then SetValue(c, db, t, row, p, k, x, upd) else AddValue(c, db, t, row, p, x, upd);
      Told(InVainIn(c, db0, Prop(c, t, p), x, upd, k < sz), StepsBy(c, db, t, row, p, x, upd, k, sz), s.res)
    decreases Height(x), 4, 0
  {
    hide Untouched, Evolves, Distinct, UnboxItem, StepsIn, InVainIn, RepeatsNothing, ReusesNothing;
    var prop, cur := Prop(c, t, p), RowAt(db, t, row, p, k, sz);
    assert ValidProperty(c, prop);
    if k < sz ==> k < |ListAt(db, t, row, p)| {
      if k < sz { ListElemOk(c, db, t, row, p, k); }
      UnboxIsTold(c, db0, db, prop, x, upd, k < sz, cur);
    }
  }

  // ---- The theorems -----------------------------------------------------------------------------------

  /**
   * A successful create writes only what changes exactly when nothing it describes is in its cell
   * already, among what its mode does not compare: in either mode and at any depth, where no object is
   * described twice and no row without a key is reused. `InVain` speaks of the value and of the
   * database before the call.
   */
  lemma CreateWritesInVainIff(c: Config, db: Db, t: nat, v: Value, upd: bool, diff: bool)
    requires ValidConfig(c) && Sound(c, db) && t < |c.schema| && !WritesKeys(c, upd)
    requires upd ==> Distinct(c, t, v) && (diff ==> !Misled(c, db, t, v, upd, false))
    ensures var s := Create(c, db, t, v, upd, diff, None);
      s.res.Ok? ==> (OnlyChanges(db, s.db) <==> !InVain(c, db, t, v, upd, diff))
  {
    hide Evolves, Create, Steps, InVain, Misled, Distinct, OnlyChanges;
    if Create(c, db, t, v, upd, diff, None).res.Ok? {
      CreatesOnlyInside(c, db, t, v, upd, diff);
      if upd {
        EvolvesRefl(c, false, Ids(c, Nodes(c, t, v)), {}, db);
        DistinctIsApart(c, t, v);
        if diff { CreateIsForetold(c, db, db, t, v, upd, false, None); }
      } else if diff {
        CreateReusesNothing(c, db, t, v, None);
      }
      CreateIsTold(c, db, db, t, v, upd, diff, None);
      CreateWritesIff(c, db, t, v, upd, diff, None);
    }
  }

  lemma CreatesOnlyInside(c: Config, db: Db, t: nat, v: Value, upd: bool, diff: bool)
    requires Create(c, db, t, v, upd, diff, None).res.Ok?
    ensures c.inWrite
  {}

  /** The same for assigning one list, at any length of the old and the new list. */
  lemma AssignWritesInVainIff(c: Config, db: Db, t: nat, row: nat, p: nat, x: Value, upd: bool, diff: bool)
    requires ValidConfig(c) && Sound(c, db) && c.inWrite && !WritesKeys(c, upd)
    requires ListCell(c, t, p) && row < NumRows(db, t)
    requires var prop := Prop(c, t, p);
      upd ==> DistinctIn(c, prop, x) && RowId(c, db, t, row) !in Ids(c, PropNodes(c, prop, x))
    requires diff ==> !MisledAt(c, db, Prop(c, t, p), x, upd, false, CellAt(db, t, row, p))
    ensures var s := Assign(c, db, t, row, p, x, upd, diff);
      s.res.Ok? ==> (OnlyChanges(db, s.db) <==>
                     !InVainAt(c, db, Prop(c, t, p), x, upd, diff, false, CellAt(db, t, row, p)))
  {
    hide Evolves, Assign, StepsOf, InVainAt, MisledAt, Distinct, DistinctAlong, OnlyChanges;
    var N, K := PropNodes(c, Prop(c, t, p), x), if upd then {RowId(c, db, t, row)} else {Everything};
    if upd {
      EvolvesRefl(c, false, Ids(c, N), {}, db);
      DistinctInIsApart(c, Prop(c, t, p), x);
    }
    OwnRowAvoided(c, db, t, row, N, upd);
    if diff { AssignIsForetold(c, db, t, row, p, x, upd, false); }
    AssignIsTold(c, db, db, t, row, p, x, upd, diff, false);
    AssignWritesIff(c, K, db, t, row, p, x, upd, diff);
  }
}
