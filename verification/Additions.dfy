/**
 * How many rows a create adds, told from the value and the database before the call: one for every
 * description whose row is not there, less the rows that the diff mode reuses.
 */
module Additions {
  import opened Outcomes
  import opened Schemas
  import opened Tables
  import opened Upsert
  import opened Trace
  import opened Evolution
  import opened Keeps
  import opened Reuse
  import opened Descriptions
  import opened DiffMode
  import opened Parting

  /** How many rows of type `tt` a description asks for. */
  ghost function Wanted(c: Config, db: Db, t: nat, v: Value, upd: bool, tt: nat): nat
    decreases Height(v), 2, 0
  {
    (if t == tt && RowBefore(c, db, t, v, upd).None? then 1 else 0) +
    if v.Obj? then WantedFrom(c, db, t, v, upd, tt, 0) else 0
  }

  ghost function WantedFrom(c: Config, db: Db, t: nat, v: Value, upd: bool, tt: nat, i: nat): nat
    requires v.Obj?
    decreases Height(v), 1, |Props(c, t)| - i
  {
    if i >= |Props(c, t)| then 0
    else
      var w := Choose(c, t, i, v, Place(0, RowBefore(c, db, t, v, upd).None?, true));
      (if w.Write? then WantedAt(c, db, Prop(c, t, i), w.x, upd, tt) else 0) + WantedFrom(c, db, t, v, upd, tt, i + 1)
  }

  ghost function WantedAt(c: Config, db: Db, prop: Property, x: Value, upd: bool, tt: nat): nat
    decreases Height(x), 6, 0
  {
    if prop.nullable && x.Null? then 0
    else if prop.isArray then if x.Vals? then WantedAlong(c, db, prop, x.elems, upd, tt, 0) else 0
    else WantedIn(c, db, prop, x, upd, tt)
  }

  ghost function WantedIn(c: Config, db: Db, prop: Property, x: Value, upd: bool, tt: nat): nat
    decreases Height(x), 3, 0
  {
    if prop.base.Object? && !x.RowRef? then Wanted(c, db, prop.target, x, upd, tt) else 0
  }

  ghost function WantedAlong(c: Config, db: Db, prop: Property, vs: seq<Value>, upd: bool, tt: nat, k: nat): nat
    decreases ValuesHeight(vs), 4, |vs| - k
  {
    if k < |vs| then WantedIn(c, db, prop, vs[k], upd, tt) + WantedAlong(c, db, prop, vs, upd, tt, k + 1) else 0
  }

  /** How many rows of type `tt` are updated for being linked. */
  ghost function Reused(steps: seq<Step>, tt: nat): nat {
    if steps == [] then 0
    else (if steps[0].Reusing? && steps[0].t == tt then 1 else 0) + Reused(steps[1..], tt)
  }

  lemma {:induction false} ReusedSplit(a: seq<Step>, b: seq<Step>, tt: nat)
    ensures Reused(a + b, tt) == Reused(a, tt) + Reused(b, tt)
  {
    if a == [] {
      assert a + b == b;
    } else {
      assert (a + b)[1..] == a[1..] + b;
      ReusedSplit(a[1..], b, tt);
    }
  }

  lemma {:induction false} SomeReused(steps: seq<Step>, s: Step)
    requires s in steps && s.Reusing?
    ensures Reused(steps, s.t) > 0
  {
    if s != steps[0] { SomeReused(steps[1..], s); }
  }

  /**
   * What a run of `steps` that is asked for `wanted` rows makes of their number: a row is added or
   * reused for each, but the defaults of a row that is reused are not written.
   */
  ghost predicate Adds(db: Db, db': Db, steps: seq<Step>, wanted: nat, tt: nat, diff: bool) {
    && NumRows(db', tt) + Reused(steps, tt) <= NumRows(db, tt) + wanted
    && (!diff ==> NumRows(db', tt) == NumRows(db, tt) + wanted)
  }

  lemma AddsThen(a: Db, b: Db, d: Db, here: seq<Step>, rest: seq<Step>, m: nat, n: nat, tt: nat, diff: bool)
    requires Adds(a, b, here, m, tt, diff) && Adds(b, d, rest, n, tt, diff)
    ensures Adds(a, d, here + rest, m + n, tt, diff)
  {
    ReusedSplit(here, rest, tt);
  }

  lemma AddsNone(db: Db, db': Db, steps: seq<Step>, tt: nat, diff: bool)
    requires NumRows(db', tt) == NumRows(db, tt) && Faithful(steps)
    ensures Adds(db, db', steps, 0, tt, diff)
  {
    NoneReusedOf(steps, tt);
  }

  lemma {:induction false} NoneReusedOf(steps: seq<Step>, tt: nat)
    requires Faithful(steps)
    ensures Reused(steps, tt) == 0
  {
    if steps != [] {
      assert steps[0] in steps;
      NoneReusedOf(steps[1..], tt);
    }
  }

  /** Rows with keys are never updated for being linked. */
  lemma KeyedAreLeftAlone(c: Config, N: set<Node>, steps: seq<Step>)
    ensures LeavesAlone(Ids(c, N), steps)
  {}

  ghost predicate Started(c: Config, db: Db, t: nat) {
    ValidConfig(c) && Sound(c, db) && t < |c.schema| && c.inWrite
  }

  lemma CreateAdds(c: Config, db0: Db, db: Db, t: nat, v: Value, upd: bool, diff: bool, cur: Option<nat>, tt: nat)
    requires Started(c, db, t) && (cur.Some? ==> cur.value < NumRows(db, t))
    requires Untouched(c, Nodes(c, t, v), db0, db, upd) && (upd ==> Distinct(c, t, v))
    ensures var s := Create(c, db, t, v, upd, diff, cur);
      s.res.Ok? ==> Adds(db, s.db, Steps(c, db, t, v, upd, diff, cur), Wanted(c, db0, t, v, upd, tt), tt, diff)
    decreases Height(v), 2, 0
  {
    hide Untouched, Evolves, StepsFrom, Populate, WantedFrom, Locate, DistinctFrom, Sound, ValidConfig, Nodes, Adds;
    var at := Locate(c, db, t, v, upd, diff, cur);
    if at.res.Ok? && Create(c, db, t, v, upd, diff, cur).res.Ok? {
      OnlyObjectsHaveKeys(c, db, t, v, upd, diff, cur);
      var place, end := at.res.value, Create(c, db, t, v, upd, diff, cur).db;
      var below := if v.Obj? then StepsFrom(c, at.db, t, place, v, upd, diff, 0) else [];
      LocateAdds(c, db0, db, t, v, upd, diff, cur, tt, below);
      if v.Obj? {
        PopulateAdds(c, db0, at.db, t, place, v, upd, diff, 0, tt);
        AddsThen(db, at.db, end, OwnSteps(c, t, diff, cur, place.row, below), below,
                 if t == tt && RowBefore(c, db0, t, v, upd).None? then 1 else 0, WantedFrom(c, db0, t, v, upd, tt, 0),
                     tt, diff);
      } else {
        NotAnObject(c, at.db, at.db, t, place, v, upd, diff, 0);
        assert OwnSteps(c, t, diff, cur, place.row, below) + below == OwnSteps(c, t, diff, cur, place.row, below);
      }
    }
  }

  lemma OnlyObjectsHaveKeys(c: Config, db: Db, t: nat, v: Value, upd: bool, diff: bool, cur: Option<nat>)
    requires Locate(c, db, t, v, upd, diff, cur).res.Ok?
    ensures v.Obj? || Primary(c, t).None?
  {}

  /** The steps of a create that concern its own row. */
  ghost function OwnSteps(c: Config, t: nat, diff: bool, cur: Option<nat>, row: nat, below: seq<Step>): seq<Step> {
    StepIf(Primary(c, t).None? && diff && cur.Some?, Reusing(t, row)) +
    StepIf(Primary(c, t).None? && Reusing(t, row) in below, Reentering(t, row))
  }

  /** Whether a row was there before: an update of it takes no defaults. */
  ghost predicate PlacedAsForetold(c: Config, db0: Db, t: nat, v: Value, place: Place, upd: bool, diff: bool) {
    && (place.created ==> RowBefore(c, db0, t, v, upd).None?)
    && (!diff && RowBefore(c, db0, t, v, upd).None? ==> place.created)
    && (place.skipPrimary || WritesKeys(c, upd))
  }

  lemma LocateAdds(c: Config, db0: Db, db: Db, t: nat, v: Value, upd: bool, diff: bool, cur: Option<nat>, tt: nat,
                   below: seq<Step>)
    requires Started(c, db, t) && (cur.Some? ==> cur.value < NumRows(db, t))
    requires Untouched(c, Nodes(c, t, v), db0, db, upd) && (upd ==> Distinct(c, t, v))
    requires Locate(c, db, t, v, upd, diff, cur).res.Ok? && (v.Obj? || Primary(c, t).None?)
    ensures var at, found := Locate(c, db, t, v, upd, diff, cur), RowBefore(c, db0, t, v, upd);
      && Adds(db, at.db, OwnSteps(c, t, diff, cur, at.res.value.row, below), if t == tt && found.None? then 1 else 0,
              tt, diff)
      && Started(c, at.db, t) && at.res.value.row < NumRows(at.db, t)
      && PlacedAsForetold(c, db0, t, v, at.res.value, upd, diff)
      && (v.Obj? ==> Untouched(c, NodesFrom(c, t, v, 0), db0, at.db, upd))
      && (v.Obj? && upd ==> DistinctFrom(c, t, v, 0))
      && (v.Obj? && upd ==> RowId(c, at.db, t, at.res.value.row) !in Ids(c, NodesFrom(c, t, v, 0)))
  {
    hide DistinctFrom;
    var at := Locate(c, db, t, v, upd, diff, cur);
    LocateEvolves(c, WritesKeys(c, upd), {}, {}, db, t, v, upd, diff, cur);
    AppendCells(db, t, EmptyRow(Props(c, t)));
    if upd && v.Obj? {
      NodesBelow(c, t, v);
      assert Node(t, v) in Nodes(c, t, v);
      assert NodeId(c, Node(t, v)).Some? ==> NodeId(c, Node(t, v)).value in Ids(c, {Node(t, v)});
      LocateEvolves(c, false, Ids(c, NodesFrom(c, t, v, 0)), {}, db, t, v, upd, diff, cur);
      UntouchedOn(c, Nodes(c, t, v), NodesFrom(c, t, v, 0), db0, db, at.db, upd);
      if Primary(c, t).Some? { FoundBefore(c, Nodes(c, t, v), db0, db, t, v); }
    }
    if Primary(c, t).Some? {
      AppendCells(db, t, KeyedRow(Props(c, t), Primary(c, t).value, KeyOf(c, t, Primary(c, t).value, v).value));
    }
    OwnReused(c, t, diff, cur, at.res.value.row, below, tt);
  }

  lemma OwnReused(c: Config, t: nat, diff: bool, cur: Option<nat>, row: nat, below: seq<Step>, tt: nat)
    ensures Reused(OwnSteps(c, t, diff, cur, row, below), tt) ==
            if t == tt && Primary(c, t).None? && diff && cur.Some? then 1 else 0
  {
    ReusedSplit(StepIf(Primary(c, t).None? && diff && cur.Some?, Reusing(t, row)),
                StepIf(Primary(c, t).None? && Reusing(t, row) in below, Reentering(t, row)), tt);
  }

  lemma PopulateAdds(c: Config, db0: Db, db: Db, t: nat, place: Place, v: Value, upd: bool, diff: bool, i: nat, tt: nat)
    requires Started(c, db, t) && v.Obj? && place.row < NumRows(db, t)
             && PlacedAsForetold(c, db0, t, v, place, upd, diff)
    requires Untouched(c, NodesFrom(c, t, v, i), db0, db, upd) && (upd ==> DistinctFrom(c, t, v, i))
    requires upd ==> RowId(c, db, t, place.row) !in Ids(c, NodesFrom(c, t, v, i))
    ensures var s := Populate(c, db, t, place, v, upd, diff, i);
      s.res.Ok? ==> Adds(db, s.db, StepsFrom(c, db, t, place, v, upd, diff, i), WantedFrom(c, db0, t, v, upd, tt, i),
                         tt, diff)
    decreases Height(v), 1, |Props(c, t)| - i
  {
    hide Untouched, Evolves, SetProp, StepsAt, WantedAt, NodesFrom, Ids, DistinctIn, Adds, Choose, Reused, Sound,
         ValidConfig;
    var found := RowBefore(c, db0, t, v, upd);
    if i >= |Props(c, t)| {
      AddsNone(db, db, [], tt, diff);
    } else if Populate(c, db, t, place, v, upd, diff, i).res.Ok? {
      var f := Choose(c, t, i, v, Place(0, found.None?, true));
      var wanted := if f.Write? then WantedAt(c, db0, Prop(c, t, i), f.x, upd, tt) else 0;
      var rest, end := WantedFrom(c, db0, t, v, upd, tt, i + 1), Populate(c, db, t, place, v, upd, diff, i).db;
      AsChosen(c, db0, t, i, v, place, upd, diff, tt);
      match Choose(c, t, i, v, place)
      case Skip =>
        SkippedIsUntouched(c, db0, db, t, place.row, v, upd, i);
        PopulateAdds(c, db0, db, t, place, v, upd, diff, i + 1, tt);
        AddsMore(db, end, StepsFrom(c, db, t, place, v, upd, diff, i + 1), rest, wanted, tt, diff);
      case Fail(_) =>
      case Write(x, isDefault) =>
        var here, s := StepsAt(c, db, t, place.row, i, x, upd, diff, isDefault),
            SetProp(c, db, t, place.row, i, x, upd, diff, isDefault);
        WrittenIsUntouched(c, db0, db, t, place, v, upd, diff, i);
        SetAdds(c, db0, db, t, place.row, i, x, upd, diff, isDefault, tt);
        PopulateAdds(c, db0, s.db, t, place, v, upd, diff, i + 1, tt);
        AddsThen(db, s.db, end, here, StepsFrom(c, s.db, t, place, v, upd, diff, i + 1), wanted, rest, tt, diff);
    }
  }

  lemma AddsMore(db: Db, db': Db, steps: seq<Step>, wanted: nat, more: nat, tt: nat, diff: bool)
    requires Adds(db, db', steps, wanted, tt, diff) && (!diff ==> more == 0)
    ensures Adds(db, db', steps, more + wanted, tt, diff)
  {}

  /** What is written is what was foreseen; skipped is at most a default, and a key creates nothing. */
  lemma AsChosen(c: Config, db0: Db, t: nat, i: nat, v: Value, place: Place, upd: bool, diff: bool, tt: nat)
    requires ValidConfig(c) && t < |c.schema| && i < |Props(c, t)| && v.Obj?
    requires PlacedAsForetold(c, db0, t, v, place, upd, diff) && !Choose(c, t, i, v, place).Fail?
    ensures var w, f := Choose(c, t, i, v, place),
            Choose(c, t, i, v, Place(0, RowBefore(c, db0, t, v, upd).None?, true));
      var wanted := if f.Write? then WantedAt(c, db0, Prop(c, t, i), f.x, upd, tt) else 0;
      && (w.Write? ==> wanted == WantedAt(c, db0, Prop(c, t, i), w.x, upd, tt))
      && (w.Skip? && !diff ==> wanted == 0)
  {
    hide RowBefore, Wanted, WantedAlong;
    assert ValidProperty(c, Prop(c, t, i));
  }

  lemma SkippedIsUntouched(c: Config, db0: Db, db: Db, t: nat, row: nat, v: Value, upd: bool, i: nat)
    requires Untouched(c, NodesFrom(c, t, v, i), db0, db, upd) && i < |Props(c, t)| && Sound(c, db)
    requires upd ==> RowId(c, db, t, row) !in Ids(c, NodesFrom(c, t, v, i))
    ensures Untouched(c, NodesFrom(c, t, v, i + 1), db0, db, upd)
    ensures upd ==> RowId(c, db, t, row) !in Ids(c, NodesFrom(c, t, v, i + 1))
  {
    NodesStep(c, t, v, i);
    IdsLess(c, NodesFrom(c, t, v, i + 1), NodesFrom(c, t, v, i));
    if upd { EvolvesLess(c, Ids(c, NodesFrom(c, t, v, i + 1)), Ids(c, NodesFrom(c, t, v, i)), db0, db); }
  }

  lemma WrittenIsUntouched(c: Config, db0: Db, db: Db, t: nat, place: Place, v: Value, upd: bool, diff: bool, i: nat)
    requires Started(c, db, t) && v.Obj? && place.row < NumRows(db, t) && (place.skipPrimary || WritesKeys(c, upd))
    requires Untouched(c, NodesFrom(c, t, v, i), db0, db, upd) && (upd ==> DistinctFrom(c, t, v, i))
    requires upd ==> RowId(c, db, t, place.row) !in Ids(c, NodesFrom(c, t, v, i))
    requires i < |Props(c, t)| && Choose(c, t, i, v, place).Write?
    ensures var w := Choose(c, t, i, v, place);
      var db' := SetProp(c, db, t, place.row, i, w.x, upd, diff, w.isDefault).db;
      && Untouched(c, PropNodes(c, Prop(c, t, i), w.x), db0, db, upd) && (upd ==> DistinctIn(c, Prop(c, t, i), w.x))
      && (upd ==> !IsPrimary(c, t, i) && RowId(c, db, t, place.row) !in Ids(c, PropNodes(c, Prop(c, t, i), w.x)))
      && (IsPrimary(c, t, i) ==> WritesKeys(c, upd))
      && Started(c, db', t) && place.row < NumRows(db', t)
      && Untouched(c, NodesFrom(c, t, v, i + 1), db0, db', upd)
      && (upd ==> RowId(c, db', t, place.row) !in Ids(c, NodesFrom(c, t, v, i + 1)))
  {
    hide SetProp, NodesFrom, Distinct, DistinctFrom, Spares, LogSpares, LogGrows, UniqueKeys, NoneAdded;
    var w, row, N := Choose(c, t, i, v, place), place.row, NodesFrom(c, t, v, i + 1);
    NodesStep(c, t, v, i);
    IdsLess(c, N, NodesFrom(c, t, v, i));
    ChosenApart(c, db0, db, t, place, v, upd, i);
    SetPropEvolves(c, WritesKeys(c, upd), {}, {}, db, t, row, i, w.x, upd, diff, w.isDefault);
    if upd {
      OthersAvoided(c, PropNodes(c, Prop(c, t, i), w.x), N);
      KeyedAreLeftAlone(c, N, StepsAt(c, db, t, row, i, w.x, upd, diff, w.isDefault));
      SetPropEvolves(c, false, Ids(c, N), {}, db, t, row, i, w.x, upd, diff, w.isDefault);
      UntouchedOn(c, NodesFrom(c, t, v, i), N, db0, db, SetProp(c, db, t, row, i, w.x, upd, diff, w.isDefault).db, upd);
    }
  }

  lemma SetAdds(c: Config, db0: Db, db: Db, t: nat, row: nat, p: nat, x: Value, upd: bool, diff: bool, isDefault: bool,
                tt: nat)
    requires Started(c, db, t) && row < NumRows(db, t) && p < |Props(c, t)|
             && (IsPrimary(c, t, p) ==> WritesKeys(c, upd))
    requires var N := PropNodes(c, Prop(c, t, p), x);
      Untouched(c, N, db0, db, upd) && (upd ==> DistinctIn(c, Prop(c, t, p), x) && RowId(c, db, t, row) !in Ids(c, N))
    ensures var s := SetProp(c, db, t, row, p, x, upd, diff, isDefault);
      s.res.Ok? ==>
        Adds(db, s.db, StepsAt(c, db, t, row, p, x, upd, diff, isDefault), WantedAt(c, db0, Prop(c, t, p), x, upd, tt),
             tt, diff)
    decreases Height(x), 6, 0
  {
    hide Untouched, Evolves, Create, Steps, WantedAlong, StepsAlong, AssignDiff, AssignPlain, Distinct, DistinctAlong,
         Ids, Adds, UnboxItem, StepsIn, WantedIn;
    var prop, cell := Prop(c, t, p), CellAt(db, t, row, p);
    SoundCell(c, db, t, row, p);
    assert ValidProperty(c, prop);
    var s, steps := SetProp(c, db, t, row, p, x, upd, diff, isDefault),
        StepsAt(c, db, t, row, p, x, upd, diff, isDefault);
    if prop.nullable && x.Null? {
      AddsNone(db, s.db, steps, tt, diff);
    } else if prop.isArray {
      AssignAdds(c, db0, db, t, row, p, x, upd, diff, tt);
    } else if prop.base.Object? {
      UnboxAdds(c, db0, db, prop, x, upd, diff, LinkOf(cell), tt);
      var u, below := UnboxItem(c, db, prop, x, upd, diff, LinkOf(cell)),
          StepsIn(c, db, prop, x, upd, diff, LinkOf(cell));
      var own := StepIf(!diff && u.res.Ok? && CellAt(u.db, t, row, p) == One(Link(ItemRow(u.res.value))),
                        Repeating(t, row, p));
      AddsNone(u.db, s.db, own, tt, diff);
      if s.res.Ok? { AddsThen(db, u.db, s.db, below, own, WantedIn(c, db0, prop, x, upd, tt), 0, tt, diff); }
    } else {
      assert WantedIn(c, db0, prop, x, upd, tt) == 0 by { ScalarsWantNothing(c, db0, prop, x, upd, tt); }
      AddsNoRows(db, s.db, steps, tt, diff);
    }
  }

  lemma ScalarsWantNothing(c: Config, db: Db, prop: Property, x: Value, upd: bool, tt: nat)
    requires !prop.base.Object?
    ensures WantedIn(c, db, prop, x, upd, tt) == 0
  {}

  lemma AddsNoRows(db: Db, db': Db, steps: seq<Step>, tt: nat, diff: bool)
    requires NumRows(db', tt) == NumRows(db, tt) && |steps| <= 1 && ReusesNothing(steps)
    ensures Adds(db, db', steps, 0, tt, diff)
  {
    if steps != [] { assert steps[0] in steps && Reused(steps[1..], tt) == 0; }
  }

  lemma UnboxAdds(c: Config, db0: Db, db: Db, prop: Property, x: Value, upd: bool, diff: bool, cur: Option<nat>,
                  tt: nat)
    requires ValidConfig(c) && Sound(c, db) && ValidProperty(c, prop) && c.inWrite
    requires cur.Some? && prop.base.Object? ==> cur.value < NumRows(db, prop.target)
    requires Untouched(c, ItemNodes(c, prop, x), db0, db, upd)
             && (upd && prop.base.Object? ==> Distinct(c, prop.target, x))
    ensures var u := UnboxItem(c, db, prop, x, upd, diff, cur);
      u.res.Ok? ==> Adds(db, u.db, StepsIn(c, db, prop, x, upd, diff, cur), WantedIn(c, db0, prop, x, upd, tt), tt,
                         diff)
    decreases Height(x), 3, 0
  {
    hide Untouched, Evolves, Distinct, Create, Steps, Wanted, Adds;
    if prop.base.Object? && !x.RowRef? {
      CreateAdds(c, db0, db, prop.target, x, upd, diff, cur, tt);
    } else {
      AddsNone(db, db, [], tt, diff);
    }
  }

  lemma AssignAdds(c: Config, db0: Db, db: Db, t: nat, row: nat, p: nat, x: Value, upd: bool, diff: bool, tt: nat)
    requires Started(c, db, t) && row < NumRows(db, t) && p < |Props(c, t)|
             && (IsPrimary(c, t, p) ==> WritesKeys(c, upd))
    requires Prop(c, t, p).isArray
    requires var N := PropNodes(c, Prop(c, t, p), x);
      Untouched(c, N, db0, db, upd) && (upd ==> DistinctIn(c, Prop(c, t, p), x) && RowId(c, db, t, row) !in Ids(c, N))
    ensures var s, prop := Assign(c, db, t, row, p, x, upd, diff), Prop(c, t, p);
      s.res.Ok? ==> Adds(db, s.db, StepsOf(c, db, t, row, p, x, upd, diff),
                         if x.Vals? then WantedAlong(c, db0, prop, x.elems, upd, tt, 0) else 0, tt, diff)
    decreases Height(x), 5, 0
  {
    hide Untouched, Evolves, WantedAlong, StepsAlong, AssignDiff, AssignPlain, Distinct, DistinctAlong, Ids, Adds;
    var s, steps := Assign(c, db, t, row, p, x, upd, diff), StepsOf(c, db, t, row, p, x, upd, diff);
    if s.res.Ok? {
      if !x.Vals? {
        AddsNone(db, s.db, steps, tt, diff);
      } else {
        ElemsAre(c, Prop(c, t, p), x);
        if diff {
          LoopAdds(c, db0, db, t, row, p, x, upd, 0, |ListAt(db, t, row, p)|, tt, diff);
        } else {
          var cleared := Clear(db, t, row, p);
          ClearIsUntouched(c, db0, db, t, row, p, PropNodes(c, Prop(c, t, p), x), upd);
          DiffOfNothing(c, cleared, t, row, p, x.elems, upd, 0);
          LoopAdds(c, db0, cleared, t, row, p, x, upd, 0, 0, tt, diff);
          var along := StepsAlong(c, cleared, t, row, p, x.elems, upd, 0, 0);
          var inVain := steps[..|steps| - |along|];
          assert steps == inVain + along && Faithful(inVain);
          AddsNone(db, cleared, inVain, tt, diff);
          AddsThen(db, cleared, s.db, inVain, along, 0, WantedAlong(c, db0, Prop(c, t, p), x.elems, upd, tt, 0), tt,
                   diff);
        }
      }
    }
  }

  lemma ClearIsUntouched(c: Config, db0: Db, db: Db, t: nat, row: nat, p: nat, N: set<Node>, upd: bool)
    requires Started(c, db, t) && row < NumRows(db, t) && p < |Props(c, t)| && Prop(c, t, p).isArray
    requires Untouched(c, N, db0, db, upd) && (upd ==> RowId(c, db, t, row) !in Ids(c, N))
    ensures var db' := Clear(db, t, row, p);
      && Started(c, db', t) && row < NumRows(db', t)
      && Untouched(c, N, db0, db', upd) && (upd ==> RowId(c, db', t, row) !in Ids(c, N))
  {
    PutEvolves(c, false, Ids(c, N) - (if upd then {} else Ids(c, N)), {}, db, ListClear, t, row, p, Many([]));
    UntouchedOn(c, N, N, db0, db, Clear(db, t, row, p), upd);
  }

  lemma LoopAdds(c: Config, db0: Db, db: Db, t: nat, row: nat, p: nat, x: Value, upd: bool, k: nat, sz: nat, tt: nat,
                 diff: bool)
    requires Started(c, db, t) && row < NumRows(db, t) && p < |Props(c, t)| && Prop(c, t, p).isArray && x.Vals?
    requires !diff ==> sz == 0
    requires var N := ElemsFrom(c, Prop(c, t, p), x.elems, k);
      && Untouched(c, N, db0, db, upd)
      && (upd ==> DistinctAlong(c, Prop(c, t, p), x.elems, k) && RowId(c, db, t, row) !in Ids(c, N))
    ensures var s := AssignDiff(c, db, t, row, p, x.elems, upd, k, sz);
      s.res.Ok? ==> Adds(db, s.db, StepsAlong(c, db, t, row, p, x.elems, upd, k, sz),
                         WantedAlong(c, db0, Prop(c, t, p), x.elems, upd, tt, k), tt, diff)
    decreases Height(x), 4, |x.elems| - k
  {
    hide Untouched, Evolves, Distinct, StepsBy, WantedIn, ElemsFrom, Ids, SetValue, AddValue, Trim, Adds, Sound,
         ValidConfig;
    var prop, end := Prop(c, t, p), AssignDiff(c, db, t, row, p, x.elems, upd, k, sz);
    if k >= |x.elems| {
      TrimAddsNothing(db, t, row, p, k, sz, tt);
      AddsNone(db, end.db, [], tt, diff);
    } else if end.res.Ok? {
      var y := x.elems[k];
      var s := if k < sz then SetValue(c, db, t, row, p, k, y, upd) else AddValue(c, db, t, row, p, y, upd);
      ElementApart(c, db0, db, t, row, p, x, upd, k);
      ElementIsUntouched(c, db0, db, t, row, p, x, upd, k, sz);
      ElementAdds(c, db0, db, t, row, p, y, upd, k, sz, tt, diff);
      LoopAdds(c, db0, s.db, t, row, p, x, upd, k + 1, sz, tt, diff);
      AddsThen(db, s.db, end.db, StepsBy(c, db, t, row, p, y, upd, k, sz),
               StepsAlong(c, s.db, t, row, p, x.elems, upd, k + 1, sz), WantedIn(c, db0, prop, y, upd, tt),
               WantedAlong(c, db0, prop, x.elems, upd, tt, k + 1), tt, diff);
    }
  }

  lemma ElementAdds(c: Config, db0: Db, db: Db, t: nat, row: nat, p: nat, x: Value, upd: bool, k: nat, sz: nat, tt: nat,
                    diff: bool)
    requires Started(c, db, t) && row < NumRows(db, t) && p < |Props(c, t)| && Prop(c, t, p).isArray
             && (!diff ==> sz == 0)
    requires Untouched(c, ItemNodes(c, Prop(c, t, p), x), db0, db, upd)
    requires upd && Prop(c, t, p).base.Object? ==> Distinct(c, Prop(c, t, p).target, x)
    ensures var s := if k < sz then SetValue(c, db, t, row, p, k, x, upd) else AddValue(c, db, t, row, p, x, upd);
      s.res.Ok? ==> Adds(db, s.db, StepsBy(c, db, t, row, p, x, upd, k, sz),
                         WantedIn(c, db0, Prop(c, t, p), x, upd, tt), tt, diff)
    decreases Height(x), 4, 0
  {
    hide Untouched, Evolves, Distinct, UnboxItem, StepsIn, WantedIn, Reused;
    var prop, cur := Prop(c, t, p), RowAt(db, t, row, p, k, sz);
    assert ValidProperty(c, prop);
    if k < sz && k < |ListAt(db, t, row, p)| { ListElemOk(c, db, t, row, p, k); }
    UnboxAdds(c, db0, db, prop, x, upd, k < sz, cur, tt);
  }

  lemma ElementIsUntouched(c: Config, db0: Db, db: Db, t: nat, row: nat, p: nat, x: Value, upd: bool, k: nat, sz: nat)
    requires Started(c, db, t) && row < NumRows(db, t) && p < |Props(c, t)| && Prop(c, t, p).isArray && x.Vals?
             && k < |x.elems|
    requires var N := ElemsFrom(c, Prop(c, t, p), x.elems, k);
      && Untouched(c, N, db0, db, upd)
      && (upd ==> DistinctAlong(c, Prop(c, t, p), x.elems, k) && RowId(c, db, t, row) !in Ids(c, N))
    ensures var s := if k < sz then SetValue(c, db, t, row, p, k, x.elems[k], upd)
                     else AddValue(c, db, t, row, p, x.elems[k], upd);
      var N := ElemsFrom(c, Prop(c, t, p), x.elems, k + 1);
      && Started(c, s.db, t) && row < NumRows(s.db, t)
      && Untouched(c, N, db0, s.db, upd) && (upd ==> RowId(c, s.db, t, row) !in Ids(c, N))
  {
    hide SetValue, AddValue, StepsIn, ElemsFrom, Distinct, Spares, LogSpares, LogGrows, UniqueKeys, NoneAdded;
    var prop, y, N := Prop(c, t, p), x.elems[k], ElemsFrom(c, Prop(c, t, p), x.elems, k + 1);
    ElementsEvolve(c, db, db, t, row, p, y, upd, k, sz);
    ElementApart(c, db0, db, t, row, p, x, upd, k);
    ElemsStep(c, prop, x.elems, k);
    IdsLess(c, N, ElemsFrom(c, prop, x.elems, k));
    if upd {
      OthersAvoided(c, ItemNodes(c, prop, y), N);
      if k < sz {
        KeyedAreLeftAlone(c, N, StepsBy(c, db, t, row, p, y, upd, k, k + 1));
        SetValueEvolves(c, false, Ids(c, N), {}, db, t, row, p, k, y, upd);
        UntouchedOn(c, ElemsFrom(c, prop, x.elems, k), N, db0, db, SetValue(c, db, t, row, p, k, y, upd).db, upd);
      } else {
        AddValueEvolves(c, false, Ids(c, N), {}, db, t, row, p, y, upd);
        UntouchedOn(c, ElemsFrom(c, prop, x.elems, k), N, db0, db, AddValue(c, db, t, row, p, y, upd).db, upd);
      }
    }
  }

  lemma {:induction false} TrimAddsNothing(db: Db, t: nat, row: nat, p: nat, k: nat, sz: nat, tt: nat)
    ensures NumRows(Trim(db, t, row, p, k, sz).db, tt) == NumRows(db, tt)
    decreases sz
  {
    var es := ListAt(db, t, row, p);
    if k < sz && k < |es| { TrimAddsNothing(Put(db, ListRemove, t, row, p, Many(es[..k] + es[k + 1..])), t, row, p, k,
                                            sz - 1, tt); }
  }
}
