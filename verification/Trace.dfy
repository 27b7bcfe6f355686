/** What happens along a run that its result does not show: which comparisons mislead it, and what it writes in vain. */
module Trace {
  import opened Outcomes
  import opened Schemas
  import opened Tables
  import opened Upsert

  datatype Step =
    | Reusing(t: nat, row: nat)            // the diff mode updates a row without a key for being linked
    | Reentering(t: nat, row: nat)         // such a row is updated while it is being populated
    | Mistaking(t: nat, row: nat, p: nat)  // the diff mode takes a scalar for the null it finds
    | Repeating(t: nat, row: nat, p: nat)  // a cell is overwritten with what it holds, without a comparison

  /** A scalar for a nullable column is not the one core returns when it reads a null cell. */
  predicate NullSafeFor(c: Config, prop: Property, x: Value) {
    prop.nullable && !prop.isArray && !prop.base.Object? && x.Prim? ==>
      !(x.base in c.nullRead && c.nullRead[x.base] == x.bits)
  }

  /**
   * What the diff mode wrongly takes for the value present: the cell is null, and the scalar is the
   * one a typed read of a null cell returns.
   */
  predicate MistakenAt(c: Config, prop: Property, x: Value, cell: Cell) {
    cell == One(Nothing) && !NullSafeFor(c, prop, x)
  }

  function StepIf(b: bool, s: Step): seq<Step> {
    if b then [s] else []
  }

  /** The steps of a create, in order. */
  ghost function Steps(c: Config, db: Db, t: nat, v: Value, upd: bool, diff: bool, cur: Option<nat>): seq<Step>
    decreases Height(v), 2, 0
  {
    var at := Locate(c, db, t, v, upd, diff, cur);
    if c.inWrite && at.res.Ok? then
      var row := at.res.value.row;
      var below := if v.Obj? then StepsFrom(c, at.db, t, at.res.value, v, upd, diff, 0) else [];
      StepIf(Primary(c, t).None? && diff && cur.Some?, Reusing(t, row)) +
      StepIf(Primary(c, t).None? && Reusing(t, row) in below, Reentering(t, row)) + below
    else []
  }

  /** The steps of populating a row from property `i` on. */
  ghost function StepsFrom(c: Config, db: Db, t: nat, place: Place, v: Value, upd: bool, diff: bool, i: nat): seq<Step>
    decreases Height(v), 1, |Props(c, t)| - i
  {
    if i >= |Props(c, t)| then []
    else
      match Choose(c, t, i, v, place)
      case Skip => StepsFrom(c, db, t, place, v, upd, diff, i + 1)
      case Fail(_) => []
      case Write(x, isDefault) =>
        var s := SetProp(c, db, t, place.row, i, x, upd, diff, isDefault);
        StepsAt(c, db, t, place.row, i, x, upd, diff, isDefault) +
        if s.res.Ok? then StepsFrom(c, s.db, t, place, v, upd, diff, i + 1) else []
  }

  /** The steps of setting one property. */
  ghost function StepsAt(c: Config, db: Db, t: nat, row: nat, p: nat, x: Value, upd: bool, diff: bool,
                         isDefault: bool): seq<Step>
    decreases Height(x), 6, 0
  {
    var prop, cell := Prop(c, t, p), CellAt(db, t, row, p);
    if prop.nullable && x.Null? then
      StepIf(!diff && !prop.isArray && !(prop.base.Object? && isDefault) && cell == One(Nothing), Repeating(t, row, p))
    else if prop.isArray then StepsOf(c, db, t, row, p, x, upd, diff)
    else if prop.base.Object? then
      var u := UnboxItem(c, db, prop, x, upd, diff, LinkOf(cell));
      StepsIn(c, db, prop, x, upd, diff, LinkOf(cell)) +
      StepIf(!diff && u.res.Ok? && CellAt(u.db, t, row, p) == One(Link(ItemRow(u.res.value))), Repeating(t, row, p))
    else if diff then
      StepIf(UnboxScalar(prop, x).Ok? && MistakenAt(c, prop, x, cell), Mistaking(t, row, p))
    else
      StepIf(UnboxScalar(prop, x).Ok? && cell == One(UnboxScalar(prop, x).value), Repeating(t, row, p))
  }

  /** The steps of unboxing a link or an element. */
  ghost function StepsIn(c: Config, db: Db, prop: Property, x: Value, upd: bool, diff: bool,
                         cur: Option<nat>): seq<Step>
    decreases Height(x), 3, 0
  {
    if prop.base.Object? && !x.RowRef? then Steps(c, db, prop.target, x, upd, diff, cur) else []
  }

  /** The steps of assigning a list: an empty list that is cleared is written in vain. */
  ghost function StepsOf(c: Config, db: Db, t: nat, row: nat, p: nat, x: Value, upd: bool, diff: bool): seq<Step>
    decreases Height(x), 5, 0
  {
    var inVain := StepIf(c.inWrite && CellAt(db, t, row, p) == Many([]), Repeating(t, row, p));
    if x == ListRef(t, row, p) then []
    else if x.Null? then inVain
    else if diff then
      if x.Vals? then StepsAlong(c, db, t, row, p, x.elems, upd, 0, |ListAt(db, t, row, p)|) else []
    else
      inVain +
      if c.inWrite && x.Vals? then StepsAlong(c, Clear(db, t, row, p), t, row, p, x.elems, upd, 0, 0) else []
  }

  /** The steps of the loop over a list that held `sz` elements: those beyond are unboxed plainly. */
  ghost function StepsAlong(c: Config, db: Db, t: nat, row: nat, p: nat, vs: seq<Value>, upd: bool, k: nat,
                            sz: nat): seq<Step>
    decreases ValuesHeight(vs), 4, |vs| - k
  {
    if k >= |vs| then []
    else
      var s := if k < sz then SetValue(c, db, t, row, p, k, vs[k], upd) else AddValue(c, db, t, row, p, vs[k], upd);
      StepsBy(c, db, t, row, p, vs[k], upd, k, sz) +
      if s.res.Ok? then StepsAlong(c, s.db, t, row, p, vs, upd, k + 1, sz) else []
  }

  /** The steps of one element. */
  ghost function StepsBy(c: Config, db: Db, t: nat, row: nat, p: nat, x: Value, upd: bool, k: nat, sz: nat): seq<Step>
    decreases Height(x), 4, 0
  {
    if k < sz && k >= |ListAt(db, t, row, p)| then []
    else StepsIn(c, db, Prop(c, t, p), x, upd, k < sz, RowAt(db, t, row, p, k, sz))
  }

  /** What one element of a list is unboxed against: the row it names within the old length. */
  function RowAt(db: Db, t: nat, row: nat, p: nat, k: nat, sz: nat): Option<nat> {
    if k < sz && k < |ListAt(db, t, row, p)| then LinkRow(ListAt(db, t, row, p)[k]) else None
  }

  /** A row without a key that is being populated is not updated for being linked meanwhile. */
  ghost predicate NeverReentered(steps: seq<Step>) {
    forall s :: s in steps ==> !s.Reentering?
  }

  // ---- Without comparisons ------------------------------------------------------------------------

  /** Nothing misleads the run: the only steps are writes in vain. */
  ghost predicate Faithful(steps: seq<Step>) {
    forall s :: s in steps ==> s.Repeating?
  }

  lemma PlainSteps(c: Config, db: Db, t: nat, v: Value, upd: bool, cur: Option<nat>)
    ensures Faithful(Steps(c, db, t, v, upd, false, cur))
    decreases Height(v), 2, 0
  {
    var at := Locate(c, db, t, v, upd, false, cur);
    if c.inWrite && v.Obj? && at.res.Ok? { PlainStepsFrom(c, at.db, t, at.res.value, v, upd, 0); }
  }

  lemma PlainStepsFrom(c: Config, db: Db, t: nat, place: Place, v: Value, upd: bool, i: nat)
    ensures Faithful(StepsFrom(c, db, t, place, v, upd, false, i))
    decreases Height(v), 1, |Props(c, t)| - i
  {
    if i < |Props(c, t)| {
      match Choose(c, t, i, v, place)
      case Skip => PlainStepsFrom(c, db, t, place, v, upd, i + 1);
      case Fail(_) =>
      case Write(x, isDefault) =>
        PlainStepsAt(c, db, t, place.row, i, x, upd, isDefault);
        PlainStepsFrom(c, SetProp(c, db, t, place.row, i, x, upd, false, isDefault).db, t, place, v, upd, i + 1);
    }
  }

  lemma PlainStepsAt(c: Config, db: Db, t: nat, row: nat, p: nat, x: Value, upd: bool, isDefault: bool)
    ensures Faithful(StepsAt(c, db, t, row, p, x, upd, false, isDefault))
    decreases Height(x), 6, 0
  {
    var prop := Prop(c, t, p);
    if prop.isArray {
      if x.Vals? { PlainStepsAlong(c, Clear(db, t, row, p), t, row, p, x, upd, 0, 0); }
    } else {
      PlainStepsIn(c, db, prop, x, upd, LinkOf(CellAt(db, t, row, p)));
    }
  }

  lemma PlainStepsIn(c: Config, db: Db, prop: Property, x: Value, upd: bool, cur: Option<nat>)
    ensures Faithful(StepsIn(c, db, prop, x, upd, false, cur))
    decreases Height(x), 3, 0
  {
    if prop.base.Object? && !x.RowRef? { PlainSteps(c, db, prop.target, x, upd, cur); }
  }

  /** Nothing misleads the loop beyond the old end of the list. */
  lemma PlainStepsAlong(c: Config, db: Db, t: nat, row: nat, p: nat, x: Value, upd: bool, k: nat, sz: nat)
    requires x.Vals? && k >= sz
    ensures Faithful(StepsAlong(c, db, t, row, p, x.elems, upd, k, sz))
    decreases Height(x), 4, |x.elems| - k
  {
    if k < |x.elems| {
      PlainStepsIn(c, db, Prop(c, t, p), x.elems[k], upd, None);
      PlainStepsAlong(c, AddValue(c, db, t, row, p, x.elems[k], upd).db, t, row, p, x, upd, k + 1, sz);
    }
  }
}
