/**
 * Rows without keys that the diff mode updates for being linked: it does not when it only creates, nor
 * for what a value never describes.
 */
module Reuse {
  import opened Outcomes
  import opened Schemas
  import opened Tables
  import opened Upsert
  import opened Trace
  import opened Evolution
  import opened Keeps

  // ---- Without updates --------------------------------------------------------------------------

  /** A cell that neither links to a row nor lists any. */
  predicate Blank(cell: Cell) {
    match cell
    case One(e) => !e.Link?
    case Many(es) => es == []
  }

  /** From property `i` on the cells of a row are blank. */
  ghost predicate BlankFrom(c: Config, db: Db, t: nat, row: nat, i: nat) {
    forall j: nat :: i <= j < |Props(c, t)| ==> Blank(CellAt(db, t, row, j))
  }

  /** Nothing at all is updated for being linked. */
  ghost predicate ReusesNothing(steps: seq<Step>) {
    forall s :: s in steps ==> !s.Reusing?
  }

  lemma ReusesNothingSplit(a: seq<Step>, b: seq<Step>)
    ensures ReusesNothing(a + b) <==> ReusesNothing(a) && ReusesNothing(b)
  {
    if ReusesNothing(a + b) {
      assert forall s :: s in a ==> s in a + b;
      assert forall s :: s in b ==> s in a + b;
    }
  }

  /** A create without update links only to rows it has added, so it reuses none. */
  lemma CreateReusesNothing(c: Config, db: Db, t: nat, v: Value, cur: Option<nat>)
    requires ValidConfig(c) && Sound(c, db) && t < |c.schema| && (cur.Some? ==> cur.value < NumRows(db, t))
    requires Primary(c, t).Some? || cur.None?
    ensures ReusesNothing(Steps(c, db, t, v, false, true, cur))
    decreases Height(v), 2, 0
  {
    var at := Locate(c, db, t, v, false, true, cur);
    if c.inWrite && at.res.Ok? && v.Obj? {
      LocateEvolves(c, c.inMigration, {Everything}, {}, db, t, v, false, true, cur);
      LocatedIsBlank(c, db, t, v, cur);
      PopulateReusesNothing(c, at.db, t, at.res.value, v, 0);
    }
  }

  lemma LocatedIsBlank(c: Config, db: Db, t: nat, v: Value, cur: Option<nat>)
    requires ValidConfig(c) && Sound(c, db) && t < |c.schema| && (Primary(c, t).Some? || cur.None?)
    requires Locate(c, db, t, v, false, true, cur).res.Ok?
    ensures var at := Locate(c, db, t, v, false, true, cur); BlankFrom(c, at.db, t, at.res.value.row, 0)
  {
    AppendCells(db, t, EmptyRow(Props(c, t)));
    if Primary(c, t).Some? && KeyOf(c, t, Primary(c, t).value, v).Ok? {
      AppendCells(db, t, KeyedRow(Props(c, t), Primary(c, t).value, KeyOf(c, t, Primary(c, t).value, v).value));
    }
  }

  lemma PopulateReusesNothing(c: Config, db: Db, t: nat, place: Place, v: Value, i: nat)
    requires ValidConfig(c) && Sound(c, db) && t < |c.schema| && v.Obj?
    requires place.row < NumRows(db, t) && (c.inMigration || place.skipPrimary) && BlankFrom(c, db, t, place.row, i)
    ensures ReusesNothing(StepsFrom(c, db, t, place, v, false, true, i))
    decreases Height(v), 1, |Props(c, t)| - i
  {
    hide ReusesNothing, Nodes, Spares, LogSpares, KeysStay, UniqueKeys, LogGrows, NoneAdded;
    NoSteps();
    if i < |Props(c, t)| {
      match Choose(c, t, i, v, place)
      case Skip => PopulateReusesNothing(c, db, t, place, v, i + 1);
      case Fail(_) =>
      case Write(x, isDefault) =>
        var s, W := SetProp(c, db, t, place.row, i, x, false, true, isDefault), {Loc(t, place.row, i)};
        var here := StepsAt(c, db, t, place.row, i, x, false, true, isDefault);
        SetReusesNothing(c, db, t, place.row, i, x, isDefault);
        SetPropEvolves(c, c.inMigration, {Everything}, W, db, t, place.row, i, x, false, true, isDefault) by {
          NoneReused(here);
        }
        if s.res.Ok? {
          BlankStays(c, c.inMigration, db, s.db, t, place.row, i);
          PopulateReusesNothing(c, s.db, t, place, v, i + 1);
        }
        ReusesNothingSplit(here, if s.res.Ok? then StepsFrom(c, s.db, t, place, v, false, true, i + 1) else []);
    }
  }

  lemma NoSteps()
    ensures ReusesNothing([])
  {}

  lemma NoneReused(steps: seq<Step>)
    requires ReusesNothing(steps)
    ensures LeavesAlone({Everything}, steps)
  {}

  lemma BlankStays(c: Config, kw: bool, db: Db, db': Db, t: nat, row: nat, i: nat)
    requires Evolves(c, kw, {Everything}, {Loc(t, row, i)}, db, db') && row < NumRows(db, t)
    ensures BlankFrom(c, db, t, row, i) ==> BlankFrom(c, db', t, row, i + 1)
  {
    forall j: nat | i < j < |Props(c, t)| ensures CellAt(db', t, row, j) == CellAt(db, t, row, j) {
      assert InRange(db, t, row, j) && Loc(t, row, j) !in {Loc(t, row, i)};
    }
  }

  lemma SetReusesNothing(c: Config, db: Db, t: nat, row: nat, p: nat, x: Value, isDefault: bool)
    requires ValidConfig(c) && Sound(c, db) && t < |c.schema| && row < NumRows(db, t) && p < |Props(c, t)|
    requires Blank(CellAt(db, t, row, p))
    ensures ReusesNothing(StepsAt(c, db, t, row, p, x, false, true, isDefault))
    decreases Height(x), 6, 0
  {
    var prop := Prop(c, t, p);
    assert ValidProperty(c, prop);
    if prop.isArray {
      if x.Vals? { PlainStepsAlong(c, db, t, row, p, x, false, 0, 0); }
    } else if prop.base.Object? && !x.RowRef? {
      CreateReusesNothing(c, db, prop.target, x, None);
    }
  }

  // ---- What a value tells beforehand ----------------------------------------------------------------

  /** The value the population loop would take for a property: the supplied one, else the default. */
  function FieldOrDefault(c: Config, n: Node, i: nat): Field {
    if FieldOf(n.v, i).Ok? && FieldOf(n.v, i).value.Given? then FieldOf(n.v, i).value else Prop(c, n.t, i).default
  }

  /** Some description gives a link to type `t` anything but rows and null. */
  ghost predicate Linked(c: Config, N: set<Node>, t: nat) {
    exists n, i: nat :: n in N && i < |Props(c, n.t)| && FieldOrDefault(c, n, i).Given? &&
                        MayCreate(Prop(c, n.t, i), FieldOrDefault(c, n, i).v) && Prop(c, n.t, i).target == t
  }

  /** Some description of type `t` gives a link to its own type, itself or below, anything but rows and null. */
  ghost predicate Nested(c: Config, N: set<Node>, t: nat) {
    exists n :: n in N && n.t == t && Linked(c, Nodes(c, t, n.v), t)
  }

  /** Some description gives property `p` of type `t` a scalar that a null cell reads as. */
  ghost predicate NullLike(c: Config, N: set<Node>, upd: bool, t: nat, p: nat) {
    exists n :: n in N && n.t == t && p < |Props(c, t)| && FieldOrDefault(c, n, p).Given? &&
                !NullSafeFor(c, Prop(c, t, p), FieldOrDefault(c, n, p).v) && (IsPrimary(c, t, p) ==> WritesKeys(c, upd))
  }

  ghost predicate Described(c: Config, N: set<Node>, upd: bool, s: Step) {
    match s
    case Reusing(t, _) => Primary(c, t).None? && Linked(c, N, t)
    case Reentering(t, _) => Primary(c, t).None? && Linked(c, N, t) && Nested(c, N, t)
    case Mistaking(t, _, p) => NullLike(c, N, upd, t, p)
    case Repeating(_, _, _) => true
  }

  ghost predicate AllDescribed(c: Config, N: set<Node>, upd: bool, steps: seq<Step>) {
    forall s :: s in steps ==> Described(c, N, upd, s)
  }

  lemma RepeatsAreDescribed(c: Config, N: set<Node>, upd: bool, steps: seq<Step>)
    requires Faithful(steps)
    ensures AllDescribed(c, N, upd, steps)
  {}

  /** What can mislead the diff mode is described by the value. */
  lemma StepsAreDescribed(c: Config, N: set<Node>, db: Db, t: nat, v: Value, upd: bool, cur: Option<nat>)
    requires ValidConfig(c) && t < |c.schema|
    requires Nodes(c, t, v) <= N && (Primary(c, t).None? && cur.Some? ==> Linked(c, N, t))
    ensures AllDescribed(c, N, upd, Steps(c, db, t, v, upd, true, cur))
    decreases Height(v), 2, 0
  {
    hide Linked, NullLike;
    var at := Locate(c, db, t, v, upd, true, cur);
    if c.inWrite && at.res.Ok? && v.Obj? {
      PopulateIsDescribed(c, N, at.db, t, at.res.value, v, upd, 0);
      PopulateIsDescribed(c, Nodes(c, t, v), at.db, t, at.res.value, v, upd, 0);
      assert Node(t, v) in N;
    }
  }

  lemma PopulateIsDescribed(c: Config, N: set<Node>, db: Db, t: nat, place: Place, v: Value, upd: bool, i: nat)
    requires ValidConfig(c) && t < |c.schema|
    requires v.Obj? && Nodes(c, t, v) <= N && (WritesKeys(c, upd) || place.skipPrimary)
    ensures AllDescribed(c, N, upd, StepsFrom(c, db, t, place, v, upd, true, i))
    decreases Height(v), 1, |Props(c, t)| - i
  {
    hide Choose, Described;
    if i < |Props(c, t)| {
      match Choose(c, t, i, v, place)
      case Skip => PopulateIsDescribed(c, N, db, t, place, v, upd, i + 1);
      case Fail(_) =>
      case Write(x, isDefault) =>
        ChosenIsDescribed(c, N, upd, t, place, v, i);
        SetIsDescribed(c, N, db, t, place.row, i, Node(t, v), x, upd, isDefault);
        PopulateIsDescribed(c, N, SetProp(c, db, t, place.row, i, x, upd, true, isDefault).db, t, place, v, upd, i + 1);
    }
  }

  lemma ChosenIsDescribed(c: Config, N: set<Node>, upd: bool, t: nat, place: Place, v: Value, i: nat)
    requires v.Obj? && Nodes(c, t, v) <= N && (WritesKeys(c, upd) || place.skipPrimary)
    requires i < |Props(c, t)| && Choose(c, t, i, v, place).Write?
    ensures var x := Choose(c, t, i, v, place).x;
      && PropNodes(c, Prop(c, t, i), x) <= N && Node(t, v) in N && FieldOrDefault(c, Node(t, v), i) == Given(x)
      && (IsPrimary(c, t, i) ==> WritesKeys(c, upd))
  {
    ChosenNodes(c, t, i, v, place);
    assert Node(t, v) in Nodes(c, t, v) && ChildNodes(c, t, v) <= Nodes(c, t, v);
  }

  lemma SetIsDescribed(c: Config, N: set<Node>, db: Db, t: nat, row: nat, p: nat, n: Node, x: Value, upd: bool,
                       isDefault: bool)
    requires ValidConfig(c) && t < |c.schema|
    requires n in N && n.t == t && p < |Props(c, t)| && FieldOrDefault(c, n, p) == Given(x)
    requires PropNodes(c, Prop(c, t, p), x) <= N && (IsPrimary(c, t, p) ==> WritesKeys(c, upd))
    ensures AllDescribed(c, N, upd, StepsAt(c, db, t, row, p, x, upd, true, isDefault))
    decreases Height(x), 6, 0
  {
    var prop := Prop(c, t, p);
    assert ValidProperty(c, prop);
    if prop.nullable && x.Null? {
    } else if prop.isArray {
      if x.Vals? { LoopIsDescribed(c, N, db, t, row, p, n, x, upd, 0, |ListAt(db, t, row, p)|); }
    } else if prop.base.Object? && !x.RowRef? {
      StepsAreDescribed(c, N, db, prop.target, x, upd, LinkOf(CellAt(db, t, row, p)));
    }
  }

  lemma LoopIsDescribed(c: Config, N: set<Node>, db: Db, t: nat, row: nat, p: nat, n: Node, x: Value, upd: bool,
                        k: nat, sz: nat)
    requires ValidConfig(c) && t < |c.schema|
    requires n in N && n.t == t && p < |Props(c, t)| && FieldOrDefault(c, n, p) == Given(x)
    requires PropNodes(c, Prop(c, t, p), x) <= N && Prop(c, t, p).isArray && x.Vals?
    ensures AllDescribed(c, N, upd, StepsAlong(c, db, t, row, p, x.elems, upd, k, sz))
    decreases Height(x), 4, |x.elems| - k
  {
    hide Linked, NullLike, Described;
    if k < |x.elems| {
      var prop, y, cur := Prop(c, t, p), x.elems[k], RowAt(db, t, row, p, k, sz);
      ElementNodes(c, prop, x, k);
      assert ValidProperty(c, prop);
      if k >= sz {
        PlainStepsIn(c, db, prop, y, upd, None);
        RepeatsAreDescribed(c, N, upd, StepsIn(c, db, prop, y, upd, false, None));
      } else if prop.base.Object? && !y.RowRef? {
        assert Linked(c, N, prop.target) by { ElementIsLinked(c, N, n, p, x, k); }
        StepsAreDescribed(c, N, db, prop.target, y, upd, cur);
      }
      assert AllDescribed(c, N, upd, StepsBy(c, db, t, row, p, y, upd, k, sz));
      var s := if k < sz then SetValue(c, db, t, row, p, k, y, upd) else AddValue(c, db, t, row, p, y, upd);
      LoopIsDescribed(c, N, s.db, t, row, p, n, x, upd, k + 1, sz);
    }
  }

  lemma ElementIsLinked(c: Config, N: set<Node>, n: Node, p: nat, x: Value, k: nat)
    requires n in N && p < |Props(c, n.t)| && FieldOrDefault(c, n, p) == Given(x)
    requires Prop(c, n.t, p).base.Object? && Prop(c, n.t, p).isArray
    requires x.Vals? && k < |x.elems| && !x.elems[k].RowRef?
    ensures Linked(c, N, Prop(c, n.t, p).target)
  {
    assert MayCreate(Prop(c, n.t, p), x);
  }

  /** Only types with keys, rows and null are given for links. */
  ghost predicate LinksKeyed(c: Config, N: set<Node>) {
    forall t: nat :: Linked(c, N, t) ==> Primary(c, t).Some?
  }

  /** No object without a key is described below another of its type. */
  ghost predicate NestsKeyed(c: Config, N: set<Node>) {
    forall t: nat :: Nested(c, N, t) ==> Primary(c, t).Some?
  }

  /** No scalar is one that a null cell reads as. */
  ghost predicate NullSafe(c: Config, N: set<Node>, upd: bool) {
    forall t: nat, p: nat :: !NullLike(c, N, upd, t, p)
  }

  /** So these conditions on the value are enough. */
  lemma SafeIsFaithful(c: Config, db: Db, t: nat, v: Value, upd: bool)
    requires ValidConfig(c) && t < |c.schema| && NullSafe(c, Nodes(c, t, v), upd) && LinksKeyed(c, Nodes(c, t, v))
    ensures Faithful(Steps(c, db, t, v, upd, true, None))
  {
    StepsAreDescribed(c, Nodes(c, t, v), db, t, v, upd, None);
  }

  lemma NestingKeyedReentersNone(c: Config, db: Db, t: nat, v: Value, upd: bool)
    requires ValidConfig(c) && t < |c.schema| && NestsKeyed(c, Nodes(c, t, v))
    ensures NeverReentered(Steps(c, db, t, v, upd, true, None))
  {
    StepsAreDescribed(c, Nodes(c, t, v), db, t, v, upd, None);
  }
}
