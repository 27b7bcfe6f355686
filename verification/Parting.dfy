/**
 * When the two modes part, told from the value and the database before the call: a scalar is compared
 * with a null cell that reads as it, or a row without a key is linked where an object is described.
 */
module Parting {
  import opened Outcomes
  import opened Schemas
  import opened Tables
  import opened Upsert
  import opened Trace
  import opened Evolution
  import opened Keeps
  import opened Reuse
  import opened Descriptions
  import opened DiffMode

  // ---- What will mislead the diff mode ----------------------------------------------------------------

  /** The row an update finds for a description. */
  function RowBefore(c: Config, db: Db, t: nat, v: Value, upd: bool): Option<nat> {
    match Primary(c, t)
    case None => None
    case Some(p) => if upd && KeyOf(c, t, p, v).Ok? then FindFirst(db, t, p, KeyOf(c, t, p, v).value) else None
  }

  /** What a cell of that row holds: a new row is empty. */
  function CellBefore(c: Config, db: Db, t: nat, found: Option<nat>, i: nat): Cell {
    match found
    case None => EmptyCell(Prop(c, t, i))
    case Some(row) => CellAt(db, t, row, i)
  }

  /**
   * Some row without a key is linked where the value describes an object for the link; or also, if
   * `scalars`, some scalar is one that the null in its cell reads as.
   */
  ghost predicate Misled(c: Config, db: Db, t: nat, v: Value, upd: bool, scalars: bool)
    decreases Height(v), 2, 0
  {
    v.Obj? && MisledFrom(c, db, t, v, upd, scalars, 0)
  }

  ghost predicate MisledFrom(c: Config, db: Db, t: nat, v: Value, upd: bool, scalars: bool, i: nat)
    requires v.Obj?
    decreases Height(v), 1, |Props(c, t)| - i
  {
    var found := RowBefore(c, db, t, v, upd);
    var w := Choose(c, t, i, v, Place(0, found.None?, true));
    i < |Props(c, t)| &&
    ((w.Write? && MisledAt(c, db, Prop(c, t, i), w.x, upd, scalars, CellBefore(c, db, t, found, i))) ||
     MisledFrom(c, db, t, v, upd, scalars, i + 1))
  }

  /** Setting a cell that holds `cell`. */
  ghost predicate MisledAt(c: Config, db: Db, prop: Property, x: Value, upd: bool, scalars: bool, cell: Cell)
    decreases Height(x), 6, 0
  {
    if prop.nullable && x.Null? then false
    else if prop.isArray then x.Vals? && cell.Many? && MisledAlong(c, db, prop, x.elems, upd, scalars, cell.es, 0)
    else if prop.base.Object? then MisledIn(c, db, prop, x, upd, scalars, LinkOf(cell))
    else scalars && MistakenAt(c, prop, x, cell)
  }

  ghost predicate MisledIn(c: Config, db: Db, prop: Property, x: Value, upd: bool, scalars: bool, cur: Option<nat>)
    decreases Height(x), 3, 0
  {
    prop.base.Object? && !x.RowRef? &&
    ((Primary(c, prop.target).None? && cur.Some?) || Misled(c, db, prop.target, x, upd, scalars))
  }

  /** Only elements within the old list are compared. */
  ghost predicate MisledAlong(c: Config, db: Db, prop: Property, vs: seq<Value>, upd: bool, scalars: bool,
                              es: seq<Elem>, k: nat)
    decreases ValuesHeight(vs), 4, |vs| - k
  {
    k < |vs| && k < |es| &&
    (MisledIn(c, db, prop, vs[k], upd, scalars, LinkRow(es[k]))
     || MisledAlong(c, db, prop, vs, upd, scalars, es, k + 1))
  }

  // ---- It is told before the call ---------------------------------------------------------------------

  /** Some row is updated for being linked, or, if `scalars`, some scalar is taken for the null that is there. */
  ghost predicate Misleading(scalars: bool, steps: seq<Step>) {
    exists s :: s in steps && (s.Reusing? || (scalars && s.Mistaking?))
  }

  lemma MisleadingSplit(scalars: bool, a: seq<Step>, b: seq<Step>)
    ensures Misleading(scalars, a) || Misleading(scalars, b) ==> Misleading(scalars, a + b)
    ensures Harmless(scalars, a) && Harmless(scalars, b) ==> Harmless(scalars, a + b)
  {
    if s :| s in a && (s.Reusing? || (scalars && s.Mistaking?)) { assert s in a + b; }
    if s :| s in b && (s.Reusing? || (scalars && s.Mistaking?)) { assert s in a + b; }
  }

  ghost predicate Harmless(scalars: bool, steps: seq<Step>) {
    ReusesNothing(steps) && (scalars ==> Faithful(steps))
  }

  /** What is foreseen happens when the run gets that far, and nothing else misleads it. */
  ghost predicate Foretold<T>(scalars: bool, misled: bool, steps: seq<Step>, res: Result<T>) {
    (!misled ==> Harmless(scalars, steps)) && (misled && res.Ok? ==> Misleading(scalars, steps))
  }

  /** Until a description is reached, the rows it names are as they were. */
  ghost predicate Untouched(c: Config, N: set<Node>, db0: Db, db: Db, upd: bool) {
    upd ==> Evolves(c, false, Ids(c, N), {}, db0, db)
  }

  lemma UntouchedOn(c: Config, N: set<Node>, M: set<Node>, db0: Db, db: Db, db': Db, upd: bool)
    requires Untouched(c, N, db0, db, upd) && M <= N && (upd ==> Evolves(c, false, Ids(c, M), {}, db, db'))
    ensures Untouched(c, M, db0, db', upd)
  {
    if upd {
      IdsLess(c, M, N);
      EvolvesLess(c, Ids(c, M), Ids(c, N), db0, db);
      EvolvesTrans(c, false, Ids(c, M), {}, db0, db, db');
    }
  }

  lemma EvolvesLess(c: Config, K: set<Id>, K1: set<Id>, db: Db, db': Db)
    requires Evolves(c, false, K1, {}, db, db') && K <= K1 && Everything !in K1
    ensures Evolves(c, false, K, {}, db, db')
  {}

  /** A row that a description names is found where it was found before. */
  lemma FoundBefore(c: Config, N: set<Node>, db0: Db, db: Db, t: nat, v: Value)
    requires Untouched(c, N, db0, db, true) && Node(t, v) in N && Primary(c, t).Some?
    requires KeyOf(c, t, Primary(c, t).value, v).Ok? && ValidConfig(c) && t < |c.schema|
    ensures var p, key := Primary(c, t).value, KeyOf(c, t, Primary(c, t).value, v).value;
      FindFirst(db, t, p, key) == FindFirst(db0, t, p, key)
  {
    var p, key := Primary(c, t).value, KeyOf(c, t, Primary(c, t).value, v).value;
    var was := FindFirst(db0, t, p, key);
    assert NodeId(c, Node(t, v)) == Some(Keyed(t, key)) && Keyed(t, key) in Ids(c, N);
    forall k: nat | k < NumRows(db, t) && (was.Some? ==> k < was.value) ensures CellAt(db, t, k, p) != One(key) {
      KeyCell(c, db, t, k, p);
      if k < NumRows(db0, t) {
        KeyCell(c, db0, t, k, p);
        assert RowId(c, db, t, k) == RowId(c, db0, t, k);
      } else {
        assert RowId(c, db, t, k) !in Ids(c, N);
      }
    }
    if was.Some? {
      KeyCell(c, db, t, was.value, p);
      assert RowId(c, db, t, was.value) == RowId(c, db0, t, was.value);
    }
  }

  lemma KeyCell(c: Config, db: Db, t: nat, row: nat, p: nat)
    requires ValidConfig(c) && Sound(c, db) && t < |c.schema| && row < NumRows(db, t) && Primary(c, t) == Some(p)
    ensures CellAt(db, t, row, p).One? && RowId(c, db, t, row) == Keyed(t, CellAt(db, t, row, p).e)
  {
    assert InRange(db, t, row, p) && CellOk(db, Prop(c, t, p), CellAt(db, t, row, p));
  }

  /** The cells of the row from property `i` on are as foreseen. */
  ghost predicate AsBefore(c: Config, db0: Db, db: Db, t: nat, row: nat, found: Option<nat>, i: nat) {
    forall j: nat :: i <= j < |Props(c, t)| && !IsPrimary(c, t, j) ==>
      CellAt(db, t, row, j) == CellBefore(c, db0, t, found, j)
  }

  lemma LocatedAsBefore(c: Config, db0: Db, db: Db, t: nat, v: Value, upd: bool, diff: bool, cur: Option<nat>)
    requires ValidConfig(c) && Sound(c, db) && t < |c.schema| && !WritesKeys(c, upd) && v.Obj?
    requires (cur.Some? ==> cur.value < NumRows(db, t)) && (diff ==> Primary(c, t).Some? || cur.None?)
    requires Untouched(c, Nodes(c, t, v), db0, db, upd) && (upd ==> Distinct(c, t, v))
    requires Locate(c, db, t, v, upd, diff, cur).res.Ok?
    ensures var at, found := Locate(c, db, t, v, upd, diff, cur), RowBefore(c, db0, t, v, upd);
      && at.res.value.created == found.None? && at.res.value.skipPrimary
      && at.res.value.row == (if found.Some? then found.value else NumRows(db, t))
      && AsBefore(c, db0, at.db, t, at.res.value.row, found, 0)
      && Untouched(c, NodesFrom(c, t, v, 0), db0, at.db, upd)
      && (upd ==> RowId(c, at.db, t, at.res.value.row) !in Ids(c, NodesFrom(c, t, v, 0)))
  {
    hide Evolves;
    var at := Locate(c, db, t, v, upd, diff, cur);
    NodesBelow(c, t, v);
    assert Node(t, v) in Nodes(c, t, v);
    AppendCells(db, t, EmptyRow(Props(c, t)));
    if Primary(c, t).Some? {
      AppendCells(db, t, KeyedRow(Props(c, t), Primary(c, t).value, KeyOf(c, t, Primary(c, t).value, v).value));
      if upd { FoundBefore(c, Nodes(c, t, v), db0, db, t, v); }
    }
    if upd {
      LocatedApart(c, db0, db, t, v, diff, cur);
      if RowBefore(c, db0, t, v, upd).Some? { CellsAsBefore(c, Nodes(c, t, v), db0, db, t, v); }
    }
  }

  /** Finding or adding the row leaves what is described below untouched. */
  lemma LocatedApart(c: Config, db0: Db, db: Db, t: nat, v: Value, diff: bool, cur: Option<nat>)
    requires ValidConfig(c) && Sound(c, db) && t < |c.schema| && v.Obj? && Distinct(c, t, v)
    requires (cur.Some? ==> cur.value < NumRows(db, t)) && (diff ==> Primary(c, t).Some? || cur.None?)
    requires Untouched(c, Nodes(c, t, v), db0, db, true)
    ensures var at := Locate(c, db, t, v, true, diff, cur);
      && Untouched(c, NodesFrom(c, t, v, 0), db0, at.db, true)
      && (at.res.Ok? ==> RowId(c, at.db, t, at.res.value.row) !in Ids(c, NodesFrom(c, t, v, 0)))
  {
    var N := NodesFrom(c, t, v, 0);
    NodesBelow(c, t, v);
    assert NodeId(c, Node(t, v)).Some? ==> NodeId(c, Node(t, v)).value in Ids(c, {Node(t, v)});
    LocateEvolves(c, false, Ids(c, N), {}, db, t, v, true, diff, cur);
    UntouchedOn(c, Nodes(c, t, v), N, db0, db, Locate(c, db, t, v, true, diff, cur).db, true);
  }

  lemma CellsAsBefore(c: Config, N: set<Node>, db0: Db, db: Db, t: nat, v: Value)
    requires Untouched(c, N, db0, db, true) && Node(t, v) in N && ValidConfig(c) && t < |c.schema|
    requires RowBefore(c, db0, t, v, true).Some?
    ensures AsBefore(c, db0, db, t, RowBefore(c, db0, t, v, true).value, RowBefore(c, db0, t, v, true), 0)
  {
    var row := RowBefore(c, db0, t, v, true).value;
    KeyCell(c, db0, t, row, Primary(c, t).value);
    assert NodeId(c, Node(t, v)) == Some(RowId(c, db0, t, row)) && RowId(c, db0, t, row) in Ids(c, N);
    forall j: nat | j < |Props(c, t)| ensures CellAt(db, t, row, j) == CellAt(db0, t, row, j) {
      SparedCell(c, false, Ids(c, N), {}, db0, db, t, row, j);
    }
  }

  // ---- The induction ----------------------------------------------------------------------------------

  lemma CreateIsForetold(c: Config, db0: Db, db: Db, t: nat, v: Value, upd: bool, scalars: bool, cur: Option<nat>)
    requires ValidConfig(c) && Sound(c, db) && t < |c.schema| && !WritesKeys(c, upd) && c.inWrite
    requires (cur.Some? ==> cur.value < NumRows(db, t)) && (Primary(c, t).Some? || cur.None?)
    requires Untouched(c, Nodes(c, t, v), db0, db, upd) && (upd ==> Distinct(c, t, v))
    ensures Foretold(scalars, Misled(c, db0, t, v, upd, scalars), Steps(c, db, t, v, upd, true, cur),
                     Create(c, db, t, v, upd, true, cur).res)
    decreases Height(v), 2, 0
  {
    hide Untouched, Evolves, Foretold, StepsFrom, Populate, MisledFrom, Locate, DistinctFrom;
    var at := Locate(c, db, t, v, upd, true, cur);
    if v.Obj? && at.res.Ok? {
      LocateEvolves(c, false, {}, {}, db, t, v, upd, true, cur);
      LocatedIsThere(c, {}, {}, db, at.db, t, at.res.value.row);
      LocatedAsBefore(c, db0, db, t, v, upd, true, cur);
      PopulateIsForetold(c, db0, at.db, t, at.res.value, v, upd, scalars, 0);
      TopIsForetold(scalars, c, t, at.res.value.row, MisledFrom(c, db0, t, v, upd, scalars, 0),
                    StepsFrom(c, at.db, t, at.res.value, v, upd, true, 0), Create(c, db, t, v, upd, true, cur).res);
    } else {
      assert Steps(c, db, t, v, upd, true, cur) == [];
      NothingForetold(scalars, Create(c, db, t, v, upd, true, cur).res, Misled(c, db0, t, v, upd, scalars));
    }
  }

  lemma LocatedIsThere(c: Config, K: set<Id>, W: set<Loc>, db: Db, db': Db, t: nat, row: nat)
    requires Evolves(c, false, K, W, db, db')
    ensures Sound(c, db')
  {}

  lemma TopIsForetold<T>(scalars: bool, c: Config, t: nat, row: nat, misled: bool, below: seq<Step>, res: Result<T>)
    requires Foretold(scalars, misled, below, res)
    ensures Foretold(scalars, misled,
                     [] + StepIf(Primary(c, t).None? && Reusing(t, row) in below, Reentering(t, row)) + below, res)
  {
    var all := [] + StepIf(Primary(c, t).None? && Reusing(t, row) in below, Reentering(t, row)) + below;
    if s :| s in below && (s.Reusing? || (scalars && s.Mistaking?)) { assert s in all; }
  }

  lemma NothingForetold<T>(scalars: bool, res: Result<T>, misled: bool)
    requires misled ==> res.Err?
    ensures Foretold(scalars, misled, [], res)
  {}

  lemma NothingMisleads<T>(scalars: bool, steps: seq<Step>, res: Result<T>)
    requires Foretold(scalars, false, steps, res)
    ensures Harmless(scalars, steps)
  {}

  lemma PopulateIsForetold(c: Config, db0: Db, db: Db, t: nat, place: Place, v: Value, upd: bool, scalars: bool, i: nat)
    requires ValidConfig(c) && Sound(c, db) && t < |c.schema| && !WritesKeys(c, upd) && c.inWrite && v.Obj?
    requires place.row < NumRows(db, t) && place.skipPrimary && place.created == RowBefore(c, db0, t, v, upd).None?
    requires AsBefore(c, db0, db, t, place.row, RowBefore(c, db0, t, v, upd), i)
    requires Untouched(c, NodesFrom(c, t, v, i), db0, db, upd) && (upd ==> DistinctFrom(c, t, v, i))
    requires upd ==> RowId(c, db, t, place.row) !in Ids(c, NodesFrom(c, t, v, i))
    ensures Foretold(scalars, MisledFrom(c, db0, t, v, upd, scalars, i), StepsFrom(c, db, t, place, v, upd, true, i),
                     Populate(c, db, t, place, v, upd, true, i).res)
    decreases Height(v), 1, |Props(c, t)| - i
  {
    hide Untouched, Evolves, Foretold, SetProp, StepsAt, MisledAt, NodesFrom, Ids, Sound, ValidConfig, AsBefore,
         DistinctIn;
    var found := RowBefore(c, db0, t, v, upd);
    if i >= |Props(c, t)| {
      NothingForetold(scalars, Populate(c, db, t, place, v, upd, true, i).res, false);
    } else {
      var w := Choose(c, t, i, v, place);
      assert Choose(c, t, i, v, Place(0, found.None?, true)) == w;
      NodesStep(c, t, v, i);
      match w
      case Skip =>
        Skipped(c, db0, db, t, place.row, v, upd, i);
        PopulateIsForetold(c, db0, db, t, place, v, upd, scalars, i + 1);
      case Fail(_) => NothingForetold(scalars, Populate(c, db, t, place, v, upd, true, i).res,
                                      MisledFrom(c, db0, t, v, upd, scalars, i));
      case Write(x, isDefault) =>
        var here, s := StepsAt(c, db, t, place.row, i, x, upd, true, isDefault),
            SetProp(c, db, t, place.row, i, x, upd, true, isDefault);
        var misled := MisledAt(c, db0, Prop(c, t, i), x, upd, scalars, CellBefore(c, db0, t, found, i));
        assert CellAt(db, t, place.row, i) == CellBefore(c, db0, t, found, i)
               by { FirstAsBefore(c, db0, db, t, place.row, found, i); }
        ChosenApart(c, db0, db, t, place, v, upd, i);
        SetIsForetold(c, db0, db, t, place.row, i, x, upd, scalars, isDefault);
        var rest := if s.res.Ok? then StepsFrom(c, s.db, t, place, v, upd, true, i + 1) else [];
        if s.res.Ok? && !misled {
          NothingMisleads(scalars, here, s.res);
          WrittenAsBefore(c, db0, db, t, place, v, upd, true, i);
          PopulateIsForetold(c, db0, s.db, t, place, v, upd, scalars, i + 1);
        }
        ThenForetold(scalars, misled, MisledFrom(c, db0, t, v, upd, scalars, i + 1), here, rest, s.res,
                     Populate(c, db, t, place, v, upd, true, i).res);
    }
  }

  /** What comes first decides, or else what comes after. */
  lemma ThenForetold<T,
      U>(scalars: bool, first: bool, after: bool, a: seq<Step>, b: seq<Step>, mid: Result<T>, end: Result<U>)
    requires Foretold(scalars, first, a, mid) && (end.Ok? ==> mid.Ok?)
    requires mid.Err? ==> b == []
    requires mid.Ok? && !first ==> Foretold(scalars, after, b, end)
    ensures Foretold(scalars, first || after, a + b, end)
  {
    MisleadingSplit(scalars, a, b);
  }

  lemma FirstAsBefore(c: Config, db0: Db, db: Db, t: nat, row: nat, found: Option<nat>, i: nat)
    requires AsBefore(c, db0, db, t, row, found, i) && i < |Props(c, t)| && !IsPrimary(c, t, i)
    ensures CellAt(db, t, row, i) == CellBefore(c, db0, t, found, i)
  {}

  lemma Skipped(c: Config, db0: Db, db: Db, t: nat, row: nat, v: Value, upd: bool, i: nat)
    requires Untouched(c, NodesFrom(c, t, v, i), db0, db, upd) && i < |Props(c, t)| && (upd ==> Sound(c, db))
    requires upd ==> RowId(c, db, t, row) !in Ids(c, NodesFrom(c, t, v, i))
    requires AsBefore(c, db0, db, t, row, RowBefore(c, db0, t, v, upd), i)
    ensures Untouched(c, NodesFrom(c, t, v, i + 1), db0, db, upd)
    ensures upd ==> RowId(c, db, t, row) !in Ids(c, NodesFrom(c, t, v, i + 1))
    ensures AsBefore(c, db0, db, t, row, RowBefore(c, db0, t, v, upd), i + 1)
  {
    NodesStep(c, t, v, i);
    IdsLess(c, NodesFrom(c, t, v, i + 1), NodesFrom(c, t, v, i));
    if upd { EvolvesLess(c, Ids(c, NodesFrom(c, t, v, i + 1)), Ids(c, NodesFrom(c, t, v, i)), db0, db); }
  }

  /** A chosen value describes other rows than its own, each for the first time. */
  lemma ChosenApart(c: Config, db0: Db, db: Db, t: nat, place: Place, v: Value, upd: bool, i: nat)
    requires i < |Props(c, t)| && v.Obj? && Choose(c, t, i, v, place).Write? && (upd ==> Sound(c, db))
    requires Untouched(c, NodesFrom(c, t, v, i), db0, db, upd) && (upd ==> DistinctFrom(c, t, v, i))
    requires upd ==> RowId(c, db, t, place.row) !in Ids(c, NodesFrom(c, t, v, i))
    ensures var x, prop := Choose(c, t, i, v, place).x, Prop(c, t, i);
      && Untouched(c, PropNodes(c, prop, x), db0, db, upd) && (upd ==> DistinctIn(c, prop, x))
      && (upd ==> RowId(c, db, t, place.row) !in Ids(c, PropNodes(c, prop, x)))
      && (upd ==> Ids(c, PropNodes(c, prop, x)) !! Ids(c, NodesFrom(c, t, v, i + 1)))
  {
    hide Distinct, DistinctAlong, Evolves;
    var w, prop := Choose(c, t, i, v, place), Prop(c, t, i);
    NodesStep(c, t, v, i);
    if w.isDefault { DefaultsAreDistinct(c, prop, w.x); } else { assert w.x == Supplied(v, i); }
    IdsLess(c, PropNodes(c, prop, w.x), NodesFrom(c, t, v, i));
    if upd { EvolvesLess(c, Ids(c, PropNodes(c, prop, w.x)), Ids(c, NodesFrom(c, t, v, i)), db0, db); }
  }

  /** Writing one property of a row leaves the others as they were. */
  lemma WrittenAsBefore(c: Config, db0: Db, db: Db, t: nat, place: Place, v: Value, upd: bool, diff: bool, i: nat)
    requires ValidConfig(c) && Sound(c, db) && t < |c.schema| && !WritesKeys(c, upd) && v.Obj?
    requires place.row < NumRows(db, t) && place.skipPrimary
    requires AsBefore(c, db0, db, t, place.row, RowBefore(c, db0, t, v, upd), i)
    requires Untouched(c, NodesFrom(c, t, v, i), db0, db, upd) && (upd ==> DistinctFrom(c, t, v, i))
    requires upd ==> RowId(c, db, t, place.row) !in Ids(c, NodesFrom(c, t, v, i))
    requires i < |Props(c, t)| && Choose(c, t, i, v, place).Write?
    requires var w := Choose(c, t, i, v, place);
      diff ==> ReusesNothing(StepsAt(c, db, t, place.row, i, w.x, upd, diff, w.isDefault))
    ensures var w := Choose(c, t, i, v, place);
      var db' := SetProp(c, db, t, place.row, i, w.x, upd, diff, w.isDefault).db;
      && Sound(c, db') && place.row < NumRows(db', t)
      && AsBefore(c, db0, db', t, place.row, RowBefore(c, db0, t, v, upd), i + 1)
      && Untouched(c, NodesFrom(c, t, v, i + 1), db0, db', upd)
      && (upd ==> RowId(c, db', t, place.row) !in Ids(c, NodesFrom(c, t, v, i + 1)))
  {
    hide SetProp, StepsAt, NodesFrom, Distinct, DistinctFrom, Spares, LogSpares, LogGrows, UniqueKeys, NoneAdded;
    var w, row, N := Choose(c, t, i, v, place), place.row, NodesFrom(c, t, v, i + 1);
    var db', steps := SetProp(c, db, t, row, i, w.x, upd, diff, w.isDefault).db,
        StepsAt(c, db, t, row, i, w.x, upd, diff, w.isDefault);
    NodesStep(c, t, v, i);
    IdsLess(c, N, NodesFrom(c, t, v, i));
    ChosenApart(c, db0, db, t, place, v, upd, i);
    var K := if upd then {RowId(c, db, t, row)} else {Everything};
    OwnRowAvoided(c, db, t, row, PropNodes(c, Prop(c, t, i), w.x), upd);
    SetPropEvolves(c, false, K, {Loc(t, row, i)}, db, t, row, i, w.x, upd, diff, w.isDefault);
    OthersStay(c, K, db0, db, db', t, row, RowBefore(c, db0, t, v, upd), i);
    if upd {
      OthersAvoided(c, PropNodes(c, Prop(c, t, i), w.x), N);
      SetPropEvolves(c, false, Ids(c, N), {}, db, t, row, i, w.x, upd, diff, w.isDefault);
      UntouchedOn(c, NodesFrom(c, t, v, i), N, db0, db, db', upd);
    }
  }

  lemma OwnRowAvoided(c: Config, db: Db, t: nat, row: nat, N: set<Node>, upd: bool)
    requires upd ==> RowId(c, db, t, row) !in Ids(c, N)
    ensures Avoids(c, if upd then {RowId(c, db, t, row)} else {Everything}, N)
  {}

  lemma OthersAvoided(c: Config, N: set<Node>, M: set<Node>)
    requires Ids(c, N) !! Ids(c, M)
    ensures Avoids(c, Ids(c, M), N)
  {
    forall n | n in N && NodeId(c, n).Some? ensures NodeId(c, n).value !in Ids(c, M) {
      assert NodeId(c, n).value in Ids(c, N);
    }
  }

  lemma OthersStay(c: Config, K: set<Id>, db0: Db, db: Db, db': Db, t: nat, row: nat, found: Option<nat>, i: nat)
    requires Evolves(c, false, K, {Loc(t, row, i)}, db, db') && Held(K, RowId(c, db, t, row)) && row < NumRows(db, t)
    requires AsBefore(c, db0, db, t, row, found, i)
    ensures AsBefore(c, db0, db', t, row, found, i + 1)
  {
    forall j: nat | i < j < |Props(c, t)| && !IsPrimary(c, t, j)
      ensures CellAt(db', t, row, j) == CellBefore(c, db0, t, found, j)
    {
      SparedCell(c, false, K, {Loc(t, row, i)}, db, db', t, row, j);
    }
  }

  lemma SetIsForetold(c: Config, db0: Db, db: Db, t: nat, row: nat, p: nat, x: Value, upd: bool, scalars: bool,
                      isDefault: bool)
    requires ValidConfig(c) && Sound(c, db) && t < |c.schema| && !WritesKeys(c, upd) && c.inWrite
    requires row < NumRows(db, t) && p < |Props(c, t)| && !IsPrimary(c, t, p)
    requires var N := PropNodes(c, Prop(c, t, p), x);
      Untouched(c, N, db0, db, upd) && (upd ==> DistinctIn(c, Prop(c, t, p), x) && RowId(c, db, t, row) !in Ids(c, N))
    ensures Foretold(scalars, MisledAt(c, db0, Prop(c, t, p), x, upd, scalars, CellAt(db, t, row, p)),
                     StepsAt(c, db, t, row, p, x, upd, true, isDefault),
                     SetProp(c, db, t, row, p, x, upd, true, isDefault).res)
    decreases Height(x), 6, 0
  {
    hide Untouched, Evolves, Create, Steps, Misled, MisledAlong, StepsAlong, AssignDiff, Distinct, DistinctAlong, Ids;
    var prop, cell := Prop(c, t, p), CellAt(db, t, row, p);
    SoundCell(c, db, t, row, p);
    assert ValidProperty(c, prop);
    if prop.nullable && x.Null? {
    } else if prop.isArray {
      if x.Vals? {
        ElemsAre(c, prop, x);
        LoopIsForetold(c, db0, db, t, row, p, x, upd, scalars, 0, cell.es);
      }
    } else if prop.base.Object? {
      UnboxIsForetold(c, db0, db, prop, x, upd, scalars, LinkOf(cell));
    } else if MistakenAt(c, prop, x, cell) && UnboxScalar(prop, x).Ok? {
      assert Mistaking(t, row, p) in StepsAt(c, db, t, row, p, x, upd, true, isDefault);
    }
  }

  lemma UnboxIsForetold(c: Config, db0: Db, db: Db, prop: Property, x: Value, upd: bool, scalars: bool,
                        cur: Option<nat>)
    requires ValidConfig(c) && Sound(c, db) && ValidProperty(c, prop) && !WritesKeys(c, upd) && c.inWrite
    requires cur.Some? && prop.base.Object? ==> cur.value < NumRows(db, prop.target)
    requires Untouched(c, ItemNodes(c, prop, x), db0, db, upd)
             && (upd && prop.base.Object? ==> Distinct(c, prop.target, x))
    ensures Foretold(scalars, MisledIn(c, db0, prop, x, upd, scalars, cur), StepsIn(c, db, prop, x, upd, true, cur),
                     UnboxItem(c, db, prop, x, upd, true, cur).res)
    decreases Height(x), 3, 0
  {
    hide Untouched, Evolves, Distinct, Misled, StepsFrom, Populate;
    if prop.base.Object? && !x.RowRef? {
      if Primary(c, prop.target).None? && cur.Some? {
        var row := Locate(c, db, prop.target, x, upd, true, cur).res.value.row;
        assert Reusing(prop.target, row) in StepsIn(c, db, prop, x, upd, true, cur);
      } else {
        CreateIsForetold(c, db0, db, prop.target, x, upd, scalars, cur);
      }
    }
  }

  /** From element `k` on the list still holds what it held. */
  lemma LoopIsForetold(c: Config, db0: Db, db: Db, t: nat, row: nat, p: nat, x: Value, upd: bool, scalars: bool,
                       k: nat, es: seq<Elem>)
    requires ValidConfig(c) && Sound(c, db) && t < |c.schema| && !WritesKeys(c, upd) && c.inWrite
    requires row < NumRows(db, t) && p < |Props(c, t)| && !IsPrimary(c, t, p) && Prop(c, t, p).isArray && x.Vals?
    requires k <= |es| ==> |ListAt(db, t, row, p)| == |es| && ListAt(db, t, row, p)[k..] == es[k..]
    requires var N := ElemsFrom(c, Prop(c, t, p), x.elems, k);
      && Untouched(c, N, db0, db, upd)
      && (upd ==> DistinctAlong(c, Prop(c, t, p), x.elems, k) && RowId(c, db, t, row) !in Ids(c, N))
    ensures Foretold(scalars, MisledAlong(c, db0, Prop(c, t, p), x.elems, upd, scalars, es, k),
                     StepsAlong(c, db, t, row, p, x.elems, upd, k, |es|),
                     AssignDiff(c, db, t, row, p, x.elems, upd, k, |es|).res)
    decreases Height(x), 4, |x.elems| - k
  {
    hide Untouched, Evolves, Distinct, MisledIn, StepsIn, UnboxItem, ElemsFrom, Ids, SetValue, AddValue, Trim, Sound;
    var prop, sz := Prop(c, t, p), |es|;
    if k >= sz {
      PlainStepsAlong(c, db, t, row, p, x, upd, k, sz);
    } else if k < |x.elems| {
      var y, cur := x.elems[k], RowAt(db, t, row, p, k, sz);
      assert ListAt(db, t, row, p)[k] == es[k] by { assert ListAt(db, t, row, p)[k..][0] == es[k..][0]; }
      ElementApart(c, db0, db, t, row, p, x, upd, k);
      assert ValidProperty(c, prop) && (cur.Some? && prop.base.Object? ==> cur.value < NumRows(db, prop.target)) by {
        ListElemOk(c, db, t, row, p, k);
      }
      UnboxIsForetold(c, db0, db, prop, y, upd, scalars, cur);
      var s, misled := SetValue(c, db, t, row, p, k, y, upd), MisledIn(c, db0, prop, y, upd, scalars, cur);
      SetFailsWithUnbox(c, db, t, row, p, k, y, upd);
      var rest := if s.res.Ok? then StepsAlong(c, s.db, t, row, p, x.elems, upd, k + 1, sz) else [];
      if s.res.Ok? && !misled {
        NothingMisleads(scalars, StepsIn(c, db, prop, y, upd, true, cur),
                        UnboxItem(c, db, prop, y, upd, true, cur).res);
        ListAsBefore(c, db0, db, t, row, p, x, upd, k, es);
        LoopIsForetold(c, db0, s.db, t, row, p, x, upd, scalars, k + 1, es);
      }
      ElementIsForetold(scalars, misled, StepsIn(c, db, prop, y, upd, true, cur),
                        UnboxItem(c, db, prop, y, upd, true, cur).res, s.res);
      ThenForetold(scalars, misled, MisledAlong(c, db0, prop, x.elems, upd, scalars, es, k + 1),
                   StepsBy(c, db, t, row, p, y, upd, k, sz), rest, s.res,
                   AssignDiff(c, db, t, row, p, x.elems, upd, k, sz).res);
    }
  }

  lemma SetFailsWithUnbox(c: Config, db: Db, t: nat, row: nat, p: nat, k: nat, x: Value, upd: bool)
    requires k < |ListAt(db, t, row, p)|
    ensures SetValue(c, db, t, row, p, k, x, upd).res.Ok? ==>
              UnboxItem(c, db, Prop(c, t, p), x, upd, true, LinkRow(ListAt(db, t, row, p)[k])).res.Ok?
  {}

  lemma ElementIsForetold<T, U>(scalars: bool, misled: bool, steps: seq<Step>, mid: Result<T>, res: Result<U>)
    requires Foretold(scalars, misled, steps, mid) && (res.Ok? ==> mid.Ok?)
    ensures Foretold(scalars, misled, steps, res)
  {}

  lemma ElementApart(c: Config, db0: Db, db: Db, t: nat, row: nat, p: nat, x: Value, upd: bool, k: nat)
    requires x.Vals? && k < |x.elems|
    requires var N := ElemsFrom(c, Prop(c, t, p), x.elems, k);
      && Untouched(c, N, db0, db, upd)
      && (upd ==> DistinctAlong(c, Prop(c, t, p), x.elems, k) && RowId(c, db, t, row) !in Ids(c, N))
    ensures var prop, y := Prop(c, t, p), x.elems[k];
      && Untouched(c, ItemNodes(c, prop, y), db0, db, upd) && (upd && prop.base.Object? ==> Distinct(c, prop.target, y))
      && (upd ==> RowId(c, db, t, row) !in Ids(c, ItemNodes(c, prop, y)))
      && (upd ==> Ids(c, ItemNodes(c, prop, y)) !! Ids(c, ElemsFrom(c, prop, x.elems, k + 1)))
      && (upd ==> DistinctAlong(c, prop, x.elems, k + 1))
  {
    hide Distinct, Evolves;
    var prop, y := Prop(c, t, p), x.elems[k];
    ElemsStep(c, prop, x.elems, k);
    IdsLess(c, ItemNodes(c, prop, y), ElemsFrom(c, prop, x.elems, k));
    if upd { EvolvesLess(c, Ids(c, ItemNodes(c, prop, y)), Ids(c, ElemsFrom(c, prop, x.elems, k)), db0, db); }
  }

  /** Setting one element leaves the later ones as they were. */
  lemma ListAsBefore(c: Config, db0: Db, db: Db, t: nat, row: nat, p: nat, x: Value, upd: bool, k: nat, es: seq<Elem>)
    requires ValidConfig(c) && Sound(c, db) && t < |c.schema| && !WritesKeys(c, upd)
    requires row < NumRows(db, t) && p < |Props(c, t)| && !IsPrimary(c, t, p) && Prop(c, t, p).isArray && x.Vals?
    requires k < |es| && k < |x.elems| && |ListAt(db, t, row, p)| == |es| && ListAt(db, t, row, p)[k..] == es[k..]
    requires var N := ElemsFrom(c, Prop(c, t, p), x.elems, k);
      && Untouched(c, N, db0, db, upd)
      && (upd ==> DistinctAlong(c, Prop(c, t, p), x.elems, k) && RowId(c, db, t, row) !in Ids(c, N))
    requires ReusesNothing(StepsBy(c, db, t, row, p, x.elems[k], upd, k, |es|))
    requires SetValue(c, db, t, row, p, k, x.elems[k], upd).res.Ok?
    ensures var db', N := SetValue(c, db, t, row, p, k, x.elems[k], upd).db,
            ElemsFrom(c, Prop(c, t, p), x.elems, k + 1);
      && Sound(c, db') && row < NumRows(db', t)
      && |ListAt(db', t, row, p)| == |es| && ListAt(db', t, row, p)[k + 1..] == es[k + 1..]
      && Untouched(c, N, db0, db', upd) && (upd ==> RowId(c, db', t, row) !in Ids(c, N))
  {
    hide SetValue, StepsIn, ElemsFrom, Distinct, Spares, LogSpares, LogGrows, UniqueKeys, NoneAdded;
    var prop, y, N := Prop(c, t, p), x.elems[k], ElemsFrom(c, Prop(c, t, p), x.elems, k + 1);
    var db' := SetValue(c, db, t, row, p, k, y, upd).db;
    ElementApart(c, db0, db, t, row, p, x, upd, k);
    ElemsStep(c, prop, x.elems, k);
    IdsLess(c, N, ElemsFrom(c, prop, x.elems, k));
    OwnRowAvoided(c, db, t, row, ItemNodes(c, prop, y), upd);
    var K := if upd then {RowId(c, db, t, row)} else {Everything};
    SetValueEvolves(c, false, K, {Loc(t, row, p)}, db, t, row, p, k, y, upd);
    OneElementSet(c, K, db, t, row, p, k, y, upd);
    assert ListAt(db', t, row, p)[k + 1..] == ListAt(db, t, row, p)[k..][1..] == es[k..][1..] == es[k + 1..];
    if upd {
      OthersAvoided(c, ItemNodes(c, prop, y), N);
      SetValueEvolves(c, false, Ids(c, N), {}, db, t, row, p, k, y, upd);
      UntouchedOn(c, ElemsFrom(c, prop, x.elems, k), N, db0, db, db', upd);
    }
  }

  lemma OneElementSet(c: Config, K: set<Id>, db: Db, t: nat, row: nat, p: nat, k: nat, x: Value, upd: bool)
    requires ValidConfig(c) && Sound(c, db) && t < |c.schema| && !WritesKeys(c, upd) && Creating(K, upd)
    requires row < NumRows(db, t) && p < |Props(c, t)| && Prop(c, t, p).isArray && Held(K, RowId(c, db, t, row))
    requires k < |ListAt(db, t, row, p)| && Avoids(c, K, ItemNodes(c, Prop(c, t, p), x))
    requires ReusesNothing(StepsBy(c, db, t, row, p, x, upd, k, k + 1)) && SetValue(c, db, t, row, p, k, x, upd).res.Ok?
    ensures var was, es := ListAt(db, t, row, p), ListAt(SetValue(c, db, t, row, p, k, x, upd).db, t, row, p);
      |es| == |was| && es[k + 1..] == was[k + 1..]
  {
    hide Spares, LogSpares, LogGrows, UniqueKeys, NoneAdded, Create, Steps;
    var prop, cur := Prop(c, t, p), LinkRow(ListAt(db, t, row, p)[k]);
    assert ValidProperty(c, prop);
    ListElemOk(c, db, t, row, p, k);
    UnboxItemEvolves(c, false, K, {}, db, prop, x, upd, true, cur);
    var u := UnboxItem(c, db, prop, x, upd, true, cur);
    SparedCell(c, false, K, {}, db, u.db, t, row, p);
    assert InRange(u.db, t, row, p);
  }

  /** What is foreseen of one list, told from the list itself. */
  lemma AssignIsForetold(c: Config, db: Db, t: nat, row: nat, p: nat, x: Value, upd: bool, scalars: bool)
    requires ValidConfig(c) && Sound(c, db) && c.inWrite && !WritesKeys(c, upd)
    requires ListCell(c, t, p) && row < NumRows(db, t)
    requires var prop := Prop(c, t, p);
      upd ==> DistinctIn(c, prop, x) && RowId(c, db, t, row) !in Ids(c, PropNodes(c, prop, x))
    ensures Foretold(scalars, MisledAt(c, db, Prop(c, t, p), x, upd, scalars, CellAt(db, t, row, p)),
                     StepsOf(c, db, t, row, p, x, upd, true), Assign(c, db, t, row, p, x, upd, true).res)
  {
    hide Distinct, DistinctAlong, Evolves, MisledAlong, AssignDiff, AssignPlain, StepsAlong;
    if upd { EvolvesRefl(c, false, Ids(c, PropNodes(c, Prop(c, t, p), x)), {}, db); }
    if !(Prop(c, t, p).nullable && x.Null?) { SetIsForetold(c, db, db, t, row, p, x, upd, scalars, false); }
  }
}
