/** Writing only differences and writing plainly end in the same tables exactly when nothing misleads the comparison. */
module ModesPart {
  import opened Outcomes
  import opened Schemas
  import opened Tables
  import opened Upsert
  import opened Trace
  import opened Evolution
  import opened Reuse
  import opened Descriptions
  import opened DiffMode
  import opened DiffTheorems
  import opened Parting
  import opened Additions

  /**
   * When one of the modes returns, the other returns the same row and leaves the same tables if and only
   * if nothing misleads the comparison; and if nothing does, they raise the same exceptions too. `Misled`
   * speaks of the value and of the database before the call. An update must not describe an object twice.
   */
  lemma CreateModesPartIff(c: Config, db: Db, t: nat, v: Value, upd: bool)
    requires ValidConfig(c) && Sound(c, db) && t < |c.schema| && !WritesKeys(c, upd) && (upd ==> Distinct(c, t, v))
    ensures var d, plain := Create(c, db, t, v, upd, true, None), Create(c, db, t, v, upd, false, None);
      && (d.res.Ok? || plain.res.Ok? ==>
            (d.res == plain.res && d.db.tables == plain.db.tables <==> !Misled(c, db, t, v, upd, true)))
      && (!Misled(c, db, t, v, upd, true) || !upd ==> d.res == plain.res)
  {
    hide Misled, Distinct, Evolves, Create, Steps;
    if c.inWrite {
      if upd { EvolvesRefl(c, false, Ids(c, Nodes(c, t, v)), {}, db); }
      CreateIsForetold(c, db, db, t, v, upd, true, None);
      var d, plain := Create(c, db, t, v, upd, true, None), Create(c, db, t, v, upd, false, None);
      var steps := Steps(c, db, t, v, upd, true, None);
      if !upd { ModesPartIff(c, db, t, v, upd); }
      if Faithful(steps) {
        if upd { DistinctIsApart(c, t, v); }
        DiffRefinesPlain(c, db, t, v, upd);
      } else if ReusesNothing(steps) {
        ModesPartIff(c, db, t, v, upd);
        if d.res.Ok? && Misled(c, db, t, v, upd, true) { SomeMistake(steps); }
      } else if d.res.Ok? && plain.res.Ok? {
        var s :| s in steps && s.Reusing?;
        CreateAdds(c, db, db, t, v, upd, true, None, s.t);
        CreateAdds(c, db, db, t, v, upd, false, None, s.t);
        SomeReused(steps, s);
      }
    } else {
      OutsideNothingIsDone(c, db, t, v, upd);
    }
  }

  lemma OutsideNothingIsDone(c: Config, db: Db, t: nat, v: Value, upd: bool)
    requires !c.inWrite
    ensures forall diff :: Create(c, db, t, v, upd, diff, None) == Ran(db, Err(NotInWrite))
  {}

  lemma SomeMistake(steps: seq<Step>)
    requires Misleading(true, steps) && ReusesNothing(steps)
    ensures Mistakes(steps) != {}
  {
    var s :| s in steps && s.Mistaking?;
    assert Loc(s.t, s.row, s.p) in Mistakes(steps);
  }

  /** The same for one list that has elements already: only those are compared. */
  lemma AssignModesPartAsForetold(c: Config, db: Db, t: nat, row: nat, p: nat, x: Value, upd: bool)
    requires ValidConfig(c) && Sound(c, db) && c.inWrite && !WritesKeys(c, upd)
    requires ListCell(c, t, p) && row < NumRows(db, t)
    requires var prop := Prop(c, t, p);
      upd ==> DistinctIn(c, prop, x) && RowId(c, db, t, row) !in Ids(c, PropNodes(c, prop, x))
    ensures var d, plain := Assign(c, db, t, row, p, x, upd, true), Assign(c, db, t, row, p, x, upd, false);
      var misled := MisledAt(c, db, Prop(c, t, p), x, upd, true, CellAt(db, t, row, p));
      && (d.res.Ok? || plain.res.Ok? ==> (d.res == plain.res && d.db.tables == plain.db.tables <==> !misled))
      && (!misled ==> d.res == plain.res)
  {
    hide Distinct, DistinctAlong, Evolves, MisledAlong, AssignDiff, AssignPlain, StepsAlong;
    var prop, steps := Prop(c, t, p), StepsOf(c, db, t, row, p, x, upd, true);
    var N, misled := PropNodes(c, prop, x), MisledAt(c, db, prop, x, upd, true, CellAt(db, t, row, p));
    if upd { EvolvesRefl(c, false, Ids(c, N), {}, db); }
    AssignIsForetold(c, db, t, row, p, x, upd, true);
    OwnRowAvoided(c, db, t, row, N, upd);
    var d, plain := Assign(c, db, t, row, p, x, upd, true), Assign(c, db, t, row, p, x, upd, false);
    if ReusesNothing(steps) {
      ListKeysAreTrusted(c, db, t, row, p, x, upd);
      AssignModesPartIff(c, db, t, row, p, x, upd);
      if d.res.Ok? && misled { SomeMistake(steps); }
      if Faithful(steps) { assert Mistakes(steps) == {}; }
    } else if d.res.Ok? && plain.res.Ok? {
      var s :| s in steps && s.Reusing?;
      AssignAdds(c, db, db, t, row, p, x, upd, true, s.t);
      AssignAdds(c, db, db, t, row, p, x, upd, false, s.t);
      SomeReused(steps, s);
    }
  }

  lemma ListKeysAreTrusted(c: Config, db: Db, t: nat, row: nat, p: nat, x: Value, upd: bool)
    requires ValidConfig(c) && ListCell(c, t, p) && !WritesKeys(c, upd)
    requires ReusesNothing(StepsOf(c, db, t, row, p, x, upd, true))
    ensures Trusted(c, StepsOf(c, db, t, row, p, x, upd, true))
  {
    hide StepsAlong, Linked;
    if x.Vals? {
      var n := Node(t, Obj(seq(p + 1, i => if i == p then Given(x) else Absent), false));
      LoopIsDescribed(c, PropNodes(c, Prop(c, t, p), x) + {n}, db, t, row, p, n, x, upd, 0, |ListAt(db, t, row, p)|);
    }
  }

  // ---- Creating depends on the value alone -----------------------------------------------------------

  /** Without updates every row is new, so what misleads is told from the value. */
  lemma CreatingIsMisledByTheValue(c: Config, a: Db, b: Db, t: nat, v: Value, scalars: bool)
    ensures Misled(c, a, t, v, false, scalars) == Misled(c, b, t, v, false, scalars)
    decreases Height(v), 2, 0
  {
    if v.Obj? { FromIsMisledByTheValue(c, a, b, t, v, scalars, 0); }
  }

  lemma FromIsMisledByTheValue(c: Config, a: Db, b: Db, t: nat, v: Value, scalars: bool, i: nat)
    requires v.Obj?
    ensures MisledFrom(c, a, t, v, false, scalars, i) == MisledFrom(c, b, t, v, false, scalars, i)
    decreases Height(v), 1, |Props(c, t)| - i
  {
    hide Choose, Misled;
    if i < |Props(c, t)| {
      var w := Choose(c, t, i, v, Place(0, true, true));
      assert RowBefore(c, a, t, v, false) == None == RowBefore(c, b, t, v, false);
      if w.Write? { CellIsMisledByTheValue(c, a, b, Prop(c, t, i), w.x, scalars); }
      FromIsMisledByTheValue(c, a, b, t, v, scalars, i + 1);
    }
  }

  /** An empty list compares nothing. */
  lemma CellIsMisledByTheValue(c: Config, a: Db, b: Db, prop: Property, x: Value, scalars: bool)
    ensures MisledAt(c, a, prop, x, false, scalars, EmptyCell(prop)) ==
            MisledAt(c, b, prop, x, false, scalars, EmptyCell(prop))
    decreases Height(x), 6, 0
  {
    if prop.base.Object? && !prop.isArray { CreatingIsMisledByTheValue(c, a, b, prop.target, x, scalars); }
  }
}
