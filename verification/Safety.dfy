/** Safety over whole runs, and the frame of one operation. */
module Safety {
  import opened Outcomes
  import opened Schemas
  import opened Tables
  import opened Upsert
  import opened Meanings
  import opened Trace
  import opened Evolution
  import opened Keeps
  import opened Reuse

  /** One call of the public interface. */
  datatype Op =
    | CreateOp(t: nat, v: Value, upd: bool, diff: bool)
    | SetOp(t: nat, row: nat, p: nat, x: Value, upd: bool)

  /** The database a call leaves behind, whether it returns or throws. */
  function After(c: Config, db: Db, op: Op): Db {
    match op
    case CreateOp(t, v, upd, diff) => Create(c, db, t, v, upd, diff, None).db
    case SetOp(t, row, p, x, upd) => SetPropertyValue(c, db, t, row, p, x, upd).db
  }

  function Run(c: Config, db: Db, ops: seq<Op>): Db {
    if ops == [] then db else After(c, Run(c, db, ops[..|ops| - 1]), ops[|ops| - 1])
  }

  predicate KnownTypes(c: Config, ops: seq<Op>) {
    forall i :: 0 <= i < |ops| ==> ops[i].t < |c.schema|
  }

  function EmptyDb(c: Config): Db {
    Db(seq(|c.schema|, _ => []), [])
  }

  lemma SetPropertyValueEvolves(c: Config, db: Db, t: nat, row: nat, p: nat, x: Value, upd: bool)
    requires ValidConfig(c) && Sound(c, db) && t < |c.schema|
    ensures Evolves(c, c.inMigration, {}, {}, db, SetPropertyValue(c, db, t, row, p, x, upd).db)
  {
    EvolvesRefl(c, c.inMigration, {}, {}, db);
    if MayWrite(c, c.inMigration, {}, {}, db, t, row, p) {
      SetPropEvolves(c, c.inMigration, {}, {}, db, t, row, p, x, upd, false, false);
    }
  }

  lemma {:induction false} RunEvolves(c: Config, db: Db, ops: seq<Op>)
    requires ValidConfig(c) && Sound(c, db) && KnownTypes(c, ops)
    ensures Evolves(c, c.inMigration, {}, {}, db, Run(c, db, ops))
  {
    EvolvesRefl(c, c.inMigration, {}, {}, db);
    if ops != [] {
      var last, mid := ops[|ops| - 1], Run(c, db, ops[..|ops| - 1]);
      RunEvolves(c, db, ops[..|ops| - 1]);
      match last
      case CreateOp(t, v, upd, diff) => CreateEvolves(c, c.inMigration, {}, {}, mid, t, v, upd, diff, None);
      case SetOp(t, row, p, x, upd) => SetPropertyValueEvolves(c, mid, t, row, p, x, upd);
      EvolvesTrans(c, c.inMigration, {}, {}, db, mid, After(c, mid, last));
    }
  }

  // ---- Theorems over every run ----------------------------------------------------------------

  /** A run may start from an empty realm. */
  lemma EmptyIsSound(c: Config)
    ensures Sound(c, EmptyDb(c)) && UniqueKeys(c, EmptyDb(c))
  {}

  /** Every link and every list entry names an existing row of its target table. */
  lemma RunKeepsLinks(c: Config, db: Db, ops: seq<Op>, t: nat, row: nat, p: nat)
    requires ValidConfig(c) && KnownTypes(c, ops) && Sound(c, db)
    ensures var db' := Run(c, db, ops);
      InRange(db', t, row, p) ==>
        && (LinkOf(CellAt(db', t, row, p)).Some? ==>
              LinkOf(CellAt(db', t, row, p)).value < NumRows(db', Prop(c, t, p).target))
        && (forall e :: e in ListAt(db', t, row, p) && e.Link? ==> e.row < NumRows(db', Prop(c, t, p).target))
  {
    RunEvolves(c, db, ops);
    var db' := Run(c, db, ops);
    if InRange(db', t, row, p) {
      assert CellOk(db', Prop(c, t, p), CellAt(db', t, row, p));
    }
  }

  /** Outside a migration no two rows of a table ever come to share a primary key. */
  lemma RunKeepsKeysUnique(c: Config, db: Db, ops: seq<Op>)
    requires ValidConfig(c) && KnownTypes(c, ops) && !c.inMigration
    requires Sound(c, db) && UniqueKeys(c, db)
    ensures UniqueKeys(c, Run(c, db, ops))
  {
    RunEvolves(c, db, ops);
  }

  /** Rows are only appended, and outside a migration a row index keeps naming the same key. */
  lemma RunKeepsRows(c: Config, db: Db, ops: seq<Op>, t: nat, row: nat)
    requires ValidConfig(c) && KnownTypes(c, ops) && Sound(c, db) && row < NumRows(db, t)
    ensures row < NumRows(Run(c, db, ops), t)
    ensures !c.inMigration ==> RowId(c, Run(c, db, ops), t, row) == RowId(c, db, t, row)
  {
    RunEvolves(c, db, ops);
    assert NumRows(db, t) <= NumRows(Run(c, db, ops), t);
  }

  // ---- One call -------------------------------------------------------------------------------

  /**
   * Without `try_update` a create changes no row that is there already, in a migration or not: it
   * adds rows and writes to those alone.
   */
  lemma CreateOnlyAppends(c: Config, db: Db, t: nat, v: Value, diff: bool)
    requires ValidConfig(c) && Sound(c, db) && t < |c.schema|
    ensures var db' := Create(c, db, t, v, false, diff, None).db;
      && (forall t1: nat, row1: nat, p1: nat :: InRange(db, t1, row1, p1) ==>
            InRange(db', t1, row1, p1) && CellAt(db', t1, row1, p1) == CellAt(db, t1, row1, p1))
      && |db.log| <= |db'.log|
      && (forall i: nat :: |db.log| <= i < |db'.log| && db'.log[i].Wrote? ==>
          db'.log[i].row >= NumRows(db, db'.log[i].t))
  {
    if diff { CreateReusesNothing(c, db, t, v, None); }
    CreateEvolves(c, c.inMigration, {Everything}, {}, db, t, v, false, diff, None);
    var db' := Create(c, db, t, v, false, diff, None).db;
    forall i: nat | |db.log| <= i < |db'.log| && db'.log[i].Wrote? ensures db'.log[i].row >= NumRows(db, db'.log[i].t) {
      assert SparedBy(c, {Everything}, {}, db, db'.log[i]);
    }
  }

  /**
   * A create neither changes nor writes a row whose key its value does not name, at any depth. A row
   * without a key is named by nothing: the plain mode never touches one, and the diff mode only one
   * that it finds linked where an object is described.
   */
  lemma CreateTouchesOnlyNamedRows(c: Config, db: Db, t: nat, v: Value, upd: bool, diff: bool, t1: nat, row1: nat)
    requires ValidConfig(c) && Sound(c, db) && t < |c.schema| && row1 < NumRows(db, t1)
    requires forall n :: n in Nodes(c, t, v) ==> NodeId(c, n) != Some(RowId(c, db, t1, row1))
    requires diff ==> Reusing(t1, row1) !in Steps(c, db, t, v, upd, diff, None)
    ensures var db' := Create(c, db, t, v, upd, diff, None).db;
      && (forall p1: nat :: InRange(db, t1, row1, p1) ==> CellAt(db', t1, row1, p1) == CellAt(db, t1, row1, p1))
      && (forall i: nat :: |db.log| <= i < |db'.log| && db'.log[i].Wrote? ==>
          db'.log[i].t != t1 || db'.log[i].row != row1)
  {
    var db' := Create(c, db, t, v, upd, diff, None).db;
    if c.inMigration && !upd {
      CreateOnlyAppends(c, db, t, v, diff);
    } else {
      var K := {RowId(c, db, t1, row1)};
      CreateEvolves(c, false, K, {}, db, t, v, upd, diff, None);
      forall i: nat | |db.log| <= i < |db'.log| && db'.log[i].Wrote?
        ensures db'.log[i].t != t1 || db'.log[i].row != row1
      {
        assert SparedBy(c, K, {}, db, db'.log[i]);
      }
    }
  }

  /**
   * The row an unboxing captures keeps its index and its key through the creations it triggers,
   * whichever row it offers for reuse, and in a migration too.
   */
  lemma CapturedRowStays(c: Config, db: Db, t: nat, v: Value, upd: bool, diff: bool, cur: Option<nat>,
                         t1: nat, row1: nat)
    requires ValidConfig(c) && Sound(c, db) && t < |c.schema|
    requires row1 < NumRows(db, t1) && (cur.Some? ==> cur.value < NumRows(db, t))
    ensures var s := Create(c, db, t, v, upd, diff, cur);
      row1 < NumRows(s.db, t1) && RowId(c, s.db, t1, row1) == RowId(c, db, t1, row1)
  {
    CreateEvolves(c, c.inMigration, {AllKeys}, {}, db, t, v, upd, diff, cur);
    assert NumRows(db, t1) <= NumRows(Create(c, db, t, v, upd, diff, cur).db, t1);
    assert !KeyIsOpen(c, {}, t1, row1);
  }

  /** Which row a create returns: the keyed one, or else a new row at the end of its table. */
  lemma CreateReturns(c: Config, db: Db, t: nat, v: Value, upd: bool, diff: bool)
    requires ValidConfig(c) && Sound(c, db) && t < |c.schema|
    ensures var s := Create(c, db, t, v, upd, diff, None);
      s.res.Ok? ==>
        && s.res.value < NumRows(s.db, t)
        && (s.res.value < NumRows(db, t) ==>
              Primary(c, t).Some? && upd && RowId(c, db, t, s.res.value) == RowId(c, s.db, t, s.res.value))
        && (s.res.value >= NumRows(db, t) ==> s.res.value == NumRows(db, t))
        && (!c.inMigration || upd ==> Carries(c, s.db, Node(t, v), s.res.value))
  {
    var s := Create(c, db, t, v, upd, diff, None);
    if s.res.Ok? {
      var kw := c.inMigration && !upd;
      LocateEvolves(c, kw, {}, {}, db, t, v, upd, diff, None);
      var at := Locate(c, db, t, v, upd, diff, None);
      ChosenMayBeWritten(c, kw, {}, {}, at.db, t, at.res.value, v);
      PopulateEvolves(c, kw, {}, {}, at.db, t, at.res.value, v, upd, diff, 0);
    }
  }

  /**
   * Creating over an existing key without `try_update`: an exception that changes nothing, or in a
   * migration a fresh row at the end of the table.
   */
  lemma DuplicateKeyWithoutUpdate(c: Config, db: Db, t: nat, v: Value, diff: bool, key: Elem)
    requires ValidConfig(c) && Sound(c, db) && t < |c.schema| && c.inWrite
    requires AsksFor(c, t, v, key) && Carried(c, db, t, key)
    ensures var s := Create(c, db, t, v, false, diff, None);
      if c.inMigration then
        NumRows(s.db, t) > NumRows(db, t) && (s.res.Ok? ==> s.res.value == NumRows(db, t))
      else
        s.res == Err(DuplicateKey) && s.db == db
  {
    KeyIsOffered(c, t, Primary(c, t).value, v);
    if c.inMigration {
      LocateEvolves(c, true, {}, {}, db, t, v, false, diff, None);
      var at := Locate(c, db, t, v, false, diff, None);
      AppendCells(db, t, EmptyRow(Props(c, t)));
      ChosenMayBeWritten(c, true, {}, {}, at.db, t, at.res.value, v);
      PopulateEvolves(c, true, {}, {}, at.db, t, at.res.value, v, false, diff, 0);
      assert NumRows(at.db, t) <= NumRows(Create(c, db, t, v, false, diff, None).db, t);
    }
  }
}
