/**
 * What every operation keeps, whatever it is given and however it ends: tables only grow, rows keep
 * their keys and their indices, cells stay well typed, links stay in range, keys stay distinct,
 * and a row whose identity the value never names is left alone.
 */
module Evolution {
  import opened Outcomes
  import opened Schemas
  import opened Tables
  import opened Upsert
  import opened Meanings
  import opened Trace

  // ---- Identities -------------------------------------------------------------------------

  /**
   * What tells a row from others: its key, or for a type without keys its index. `Everything` and
   * `AllKeys` identify no row, but a set of identities that holds the first protects all rows, and
   * one that holds the second the keys of all rows.
   */
  datatype Id = Keyed(t: nat, key: Elem) | Unkeyed(t: nat, row: nat) | Everything | AllKeys

  predicate Held(K: set<Id>, id: Id) {
    id in K || Everything in K
  }

  function RowId(c: Config, db: Db, t: nat, row: nat): (id: Id)
    ensures id.Keyed? || id.Unkeyed?
  {
    match Primary(c, t)
    case None => Unkeyed(t, row)
    case Some(p) => Keyed(t, if CellAt(db, t, row, p).One? then CellAt(db, t, row, p).e else Nothing)
  }

  /** An object description in a value, with the type it describes. */
  datatype Node = Node(t: nat, v: Value)

  /** The identity a description names: without a key it names no row that is there. */
  function NodeId(c: Config, n: Node): (id: Option<Id>)
    ensures id.Some? ==> id.value.Keyed?
  {
    match Primary(c, n.t)
    case None => None
    case Some(p) =>
      match KeyOf(c, n.t, p, n.v)
      case Err(_) => None
      case Ok(key) => Some(Keyed(n.t, key))
  }

  /** The key that is looked up, or what is raised for want of one. */
  lemma KeyIsOffered(c: Config, t: nat, p: nat, v: Value)
    requires Primary(c, t) == Some(p)
    ensures forall key :: KeyOf(c, t, p, v) == Ok(key) <==> AsksFor(c, t, v, key)
    ensures KeyOf(c, t, p, v) ==
            if !v.Obj? then Err(BadCast)
            else
              var prop, f := Prop(c, t, p), Offered(Prop(c, t, p), v, p);
              if f.Absent? && !prop.nullable then Err(MissingProperty)
              else if f.Given? && !Takes(prop, f.v) then Err(Refusal(f.v))
              else Ok(if f.Given? then ElemOf(f.v) else Nothing)
  {}

  /** Every object description at or below a value read as an object of type `t`. */
  ghost function Nodes(c: Config, t: nat, v: Value): set<Node>
    decreases Height(v), 1
  {
    if v.Obj? then {Node(t, v)} + ChildNodes(c, t, v) else {}
  }

  /** The object descriptions strictly below an object description. */
  ghost function ChildNodes(c: Config, t: nat, v: Value): set<Node>
    decreases Height(v), 0
  {
    set i: nat, n: Node | i < |Props(c, t)| && FieldOf(v, i).Ok? && FieldOf(v, i).value.Given? &&
                     n in PropNodes(c, Prop(c, t, i), FieldOf(v, i).value.v) :: n
  }

  /** The object descriptions in a value handed to one property. */
  ghost function PropNodes(c: Config, prop: Property, x: Value): set<Node>
    decreases Height(x), 2
  {
    if !prop.base.Object? then {}
    else if prop.isArray && x.Vals? then
      set k: nat, n: Node | k < |x.elems| && Height(x.elems[k]) <= Height(x)
          && n in Nodes(c, prop.target, x.elems[k]) :: n
    else Nodes(c, prop.target, x)
  }

  ghost predicate Avoids(c: Config, K: set<Id>, N: set<Node>) {
    Everything in K || forall n :: n in N && NodeId(c, n).Some? ==> NodeId(c, n).value !in K
  }

  lemma AvoidsLess(c: Config, K: set<Id>, M: set<Node>, N: set<Node>)
    requires Avoids(c, K, N) && M <= N
    ensures Avoids(c, K, M)
  {}

  /** The row carries the key of the description, if there are keys. */
  predicate Carries(c: Config, db: Db, n: Node, row: nat) {
    Primary(c, n.t).Some? ==> NodeId(c, n) == Some(RowId(c, db, n.t, row))
  }

  /** No protected row is updated for being linked. */
  ghost predicate LeavesAlone(K: set<Id>, steps: seq<Step>) {
    forall s :: s in steps && s.Reusing? ==> !Held(K, Unkeyed(s.t, s.row))
  }

  lemma LeavesAloneSplit(K: set<Id>, a: seq<Step>, b: seq<Step>)
    ensures LeavesAlone(K, a + b) <==> LeavesAlone(K, a) && LeavesAlone(K, b)
  {
    if LeavesAlone(K, a + b) {
      assert forall s :: s in a ==> s in a + b;
      assert forall s :: s in b ==> s in a + b;
    }
  }

  /** Keys are written only when a migration creates over keys that are there. */
  predicate WritesKeys(c: Config, upd: bool) {
    c.inMigration && !upd
  }

  /** All rows can be protected only if nothing is updated. */
  predicate Creating(K: set<Id>, upd: bool) {
    Everything in K ==> !upd
  }

  /** Setting the property may create or update an object: it is not just set to null or to rows. */
  predicate MayCreate(prop: Property, x: Value) {
    prop.base.Object? &&
    if prop.isArray then x.Vals? && exists k :: 0 <= k < |x.elems| && !x.elems[k].RowRef?
    else !x.Null? && !x.RowRef?
  }

  // ---- One relation between a database and a later one ------------------------------------

  /** One cell of the database. */
  datatype Loc = Loc(t: nat, row: nat, p: nat)

  ghost predicate Grows(db: Db, db': Db) {
    && |db'.tables| == |db.tables|
    && (forall t: nat :: NumRows(db, t) <= NumRows(db', t))
    && (forall t: nat, row: nat, p: nat :: InRange(db, t, row, p) ==> InRange(db', t, row, p))
  }

  ghost predicate LogGrows(db: Db, db': Db) {
    |db.log| <= |db'.log| && db'.log[..|db.log|] == db.log
  }

  ghost predicate KeysStay(c: Config, db: Db, db': Db) {
    forall t: nat, row: nat :: row < NumRows(db, t) ==> RowId(c, db', t, row) == RowId(c, db, t, row)
  }

  /** Whether the key of a row lies among the cells that may be written. */
  predicate KeyIsOpen(c: Config, W: set<Loc>, t: nat, row: nat) {
    Primary(c, t).Some? && Loc(t, row, Primary(c, t).value) in W
  }

  ghost predicate KeysSpared(c: Config, W: set<Loc>, db: Db, db': Db) {
    forall t: nat, row: nat :: row < NumRows(db, t) && !KeyIsOpen(c, W, t, row) ==>
      RowId(c, db', t, row) == RowId(c, db, t, row)
  }

  ghost predicate Spares(c: Config, K: set<Id>, W: set<Loc>, db: Db, db': Db) {
    forall t: nat, row: nat, p: nat ::
      InRange(db, t, row, p) && Held(K, RowId(c, db, t, row)) && Loc(t, row, p) !in W ==>
        CellAt(db', t, row, p) == CellAt(db, t, row, p)
  }

  /** No protected key comes to be carried by a new row. */
  ghost predicate NoneAdded(c: Config, K: set<Id>, db: Db, db': Db) {
    Everything in K || forall t: nat, row: nat :: NumRows(db, t) <= row < NumRows(db', t) && Primary(c, t).Some? ==>
      RowId(c, db', t, row) !in K
  }

  ghost predicate SparedBy(c: Config, K: set<Id>, W: set<Loc>, db: Db, e: Event) {
    e.Wrote? && e.row < NumRows(db, e.t) ==> !Held(K, RowId(c, db, e.t, e.row)) || Loc(e.t, e.row, e.p) in W
  }

  ghost predicate LogSpares(c: Config, K: set<Id>, W: set<Loc>, db: Db, db': Db) {
    forall i: nat :: |db.log| <= i < |db'.log| ==> SparedBy(c, K, W, db, db'.log[i])
  }

  /**
   * `kw` allows writes to primary keys, which only a migration makes. Without it, or if all rows are
   * protected, rows whose identity is in `K` keep every cell that is not in `W`, and are not even
   * written there. Without it no row comes to carry a key in `K` either.
   */
  ghost predicate Evolves(c: Config, kw: bool, K: set<Id>, W: set<Loc>, db: Db, db': Db) {
    && Sound(c, db)
    && Sound(c, db')
    && Grows(db, db')
    && LogGrows(db, db')
    && (!kw || Everything in K ==> Spares(c, K, W, db, db') && LogSpares(c, K, W, db, db'))
    && (AllKeys in K ==> KeysSpared(c, W, db, db'))
    && (!kw ==> KeysStay(c, db, db') && (UniqueKeys(c, db) ==> UniqueKeys(c, db')) && NoneAdded(c, K, db, db'))
  }

  lemma EvolvesRefl(c: Config, kw: bool, K: set<Id>, W: set<Loc>, db: Db)
    requires Sound(c, db)
    ensures Evolves(c, kw, K, W, db, db)
  {}

  lemma GrowsTrans(a: Db, b: Db, d: Db)
    requires Grows(a, b) && Grows(b, d)
    ensures Grows(a, d)
  {}

  lemma LogGrowsTrans(a: Db, b: Db, d: Db)
    requires LogGrows(a, b) && LogGrows(b, d)
    ensures LogGrows(a, d)
    ensures forall i: nat :: |a.log| <= i < |b.log| ==> d.log[i] == b.log[i]
  {}

  lemma KeysStayOn(c: Config, a: Db, b: Db, d: Db)
    requires Grows(a, b) && KeysStay(c, a, b) && KeysStay(c, b, d)
    ensures KeysStay(c, a, d)
  {
    forall t: nat, row: nat | row < NumRows(a, t) ensures RowId(c, d, t, row) == RowId(c, a, t, row) {
      assert NumRows(a, t) <= NumRows(b, t);
      assert RowId(c, b, t, row) == RowId(c, a, t, row);
    }
  }

  lemma KeysSparedOn(c: Config, W: set<Loc>, W1: set<Loc>, a: Db, b: Db, d: Db)
    requires Grows(a, b) && KeysSpared(c, W, a, b) && KeysSpared(c, W1, b, d)
    requires forall l :: l in W1 && l !in W ==> l.row >= NumRows(a, l.t)
    ensures KeysSpared(c, W, a, d)
  {
    forall t: nat, row: nat | row < NumRows(a, t) && !KeyIsOpen(c, W, t, row)
      ensures RowId(c, d, t, row) == RowId(c, a, t, row)
    {
      assert NumRows(a, t) <= NumRows(b, t);
      assert RowId(c, b, t, row) == RowId(c, a, t, row);
    }
  }

  lemma NoneAddedOn(c: Config, K: set<Id>, a: Db, b: Db, d: Db)
    requires Grows(a, b) && Grows(b, d) && KeysStay(c, b, d) && NoneAdded(c, K, a, b) && NoneAdded(c, K, b, d)
    ensures NoneAdded(c, K, a, d)
  {
    if Everything !in K {
      forall t: nat, row: nat | NumRows(a, t) <= row < NumRows(d, t) && Primary(c, t).Some?
        ensures RowId(c, d, t, row) !in K
      {
        if row < NumRows(b, t) { assert RowId(c, b, t, row) !in K; }
      }
    }
  }

  /** Cells of rows that are not there yet need no protection. */
  lemma EvolvesOntoNew(c: Config, kw: bool, K: set<Id>, W: set<Loc>, W1: set<Loc>, a: Db, b: Db, d: Db)
    requires Evolves(c, kw, K, W, a, b) && Evolves(c, kw, K, W1, b, d)
    requires forall l :: l in W1 && l !in W ==> l.row >= NumRows(a, l.t)
    ensures Evolves(c, kw, K, W, a, d)
  {
    hide Sound, UniqueKeys, KeysStay, KeysSpared, LogGrows, NoneAdded, Spares, LogSpares;
    GrowsTrans(a, b, d);
    LogGrowsTrans(a, b, d);
    if !kw {
      KeysStayOn(c, a, b, d);
      NoneAddedOn(c, K, a, b, d);
    }
    if AllKeys in K { KeysSparedOn(c, W, W1, a, b, d); }
    if !kw || Everything in K { SparesOntoNew(c, K, W, W1, a, b, d); }
  }

  lemma SparesOntoNew(c: Config, K: set<Id>, W: set<Loc>, W1: set<Loc>, a: Db, b: Db, d: Db)
    requires Grows(a, b) && LogGrows(a, b) && LogGrows(b, d)
    requires (KeysStay(c, a, b) && KeysStay(c, b, d)) || Everything in K
    requires Spares(c, K, W, a, b) && Spares(c, K, W1, b, d)
    requires LogSpares(c, K, W, a, b) && LogSpares(c, K, W1, b, d)
    requires forall l :: l in W1 && l !in W ==> l.row >= NumRows(a, l.t)
    ensures Spares(c, K, W, a, d) && LogSpares(c, K, W, a, d)
  {
    LogGrowsTrans(a, b, d);
    forall t: nat, row: nat, p: nat | InRange(a, t, row, p) && Held(K, RowId(c, a, t, row)) && Loc(t, row, p) !in W
      ensures CellAt(d, t, row, p) == CellAt(a, t, row, p)
    {
      assert InRange(b, t, row, p) && Held(K, RowId(c, b, t, row)) && Loc(t, row, p) !in W1;
      assert CellAt(b, t, row, p) == CellAt(a, t, row, p);
    }
    forall i: nat | |a.log| <= i < |d.log| ensures SparedBy(c, K, W, a, d.log[i]) {
      var e := d.log[i];
      if i < |b.log| {
        assert SparedBy(c, K, W, a, b.log[i]);
      } else {
        assert SparedBy(c, K, W1, b, d.log[i]);
        if e.Wrote? && e.row < NumRows(a, e.t) { assert NumRows(a, e.t) <= NumRows(b, e.t); }
      }
    }
  }

  lemma EvolvesTrans(c: Config, kw: bool, K: set<Id>, W: set<Loc>, a: Db, b: Db, d: Db)
    requires Evolves(c, kw, K, W, a, b) && Evolves(c, kw, K, W, b, d)
    ensures Evolves(c, kw, K, W, a, d)
  {
    EvolvesOntoNew(c, kw, K, W, W, a, b, d);
  }

  lemma EvolvesWeaken(c: Config, kw: bool, K: set<Id>, W: set<Loc>, W1: set<Loc>, db: Db, db': Db)
    requires Evolves(c, kw, K, W, db, db') && W <= W1
    ensures Evolves(c, kw, K, W1, db, db')
  {}

  // ---- The two primitive steps ------------------------------------------------------------

  /** A cell may be written unless its row is protected, a key only where `kw` allows. */
  ghost predicate MayWrite(c: Config, kw: bool, K: set<Id>, W: set<Loc>, db: Db, t: nat, row: nat, p: nat) {
    && t < |c.schema|
    && row < NumRows(db, t)
    && p < |Props(c, t)|
    && (!kw || Everything in K ==> !Held(K, RowId(c, db, t, row)) || Loc(t, row, p) in W)
    && (!kw ==> !IsPrimary(c, t, p))
    && (AllKeys in K && IsPrimary(c, t, p) ==> Loc(t, row, p) in W)
  }

  lemma PutEvolves(c: Config, kw: bool, K: set<Id>, W: set<Loc>, db: Db, kind: Kind, t: nat, row: nat, p: nat,
                   cell: Cell)
    requires Sound(c, db) && MayWrite(c, kw, K, W, db, t, row, p)
    requires CellOk(db, Prop(c, t, p), cell)
    ensures Evolves(c, kw, K, W, db, Put(db, kind, t, row, p, cell))
    ensures CellAt(Put(db, kind, t, row, p, cell), t, row, p) == cell
    ensures forall t1: nat :: NumRows(Put(db, kind, t, row, p, cell), t1) == NumRows(db, t1)
    ensures |Put(db, kind, t, row, p, cell).log| == |db.log| + 1
    ensures Put(db, kind, t, row, p, cell).log[|db.log|] == Wrote(kind, t, row, p, CellAt(db, t, row, p), cell)
  {
    assert InRange(db, t, row, p);
    PutCells(db, kind, t, row, p, cell);
    var db' := Put(db, kind, t, row, p, cell);
    assert Sound(c, db') by {
      forall t1: nat, r1: nat, p1: nat | InRange(db', t1, r1, p1)
        ensures CellOk(db', Prop(c, t1, p1), CellAt(db', t1, r1, p1))
      {
        assert InRange(db, t1, r1, p1);
        assert CellOk(db, Prop(c, t1, p1), CellAt(db, t1, r1, p1));
      }
    }
    if !kw {
      forall t1: nat, r1: nat | r1 < NumRows(db, t1) ensures RowId(c, db', t1, r1) == RowId(c, db, t1, r1) {}
      assert KeysStay(c, db, db');
    }
    if !kw || Everything in K { assert Spares(c, K, W, db, db') && LogSpares(c, K, W, db, db'); }
  }

  /** An appended row fits the schema; outside key-writing runs it is keyless or carries a new key. */
  ghost predicate MayAppend(c: Config, kw: bool, K: set<Id>, db: Db, t: nat, r: Row) {
    && t < |c.schema|
    && |r| == |Props(c, t)|
    && (forall p: nat :: p < |r| ==> CellOk(db, Prop(c, t, p), r[p]))
    && (!kw && Primary(c, t).Some? ==>
          && Primary(c, t).value < |r|
          && r[Primary(c, t).value].One? && (Everything in K || Keyed(t, r[Primary(c, t).value].e) !in K)
          && forall k: nat :: k < NumRows(db, t) ==> CellAt(db, t, k, Primary(c, t).value) != r[Primary(c, t).value])
  }

  lemma AppendEvolves(c: Config, kw: bool, K: set<Id>, W: set<Loc>, db: Db, t: nat, r: Row)
    requires Sound(c, db) && MayAppend(c, kw, K, db, t, r)
    ensures Evolves(c, kw, K, W, db, Append(db, t, r))
    ensures forall t1: nat :: NumRows(Append(db, t, r), t1) == NumRows(db, t1) + if t1 == t then 1 else 0
  {
    AppendCells(db, t, r);
    var db' := Append(db, t, r);
    assert Sound(c, db') by {
      forall t1: nat, r1: nat, p1: nat | InRange(db', t1, r1, p1)
        ensures CellOk(db', Prop(c, t1, p1), CellAt(db', t1, r1, p1))
      {
        if InRange(db, t1, r1, p1) {
          assert CellOk(db, Prop(c, t1, p1), CellAt(db, t1, r1, p1));
        } else {
          assert CellOk(db, Prop(c, t, p1), r[p1]);
        }
      }
    }
    if !kw {
      forall t1: nat, r1: nat | r1 < NumRows(db, t1) ensures RowId(c, db', t1, r1) == RowId(c, db, t1, r1) {
        if Primary(c, t1).Some? && !InRange(db, t1, r1, Primary(c, t1).value) {
          assert !InRange(db', t1, r1, Primary(c, t1).value);
        }
      }
      if UniqueKeys(c, db) {
        forall t1: nat, r1: nat, r2: nat | r1 < r2 < NumRows(db', t1) && Primary(c, t1).Some?
          ensures CellAt(db', t1, r1, Primary(c, t1).value) != CellAt(db', t1, r2, Primary(c, t1).value)
        {
          var p := Primary(c, t1).value;
          assert r1 < NumRows(db, t1);
          assert InRange(db, t1, r1, p) == InRange(db', t1, r1, p);
          assert CellAt(db', t1, r1, p) == CellAt(db, t1, r1, p);
          if r2 < NumRows(db, t1) {
            assert InRange(db, t1, r2, p) == InRange(db', t1, r2, p);
            assert CellAt(db', t1, r2, p) == CellAt(db, t1, r2, p);
          } else {
            assert t1 == t && r2 == NumRows(db, t) && CellAt(db', t, r2, p) == r[p];
          }
        }
      }
    }
  }
}
