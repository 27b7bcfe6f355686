/** Core tables as append-only arrays of rows, with a log of every write. */
module Tables {
  import opened Outcomes
  import opened Schemas

  datatype Elem = Nothing | Scalar(bits: int) | Link(row: nat)
  datatype Cell = One(e: Elem) | Many(es: seq<Elem>)
  type Row = seq<Cell>
  type Table = seq<Row>

  datatype Kind = SetCell | ListSet | ListAdd | ListRemove | ListClear
  datatype Event = Added(t: nat) | Wrote(kind: Kind, t: nat, row: nat, p: nat, before: Cell, after: Cell)

  datatype Db = Db(tables: seq<Table>, log: seq<Event>)

  function NumRows(db: Db, t: nat): nat {
    if t < |db.tables| then |db.tables[t]| else 0
  }

  predicate InRange(db: Db, t: nat, row: nat, p: nat) {
    t < |db.tables| && row < |db.tables[t]| && p < |db.tables[t][row]|
  }

  function CellAt(db: Db, t: nat, row: nat, p: nat): Cell {
    if InRange(db, t, row, p) then db.tables[t][row][p] else One(Nothing)
  }

  function ListAt(db: Db, t: nat, row: nat, p: nat): seq<Elem> {
    if CellAt(db, t, row, p).Many? then CellAt(db, t, row, p).es else []
  }

  /** Overwrite one cell. */
  function Put(db: Db, kind: Kind, t: nat, row: nat, p: nat, cell: Cell): Db {
    if InRange(db, t, row, p) then
      Db(db.tables[t := db.tables[t][row := db.tables[t][row][p := cell]]],
         db.log + [Wrote(kind, t, row, p, CellAt(db, t, row, p), cell)])
    else db
  }

  /** Append one row. */
  function Append(db: Db, t: nat, r: Row): Db {
    if t < |db.tables| then Db(db.tables[t := db.tables[t] + [r]], db.log + [Added(t)]) else db
  }

  lemma PutCells(db: Db, kind: Kind, t: nat, row: nat, p: nat, cell: Cell)
    requires InRange(db, t, row, p)
    ensures var db' := Put(db, kind, t, row, p, cell);
      && |db'.tables| == |db.tables|
      && (forall t1: nat :: NumRows(db', t1) == NumRows(db, t1))
      && (forall t1: nat, r1: nat, p1: nat :: InRange(db', t1, r1, p1) == InRange(db, t1, r1, p1))
      && (forall t1: nat, r1: nat, p1: nat :: CellAt(db', t1, r1, p1) ==
                               if t1 == t && r1 == row && p1 == p then cell else CellAt(db, t1, r1, p1))
  {}

  lemma AppendCells(db: Db, t: nat, r: Row)
    requires t < |db.tables|
    ensures var db' := Append(db, t, r);
      && |db'.tables| == |db.tables|
      && (forall t1: nat :: NumRows(db', t1) == NumRows(db, t1) + if t1 == t then 1 else 0)
      && (forall t1: nat, r1: nat, p1: nat :: InRange(db', t1, r1, p1) ==
                               (InRange(db, t1, r1, p1) || (t1 == t && r1 == NumRows(db, t) && p1 < |r|)))
      && (forall t1: nat, r1: nat, p1: nat :: InRange(db, t1, r1, p1) ==>
          CellAt(db', t1, r1, p1) == CellAt(db, t1, r1, p1))
      && (forall p1: nat :: p1 < |r| ==> CellAt(db', t, NumRows(db, t), p1) == r[p1])
  {}

  /** Two databases of one shape whose cells agree hold the same tables. */
  lemma SameCellsSameTables(a: Db, b: Db)
    requires |a.tables| == |b.tables|
    requires forall t: nat :: NumRows(a, t) == NumRows(b, t)
    requires forall t: nat, row: nat, p: nat :: InRange(a, t, row, p) == InRange(b, t, row, p)
    requires forall t: nat, row: nat, p: nat :: CellAt(a, t, row, p) == CellAt(b, t, row, p)
    ensures a.tables == b.tables
  {
    forall t: nat | t < |a.tables| ensures a.tables[t] == b.tables[t] {
      assert NumRows(a, t) == NumRows(b, t);
      forall row: nat | row < |a.tables[t]| ensures a.tables[t][row] == b.tables[t][row] {
        var x, y := a.tables[t][row], b.tables[t][row];
        assert |x| == |y| by {
          assert InRange(a, t, row, |x|) == InRange(b, t, row, |x|);
          assert InRange(a, t, row, |y|) == InRange(b, t, row, |y|);
        }
        forall p: nat | p < |x| ensures x[p] == y[p] {
          assert CellAt(a, t, row, p) == CellAt(b, t, row, p);
          assert InRange(a, t, row, p) && InRange(b, t, row, p);
        }
      }
    }
  }

  // ---- Search -----------------------------------------------------------------------------

  function FindFrom(db: Db, t: nat, p: nat, e: Elem, row: nat): (r: Option<nat>)
    ensures r.Some? ==> row <= r.value < NumRows(db, t) && CellAt(db, t, r.value, p) == One(e)
    ensures r.Some? ==> forall k: nat :: row <= k < r.value ==> CellAt(db, t, k, p) != One(e)
    ensures r.None? ==> forall k: nat :: row <= k < NumRows(db, t) ==> CellAt(db, t, k, p) != One(e)
    decreases NumRows(db, t) - row
  {
    if row >= NumRows(db, t) then None
    else if CellAt(db, t, row, p) == One(e) then Some(row)
    else FindFrom(db, t, p, e, row + 1)
  }

  /** `Table::find_first`: the first row whose cell holds the element. */
  function FindFirst(db: Db, t: nat, p: nat, e: Elem): (r: Option<nat>)
    ensures r.Some? ==> r.value < NumRows(db, t) && CellAt(db, t, r.value, p) == One(e)
    ensures r.Some? ==> forall k: nat :: k < r.value ==> CellAt(db, t, k, p) != One(e)
    ensures r.None? ==> forall k: nat :: k < NumRows(db, t) ==> CellAt(db, t, k, p) != One(e)
  {
    FindFrom(db, t, p, e, 0)
  }

  // ---- Invariants -------------------------------------------------------------------------

  function EmptyCell(prop: Property): Cell {
    if prop.isArray then Many([])
    else if prop.nullable || prop.base.Object? then One(Nothing)
    else One(Scalar(0))
  }

  function EmptyRow(props: seq<Property>): (r: Row)
    ensures |r| == |props|
    ensures forall i :: 0 <= i < |r| ==> r[i] == EmptyCell(props[i])
  {
    seq(|props|, i requires 0 <= i < |props| => EmptyCell(props[i]))
  }

  /** The element fits the column, and a link names an existing row of its target table. */
  predicate ElemOk(db: Db, prop: Property, e: Elem) {
    match e
    case Nothing => prop.nullable
    case Scalar(_) => !prop.base.Object?
    case Link(r) => prop.base.Object? && r < NumRows(db, prop.target)
  }

  ghost predicate CellOk(db: Db, prop: Property, cell: Cell) {
    match cell
    case One(e) => !prop.isArray && ElemOk(db, prop, e)
    case Many(es) => prop.isArray && forall i :: 0 <= i < |es| ==> ElemOk(db, prop, es[i])
  }

  /** Every table has one cell per property, every cell fits its column, no link dangles. */
  ghost predicate Sound(c: Config, db: Db) {
    && |db.tables| == |c.schema|
    && (forall t: nat, row: nat, p: nat :: InRange(db, t, row, p) <==> row < NumRows(db, t) && p < |Props(c, t)|)
    && (forall t: nat, row: nat, p: nat :: InRange(db, t, row, p) ==> CellOk(db, Prop(c, t, p), CellAt(db, t, row, p)))
  }

  /** No two rows of a table share a primary key. */
  ghost predicate UniqueKeys(c: Config, db: Db) {
    forall t: nat, r1: nat, r2: nat ::
      r1 < r2 < NumRows(db, t) && Primary(c, t).Some? ==>
        CellAt(db, t, r1, Primary(c, t).value) != CellAt(db, t, r2, Primary(c, t).value)
  }
}
