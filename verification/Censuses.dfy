/**
 * What plain creation raises and how many rows it adds, told without running it: that depends only on
 * how many rows there are and on which row carries which key.
 */
module Censuses {
  import opened Outcomes
  import opened Schemas
  import opened Tables
  import opened Upsert
  import opened Meanings
  import opened Evolution

  /** How many rows each table has, and the first row that carries each key. */
  datatype Census = Census(rows: seq<nat>, keys: seq<map<Elem, nat>>)

  function Carrier(n: Census, t: nat, key: Elem): Option<nat> {
    if t < |n.keys| && key in n.keys[t] then Some(n.keys[t][key]) else None
  }

  /** The census of a database. Where keys are written, and so nothing is updated, they do not matter. */
  ghost predicate Counts(c: Config, n: Census, db: Db, kw: bool) {
    && |n.rows| == |n.keys| == |db.tables| == |c.schema|
    && (forall t: nat :: t < |n.rows| ==> n.rows[t] == NumRows(db, t))
    && (!kw ==> forall t: nat, key: Elem :: t < |n.rows| && Primary(c, t).Some? ==>
          FindFirst(db, t, Primary(c, t).value, key) == Carrier(n, t, key))
  }

  ghost predicate Grown(a: Census, b: Census) {
    |a.rows| == |b.rows| && |a.keys| == |b.keys| && forall t: nat :: t < |a.rows| ==> a.rows[t] <= b.rows[t]
  }

  function RowsOf(n: Census, t: nat): nat {
    if t < |n.rows| then n.rows[t] else 0
  }

  /** One more row. */
  function WithRow(n: Census, t: nat): (m: Census)
    ensures Grown(n, m)
  {
    if t < |n.rows| then n.(rows := n.rows[t := n.rows[t] + 1]) else n
  }

  /** One more row, which carries the key. */
  function WithKey(n: Census, t: nat, key: Elem): (m: Census)
    ensures Grown(n, m)
  {
    if t < |n.keys| then
      var held: map<Elem, nat> := n.keys[t][key := RowsOf(n, t)];
      WithRow(n, t).(keys := n.keys[t := held])
    else WithRow(n, t)
  }

  // ---- What each value comes to -------------------------------------------------------------------

  datatype Verdict = Verdict(n: Census, res: Result<()>)

  function Throws(n: Census, e: Error): Verdict {
    Verdict(n, Err(e))
  }

  /** An object description: a key that is there is updated, or is taken a second time by a migration. */
  function Judge(c: Config, n: Census, t: nat, v: Value, upd: bool): (r: Verdict)
    ensures Grown(n, r.n)
    decreases Height(v), 2, 0
  {
    if !c.inWrite then Throws(n, NotInWrite)
    else if Primary(c, t).None? then JudgeFrom(c, WithRow(n, t), t, RowsOf(n, t), true, v, upd, 0)
    else if !v.Obj? then Throws(n, BadCast)
    else
      var p := Primary(c, t).value;
      var prop, key := Prop(c, t, p), Offered(Prop(c, t, p), v, p);
      if key.Absent? && !prop.nullable then Throws(n, MissingProperty)
      else if key.Given? && !Takes(prop, key.v) then Throws(n, Refusal(key.v))
      else
        var e := if key.Given? then ElemOf(key.v) else Nothing;
        if Carrier(n, t, e).None? then JudgeFrom(c, WithKey(n, t, e), t, RowsOf(n, t), true, v, upd, 0)
        else if upd then JudgeFrom(c, n, t, Carrier(n, t, e).value, false, v, upd, 0)
        else if c.inMigration then JudgeFrom(c, WithRow(n, t), t, RowsOf(n, t), true, v, upd, 0)
        else Throws(n, DuplicateKey)
  }

  /** The properties from index `i` on, but for the key; only a new row needs what is required. */
  function JudgeFrom(c: Config, n: Census, t: nat, row: nat, created: bool, v: Value, upd: bool, i: nat): (r: Verdict)
    ensures Grown(n, r.n)
    decreases Height(v), 1, |Props(c, t)| - i
  {
    if i >= |Props(c, t)| then Verdict(n, Ok(()))
    else if IsPrimary(c, t, i) then JudgeFrom(c, n, t, row, created, v, upd, i + 1)
    else if !v.Obj? then Throws(n, BadCast)
    else if !created && Omits(v, i) then JudgeFrom(c, n, t, row, created, v, upd, i + 1)
    else
      var prop, f := Prop(c, t, i), Offered(Prop(c, t, i), v, i);
      if Required(prop) && (f.Absent? || f.v.Null?) && !v.allowMissing then Throws(n, MissingProperty)
      else if f.Absent? then JudgeFrom(c, n, t, row, created, v, upd, i + 1)
      else
        var here := JudgeValue(c, n, Loc(t, row, i), f.v, upd);
        if here.res.Err? then here else JudgeFrom(c, here.n, t, row, created, v, upd, i + 1)
  }

  /** A value for one cell. */
  function JudgeValue(c: Config, n: Census, l: Loc, x: Value, upd: bool): (r: Verdict)
    ensures Grown(n, r.n)
    decreases Height(x), 6, 0
  {
    var prop := Prop(c, l.t, l.p);
    if prop.isArray then
      match x
      case Null => if prop.nullable then Throws(n, NullNotAllowed) else Verdict(n, Ok(()))
      case ListRef(_, _, _) => if x == ListRef(l.t, l.row, l.p) then Verdict(n, Ok(())) else Throws(n, BadCast)
      case Vals(vs) => JudgeAlong(c, n, prop, vs, upd, 0)
      case _ => Throws(n, BadCast)
    else if !prop.base.Object? then
      if Takes(prop, x) then Verdict(n, Ok(())) else Throws(n, Refusal(x))
    else
      match x
      case Null => Verdict(n, Ok(()))
      case RowRef(_, row) => if row < RowsOf(n, prop.target) then Verdict(n, Ok(())) else Throws(n, TargetOutOfRange)
      case _ => Judge(c, n, prop.target, x, upd)
  }

  /** The elements from index `k` on. */
  function JudgeAlong(c: Config, n: Census, prop: Property, vs: seq<Value>, upd: bool, k: nat): (r: Verdict)
    ensures Grown(n, r.n)
    decreases ValuesHeight(vs), 4, |vs| - k
  {
    if k >= |vs| then Verdict(n, Ok(()))
    else
      var here := JudgeElement(c, n, prop, vs[k], upd);
      if here.res.Err? then here else JudgeAlong(c, here.n, prop, vs, upd, k + 1)
  }

  /** One element: a row must be one of the target table. */
  function JudgeElement(c: Config, n: Census, prop: Property, x: Value, upd: bool): (r: Verdict)
    ensures Grown(n, r.n)
    decreases Height(x), 4, 0
  {
    if !prop.base.Object? then
      if Takes(prop, x) then Verdict(n, Ok(())) else Throws(n, Refusal(x))
    else if x.RowRef? then
      if x.t == prop.target && x.row < RowsOf(n, x.t) then Verdict(n, Ok(())) else Throws(n, InvalidRow)
    else Judge(c, n, prop.target, x, upd)
  }

  // ---- It is what creation does -------------------------------------------------------------------

  /** The run ends as foreseen, and leaves a database of the foreseen census. */
  ghost predicate Ends<T>(c: Config, s: Ran<T>, r: Verdict, upd: bool) {
    && (s.res.Ok? <==> r.res.Ok?) && (s.res.Err? ==> r.res == Err(s.res.error))
    && Counts(c, r.n, s.db, WritesKeys(c, upd))
  }

  lemma SameFirst(a: Db, b: Db, t: nat, p: nat, e: Elem)
    requires NumRows(a, t) == NumRows(b, t)
    requires forall row: nat :: CellAt(a, t, row, p) == CellAt(b, t, row, p)
    ensures FindFirst(a, t, p, e) == FindFirst(b, t, p, e)
  {
    var x, y := FindFirst(a, t, p, e), FindFirst(b, t, p, e);
    if x.Some? { assert CellAt(b, t, x.value, p) == One(e); }
    if y.Some? { assert CellAt(a, t, y.value, p) == One(e); }
  }

  /** Writing a cell that holds no key changes no census. */
  lemma PutCounts(c: Config, n: Census, db: Db, kw: bool, kind: Kind, t: nat, row: nat, p: nat, cell: Cell)
    requires Counts(c, n, db, kw) && (kw || !IsPrimary(c, t, p))
    ensures Counts(c, n, Put(db, kind, t, row, p, cell), kw)
  {
    var db' := Put(db, kind, t, row, p, cell);
    if InRange(db, t, row, p) {
      PutCells(db, kind, t, row, p, cell);
      if !kw {
        forall t1: nat, key: Elem | t1 < |n.rows| && Primary(c, t1).Some?
          ensures FindFirst(db', t1, Primary(c, t1).value, key) == FindFirst(db, t1, Primary(c, t1).value, key)
        {
          SameFirst(db, db', t1, Primary(c, t1).value, key);
        }
      }
    }
  }

  lemma AppendCounts(c: Config, n: Census, db: Db, kw: bool, t: nat, r: Row)
    requires Counts(c, n, db, kw) && t < |c.schema| && (kw || Primary(c, t).None?)
    ensures Counts(c, WithRow(n, t), Append(db, t, r), kw)
  {
    AppendCells(db, t, r);
    var db' := Append(db, t, r);
    if !kw {
      forall t1: nat, key: Elem | t1 < |n.rows| && Primary(c, t1).Some?
        ensures FindFirst(db', t1, Primary(c, t1).value, key) == FindFirst(db, t1, Primary(c, t1).value, key)
      {
        assert t1 != t && db'.tables[t1] == db.tables[t1];
        SameFirst(db, db', t1, Primary(c, t1).value, key);
      }
    }
  }

  lemma AppendKeyCounts(c: Config, n: Census, db: Db, kw: bool, t: nat, r: Row, p: nat, key: Elem)
    requires Counts(c, n, db, kw) && t < |c.schema| && Primary(c, t) == Some(p) && p < |r| && r[p] == One(key)
    requires !kw ==> Carrier(n, t, key).None?
    ensures Counts(c, WithKey(n, t, key), Append(db, t, r), kw)
  {
    AppendCells(db, t, r);
    var db', m := Append(db, t, r), WithKey(n, t, key);
    if !kw {
      forall t1: nat, e: Elem | t1 < |n.rows| && Primary(c, t1).Some?
        ensures FindFirst(db', t1, Primary(c, t1).value, e) == Carrier(m, t1, e)
      {
        var q := Primary(c, t1).value;
        assert FindFirst(db, t1, q, e) == Carrier(n, t1, e);
        if t1 != t {
          assert db'.tables[t1] == db.tables[t1];
          SameFirst(db, db', t1, q, e);
        } else {
          AppendedFirst(db, t, p, r, e);
        }
      }
    }
  }

  lemma AppendedFirst(db: Db, t: nat, p: nat, r: Row, e: Elem)
    requires t < |db.tables| && p < |r|
    ensures FindFirst(Append(db, t, r), t, p, e) ==
            if FindFirst(db, t, p, e).Some? then FindFirst(db, t, p, e)
            else if r[p] == One(e) then Some(NumRows(db, t)) else None
  {
    AppendCells(db, t, r);
    var db' := Append(db, t, r);
    forall row: nat | row < NumRows(db, t) ensures CellAt(db', t, row, p) == CellAt(db, t, row, p) {
      assert db'.tables[t][row] == db.tables[t][row];
    }
    var was, now := FindFirst(db, t, p, e), FindFirst(db', t, p, e);
    if was.Some? { assert CellAt(db', t, was.value, p) == One(e); }
    if now.Some? && now.value < NumRows(db, t) { assert CellAt(db, t, now.value, p) == One(e); }
  }

  lemma CreateIsJudged(c: Config, n: Census, db: Db, t: nat, v: Value, upd: bool, cur: Option<nat>)
    requires ValidConfig(c) && t < |c.schema| && Counts(c, n, db, WritesKeys(c, upd))
    ensures var s := Create(c, db, t, v, upd, false, cur);
      && Ends(c, s, Judge(c, n, t, v, upd), upd)
      && (s.res.Ok? ==> s.res.value < NumRows(s.db, t))
    decreases Height(v), 2, 0
  {
    hide Populate, JudgeFrom, Counts;
    if c.inWrite {
      LocateIsJudged(c, n, db, t, v, upd, cur);
      var at := Locate(c, db, t, v, upd, false, cur);
      if at.res.Ok? {
        var m := Located(c, n, t, v, upd);
        PopulateIsJudged(c, m, at.db, t, at.res.value, v, upd, 0);
      }
    }
  }

  /** The census once the row is there. */
  function Located(c: Config, n: Census, t: nat, v: Value, upd: bool): Census {
    if Primary(c, t).None? then WithRow(n, t)
    else if !v.Obj? then n
    else
      var p := Primary(c, t).value;
      var key := Offered(Prop(c, t, p), v, p);
      var e := if key.Given? then ElemOf(key.v) else Nothing;
      if Carrier(n, t, e).None? then WithKey(n, t, e) else if upd then n else WithRow(n, t)
  }

  lemma LocateIsJudged(c: Config, n: Census, db: Db, t: nat, v: Value, upd: bool, cur: Option<nat>)
    requires ValidConfig(c) && t < |c.schema| && Counts(c, n, db, WritesKeys(c, upd)) && c.inWrite
    ensures var at, m := Locate(c, db, t, v, upd, false, cur), Located(c, n, t, v, upd);
      && (at.res.Err? ==> at.db == db && Judge(c, n, t, v, upd) == Throws(n, at.res.error))
      && (at.res.Ok? ==>
            var place := at.res.value;
            && Counts(c, m, at.db, WritesKeys(c, upd)) && place.row < NumRows(at.db, t)
            && (place.skipPrimary || (WritesKeys(c, upd) && place.created))
            && (Primary(c, t).Some? ==> KeyOf(c, t, Primary(c, t).value, v).Ok?)
            && Judge(c, n, t, v, upd) == JudgeFrom(c, m, t, place.row, place.created, v, upd, 0))
  {
    hide Counts, KeyOf, FindFirst, EmptyRow, KeyedRow, JudgeFrom;
    var kw := WritesKeys(c, upd);
    RowsCounted(c, n, db, kw, t);
    AppendCells(db, t, EmptyRow(Props(c, t)));
    match Primary(c, t)
    case None => AppendCounts(c, n, db, kw, t, EmptyRow(Props(c, t)));
    case Some(p) =>
      KeyIsOffered(c, t, p, v);
      if KeyOf(c, t, p, v).Ok? {
        var key := KeyOf(c, t, p, v).value;
        var row := KeyedRow(Props(c, t), p, key);
        AppendCells(db, t, row);
        if kw {
          EitherRowCounts(c, n, db, t, EmptyRow(Props(c, t)), key);
          EitherRowCounts(c, n, db, t, row, key);
        } else {
          CarrierIsFirst(c, n, db, t, key);
          if Carrier(n, t, key).None? { AppendKeyCounts(c, n, db, kw, t, row, p, key); }
        }
      }
  }

  lemma CarrierIsFirst(c: Config, n: Census, db: Db, t: nat, key: Elem)
    requires Counts(c, n, db, false) && t < |c.schema| && Primary(c, t).Some?
    ensures FindFirst(db, t, Primary(c, t).value, key) == Carrier(n, t, key)
    ensures Carrier(n, t, key).Some? ==> Carrier(n, t, key).value < NumRows(db, t)
  {}

  /** Where keys do not matter, nor does which row is added. */
  lemma EitherRowCounts(c: Config, n: Census, db: Db, t: nat, r: Row, key: Elem)
    requires Counts(c, n, db, true) && t < |c.schema|
    ensures Counts(c, WithRow(n, t), Append(db, t, r), true) && Counts(c, WithKey(n, t, key), Append(db, t, r), true)
  {}

  lemma PopulateIsJudged(c: Config, n: Census, db: Db, t: nat, place: Place, v: Value, upd: bool, i: nat)
    requires ValidConfig(c) && t < |c.schema| && Counts(c, n, db, WritesKeys(c, upd)) && c.inWrite
    requires place.row < NumRows(db, t) && (place.skipPrimary || (WritesKeys(c, upd) && place.created))
    requires Primary(c, t).Some? ==> KeyOf(c, t, Primary(c, t).value, v).Ok?
    ensures var s := Populate(c, db, t, place, v, upd, false, i);
      && Ends(c, s, JudgeFrom(c, n, t, place.row, place.created, v, upd, i), upd)
      && (s.res.Ok? ==> s.res.value < NumRows(s.db, t))
    decreases Height(v), 1, |Props(c, t)| - i
  {
    hide SetProp, JudgeValue, Counts, KeyOf, Choose;
    if i < |Props(c, t)| {
      var w := Choose(c, t, i, v, place);
      ChosenAsOffered(c, t, i, v, place);
      if w.Write? {
        var s := SetProp(c, db, t, place.row, i, w.x, upd, false, w.isDefault);
        if IsPrimary(c, t, i) {
          KeyIsWritten(c, n, db, t, place, v, upd, i);
          PopulateIsJudged(c, n, s.db, t, place, v, upd, i + 1);
        } else {
          SetPropIsJudged(c, n, db, t, place.row, i, w.x, upd, w.isDefault);
          if s.res.Ok? {
            var here := JudgeValue(c, n, Loc(t, place.row, i), w.x, upd);
            assert place.row < NumRows(s.db, t) by { RowStays(c, n, here.n, db, s.db, upd, t, place.row); }
            PopulateIsJudged(c, here.n, s.db, t, place, v, upd, i + 1);
          }
        }
      } else if w.Skip? {
        PopulateIsJudged(c, n, db, t, place, v, upd, i + 1);
      }
    }
  }

  lemma RowStays(c: Config, n: Census, m: Census, db: Db, db': Db, upd: bool, t: nat, row: nat)
    requires Counts(c, n, db, WritesKeys(c, upd)) && Counts(c, m, db', WritesKeys(c, upd)) && Grown(n, m)
    ensures row < NumRows(db, t) ==> row < NumRows(db', t)
  {
    assert t < |n.rows| ==> n.rows[t] == NumRows(db, t) && m.rows[t] == NumRows(db', t);
  }

  /** What the population loop does with a property, in terms of what the dictionary offers. */
  lemma ChosenAsOffered(c: Config, t: nat, i: nat, v: Value, place: Place)
    requires ValidConfig(c) && t < |c.schema| && i < |Props(c, t)|
    requires Primary(c, t).Some? ==> KeyOf(c, t, Primary(c, t).value, v).Ok?
    requires place.skipPrimary || place.created
    ensures var w, prop := Choose(c, t, i, v, place), Prop(c, t, i);
      if IsPrimary(c, t, i) then
        !w.Fail? && (place.skipPrimary ==> w.Skip?) && (w.Write? ==> v.Obj? && Offered(prop, v, i) == Given(w.x))
      else if !v.Obj? then w == Fail(BadCast)
      else if !place.created && Omits(v, i) then w == Skip
      else if Required(prop) && (Offered(prop, v, i).Absent? || Offered(prop, v, i).v.Null?) && !v.allowMissing then
        w == Fail(MissingProperty)
      else if Offered(prop, v, i).Absent? then w == Skip
      else w == Write(Offered(prop, v, i).v, Omits(v, i))
  {}

  lemma KeyIsWritten(c: Config, n: Census, db: Db, t: nat, place: Place, v: Value, upd: bool, i: nat)
    requires ValidConfig(c) && t < |c.schema| && Counts(c, n, db, WritesKeys(c, upd)) && WritesKeys(c, upd)
    requires IsPrimary(c, t, i) && KeyOf(c, t, i, v).Ok? && Choose(c, t, i, v, place).Write?
    ensures var w := Choose(c, t, i, v, place);
      var s := SetProp(c, db, t, place.row, i, w.x, upd, false, w.isDefault);
      s.res.Ok? && Counts(c, n, s.db, WritesKeys(c, upd)) && (forall t1: nat :: NumRows(s.db, t1) == NumRows(db, t1))
  {
    var w := Choose(c, t, i, v, place);
    var s := SetProp(c, db, t, place.row, i, w.x, upd, false, w.isDefault);
    assert UnboxScalar(Prop(c, t, i), w.x) == KeyOf(c, t, i, v);
    PutCounts(c, n, db, true, SetCell, t, place.row, i, One(KeyOf(c, t, i, v).value));
    if InRange(db, t, place.row, i) { PutCells(db, SetCell, t, place.row, i, One(KeyOf(c, t, i, v).value)); }
  }

  lemma SetPropIsJudged(c: Config, n: Census, db: Db, t: nat, row: nat, p: nat, x: Value, upd: bool, isDefault: bool)
    requires ValidConfig(c) && t < |c.schema| && Counts(c, n, db, WritesKeys(c, upd)) && c.inWrite
    requires p < |Props(c, t)| && !IsPrimary(c, t, p)
    ensures Ends(c, SetProp(c, db, t, row, p, x, upd, false, isDefault), JudgeValue(c, n, Loc(t, row, p), x, upd), upd)
    decreases Height(x), 6, 0
  {
    hide Create, Judge, Counts, AssignPlain, JudgeAlong;
    var prop, kw := Prop(c, t, p), WritesKeys(c, upd);
    assert ValidProperty(c, prop);
    if prop.isArray {
      PutCounts(c, n, db, kw, ListClear, t, row, p, Many([]));
      if x.Vals? { LoopIsJudged(c, n, Clear(db, t, row, p), t, row, p, x.elems, upd, 0); }
    } else if x.Null? && prop.nullable {
      PutCounts(c, n, db, kw, SetCell, t, row, p, One(Nothing));
    } else if prop.base.Object? {
      if x.RowRef? {
        PutCounts(c, n, db, kw, SetCell, t, row, p, One(Link(x.row)));
        RowsCounted(c, n, db, kw, prop.target);
      } else {
        CreateIsJudged(c, n, db, prop.target, x, upd, LinkOf(CellAt(db, t, row, p)));
        var s := Create(c, db, prop.target, x, upd, false, LinkOf(CellAt(db, t, row, p)));
        if s.res.Ok? {
          PutCounts(c, Judge(c, n, prop.target, x, upd).n, s.db, kw, SetCell, t, row, p, One(Link(s.res.value)));
        }
      }
    } else if UnboxScalar(prop, x).Ok? {
      PutCounts(c, n, db, kw, SetCell, t, row, p, One(UnboxScalar(prop, x).value));
    }
  }

  lemma RowsCounted(c: Config, n: Census, db: Db, kw: bool, t: nat)
    requires Counts(c, n, db, kw)
    ensures |db.tables| == |c.schema| && RowsOf(n, t) == NumRows(db, t)
  {}

  lemma LoopIsJudged(c: Config, n: Census, db: Db, t: nat, row: nat, p: nat, vs: seq<Value>, upd: bool, k: nat)
    requires ValidConfig(c) && t < |c.schema| && Counts(c, n, db, WritesKeys(c, upd)) && c.inWrite
    requires p < |Props(c, t)| && !IsPrimary(c, t, p)
    ensures Ends(c, AssignPlain(c, db, t, row, p, vs, upd, k), JudgeAlong(c, n, Prop(c, t, p), vs, upd, k), upd)
    decreases ValuesHeight(vs), 4, |vs| - k
  {
    hide AddValue, JudgeElement, Counts;
    if k < |vs| {
      ElementIsJudged(c, n, db, t, row, p, vs[k], upd);
      var s := AddValue(c, db, t, row, p, vs[k], upd);
      if s.res.Ok? {
        LoopIsJudged(c, JudgeElement(c, n, Prop(c, t, p), vs[k], upd).n, s.db, t, row, p, vs, upd, k + 1);
      }
    }
  }

  lemma ElementIsJudged(c: Config, n: Census, db: Db, t: nat, row: nat, p: nat, x: Value, upd: bool)
    requires ValidConfig(c) && t < |c.schema| && Counts(c, n, db, WritesKeys(c, upd)) && c.inWrite
    requires p < |Props(c, t)| && !IsPrimary(c, t, p)
    ensures Ends(c, AddValue(c, db, t, row, p, x, upd), JudgeElement(c, n, Prop(c, t, p), x, upd), upd)
    decreases Height(x), 4, 0
  {
    hide Create, Judge, Counts;
    var prop, kw := Prop(c, t, p), WritesKeys(c, upd);
    assert ValidProperty(c, prop);
    var u := UnboxItem(c, db, prop, x, upd, false, None);
    var es := ListAt(db, t, row, p);
    var e := if prop.base.Object? then Link(if x.RowRef? then x.row else 0) else ElemOf(x);
    PutCounts(c, n, db, kw, ListAdd, t, row, p, Many(es + [e]));
    if prop.base.Object? && !x.RowRef? {
      CreateIsJudged(c, n, db, prop.target, x, upd, None);
      if u.res.Ok? {
        PutCounts(c, Judge(c, n, prop.target, x, upd).n, u.db, kw, ListAdd, t, row, p,
                  Many(ListAt(u.db, t, row, p) + [Link(u.res.value.row)]));
      }
    } else if prop.base.Object? {
      RowsCounted(c, n, db, kw, x.t);
    }
  }

  // ---- The census of a database -------------------------------------------------------------------

  /** The first row that carries each key. */
  ghost function KeysOf(c: Config, db: Db, t: nat): map<Elem, nat> {
    if Primary(c, t).None? then map[]
    else
      var p := Primary(c, t).value;
      map row: nat | row < NumRows(db, t) && CellAt(db, t, row, p).One?
          && FindFirst(db, t, p, CellAt(db, t, row, p).e) == Some(row)
        :: CellAt(db, t, row, p).e := row
  }

  ghost function CensusOf(c: Config, db: Db): Census {
    Census(seq(|db.tables|, t requires 0 <= t < |db.tables| => |db.tables[t]|),
           seq(|db.tables|, t requires 0 <= t < |db.tables| => KeysOf(c, db, t)))
  }

  lemma CensusCounts(c: Config, db: Db, kw: bool)
    requires |db.tables| == |c.schema|
    ensures Counts(c, CensusOf(c, db), db, kw)
  {
    var n := CensusOf(c, db);
    forall t: nat, key: Elem | t < |n.rows| && Primary(c, t).Some?
      ensures FindFirst(db, t, Primary(c, t).value, key) == Carrier(n, t, key)
    {
      var first := FindFirst(db, t, Primary(c, t).value, key);
      if first.Some? { assert key in KeysOf(c, db, t); }
    }
  }
}
