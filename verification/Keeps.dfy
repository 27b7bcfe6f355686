/** Every operation evolves the database: the induction over nested creations. */
module Keeps {
  import opened Outcomes
  import opened Schemas
  import opened Tables
  import opened Upsert
  import opened Trace
  import opened Evolution

  /** What a chosen value describes lies below the object it was chosen from. */
  lemma ChosenNodes(c: Config, t: nat, i: nat, v: Value, place: Place)
    requires i < |Props(c, t)| && Choose(c, t, i, v, place).Write?
    ensures PropNodes(c, Prop(c, t, i), Choose(c, t, i, v, place).x) <= ChildNodes(c, t, v)
  {}

  lemma ElementNodes(c: Config, prop: Property, x: Value, k: nat)
    requires prop.isArray && x.Vals? && k < |x.elems|
    ensures prop.base.Object? ==> Nodes(c, prop.target, x.elems[k]) <= PropNodes(c, prop, x)
  {}

  /** What one unboxing may create. */
  ghost function ItemNodes(c: Config, prop: Property, x: Value): set<Node> {
    if prop.base.Object? then Nodes(c, prop.target, x) else {}
  }

  /** The cells of one row. */
  ghost function RowLocs(c: Config, t: nat, row: nat): set<Loc> {
    set j: nat | j < |Props(c, t)| :: Loc(t, row, j)
  }

  lemma MayWriteStays(c: Config, kw: bool, K: set<Id>, W: set<Loc>, db: Db, db': Db, t: nat, row: nat, p: nat)
    requires Evolves(c, kw, K, W, db, db') && MayWrite(c, kw, K, W, db, t, row, p)
    ensures MayWrite(c, kw, K, W, db', t, row, p)
  {}

  lemma EmptyCellsOk(c: Config, db: Db, t: nat)
    requires ValidConfig(c) && t < |c.schema|
    ensures forall p: nat :: p < |Props(c, t)| ==> CellOk(db, Prop(c, t, p), EmptyCell(Prop(c, t, p)))
  {}

  // ---- Finding or adding the row ----------------------------------------------------------

  lemma KeyFits(c: Config, db: Db, t: nat, p: nat, v: Value)
    requires ValidConfig(c) && t < |c.schema| && Primary(c, t) == Some(p) && KeyOf(c, t, p, v).Ok?
    ensures p < |Props(c, t)| && CellOk(db, Prop(c, t, p), One(KeyOf(c, t, p, v).value))
  {}

  lemma LocateEvolves(c: Config, kw: bool, K: set<Id>, W: set<Loc>, db: Db, t: nat, v: Value, upd: bool, diff: bool,
                      cur: Option<nat>)
    requires ValidConfig(c) && Sound(c, db) && t < |c.schema|
    requires c.inMigration && !upd ==> kw
    requires cur.Some? ==> cur.value < NumRows(db, t)
    requires !kw ==> NodeId(c, Node(t, v)).Some? ==> NodeId(c, Node(t, v)).value !in K || Everything in K
    ensures var s := Locate(c, db, t, v, upd, diff, cur);
      && Evolves(c, kw, K, W, db, s.db)
      && (s.res.Ok? ==>
            && s.res.value.row < NumRows(s.db, t)
            && (s.res.value.created ==> s.res.value.row == NumRows(db, t))
            && (!s.res.value.created ==> s.db == db && s.res.value.skipPrimary)
            && (!s.res.value.created ==> if Primary(c, t).Some? then upd else diff && cur == Some(s.res.value.row))
            && (!kw ==> s.res.value.skipPrimary && Carries(c, s.db, Node(t, v), s.res.value.row)))
  {
    EmptyCellsOk(c, db, t);
    EvolvesRefl(c, kw, K, W, db);
    var s := Locate(c, db, t, v, upd, diff, cur);
    if Primary(c, t).None? {
      if !(diff && cur.Some?) {
        AppendEvolves(c, kw, K, W, db, t, EmptyRow(Props(c, t)));
      }
    } else if KeyOf(c, t, Primary(c, t).value, v).Ok? {
      var p := Primary(c, t).value;
      var key := KeyOf(c, t, p, v).value;
      KeyFits(c, db, t, p, v);
      var found := FindFirst(db, t, p, key);
      if found.None? {
        var r := KeyedRow(Props(c, t), p, key);
        AppendEvolves(c, kw, K, W, db, t, r);
        AppendCells(db, t, r);
        assert CellAt(s.db, t, NumRows(db, t), p) == r[p];
      } else if !upd && c.inMigration {
        AppendEvolves(c, kw, K, W, db, t, EmptyRow(Props(c, t)));
      }
    }
  }

  /** The population loop writes cells of one row, and the key only if it was not stamped. */
  lemma ChosenMayBeWritten(c: Config, kw: bool, K: set<Id>, W: set<Loc>, db: Db, t: nat, place: Place, v: Value)
    requires t < |c.schema| && place.row < NumRows(db, t)
    requires !kw ==> place.skipPrimary
    requires AllKeys in K ==> place.skipPrimary || RowLocs(c, t, place.row) <= W
    requires RowLocs(c, t, place.row) <= W || (Everything !in K && (!kw && v.Obj? ==> RowId(c, db, t, place.row) !in K))
    ensures forall j: nat :: j < |Props(c, t)| && Choose(c, t, j, v, place).Write? ==>
              MayWrite(c, kw, K, W, db, t, place.row, j)
  {}

  // ---- The induction ----------------------------------------------------------------------

  lemma CreateEvolves(c: Config, kw: bool, K: set<Id>, W: set<Loc>, db: Db, t: nat, v: Value, upd: bool, diff: bool,
                      cur: Option<nat>)
    requires ValidConfig(c) && Sound(c, db) && t < |c.schema|
    requires (c.inMigration && !upd ==> kw) && Creating(K, upd)
    requires cur.Some? ==> cur.value < NumRows(db, t)
    requires Avoids(c, K, Nodes(c, t, v)) && (diff ==> LeavesAlone(K, Steps(c, db, t, v, upd, diff, cur)))
    ensures var s := Create(c, db, t, v, upd, diff, cur);
      && Evolves(c, kw, K, W, db, s.db)
      && (s.res.Ok? ==> s.res.value < NumRows(s.db, t))
    decreases Height(v), 2, 0
  {
    hide Locate, StepsFrom, LeavesAlone;
    if c.inWrite {
      assert v.Obj? ==> Node(t, v) in Nodes(c, t, v);
      KeyIsOfAnObject(c, t, v);
      LocateEvolves(c, kw, K, W, db, t, v, upd, diff, cur);
      var at := Locate(c, db, t, v, upd, diff, cur);
      if at.res.Ok? {
        var W1 := if at.res.value.created then W + RowLocs(c, t, at.res.value.row) else W;
        if diff { BelowIsLeftAlone(c, K, db, t, v, upd, cur); }
        ChosenMayBeWritten(c, kw, K, W1, at.db, t, at.res.value, v);
        PopulateEvolves(c, kw, K, W1, at.db, t, at.res.value, v, upd, diff, 0);
        EvolvesOntoNew(c, kw, K, W, W1, db, at.db, Create(c, db, t, v, upd, diff, cur).db);
      }
    } else {
      EvolvesRefl(c, kw, K, W, db);
    }
  }

  lemma KeyIsOfAnObject(c: Config, t: nat, v: Value)
    ensures NodeId(c, Node(t, v)).Some? ==> v.Obj?
  {}

  /** Populating leaves alone what the whole create does, and the row is not a protected one without a key. */
  lemma BelowIsLeftAlone(c: Config, K: set<Id>, db: Db, t: nat, v: Value, upd: bool, cur: Option<nat>)
    requires c.inWrite && Locate(c, db, t, v, upd, true, cur).res.Ok?
    requires LeavesAlone(K, Steps(c, db, t, v, upd, true, cur))
    ensures var at := Locate(c, db, t, v, upd, true, cur);
      && (v.Obj? ==> LeavesAlone(K, StepsFrom(c, at.db, t, at.res.value, v, upd, true, 0)))
      && (Primary(c, t).None? && cur.Some? ==> !Held(K, Unkeyed(t, at.res.value.row)))
  {
    var row, steps := Locate(c, db, t, v, upd, true, cur).res.value.row, Steps(c, db, t, v, upd, true, cur);
    assert Primary(c, t).None? && cur.Some? ==> Reusing(t, row) in steps;
  }

  lemma EvolvedRow(c: Config, kw: bool, K: set<Id>, W: set<Loc>, db: Db, db': Db, t: nat, row: nat)
    requires Evolves(c, kw, K, W, db, db') && row < NumRows(db, t)
    ensures Sound(c, db') && row < NumRows(db', t)
  {}

  lemma ChosenIsOfAnObject(c: Config, t: nat, i: nat, v: Value, place: Place)
    ensures Choose(c, t, i, v, place).Write? ==> v.Obj?
  {}

  lemma PopulateEvolves(c: Config, kw: bool, K: set<Id>, W: set<Loc>, db: Db, t: nat, place: Place, v: Value,
                        upd: bool, diff: bool, i: nat)
    requires ValidConfig(c) && Sound(c, db) && t < |c.schema|
    requires (c.inMigration && !upd ==> kw) && Creating(K, upd)
    requires place.row < NumRows(db, t)
    requires forall j: nat :: i <= j < |Props(c, t)| && Choose(c, t, j, v, place).Write? ==>
               MayWrite(c, kw, K, W, db, t, place.row, j)
    requires Avoids(c, K, ChildNodes(c, t, v))
    requires diff && v.Obj? ==> LeavesAlone(K, StepsFrom(c, db, t, place, v, upd, diff, i))
    ensures var s := Populate(c, db, t, place, v, upd, diff, i);
      && Evolves(c, kw, K, W, db, s.db)
      && (s.res.Ok? ==> s.res.value == place.row)
    decreases Height(v), 1, |Props(c, t)| - i
  {
    hide Choose, SetProp, Nodes, Evolves, Sound, ValidConfig, MayWrite, Avoids, StepsAt, LeavesAlone;
    EvolvesRefl(c, kw, K, W, db);
    if i < |Props(c, t)| {
      match Choose(c, t, i, v, place)
      case Skip => PopulateEvolves(c, kw, K, W, db, t, place, v, upd, diff, i + 1);
      case Fail(_) =>
      case Write(x, isDefault) =>
        ChosenNodes(c, t, i, v, place);
        AvoidsLess(c, K, PropNodes(c, Prop(c, t, i), x), ChildNodes(c, t, v));
        ChosenIsOfAnObject(c, t, i, v, place);
        var s := SetProp(c, db, t, place.row, i, x, upd, diff, isDefault);
        LeavesAloneSplit(K, StepsAt(c, db, t, place.row, i, x, upd, diff, isDefault),
                         if s.res.Ok? then StepsFrom(c, s.db, t, place, v, upd, diff, i + 1) else []);
        SetPropEvolves(c, kw, K, W, db, t, place.row, i, x, upd, diff, isDefault);
        if s.res.Ok? {
          EvolvedRow(c, kw, K, W, db, s.db, t, place.row);
          forall j: nat | i < j < |Props(c, t)| && Choose(c, t, j, v, place).Write?
            ensures MayWrite(c, kw, K, W, s.db, t, place.row, j)
          {
            MayWriteStays(c, kw, K, W, db, s.db, t, place.row, j);
          }
          PopulateEvolves(c, kw, K, W, s.db, t, place, v, upd, diff, i + 1);
          EvolvesTrans(c, kw, K, W, db, s.db, Populate(c, s.db, t, place, v, upd, diff, i + 1).db);
        }
    }
  }

  lemma SetPropEvolves(c: Config, kw: bool, K: set<Id>, W: set<Loc>, db: Db, t: nat, row: nat, p: nat, x: Value,
                       upd: bool, diff: bool, isDefault: bool)
    requires ValidConfig(c) && Sound(c, db)
    requires (c.inMigration && !upd ==> kw) && Creating(K, upd)
    requires MayWrite(c, kw, K, W, db, t, row, p)
    requires Avoids(c, K, PropNodes(c, Prop(c, t, p), x))
    requires diff ==> LeavesAlone(K, StepsAt(c, db, t, row, p, x, upd, diff, isDefault))
    ensures Evolves(c, kw, K, W, db, SetProp(c, db, t, row, p, x, upd, diff, isDefault).db)
    decreases Height(x), 6, 0
  {
    hide Create, Nodes, Assign, Spares, LogSpares, KeysStay, UniqueKeys, LogGrows, NoneAdded, LeavesAlone;
    var prop := Prop(c, t, p);
    var cell := CellAt(db, t, row, p);
    assert ValidProperty(c, prop);
    assert InRange(db, t, row, p) && CellOk(db, prop, cell);
    EvolvesRefl(c, kw, K, W, db);
    if prop.nullable && x.Null? {
      if !prop.isArray { PutEvolves(c, kw, K, W, db, SetCell, t, row, p, One(Nothing)); }
    } else if prop.isArray {
      AssignEvolves(c, kw, K, W, db, t, row, p, x, upd, diff);
    } else if prop.base.Object? {
      LeavesAloneSplit(K, StepsIn(c, db, prop, x, upd, diff, LinkOf(cell)),
                       StepsAt(c, db, t, row, p, x, upd, diff,
                               isDefault)[|StepsIn(c, db, prop, x, upd, diff, LinkOf(cell))|..]);
      UnboxItemEvolves(c, kw, K, W, db, prop, x, upd, diff, LinkOf(cell));
      var u := UnboxItem(c, db, prop, x, upd, diff, LinkOf(cell));
      if u.res.Ok? { SetLinkEvolves(c, kw, K, W, db, u.db, t, row, p, LinkOf(cell), u.res.value, diff); }
    } else if UnboxScalar(prop, x).Ok? {
      PutEvolves(c, kw, K, W, db, SetCell, t, row, p, One(UnboxScalar(prop, x).value));
    }
  }

  lemma SetLinkEvolves(c: Config, kw: bool, K: set<Id>, W: set<Loc>, db: Db, mid: Db, t: nat, row: nat, p: nat,
                       cur: Option<nat>, item: Item, diff: bool)
    requires Evolves(c, kw, K, W, db, mid) && MayWrite(c, kw, K, W, db, t, row, p)
    requires Prop(c, t, p).base.Object? && !Prop(c, t, p).isArray
    ensures Evolves(c, kw, K, W, db, SetLink(mid, Prop(c, t, p), t, row, p, cur, item, diff).db)
  {
    if ItemRow(item) < NumRows(mid, Prop(c, t, p).target) {
      MayWriteStays(c, kw, K, W, db, mid, t, row, p);
      PutEvolves(c, kw, K, W, mid, SetCell, t, row, p, One(Link(ItemRow(item))));
      EvolvesTrans(c, kw, K, W, db, mid, Put(mid, SetCell, t, row, p, One(Link(ItemRow(item)))));
    }
  }

  lemma UnboxItemEvolves(c: Config, kw: bool, K: set<Id>, W: set<Loc>, db: Db, prop: Property, x: Value,
                         upd: bool, diff: bool, cur: Option<nat>)
    requires ValidConfig(c) && Sound(c, db) && ValidProperty(c, prop)
    requires (c.inMigration && !upd ==> kw) && Creating(K, upd)
    requires cur.Some? && prop.base.Object? ==> cur.value < NumRows(db, prop.target)
    requires Avoids(c, K, ItemNodes(c, prop, x)) && (diff ==> LeavesAlone(K, StepsIn(c, db, prop, x, upd, diff, cur)))
    ensures var u := UnboxItem(c, db, prop, x, upd, diff, cur);
      && Evolves(c, kw, K, W, db, u.db)
      && (u.res.Ok? && Validate(u.db, prop, u.res.value).Ok? ==>
          ElemOk(u.db, prop, Validate(u.db, prop, u.res.value).value))
      && (u.res.Ok? && !ItemIsRef(prop, x) ==> Validate(u.db, prop, u.res.value).Ok?)
      && (u.res.Ok? ==> u.res.value.RowItem? == prop.base.Object?)
    decreases Height(x), 3, 0
  {
    hide Evolves, Create, Steps, Nodes, LeavesAlone, Avoids, Sound, ValidConfig;
    EvolvesRefl(c, kw, K, W, db);
    if prop.base.Object? && !x.RowRef? {
      CreateEvolves(c, kw, K, W, db, prop.target, x, upd, diff, cur);
    }
  }

  predicate ItemIsRef(prop: Property, x: Value) {
    prop.base.Object? && x.RowRef?
  }

  lemma AddItemEvolves(c: Config, kw: bool, K: set<Id>, W: set<Loc>, db: Db, t: nat, row: nat, p: nat, item: Item)
    requires Sound(c, db) && MayWrite(c, kw, K, W, db, t, row, p) && Prop(c, t, p).isArray
    requires Validate(db, Prop(c, t, p), item).Ok? ==>
             ElemOk(db, Prop(c, t, p), Validate(db, Prop(c, t, p), item).value)
    ensures Evolves(c, kw, K, W, db, AddItem(db, Prop(c, t, p), t, row, p, item).db)
  {
    EvolvesRefl(c, kw, K, W, db);
    if Validate(db, Prop(c, t, p), item).Ok? {
      assert InRange(db, t, row, p) && CellOk(db, Prop(c, t, p), CellAt(db, t, row, p));
      PutEvolves(c, kw, K, W, db, ListAdd, t, row, p,
                 Many(ListAt(db, t, row, p) + [Validate(db, Prop(c, t, p), item).value]));
    }
  }

  lemma SetItemEvolves(c: Config, kw: bool, K: set<Id>, W: set<Loc>, db: Db, t: nat, row: nat, p: nat, k: nat,
                       item: Item)
    requires Sound(c, db) && MayWrite(c, kw, K, W, db, t, row, p) && Prop(c, t, p).isArray
    requires Validate(db, Prop(c, t, p), item).Ok? ==>
             ElemOk(db, Prop(c, t, p), Validate(db, Prop(c, t, p), item).value)
    ensures Evolves(c, kw, K, W, db, SetItem(db, Prop(c, t, p), t, row, p, k, item).db)
  {
    EvolvesRefl(c, kw, K, W, db);
    var es := ListAt(db, t, row, p);
    if Validate(db, Prop(c, t, p), item).Ok? && k < |es| {
      assert InRange(db, t, row, p) && CellOk(db, Prop(c, t, p), CellAt(db, t, row, p));
      PutEvolves(c, kw, K, W, db, ListSet, t, row, p, Many(es[k := Validate(db, Prop(c, t, p), item).value]));
    }
  }

  lemma AssignEvolves(c: Config, kw: bool, K: set<Id>, W: set<Loc>, db: Db, t: nat, row: nat, p: nat, x: Value,
                      upd: bool, diff: bool)
    requires ValidConfig(c) && Sound(c, db)
    requires (c.inMigration && !upd ==> kw) && Creating(K, upd)
    requires MayWrite(c, kw, K, W, db, t, row, p) && Prop(c, t, p).isArray
    requires Avoids(c, K, PropNodes(c, Prop(c, t, p), x))
    requires diff ==> LeavesAlone(K, StepsOf(c, db, t, row, p, x, upd, diff))
    ensures Evolves(c, kw, K, W, db, Assign(c, db, t, row, p, x, upd, diff).db)
    decreases Height(x), 5, 0
  {
    EvolvesRefl(c, kw, K, W, db);
    PutEvolves(c, kw, K, W, db, ListClear, t, row, p, Many([]));
    var db' := Clear(db, t, row, p);
    if x.Vals? {
      if diff {
        AssignDiffEvolves(c, kw, K, W, db, t, row, p, x, upd, 0, |ListAt(db, t, row, p)|);
      } else {
        MayWriteStays(c, kw, K, W, db, db', t, row, p);
        AssignPlainEvolves(c, kw, K, W, db', t, row, p, x, upd, 0);
        EvolvesTrans(c, kw, K, W, db, db', AssignPlain(c, db', t, row, p, x.elems, upd, 0).db);
      }
    }
  }

  lemma AssignPlainEvolves(c: Config, kw: bool, K: set<Id>, W: set<Loc>, db: Db, t: nat, row: nat, p: nat, x: Value,
                        upd: bool, k: nat)
    requires ValidConfig(c) && Sound(c, db)
    requires (c.inMigration && !upd ==> kw) && Creating(K, upd)
    requires MayWrite(c, kw, K, W, db, t, row, p) && Prop(c, t, p).isArray && x.Vals?
    requires Avoids(c, K, PropNodes(c, Prop(c, t, p), x))
    ensures Evolves(c, kw, K, W, db, AssignPlain(c, db, t, row, p, x.elems, upd, k).db)
    decreases Height(x), 4, |x.elems| - k
  {
    EvolvesRefl(c, kw, K, W, db);
    if k < |x.elems| {
      ElementNodes(c, Prop(c, t, p), x, k);
      AddValueEvolves(c, kw, K, W, db, t, row, p, x.elems[k], upd);
      var s := AddValue(c, db, t, row, p, x.elems[k], upd);
      MayWriteStays(c, kw, K, W, db, s.db, t, row, p);
      AssignPlainEvolves(c, kw, K, W, s.db, t, row, p, x, upd, k + 1);
      EvolvesTrans(c, kw, K, W, db, s.db, AssignPlain(c, s.db, t, row, p, x.elems, upd, k + 1).db);
    }
  }

  lemma AddValueEvolves(c: Config, kw: bool, K: set<Id>, W: set<Loc>, db: Db, t: nat, row: nat, p: nat, x: Value,
                        upd: bool)
    requires ValidConfig(c) && Sound(c, db)
    requires (c.inMigration && !upd ==> kw) && Creating(K, upd)
    requires MayWrite(c, kw, K, W, db, t, row, p) && Prop(c, t, p).isArray
    requires Avoids(c, K, ItemNodes(c, Prop(c, t, p), x))
    ensures Evolves(c, kw, K, W, db, AddValue(c, db, t, row, p, x, upd).db)
    decreases Height(x), 4, 0
  {
    hide UnboxItem, ItemNodes, AddItem, Evolves, Avoids, Validate;
    assert ValidProperty(c, Prop(c, t, p));
    UnboxItemEvolves(c, kw, K, W, db, Prop(c, t, p), x, upd, false, None);
    var u := UnboxItem(c, db, Prop(c, t, p), x, upd, false, None);
    if u.res.Ok? { AddItemEvolvesOn(c, kw, K, W, db, u.db, t, row, p, u.res.value); }
  }

  lemma AddItemEvolvesOn(c: Config, kw: bool, K: set<Id>, W: set<Loc>, db: Db, mid: Db, t: nat, row: nat, p: nat,
                         item: Item)
    requires Evolves(c, kw, K, W, db, mid) && MayWrite(c, kw, K, W, db, t, row, p) && Prop(c, t, p).isArray
    requires Validate(mid, Prop(c, t, p), item).Ok? ==>
             ElemOk(mid, Prop(c, t, p), Validate(mid, Prop(c, t, p), item).value)
    ensures Evolves(c, kw, K, W, db, AddItem(mid, Prop(c, t, p), t, row, p, item).db)
  {
    MayWriteStays(c, kw, K, W, db, mid, t, row, p);
    AddItemEvolves(c, kw, K, W, mid, t, row, p, item);
    EvolvesTrans(c, kw, K, W, db, mid, AddItem(mid, Prop(c, t, p), t, row, p, item).db);
  }

  lemma SetValueEvolves(c: Config, kw: bool, K: set<Id>, W: set<Loc>, db: Db, t: nat, row: nat, p: nat, k: nat,
                        x: Value, upd: bool)
    requires ValidConfig(c) && Sound(c, db)
    requires (c.inMigration && !upd ==> kw) && Creating(K, upd)
    requires MayWrite(c, kw, K, W, db, t, row, p) && Prop(c, t, p).isArray
    requires Avoids(c, K, ItemNodes(c, Prop(c, t, p), x))
    requires LeavesAlone(K, StepsBy(c, db, t, row, p, x, upd, k, k + 1))
    ensures Evolves(c, kw, K, W, db, SetValue(c, db, t, row, p, k, x, upd).db)
    decreases Height(x), 4, 0
  {
    hide UnboxItem, ItemNodes, SetItem, Evolves, LeavesAlone, Avoids, StepsIn, Validate;
    EvolvesRefl(c, kw, K, W, db);
    var prop, es := Prop(c, t, p), ListAt(db, t, row, p);
    if k < |es| {
      assert InRange(db, t, row, p) && CellOk(db, prop, CellAt(db, t, row, p)) && ElemOk(db, prop, es[k]);
      assert ValidProperty(c, prop);
      UnboxItemEvolves(c, kw, K, W, db, prop, x, upd, true, LinkRow(es[k]));
      var u := UnboxItem(c, db, prop, x, upd, true, LinkRow(es[k]));
      if u.res.Ok? { SetItemEvolvesOn(c, kw, K, W, db, u.db, t, row, p, k, u.res.value); }
    }
  }

  lemma SetItemEvolvesOn(c: Config, kw: bool, K: set<Id>, W: set<Loc>, db: Db, mid: Db, t: nat, row: nat, p: nat,
                        k: nat, item: Item)
    requires Evolves(c, kw, K, W, db, mid) && MayWrite(c, kw, K, W, db, t, row, p) && Prop(c, t, p).isArray
    requires Validate(mid, Prop(c, t, p), item).Ok? ==>
             ElemOk(mid, Prop(c, t, p), Validate(mid, Prop(c, t, p), item).value)
    ensures Evolves(c, kw, K, W, db, SetItem(mid, Prop(c, t, p), t, row, p, k, item).db)
  {
    MayWriteStays(c, kw, K, W, db, mid, t, row, p);
    SetItemEvolves(c, kw, K, W, mid, t, row, p, k, item);
    EvolvesTrans(c, kw, K, W, db, mid, SetItem(mid, Prop(c, t, p), t, row, p, k, item).db);
  }

  lemma AssignDiffEvolves(c: Config, kw: bool, K: set<Id>, W: set<Loc>, db: Db, t: nat, row: nat, p: nat, x: Value,
                        upd: bool, k: nat, sz: nat)
    requires ValidConfig(c) && Sound(c, db)
    requires (c.inMigration && !upd ==> kw) && Creating(K, upd)
    requires MayWrite(c, kw, K, W, db, t, row, p) && Prop(c, t, p).isArray && x.Vals?
    requires Avoids(c, K, PropNodes(c, Prop(c, t, p), x))
    requires LeavesAlone(K, StepsAlong(c, db, t, row, p, x.elems, upd, k, sz))
    ensures Evolves(c, kw, K, W, db, AssignDiff(c, db, t, row, p, x.elems, upd, k, sz).db)
    decreases Height(x), 4, |x.elems| - k
  {
    hide Nodes, Avoids, Spares, LogSpares, KeysStay, UniqueKeys, LogGrows, NoneAdded, LeavesAlone, SetValue, AddValue,
         Sound;
    EvolvesRefl(c, kw, K, W, db);
    if k >= |x.elems| {
      TrimEvolves(c, kw, K, W, db, t, row, p, k, sz);
    } else {
      ElementNodes(c, Prop(c, t, p), x, k);
      AvoidsLess(c, K, ItemNodes(c, Prop(c, t, p), x.elems[k]), PropNodes(c, Prop(c, t, p), x));
      var s := if k < sz then SetValue(c, db, t, row, p, k, x.elems[k], upd)
               else AddValue(c, db, t, row, p, x.elems[k], upd);
      LeavesAloneSplit(K, StepsBy(c, db, t, row, p, x.elems[k], upd, k, sz),
                       if s.res.Ok? then StepsAlong(c, s.db, t, row, p, x.elems, upd, k + 1, sz) else []);
      if k < sz {
        SetValueEvolves(c, kw, K, W, db, t, row, p, k, x.elems[k], upd);
      } else {
        AddValueEvolves(c, kw, K, W, db, t, row, p, x.elems[k], upd);
      }
      if s.res.Ok? {
        MayWriteStays(c, kw, K, W, db, s.db, t, row, p);
        AssignDiffEvolves(c, kw, K, W, s.db, t, row, p, x, upd, k + 1, sz);
        EvolvesTrans(c, kw, K, W, db, s.db, AssignDiff(c, s.db, t, row, p, x.elems, upd, k + 1, sz).db);
      }
    }
  }

  lemma {:induction false} TrimEvolves(c: Config, kw: bool, K: set<Id>, W: set<Loc>, db: Db, t: nat, row: nat, p: nat,
                        k: nat, sz: nat)
    requires Sound(c, db) && MayWrite(c, kw, K, W, db, t, row, p) && Prop(c, t, p).isArray
    ensures Evolves(c, kw, K, W, db, Trim(db, t, row, p, k, sz).db)
    decreases sz
  {
    EvolvesRefl(c, kw, K, W, db);
    var es := ListAt(db, t, row, p);
    if k < sz && k < |es| {
      assert InRange(db, t, row, p) && CellOk(db, Prop(c, t, p), CellAt(db, t, row, p));
      var db' := Put(db, ListRemove, t, row, p, Many(es[..k] + es[k + 1..]));
      PutEvolves(c, kw, K, W, db, ListRemove, t, row, p, Many(es[..k] + es[k + 1..]));
      MayWriteStays(c, kw, K, W, db, db', t, row, p);
      TrimEvolves(c, kw, K, W, db', t, row, p, k, sz - 1);
      EvolvesTrans(c, kw, K, W, db, db', Trim(db', t, row, p, k, sz - 1).db);
    }
  }

}
