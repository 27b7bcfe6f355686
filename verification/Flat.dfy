/** Objects without links: exactly when an upsert succeeds, and that repeating it changes nothing. */
module Flat {
  import opened Outcomes
  import opened Schemas
  import opened Tables
  import opened Upsert
  import opened Meanings
  import opened Trace
  import opened Evolution
  import opened Keeps
  import opened Reuse
  import opened DiffMode
  import opened Storage

  /** No property of the type is a link or a list of links. */
  ghost predicate IsFlat(c: Config, t: nat) {
    forall i: nat :: i < |Props(c, t)| ==> !Prop(c, t, i).base.Object?
  }

  /** The value can be written to the property. */
  predicate Fits(prop: Property, x: Value, l: Loc) {
    if !prop.isArray then Takes(prop, x)
    else
      match x
      case Null => !prop.nullable
      case ListRef(t, row, p) => Loc(t, row, p) == l
      case Vals(vs) => forall k :: 0 <= k < |vs| ==> Takes(prop, vs[k])
      case _ => false
  }

  lemma FlatHasNoNodes(c: Config, t: nat, v: Value)
    requires IsFlat(c, t)
    ensures ChildNodes(c, t, v) == {}
  {}

  // ---- When a property can be set -----------------------------------------------------------------

  lemma OnlyAtTrans(a: Db, b: Db, d: Db, l: Loc)
    requires OnlyAt(a, b, l) && OnlyAt(b, d, l)
    ensures OnlyAt(a, d, l)
  {}

  /** No row is added and only one row changes. */
  ghost predicate OnlyRow(c: Config, db: Db, db': Db, t: nat, row: nat) {
    && |db.tables| == |db'.tables|
    && (forall t1: nat :: NumRows(db, t1) == NumRows(db', t1))
    && (forall t1: nat, r1: nat, p1: nat :: InRange(db, t1, r1, p1) == InRange(db', t1, r1, p1))
    && (forall t1: nat, r1: nat, p1: nat :: t1 != t || r1 != row ==> CellAt(db, t1, r1, p1) == CellAt(db', t1, r1, p1))
  }

  lemma OnlyRowTrans(c: Config, a: Db, b: Db, d: Db, t: nat, row: nat, p: nat)
    requires OnlyAt(a, b, Loc(t, row, p)) && OnlyRow(c, b, d, t, row)
    ensures OnlyRow(c, a, d, t, row)
  {}

  lemma ScalarElement(c: Config, db: Db, t: nat, row: nat, p: nat, x: Value, upd: bool, k: nat, sz: nat)
    requires c.inWrite && InRange(db, t, row, p) && CellAt(db, t, row, p).Many?
    requires !Prop(c, t, p).base.Object? && |ListAt(db, t, row, p)| == if k < sz then sz else k
    ensures var s := if k < sz then SetValue(c, db, t, row, p, k, x, upd) else AddValue(c, db, t, row, p, x, upd);
      && (s.res.Ok? <==> UnboxScalar(Prop(c, t, p), x).Ok?)
      && (s.res.Ok? ==> |ListAt(s.db, t, row, p)| == if k + 1 < sz then sz else k + 1)
      && OnlyAt(db, s.db, Loc(t, row, p))
  {
    var prop, es := Prop(c, t, p), ListAt(db, t, row, p);
    if UnboxScalar(prop, x).Ok? {
      var e := UnboxScalar(prop, x).value;
      var cur := if k < sz then LinkRow(es[k]) else None;
      assert UnboxItem(c, db, prop, x, upd, k < sz, cur) == Ran(db, Ok(ElemItem(e)));
      PutOnlyAt(db, if k < sz then ListSet else ListAdd, Loc(t, row, p), Many(if k < sz then es[k := e] else es + [e]));
    }
  }

  lemma {:induction false} LoopFits(c: Config, db: Db, t: nat, row: nat, p: nat, x: Value, upd: bool, k: nat, sz: nat)
    requires c.inWrite && ValidConfig(c) && Sound(c, db) && MayWrite(c, WritesKeys(c, upd), {}, {}, db, t, row, p)
    requires Prop(c, t, p).isArray && !Prop(c, t, p).base.Object? && x.Vals? && k <= |x.elems|
    requires |ListAt(db, t, row, p)| == if k < sz then sz else k
    ensures AssignDiff(c, db, t, row, p, x.elems, upd, k, sz).res.Ok? <==>
            forall j :: k <= j < |x.elems| ==> UnboxScalar(Prop(c, t, p), x.elems[j]).Ok?
    ensures OnlyAt(db, AssignDiff(c, db, t, row, p, x.elems, upd, k, sz).db, Loc(t, row, p))
    decreases |x.elems| - k
  {
    hide Spares, LogSpares, KeysStay, UniqueKeys, LogGrows, Grows;
    assert InRange(db, t, row, p) && CellOk(db, Prop(c, t, p), CellAt(db, t, row, p));
    if k == |x.elems| {
      TrimCuts(db, Loc(t, row, p), k, sz);
    } else {
      var s := if k < sz then SetValue(c, db, t, row, p, k, x.elems[k], upd)
               else AddValue(c, db, t, row, p, x.elems[k], upd);
      assert Avoids(c, {}, {});
      if k < sz {
        SetValueEvolves(c, WritesKeys(c, upd), {}, {}, db, t, row, p, k, x.elems[k], upd);
      } else {
        AddValueEvolves(c, WritesKeys(c, upd), {}, {}, db, t, row, p, x.elems[k], upd);
      }
      ScalarElement(c, db, t, row, p, x.elems[k], upd, k, sz);
      if s.res.Ok? {
        MayWriteStays(c, WritesKeys(c, upd), {}, {}, db, s.db, t, row, p);
        LoopFits(c, s.db, t, row, p, x, upd, k + 1, sz);
        OnlyAtTrans(db, s.db, AssignDiff(c, s.db, t, row, p, x.elems, upd, k + 1, sz).db, Loc(t, row, p));
      }
    }
  }

  lemma SetPropFits(c: Config, db: Db, t: nat, row: nat, p: nat, x: Value, upd: bool, diff: bool, isDefault: bool)
    requires c.inWrite && ValidConfig(c) && Sound(c, db) && MayWrite(c, WritesKeys(c, upd), {}, {}, db, t, row, p)
    requires !Prop(c, t, p).base.Object?
    ensures SetProp(c, db, t, row, p, x, upd, diff, isDefault).res.Ok? <==> Fits(Prop(c, t, p), x, Loc(t, row, p))
    ensures OnlyAt(db, SetProp(c, db, t, row, p, x, upd, diff, isDefault).db, Loc(t, row, p))
  {
    var prop := Prop(c, t, p);
    assert InRange(db, t, row, p) && CellOk(db, prop, CellAt(db, t, row, p));
    forall cell ensures OnlyAt(db, Put(db, SetCell, t, row, p, cell), Loc(t, row, p)) {
      PutOnlyAt(db, SetCell, Loc(t, row, p), cell);
    }
    PutOnlyAt(db, ListClear, Loc(t, row, p), Many([]));
    if prop.isArray && x.Vals? {
      if diff {
        LoopFits(c, db, t, row, p, x, upd, 0, |ListAt(db, t, row, p)|);
      } else {
        PutEvolves(c, WritesKeys(c, upd), {}, {}, db, ListClear, t, row, p, Many([]));
        var db' := Clear(db, t, row, p);
        MayWriteStays(c, WritesKeys(c, upd), {}, {}, db, db', t, row, p);
        LoopFits(c, db', t, row, p, x, upd, 0, 0);
        DiffOfNothing(c, db', t, row, p, x.elems, upd, 0);
        OnlyAtTrans(db, db', AssignPlain(c, db', t, row, p, x.elems, upd, 0).db, Loc(t, row, p));
      }
    }
  }

  /**
   * A property without links can be set exactly on an attached row, in a write transaction, unless
   * it is the primary key outside a migration, to a value that fits. That changes at most its cell,
   * which then reads back as the value.
   */
  lemma SetPropertyValueIff(c: Config, db: Db, t: nat, row: nat, p: nat, x: Value, upd: bool)
    requires ValidConfig(c) && Sound(c, db) && t < |c.schema| && !Prop(c, t, p).base.Object?
    ensures var s, prop := SetPropertyValue(c, db, t, row, p, x, upd), Prop(c, t, p);
      && (s.res.Ok? <==>
            && row < NumRows(db, t) && c.inWrite && p < |Props(c, t)|
            && (IsPrimary(c, t, p) ==> c.inMigration) && Fits(prop, x, Loc(t, row, p)))
      && OnlyAt(db, s.db, Loc(t, row, p))
      && (s.res.Ok? && Plain(prop, x) ==> GetPropertyValue(c, s.db, t, row, p) == Ok(x))
  {
    var s, prop := SetPropertyValue(c, db, t, row, p, x, upd), Prop(c, t, p);
    if row < NumRows(db, t) && c.inWrite && p < |Props(c, t)| && (IsPrimary(c, t, p) ==> c.inMigration) {
      var upd' := upd && !IsPrimary(c, t, p);
      assert SetProp(c, db, t, row, p, x, upd', false, false) == SetProp(c, db, t, row, p, x, upd, false, false);
      SetPropFits(c, db, t, row, p, x, upd', false, false);
      if s.res.Ok? && Plain(prop, x) {
        var K := if WritesKeys(c, upd') then {Everything} else {RowId(c, db, t, row)};
        AvoidsNothing(c, K);
        SetPropStores(c, K, db, t, row, p, x, upd', false, false);
        assert NumRows(db, t) == NumRows(s.db, t);
        StoredReads(c, s.db, t, row, p, x);
      }
    }
  }

  /** Every property from `i` on can be written or is skipped. */
  ghost predicate AllFit(c: Config, t: nat, place: Place, v: Value, i: nat) {
    forall j: nat :: i <= j < |Props(c, t)| ==>
      match Choose(c, t, j, v, place)
      case Skip => true
      case Fail(_) => false
      case Write(x, _) => Fits(Prop(c, t, j), x, Loc(t, place.row, j))
  }

  lemma {:induction false} PopulateFits(c: Config, K: set<Id>, db: Db, t: nat, place: Place, v: Value, upd: bool,
                        diff: bool, i: nat)
    requires Populating(c, K, db, t, place, v, upd, diff, i) && IsFlat(c, t)
    ensures Populate(c, db, t, place, v, upd, diff, i).res.Ok? <==> AllFit(c, t, place, v, i)
    ensures OnlyRow(c, db, Populate(c, db, t, place, v, upd, diff, i).db, t, place.row)
    decreases |Props(c, t)| - i
  {
    hide Choose, Fits, SetProp, StepsFrom, StepsAt, Evolves, Open;
    if i < |Props(c, t)| {
      match Choose(c, t, i, v, place)
      case Skip =>
        SkippingStays(c, K, db, t, place, v, upd, diff, i);
        PopulateFits(c, K, db, t, place, v, upd, diff, i + 1);
      case Fail(_) =>
      case Write(x, isDefault) =>
        WriteIsOpen(c, K, db, t, place, v, upd, diff, i);
        SetPropFits(c, db, t, place.row, i, x, upd, diff, isDefault);
        var s := SetProp(c, db, t, place.row, i, x, upd, diff, isDefault);
        if s.res.Ok? {
          OneEvolves(c, K, db, t, place, v, upd, diff, i);
          PopulatingStays(c, K, db, s.db, t, place, v, upd, diff, i);
          PopulateFits(c, K, s.db, t, place, v, upd, diff, i + 1);
          OnlyRowTrans(c, db, s.db, Populate(c, s.db, t, place, v, upd, diff, i + 1).db, t, place.row, i);
        }
    }
  }

  /** On a flat type a create succeeds exactly when it gets a row and every property can be written. */
  lemma FlatSucceedsIff(c: Config, db: Db, t: nat, v: Value, upd: bool, diff: bool)
    requires ValidConfig(c) && Sound(c, db) && t < |c.schema| && IsFlat(c, t)
    ensures Create(c, db, t, v, upd, diff, None).res.Ok? <==>
            && c.inWrite
            && PlaceOf(c, db, t, v, upd).Ok?
            && AllFit(c, t, PlaceOf(c, db, t, v, upd).value, v, 0)
  {
    var at := Locate(c, db, t, v, upd, diff, None);
    assert at == Locate(c, db, t, v, upd, false, None);
    if c.inWrite && at.res.Ok? {
      FlatIsPopulating(c, db, t, v, upd, diff);
      PopulateFits(c, Own(c, at.db, t, at.res.value.row, upd), at.db, t, at.res.value, v, upd, diff, 0);
    }
  }

  /** The row an upsert is about: the first that carries the key, if it updates it, else the next new one. */
  ghost predicate IsPlace(c: Config, db: Db, t: nat, v: Value, upd: bool, row: nat) {
    if upd && !Unclaimed(c, db, t, v) then
      exists key :: AsksFor(c, t, v, key) && FindFirst(db, t, Primary(c, t).value, key) == Some(row)
    else row == NumRows(db, t)
  }

  /** The key can be used: it is there, and no row has it unless that is to be updated or in a migration. */
  ghost predicate KeyIsFree(c: Config, db: Db, t: nat, v: Value, upd: bool) {
    Primary(c, t).Some? ==>
      exists key :: AsksFor(c, t, v, key) && (upd || c.inMigration || !Carried(c, db, t, key))
  }

  /**
   * Property `p` has what it needs: what is supplied fits it; and of a new row, where nothing is
   * supplied, so does its default, or without one it is not required, or may be missing.
   */
  predicate Provided(c: Config, t: nat, v: Value, row: nat, created: bool, p: nat) {
    var prop := Prop(c, t, p);
    v.Obj? &&
    if !Omits(v, p) then Fits(prop, v.fields[p].v, Loc(t, row, p))
    else if !created then true
    else if prop.default.Given? then Fits(prop, prop.default.v, Loc(t, row, p))
    else !Required(prop) || v.allowMissing
  }

  /**
   * On a flat type a create succeeds exactly when the realm is in a write transaction, the key can be
   * used, and every property but the key has what it needs.
   */
  lemma CreateSucceedsIff(c: Config, db: Db, t: nat, v: Value, upd: bool, diff: bool, row: nat)
    requires ValidConfig(c) && Sound(c, db) && t < |c.schema| && IsFlat(c, t) && IsPlace(c, db, t, v, upd, row)
    ensures Create(c, db, t, v, upd, diff, None).res.Ok? <==>
            && c.inWrite && KeyIsFree(c, db, t, v, upd)
            && forall p: nat :: p < |Props(c, t)| && !IsPrimary(c, t, p) ==>
                 Provided(c, t, v, row, row >= NumRows(db, t), p)
  {
    FlatSucceedsIff(c, db, t, v, upd, diff);
    PlaceIff(c, db, t, v, upd, row);
    if PlaceOf(c, db, t, v, upd).Ok? {
      var place := PlaceOf(c, db, t, v, upd).value;
      forall p: nat | p < |Props(c, t)|
        ensures IsPrimary(c, t, p) ==> !Choose(c, t, p, v, place).Fail?
        ensures IsPrimary(c, t, p) && Choose(c, t, p, v, place).Write? ==>
                  Fits(Prop(c, t, p), Choose(c, t, p, v, place).x, Loc(t, row, p))
        ensures !IsPrimary(c, t, p) ==>
                  (Provided(c, t, v, row, place.created, p) <==>
                     match Choose(c, t, p, v, place)
                     case Skip => true
                     case Fail(_) => false
                     case Write(x, _) => Fits(Prop(c, t, p), x, Loc(t, place.row, p)))
      {
        if IsPrimary(c, t, p) { KeyIsOffered(c, t, p, v); }
      }
    }
  }

  lemma PlaceIff(c: Config, db: Db, t: nat, v: Value, upd: bool, row: nat)
    requires ValidConfig(c) && Sound(c, db) && t < |c.schema| && IsPlace(c, db, t, v, upd, row)
    ensures var place := PlaceOf(c, db, t, v, upd);
      && (place.Ok? <==> KeyIsFree(c, db, t, v, upd))
      && (place.Ok? ==>
            && place.value.row == row && (place.value.created <==> row >= NumRows(db, t))
            && (Primary(c, t).Some? ==> KeyOf(c, t, Primary(c, t).value, v).Ok?))
  {
    UnclaimedIff(c, db, t, v);
    if Primary(c, t).Some? {
      var p := Primary(c, t).value;
      KeyIsOffered(c, t, p, v);
      if KeyOf(c, t, p, v).Ok? {
        var key := KeyOf(c, t, p, v).value;
        var found := FindFirst(db, t, p, key);
        assert AsksFor(c, t, v, key);
        if found.Some? { assert CellAt(db, t, found.value, p) == One(key); }
      }
    }
  }

  lemma FlatIsPopulating(c: Config, db: Db, t: nat, v: Value, upd: bool, diff: bool)
    requires c.inWrite && ValidConfig(c) && Sound(c, db) && t < |c.schema| && IsFlat(c, t)
    ensures var at := Locate(c, db, t, v, upd, diff, None);
      && at == Locate(c, db, t, v, upd, false, None)
      && (at.res.Ok? ==> Populating(c, Own(c, at.db, t, at.res.value.row, upd), at.db, t, at.res.value, v, upd, diff,
                                    0))
  {
    LocateEvolves(c, WritesKeys(c, upd), if upd then {} else {Everything}, {}, db, t, v, upd, diff, None);
    FlatHasNoNodes(c, t, v);
    var at := Locate(c, db, t, v, upd, diff, None);
    if at.res.Ok? && diff && v.Obj? {
      FlatLinksNothing(c, t, v);
      PopulateIsDescribed(c, Nodes(c, t, v), at.db, t, at.res.value, v, upd, 0);
    }
  }

  /** Where there are no links, no row is reused. */
  lemma FlatLinksNothing(c: Config, t: nat, v: Value)
    requires IsFlat(c, t)
    ensures forall t1: nat :: !Linked(c, Nodes(c, t, v), t1)
  {
    FlatNodes(c, t, v);
  }

  lemma FlatIsStorable(c: Config, db: Db, t: nat, v: Value, upd: bool, diff: bool)
    requires ValidConfig(c) && t < |c.schema| && IsFlat(c, t)
    ensures Storable(c, db, t, v, upd, diff)
  {
    FlatNodes(c, t, v);
    FlatLinksNothing(c, t, v);
    if diff { StepsAreDescribed(c, Nodes(c, t, v), db, t, v, upd, None); }
  }

  /** On a flat type an upsert changes the row that it found or added, and no other. */
  lemma UpsertChangesItsRow(c: Config, db: Db, t: nat, v: Value, upd: bool, diff: bool)
    requires ValidConfig(c) && Sound(c, db) && t < |c.schema| && IsFlat(c, t)
    ensures var s, at := Create(c, db, t, v, upd, diff, None), Locate(c, db, t, v, upd, diff, None);
      s.res.Ok? ==>
        && at.res.Ok? && s.res.value == at.res.value.row
        && OnlyRow(c, at.db, s.db, t, s.res.value)
        && (if at.res.value.created
            then at.db.tables == db.tables[t := db.tables[t] + [at.db.tables[t][|db.tables[t]|]]]
            else at.db == db)
  {
    var at := Locate(c, db, t, v, upd, diff, None);
    if c.inWrite && at.res.Ok? {
      FlatIsPopulating(c, db, t, v, upd, diff);
      PopulateFits(c, Own(c, at.db, t, at.res.value.row, upd), at.db, t, at.res.value, v, upd, diff, 0);
      PopulateReturns(c, at.db, t, at.res.value, v, upd, diff, 0);
    }
  }

  /**
   * On a flat type an upsert is about one row, the one that carries the key if it updates, else the next
   * new one: no other row changes, and no other is added.
   */
  lemma UpsertTouchesOneRow(c: Config, db: Db, t: nat, v: Value, upd: bool, diff: bool)
    requires ValidConfig(c) && Sound(c, db) && t < |c.schema| && IsFlat(c, t)
    ensures var s := Create(c, db, t, v, upd, diff, None);
      s.res.Ok? ==>
        && IsPlace(c, db, t, v, upd, s.res.value)
        && (forall t1: nat ::
              NumRows(s.db, t1) == NumRows(db, t1) + if t1 == t && s.res.value == NumRows(db, t) then 1 else 0)
        && (forall t1: nat, row1: nat, p1: nat :: InRange(db, t1, row1, p1) && (t1 != t || row1 != s.res.value) ==>
              CellAt(s.db, t1, row1, p1) == CellAt(db, t1, row1, p1))
  {
    UpsertChangesItsRow(c, db, t, v, upd, diff);
    var s, at := Create(c, db, t, v, upd, diff, None), Locate(c, db, t, v, upd, diff, None);
    if s.res.Ok? {
      UnclaimedIff(c, db, t, v);
      if Primary(c, t).Some? { KeyIsOffered(c, t, Primary(c, t).value, v); }
      forall t1: nat, row1: nat, p1: nat | InRange(db, t1, row1, p1) && (t1 != t || row1 != s.res.value)
        ensures CellAt(s.db, t1, row1, p1) == CellAt(db, t1, row1, p1)
      {
        assert CellAt(at.db, t1, row1, p1) == CellAt(s.db, t1, row1, p1);
      }
    }
  }

  // ---- Repeating it -------------------------------------------------------------------------------

  /** On a flat type what is stored is determined by the value. */
  lemma StoredOnce(c: Config, a: Db, b: Db, prop: Property, x: Value, ca: Cell, cb: Cell)
    requires !prop.base.Object? && Stored(c, a, prop, x, ca) && Stored(c, b, prop, x, cb)
    requires prop.isArray ==> x.Null? || x.Vals?
    ensures ca == cb
  {}

  /** A supplied value that the diff mode took for the null it found. */
  predicate Forgotten(c: Config, db: Db, t: nat, row: nat, v: Value, p: nat) {
    && p < |Props(c, t)| && !IsPrimary(c, t, p) && v.Obj? && !Omits(v, p)
    && MistakenAt(c, Prop(c, t, p), v.fields[p].v, Was(c, db, t, row, p))
  }

  lemma ForgottenIff(c: Config, db: Db, t: nat, v: Value, upd: bool, diff: bool, p: nat)
    requires ValidConfig(c) && Sound(c, db) && t < |c.schema| && IsFlat(c, t) && p < |Props(c, t)|
    requires Create(c, db, t, v, upd, diff, None).res.Ok? && (upd || Unclaimed(c, db, t, v))
    ensures var at := Locate(c, db, t, v, upd, false, None);
      Forgotten(c, db, t, at.res.value.row, v, p) <==>
      Mistaken(c, at.db, t, at.res.value, v, p) && !Choose(c, t, p, v, at.res.value).isDefault
  {
    PlacedFor(c, db, t, v, upd);
    FlatSucceedsIff(c, db, t, v, upd, diff);
  }

  /**
   * Repeating a successful create as an update returns the same row and changes nothing, whatever of
   * the object the value supplies, except that a plain repetition writes what a diff run took for
   * null. After a migration created a duplicate it finds the older row instead.
   */
  lemma RepeatingChangesNothing(c: Config, db: Db, t: nat, v: Value, upd: bool, diff: bool, diff2: bool)
    requires ValidConfig(c) && Sound(c, db) && UniqueKeys(c, db)
    requires t < |c.schema| && IsFlat(c, t) && Primary(c, t).Some?
    ensures var s := Create(c, db, t, v, upd, diff, None);
      s.res.Ok? ==>
        var s2 := Create(c, s.db, t, v, true, diff2, None);
        if upd || Unclaimed(c, db, t, v) then
          && s2.res == s.res
          && (s2.db.tables == s.db.tables <==>
                !(diff && !diff2 && exists p: nat :: Forgotten(c, db, t, s.res.value, v, p)))
        else s2.res != s.res
  {
    var s := Create(c, db, t, v, upd, diff, None);
    if s.res.Ok? && !upd && !Unclaimed(c, db, t, v) {
      CreatedComesFirst(c, db, t, v, upd, diff, Primary(c, t).value);
      var at2 := Locate(c, s.db, t, v, true, diff2, None);
      assert at2.res.Ok? ==> at2.res.value.row != s.res.value;
      if at2.res.Ok? { PopulateReturns(c, at2.db, t, at2.res.value, v, true, diff2, 0); }
    } else if s.res.Ok? {
      RepeatedCells(c, db, t, v, upd, diff, diff2);
      var s2, row := Create(c, s.db, t, v, true, diff2, None), s.res.value;
      if !(diff && !diff2 && exists p: nat :: Forgotten(c, db, t, s.res.value, v, p)) {
        forall t1: nat, r1: nat, p1: nat ensures CellAt(s2.db, t1, r1, p1) == CellAt(s.db, t1, r1, p1) {
          if t1 == t && r1 == row && p1 < |Props(c, t)| {
            assert Forgotten(c, db, t, s.res.value, v, p1) ==> !(diff && !diff2);
          } else if t1 == t && r1 == row {
            assert !InRange(s.db, t1, r1, p1) && !InRange(s2.db, t1, r1, p1);
          }
        }
        SameCellsSameTables(s2.db, s.db);
      }
    }
  }

  /** The second run writes to the same row, and changes a cell exactly where the first forgot a value. */
  lemma RepeatedCells(c: Config, db: Db, t: nat, v: Value, upd: bool, diff: bool, diff2: bool)
    requires ValidConfig(c) && Sound(c, db) && UniqueKeys(c, db) && (upd || Unclaimed(c, db, t, v))
    requires t < |c.schema| && IsFlat(c, t) && Primary(c, t).Some?
    requires Create(c, db, t, v, upd, diff, None).res.Ok?
    ensures var s := Create(c, db, t, v, upd, diff, None);
      var s2 := Create(c, s.db, t, v, true, diff2, None);
      && Sound(c, s.db) && Sound(c, s2.db)
      && s2.res == s.res && OnlyRow(c, s.db, s2.db, t, s.res.value)
      && forall j: nat :: j < |Props(c, t)| ==>
           (CellAt(s2.db, t, s.res.value, j) == CellAt(s.db, t, s.res.value, j) <==>
            !(diff && !diff2 && Forgotten(c, db, t, s.res.value, v, j)))
  {
    hide Choose, Mistaken, Forgotten;
    var s := Create(c, db, t, v, upd, diff, None);
    CreateEvolves(c, true, {}, {}, db, t, v, upd, diff, None) by { AvoidsNothing(c, {}); }
    SecondPlace(c, db, t, v, upd, diff);
    SecondFits(c, db, t, v, upd, diff);
    FlatSucceedsIff(c, s.db, t, v, true, diff2);
    var s2 := Create(c, s.db, t, v, true, diff2, None);
    CreateEvolves(c, true, {}, {}, s.db, t, v, true, diff2, None) by { AvoidsNothing(c, {}); }
    UpsertChangesItsRow(c, s.db, t, v, true, diff2);
    assert Locate(c, s.db, t, v, true, diff2, None) == Locate(c, s.db, t, v, true, false, None);
    forall j: nat | j < |Props(c, t)|
      ensures CellAt(s2.db, t, s.res.value, j) == CellAt(s.db, t, s.res.value, j) <==>
              !(diff && !diff2 && Forgotten(c, db, t, s.res.value, v, j))
    {
      SameCellIff(c, db, t, v, upd, diff, diff2, j);
    }
  }

  lemma FlatNodes(c: Config, t: nat, v: Value)
    requires IsFlat(c, t)
    ensures ChildNodes(c, t, v) == {} && Nodes(c, t, v) <= {Node(t, v)}
  {}

  /** The second time the row is found by its key. */
  lemma SecondPlace(c: Config, db: Db, t: nat, v: Value, upd: bool, diff: bool)
    requires ValidConfig(c) && Sound(c, db) && UniqueKeys(c, db) && (upd || Unclaimed(c, db, t, v))
    requires t < |c.schema| && Primary(c, t).Some?
    requires Create(c, db, t, v, upd, diff, None).res.Ok?
    ensures var s := Create(c, db, t, v, upd, diff, None);
      Locate(c, s.db, t, v, true, false, None) == Ran(s.db, Ok(Place(s.res.value, false, true)))
  {
    CreatedComesFirst(c, db, t, v, upd, diff, Primary(c, t).value);
  }

  /** What the value supplies was written the first time and is written again; nothing else is. */
  lemma SecondFits(c: Config, db: Db, t: nat, v: Value, upd: bool, diff: bool)
    requires ValidConfig(c) && Sound(c, db)
    requires t < |c.schema| && IsFlat(c, t) && Primary(c, t).Some?
    requires Create(c, db, t, v, upd, diff, None).res.Ok?
    ensures v.Obj?
    ensures AllFit(c, t, Place(Create(c, db, t, v, upd, diff, None).res.value, false, true), v, 0)
    ensures forall j: nat :: j < |Props(c, t)| ==>
              var again := Choose(c, t, j, v, Place(Create(c, db, t, v, upd, diff, None).res.value, false, true));
              again == Skip || again == Choose(c, t, j, v, PlaceOf(c, db, t, v, upd).value)
  {
    FlatSucceedsIff(c, db, t, v, upd, diff);
    UpsertChangesItsRow(c, db, t, v, upd, diff);
    var first, place := PlaceOf(c, db, t, v, upd).value,
        Place(Create(c, db, t, v, upd, diff, None).res.value, false, true);
    LocateEvolves(c, WritesKeys(c, upd), {}, {}, db, t, v, upd, diff, None);
    forall j: nat | j < |Props(c, t)|
      ensures match Choose(c, t, j, v, place)
        case Skip => true
        case Fail(_) => false
        case Write(x, _) =>
          Fits(Prop(c, t, j), x, Loc(t, place.row, j)) && Choose(c, t, j, v, first) == Choose(c, t, j, v, place)
    {
      assert Choose(c, t, j, v, place) == Skip || Choose(c, t, j, v, first) == Choose(c, t, j, v, place);
    }
  }

  lemma FirstIsSound(c: Config, db: Db, t: nat, v: Value, upd: bool, diff: bool)
    requires ValidConfig(c) && Sound(c, db) && t < |c.schema|
    ensures Sound(c, Create(c, db, t, v, upd, diff, None).db)
  {
    CreateEvolves(c, true, {}, {}, db, t, v, upd, diff, None) by { AvoidsNothing(c, {}); }
  }

  lemma SameCellIff(c: Config, db: Db, t: nat, v: Value, upd: bool, diff: bool, diff2: bool, j: nat)
    requires ValidConfig(c) && Sound(c, db) && UniqueKeys(c, db) && (upd || Unclaimed(c, db, t, v))
    requires t < |c.schema| && IsFlat(c, t) && Primary(c, t).Some? && j < |Props(c, t)|
    requires Create(c, db, t, v, upd, diff, None).res.Ok?
    requires Create(c, Create(c, db, t, v, upd, diff, None).db, t, v, true, diff2, None).res.Ok?
    ensures var s := Create(c, db, t, v, upd, diff, None);
      var s2 := Create(c, s.db, t, v, true, diff2, None);
      CellAt(s2.db, t, s.res.value, j) == CellAt(s.db, t, s.res.value, j) <==>
      !(diff && !diff2 && Forgotten(c, db, t, s.res.value, v, j))
  {
    var s, at := Create(c, db, t, v, upd, diff, None), Locate(c, db, t, v, upd, false, None);
    var s2 := Create(c, s.db, t, v, true, diff2, None);
    hide Storable, Steps, Evolves;
    FlatIsStorable(c, db, t, v, upd, diff);
    FlatIsStorable(c, s.db, t, v, true, diff2);
    FirstIsSound(c, db, t, v, upd, diff);
    CreatePopulates(c, db, t, v, upd, diff);
    CreatePopulates(c, s.db, t, v, true, diff2);
    SecondPlace(c, db, t, v, upd, diff);
    SecondFits(c, db, t, v, upd, diff);
    ForgottenIff(c, db, t, v, upd, diff, j);
    var place := Place(s.res.value, false, true);
    var again := Choose(c, t, j, v, place);
    if again.Write? && !LeftAlone(Prop(c, t, j), again.x, again.isDefault)
        && !Mistaken(c, at.db, t, at.res.value, v, j) {
      assert Stored(c, s.db, Prop(c, t, j), again.x, CellAt(s.db, t, s.res.value, j));
      if !(diff2 && Mistaken(c, s.db, t, place, v, j)) {
        StoredOnce(c, s.db, s2.db, Prop(c, t, j), again.x, CellAt(s.db, t, s.res.value, j),
                   CellAt(s2.db, t, s.res.value, j));
      }
    } else if again.Write? && !LeftAlone(Prop(c, t, j), again.x, again.isDefault) {
      if !diff {
        assert Stored(c, s.db, Prop(c, t, j), again.x, CellAt(s.db, t, s.res.value, j));
      } else {
        assert CellAt(s.db, t, s.res.value, j) == One(Nothing);
      }
      if !(diff2 && Mistaken(c, s.db, t, place, v, j)) {
        assert Stored(c, s2.db, Prop(c, t, j), again.x, CellAt(s2.db, t, s.res.value, j));
      }
    }
  }
}
