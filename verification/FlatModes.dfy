/** Objects without links: exactly when the diff mode and the plain mode part, and what a plain write repeats. */
module FlatModes {
  import opened Outcomes
  import opened Schemas
  import opened Tables
  import opened Upsert
  import opened Trace
  import opened Evolution
  import opened Keeps
  import opened DiffMode
  import opened Storage
  import opened DiffTheorems
  import opened Flat
  import opened Writes

  /** Two databases that agree but for a few cells are the same exactly when those agree too. */
  lemma SameIff(a: Db, b: Db, a': Db, b': Db, X: set<Loc>, l: Loc)
    requires Similar(a, b, X) && l !in X && OnlyAt(a, a', l) && OnlyAt(b, b', l)
    ensures Similar(a', b', X + {l})
    ensures Similar(a', b', {}) <==>
            Similar(a, b, {}) && CellAt(a', l.t, l.row, l.p) == CellAt(b', l.t, l.row, l.p)
  {}

  /** One property: the plain and the diff mode leave the same cell unless the value is mistaken. */
  lemma CellsAgreeIff(c: Config, K: set<Id>, a: Db, b: Db, t: nat, place: Place, v: Value, upd: bool, i: nat)
    requires Populating(c, K, a, t, place, v, upd, false, i) && Populating(c, K, b, t, place, v, upd, true, i)
    requires IsFlat(c, t)
    requires i < |Props(c, t)| && CellAt(a, t, place.row, i) == CellAt(b, t, place.row, i)
    requires Choose(c, t, i, v, place).Write?
    ensures var w := Choose(c, t, i, v, place);
      var sa := SetProp(c, a, t, place.row, i, w.x, upd, false, w.isDefault);
      var sb := SetProp(c, b, t, place.row, i, w.x, upd, true, w.isDefault);
      && (sa.res.Ok? <==> sb.res.Ok?)
      && (sa.res.Ok? ==>
            (CellAt(sa.db, t, place.row, i) == CellAt(sb.db, t, place.row, i) <==> !Mistaken(c, a, t, place, v, i)))
  {
    hide Avoids, Spares, LogSpares, KeysStay, LogGrows, UniqueKeys, Grows;
    var w, prop, l := Choose(c, t, i, v, place), Prop(c, t, i), Loc(t, place.row, i);
    WriteIsOpen(c, K, a, t, place, v, upd, false, i);
    WriteIsOpen(c, K, b, t, place, v, upd, true, i);
    SetPropFits(c, a, t, place.row, i, w.x, upd, false, w.isDefault)
        by { OpenAnyway(c, K, a, t, place, v, upd, false, i); }
    SetPropFits(c, b, t, place.row, i, w.x, upd, true, w.isDefault)
        by { OpenAnyway(c, K, b, t, place, v, upd, true, i); }
    var sa := SetProp(c, a, t, place.row, i, w.x, upd, false, w.isDefault);
    var sb := SetProp(c, b, t, place.row, i, w.x, upd, true, w.isDefault);
    if sa.res.Ok? && !LeftAlone(prop, w.x, w.isDefault) {
      SetPropStores(c, K, a, t, place.row, i, w.x, upd, false, w.isDefault);
      if MistakenAt(c, prop, w.x, CellAt(b, t, place.row, i)) {
        MistakenStays(c, b, t, place.row, i, w.x, upd, w.isDefault);
      } else {
        SetPropStores(c, K, b, t, place.row, i, w.x, upd, true, w.isDefault);
        StoredOnce(c, sa.db, sb.db, prop, w.x, CellAt(sa.db, t, place.row, i), CellAt(sb.db, t, place.row, i));
      }
    }
  }

  lemma OpenAnyway(c: Config, K: set<Id>, db: Db, t: nat, place: Place, v: Value, upd: bool, diff: bool, i: nat)
    requires Populating(c, K, db, t, place, v, upd, diff, i) && i < |Props(c, t)| && Choose(c, t, i, v, place).Write?
    ensures MayWrite(c, WritesKeys(c, upd), {}, {}, db, t, place.row, i) && InRange(db, t, place.row, i)
  {}

  lemma {:induction false} PopulateModesIff(c: Config, K: set<Id>, a: Db, b: Db, X: set<Loc>, t: nat, place: Place,
                        v: Value, upd: bool, i: nat)
    requires Populating(c, K, a, t, place, v, upd, false, i) && Populating(c, K, b, t, place, v, upd, true, i)
    requires IsFlat(c, t)
    requires Similar(a, b, X) && forall l :: l in X ==> l.p < i
    ensures var fa, fb := Populate(c, a, t, place, v, upd, false, i), Populate(c, b, t, place, v, upd, true, i);
      && (fa.res.Ok? <==> fb.res.Ok?)
      && (fa.res.Ok? ==>
            (Similar(fa.db, fb.db, {}) <==>
             Similar(a, b, {}) && forall j: nat :: i <= j < |Props(c, t)| ==> !Mistaken(c, a, t, place, v, j)))
    decreases |Props(c, t)| - i
  {
    hide Choose, Similar, OnlyAt, NullSafeFor, Avoids, Sound, Evolves;
    if i < |Props(c, t)| {
      match Choose(c, t, i, v, place)
      case Skip =>
        SkippingStays(c, K, a, t, place, v, upd, false, i);
        SkippingStays(c, K, b, t, place, v, upd, true, i);
        PopulateModesIff(c, K, a, b, X, t, place, v, upd, i + 1);
      case Fail(_) =>
      case Write(x, isDefault) =>
        var l := Loc(t, place.row, i);
        var sa := SetProp(c, a, t, place.row, i, x, upd, false, isDefault);
        var sb := SetProp(c, b, t, place.row, i, x, upd, true, isDefault);
        assert CellAt(a, t, place.row, i) == CellAt(b, t, place.row, i) by { AgreeOff(a, b, X, l); }
        CellsAgreeIff(c, K, a, b, t, place, v, upd, i);
        OneStep(c, K, a, t, place, v, upd, false, i);
        OneStep(c, K, b, t, place, v, upd, true, i);
        if sa.res.Ok? {
          SameIff(a, b, sa.db, sb.db, X, l);
          PopulateModesIff(c, K, sa.db, sb.db, X + {l}, t, place, v, upd, i + 1);
          StillMistaken(c, a, sa.db, t, place, v, i);
        }
    }
  }

  lemma AgreeOff(a: Db, b: Db, X: set<Loc>, l: Loc)
    requires Similar(a, b, X) && l !in X
    ensures CellAt(a, l.t, l.row, l.p) == CellAt(b, l.t, l.row, l.p)
  {}

  /** Setting a property changes its cell only, and the row stays ready for the rest. */
  lemma OneStep(c: Config, K: set<Id>, db: Db, t: nat, place: Place, v: Value, upd: bool, diff: bool, i: nat)
    requires Populating(c, K, db, t, place, v, upd, diff, i) && IsFlat(c, t)
    requires i < |Props(c, t)| && Choose(c, t, i, v, place).Write?
    ensures var w := Choose(c, t, i, v, place);
      var s := SetProp(c, db, t, place.row, i, w.x, upd, diff, w.isDefault);
      && OnlyAt(db, s.db, Loc(t, place.row, i)) && LogGrows(db, s.db)
      && (s.res.Ok? ==> Populating(c, K, s.db, t, place, v, upd, diff, i + 1))
  {
    hide Choose;
    var w := Choose(c, t, i, v, place);
    OpenAnyway(c, K, db, t, place, v, upd, diff, i) by { assert w.Write?; }
    SetPropFits(c, db, t, place.row, i, w.x, upd, diff, w.isDefault);
    OneEvolves(c, K, db, t, place, v, upd, diff, i);
    var s := SetProp(c, db, t, place.row, i, w.x, upd, diff, w.isDefault);
    if s.res.Ok? { PopulatingStays(c, K, db, s.db, t, place, v, upd, diff, i); }
  }

  /** Which later values are mistaken does not depend on the property just set. */
  lemma StillMistaken(c: Config, db: Db, db': Db, t: nat, place: Place, v: Value, i: nat)
    requires OnlyAt(db, db', Loc(t, place.row, i))
    ensures forall j: nat :: i < j ==> Mistaken(c, db', t, place, v, j) == Mistaken(c, db, t, place, v, j)
  {}

  /**
   * On a type without links the two modes succeed alike, and then end with the same tables exactly
   * when no supplied value is the typed reading of a cell that is null.
   */
  lemma FlatModesAgreeIff(c: Config, db: Db, t: nat, v: Value, upd: bool)
    requires ValidConfig(c) && Sound(c, db) && t < |c.schema| && IsFlat(c, t)
    ensures var d, plain := Create(c, db, t, v, upd, true, None), Create(c, db, t, v, upd, false, None);
      var at := Locate(c, db, t, v, upd, false, None);
      && (d.res.Ok? <==> plain.res.Ok?)
      && (d.res.Ok? ==>
            (d.db.tables == plain.db.tables <==>
             forall j: nat :: j < |Props(c, t)| ==> !Mistaken(c, at.db, t, at.res.value, v, j)))
  {
    hide Choose, OnlyAt, NullSafeFor, UniqueKeys, LogGrows, Spares, LogSpares, KeysStay;
    var at := Locate(c, db, t, v, upd, false, None);
    if c.inWrite && at.res.Ok? {
      FlatIsPopulating(c, db, t, v, upd, false);
      FlatIsPopulating(c, db, t, v, upd, true);
      PopulateModesIff(c, Own(c, at.db, t, at.res.value.row, upd), at.db, at.db, {}, t, at.res.value, v, upd, 0);
      var fa := Populate(c, at.db, t, at.res.value, v, upd, false, 0).db;
      var fb := Populate(c, at.db, t, at.res.value, v, upd, true, 0).db;
      if Similar(fa, fb, {}) { SimilarIsSame(fa, fb); }
    }
  }

  // ---- What a plain write repeats -------------------------------------------------------------------

  /** Setting the value writes the cell in vain: it is there already, or an empty list is cleared. */
  predicate RepeatedAt(prop: Property, x: Value, cell: Cell) {
    if prop.isArray then !x.ListRef? && cell == Many([])
    else UnboxScalar(prop, x).Ok? && cell == One(UnboxScalar(prop, x).value)
  }

  predicate Repeated(c: Config, db: Db, t: nat, place: Place, v: Value, j: nat) {
    var w := Choose(c, t, j, v, place);
    w.Write? && RepeatedAt(Prop(c, t, j), w.x, CellAt(db, t, place.row, j))
  }

  /** A scalar is written plainly even if it is there already; a list is cleared and filled. */
  lemma SetRepeatsIff(c: Config, K: set<Id>, db: Db, t: nat, place: Place, v: Value, upd: bool, i: nat)
    requires Populating(c, K, db, t, place, v, upd, false, i) && IsFlat(c, t)
    requires i < |Props(c, t)| && Choose(c, t, i, v, place).Write?
    ensures var w := Choose(c, t, i, v, place);
      var s := SetProp(c, db, t, place.row, i, w.x, upd, false, w.isDefault);
      s.res.Ok? ==> LogGrows(db, s.db) && (OnlyChanges(db, s.db) <==> !Repeated(c, db, t, place, v, i))
  {
    hide Choose, OnlyChanges, LogGrows, Evolves;
    var w, prop, row := Choose(c, t, i, v, place), Prop(c, t, i), place.row;
    var s := SetProp(c, db, t, row, i, w.x, upd, false, w.isDefault);
    WriteIsOpen(c, K, db, t, place, v, upd, false, i);
    OpenIsWritable(c, K, db, t, row, i, upd, PropNodes(c, prop, w.x));
    NoChange(db);
    if s.res.Ok? {
      if prop.isArray {
        if !w.x.ListRef? {
          var cleared := Clear(db, t, row, i);
          PutChangesIff(db, ListClear, t, row, i, Many([]));
          if w.x.Vals? {
            assert s == Assign(c, db, t, row, i, w.x, upd, false);
            assert s == AssignPlain(c, cleared, t, row, i, w.x.elems, upd, 0);
            FilledChanges(c, cleared, t, row, i, w.x.elems, upd, 0);
            OnlyChangesSplit(db, cleared, s.db);
          }
        }
      } else {
        PutChangesIff(db, SetCell, t, row, i, One(UnboxScalar(prop, w.x).value));
      }
    }
  }

  lemma AddScalar(c: Config, db: Db, t: nat, row: nat, p: nat, x: Value, upd: bool)
    requires !Prop(c, t, p).base.Object?
    ensures var s, e := AddValue(c, db, t, row, p, x, upd), UnboxScalar(Prop(c, t, p), x);
      if s.res.Ok? then e.Ok? && s.db == Put(db, ListAdd, t, row, p, Many(ListAt(db, t, row, p) + [e.value]))
      else s.db == db
  {
    var prop := Prop(c, t, p);
    var u := UnboxItem(c, db, prop, x, upd, false, None);
    assert if UnboxScalar(prop, x).Ok? then u == Ran(db, Ok(ElemItem(UnboxScalar(prop, x).value)))
           else u.db == db && u.res.Err?;
  }

  /** Adding scalars makes the list longer. */
  lemma {:induction false} FilledChanges(c: Config, db: Db, t: nat, row: nat, p: nat, vs: seq<Value>, upd: bool, k: nat)
    requires !Prop(c, t, p).base.Object?
    ensures var s := AssignPlain(c, db, t, row, p, vs, upd, k); OnlyChanges(db, s.db) && LogGrows(db, s.db)
    decreases |vs| - k
  {
    hide OnlyChanges, LogGrows;
    NoChange(db);
    if k < |vs| {
      var prop, s := Prop(c, t, p), AddValue(c, db, t, row, p, vs[k], upd);
      AddScalar(c, db, t, row, p, vs[k], upd);
      if s.res.Ok? {
        var es := ListAt(db, t, row, p);
        PutChangesIff(db, ListAdd, t, row, p, Many(es + [UnboxScalar(prop, vs[k]).value]));
        assert |es + [UnboxScalar(prop, vs[k]).value]| != |es|;
        FilledChanges(c, s.db, t, row, p, vs, upd, k + 1);
        OnlyChangesSplit(db, s.db, AssignPlain(c, s.db, t, row, p, vs, upd, k + 1).db);
      }
    }
  }

  lemma StillRepeated(c: Config, db: Db, db': Db, t: nat, place: Place, v: Value, i: nat)
    requires OnlyAt(db, db', Loc(t, place.row, i))
    ensures forall j: nat :: i < j ==> Repeated(c, db', t, place, v, j) == Repeated(c, db, t, place, v, j)
  {}

  lemma {:induction false} PopulateRepeatsIff(c: Config, K: set<Id>, db: Db, t: nat, place: Place, v: Value,
                        upd: bool, i: nat)
    requires Populating(c, K, db, t, place, v, upd, false, i) && IsFlat(c, t)
    ensures var s := Populate(c, db, t, place, v, upd, false, i);
      && LogGrows(db, s.db)
      && (s.res.Ok? ==>
            (OnlyChanges(db, s.db) <==> forall j: nat :: i <= j < |Props(c, t)| ==> !Repeated(c, db, t, place, v, j)))
    decreases |Props(c, t)| - i
  {
    hide Choose, OnlyAt, Sound, OnlyChanges;
    RestEvolves(c, K, db, t, place, v, upd, false, i);
    if i < |Props(c, t)| {
      match Choose(c, t, i, v, place)
      case Skip =>
        SkippingStays(c, K, db, t, place, v, upd, false, i);
        PopulateRepeatsIff(c, K, db, t, place, v, upd, i + 1);
      case Fail(_) =>
      case Write(x, isDefault) =>
        var s := SetProp(c, db, t, place.row, i, x, upd, false, isDefault);
        OneStep(c, K, db, t, place, v, upd, false, i);
        SetRepeatsIff(c, K, db, t, place, v, upd, i);
        if s.res.Ok? {
          PopulateRepeatsIff(c, K, s.db, t, place, v, upd, i + 1);
          StillRepeated(c, db, s.db, t, place, v, i);
          OnlyChangesSplit(db, s.db, Populate(c, s.db, t, place, v, upd, false, i + 1).db);
        }
    } else {
      NoChange(db);
    }
  }

  lemma CreateRepeatsIff(c: Config, db: Db, t: nat, v: Value, upd: bool)
    requires ValidConfig(c) && Sound(c, db) && t < |c.schema| && IsFlat(c, t)
    ensures var s, at := Create(c, db, t, v, upd, false, None), Locate(c, db, t, v, upd, false, None);
      s.res.Ok? ==>
        && at.res.Ok? && LogGrows(db, s.db)
        && (OnlyChanges(db, s.db) <==> forall j: nat :: j < |Props(c, t)| ==>
            !Repeated(c, at.db, t, at.res.value, v, j))
  {
    hide Choose, OnlyAt, Repeated, UniqueKeys, Spares, LogSpares, KeysStay;
    var s, at := Create(c, db, t, v, upd, false, None), Locate(c, db, t, v, upd, false, None);
    if s.res.Ok? {
      LocateEvolves(c, WritesKeys(c, upd), {}, {}, db, t, v, upd, false, None);
      assert OnlyChanges(db, at.db);
      FlatIsPopulating(c, db, t, v, upd, false);
      PopulateRepeatsIff(c, Own(c, at.db, t, at.res.value.row, upd), at.db, t, at.res.value, v, upd, 0);
      OnlyChangesSplit(db, at.db, s.db);
      LogGrowsTrans(db, at.db, s.db);
    }
  }
}
