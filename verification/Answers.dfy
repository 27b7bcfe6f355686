/** What the public calls answer, exceptions included, told from the value and the database before the call. */
module Answers {
  import opened Outcomes
  import opened Schemas
  import opened Tables
  import opened Upsert
  import opened Meanings
  import opened Trace
  import opened Evolution
  import opened Descriptions
  import opened DiffMode
  import opened DiffTheorems
  import opened Parting
  import opened ModesPart
  import opened Censuses

  /** The two end alike: both return, or both raise the same exception. */
  ghost predicate Alike<T, U>(a: Result<T>, b: Result<U>) {
    (a.Ok? <==> b.Ok?) && (a.Err? ==> b == Err(a.error))
  }

  // ---- Creating -----------------------------------------------------------------------------------

  /**
   * Whether a create returns, and what it raises if not, for objects nested to any depth: in the plain
   * mode always as judged from the census, and in the diff mode too, unless it writes keys, of every
   * create, and of an update that describes no object twice and offers no linked row for reuse.
   */
  lemma CreateAnswers(c: Config, db: Db, t: nat, v: Value, upd: bool, diff: bool)
    requires ValidConfig(c) && Sound(c, db) && t < |c.schema|
    requires diff ==> !WritesKeys(c, upd) && (upd ==> Distinct(c, t, v) && !Misled(c, db, t, v, upd, false))
    ensures Alike(Create(c, db, t, v, upd, diff, None).res, Judge(c, CensusOf(c, db), t, v, upd).res)
  {
    hide Create, Judge, Misled, Distinct;
    CensusCounts(c, db, WritesKeys(c, upd));
    CreateIsJudged(c, CensusOf(c, db), db, t, v, upd, None);
    if diff { ModesAnswerAlike(c, db, t, v, upd); }
  }

  lemma ModesAnswerAlike(c: Config, db: Db, t: nat, v: Value, upd: bool)
    requires ValidConfig(c) && Sound(c, db) && t < |c.schema| && !WritesKeys(c, upd)
    requires upd ==> Distinct(c, t, v) && !Misled(c, db, t, v, upd, false)
    ensures Create(c, db, t, v, upd, true, None).res == Create(c, db, t, v, upd, false, None).res
  {
    hide Misled, Distinct, Evolves, Create, Steps;
    if !c.inWrite {
      OutsideNothingIsDone(c, db, t, v, upd);
    } else {
      if upd {
        EvolvesRefl(c, false, Ids(c, Nodes(c, t, v)), {}, db);
        CreateIsForetold(c, db, db, t, v, upd, false, None);
      }
      ModesPartIff(c, db, t, v, upd);
    }
  }

  // ---- Setting a property -------------------------------------------------------------------------

  /** A value raises none of the exceptions of the setter itself. */
  lemma {:induction false} OnlyOfTheValue(c: Config, n: Census, l: Loc, x: Value, upd: bool)
    requires c.inWrite
    ensures JudgeValue(c, n, l, x, upd).res.Err? ==> OfTheValue(JudgeValue(c, n, l, x, upd).res.error)
    decreases Height(x), 6, 0
  {
    if Prop(c, l.t, l.p).isArray && x.Vals? {
      OnlyAlong(c, n, Prop(c, l.t, l.p), x.elems, upd, 0);
    } else {
      OnlyBelow(c, n, Prop(c, l.t, l.p).target, x, upd);
    }
  }

  predicate OfTheValue(e: Error) {
    e !in {NotInWrite, Detached, InvalidProperty, ModifyPrimaryKey, MissingPrimaryKey, OutOfBounds}
  }

  lemma {:induction false} OnlyAlong(c: Config, n: Census, prop: Property, vs: seq<Value>, upd: bool, k: nat)
    requires c.inWrite
    ensures JudgeAlong(c, n, prop, vs, upd, k).res.Err? ==> OfTheValue(JudgeAlong(c, n, prop, vs, upd, k).res.error)
    decreases ValuesHeight(vs), 4, |vs| - k
  {
    if k < |vs| {
      OnlyBelow(c, n, prop.target, vs[k], upd);
      OnlyAlong(c, JudgeElement(c, n, prop, vs[k], upd).n, prop, vs, upd, k + 1);
    }
  }

  lemma {:induction false} OnlyBelow(c: Config, n: Census, t: nat, v: Value, upd: bool)
    requires c.inWrite
    ensures Judge(c, n, t, v, upd).res.Err? ==> OfTheValue(Judge(c, n, t, v, upd).res.error)
    decreases Height(v), 2, 0
  {
    forall m, row, created
      ensures var r := JudgeFrom(c, m, t, row, created, v, upd, 0).res; r.Err? ==> OfTheValue(r.error)
    {
      OnlyFrom(c, m, t, row, created, v, upd, 0);
    }
  }

  lemma {:induction false} OnlyFrom(c: Config, n: Census, t: nat, row: nat, created: bool, v: Value, upd: bool, i: nat)
    requires c.inWrite
    ensures var r := JudgeFrom(c, n, t, row, created, v, upd, i).res; r.Err? ==> OfTheValue(r.error)
    decreases Height(v), 1, |Props(c, t)| - i
  {
    if i < |Props(c, t)| {
      if v.Obj? && !IsPrimary(c, t, i) && (created || !Omits(v, i)) && Offered(Prop(c, t, i), v, i).Given? {
        var x := Offered(Prop(c, t, i), v, i).v;
        OnlyOfTheValue(c, n, Loc(t, row, i), x, upd);
        OnlyFrom(c, JudgeValue(c, n, Loc(t, row, i), x, upd).n, t, row, created, v, upd, i + 1);
      }
      OnlyFrom(c, n, t, row, created, v, upd, i + 1);
    }
  }

  /**
   * What setting a property from outside raises: each failing check its own exception, the first one
   * first, and then nothing is changed; and if all hold, what the value itself raises, as judged from the census.
   */
  lemma SetPropertyValueAnswers(c: Config, db: Db, t: nat, row: nat, p: nat, x: Value, upd: bool)
    requires ValidConfig(c) && Sound(c, db) && t < |c.schema|
    ensures var s := SetPropertyValue(c, db, t, row, p, x, upd);
      var attached, known := row < NumRows(db, t), p < |Props(c, t)|;
      && (s.res == Err(Detached) <==> !attached)
      && (s.res == Err(NotInWrite) <==> attached && !c.inWrite)
      && (s.res == Err(InvalidProperty) <==> attached && c.inWrite && !known)
      && (s.res == Err(ModifyPrimaryKey) <==> attached && c.inWrite && known && IsPrimary(c, t, p) && !c.inMigration)
      && (attached && c.inWrite && known && (IsPrimary(c, t, p) ==> c.inMigration) ==>
            Alike(s.res, JudgeValue(c, CensusOf(c, db), Loc(t, row, p), x, upd).res))
      && (s.res.Err? && !OfTheValue(s.res.error) ==> s.db == db)
  {
    hide SetProp, JudgeValue;
    var n := CensusOf(c, db);
    if row < NumRows(db, t) && c.inWrite && p < |Props(c, t)| {
      CensusCounts(c, db, WritesKeys(c, upd));
      OnlyOfTheValue(c, n, Loc(t, row, p), x, upd);
      if IsPrimary(c, t, p) {
        KeyIsJudged(c, n, db, t, row, p, x, upd);
      } else {
        SetPropIsJudged(c, n, db, t, row, p, x, upd, false);
      }
    }
  }

  lemma KeyIsJudged(c: Config, n: Census, db: Db, t: nat, row: nat, p: nat, x: Value, upd: bool)
    requires ValidConfig(c) && t < |c.schema| && IsPrimary(c, t, p)
    ensures Alike(SetProp(c, db, t, row, p, x, upd, false, false).res, JudgeValue(c, n, Loc(t, row, p), x, upd).res)
  {}

  // ---- Assigning a list -----------------------------------------------------------------------------

  /** What assigning a list comes to: null clears it, its own list changes nothing, only values can be enumerated. */
  function JudgeList(c: Config, n: Census, l: Loc, x: Value, upd: bool): Result<()> {
    if x.Null? || x == ListRef(l.t, l.row, l.p) then Ok(())
    else if x.Vals? then JudgeAlong(c, n, Prop(c, l.t, l.p), x.elems, upd, 0).res
    else Err(BadCast)
  }

  /**
   * Whether assigning a list returns in a transaction, and what it raises if not, for elements that describe
   * objects of any depth: in the plain mode as judged from the census, and in the diff mode too, unless it
   * writes keys, of every list that describes no object twice and does not mislead it.
   */
  lemma AssignAnswers(c: Config, db: Db, t: nat, row: nat, p: nat, x: Value, upd: bool, diff: bool)
    requires ValidConfig(c) && Sound(c, db) && c.inWrite && ListCell(c, t, p) && row < NumRows(db, t)
    requires var prop := Prop(c, t, p);
      diff ==>
        && !WritesKeys(c, upd) && !MisledAt(c, db, prop, x, upd, true, CellAt(db, t, row, p))
        && (upd ==> DistinctIn(c, prop, x) && RowId(c, db, t, row) !in Ids(c, PropNodes(c, prop, x)))
    ensures Alike(Assign(c, db, t, row, p, x, upd, diff).res, JudgeList(c, CensusOf(c, db), Loc(t, row, p), x, upd))
  {
    hide AssignPlain, JudgeAlong, AssignDiff, MisledAt, DistinctIn;
    var kw, n := WritesKeys(c, upd), CensusOf(c, db);
    CensusCounts(c, db, kw);
    if x.Vals? {
      PutCounts(c, n, db, kw, ListClear, t, row, p, Many([]));
      LoopIsJudged(c, n, Clear(db, t, row, p), t, row, p, x.elems, upd, 0);
    }
    if diff { AssignModesPartAsForetold(c, db, t, row, p, x, upd); }
  }

  // ---- Links and lists of rows that are there -------------------------------------------------------

  /** The element can be placed as it is: a scalar of the type of the list, or a row of its target table. */
  predicate Placeable(db: Db, prop: Property, x: Value) {
    if prop.base.Object? then x.RowRef? && x.t == prop.target && x.row < NumRows(db, x.t) else Takes(prop, x)
  }

  function Placed(prop: Property, x: Value): Elem {
    if prop.base.Object? then Link(if x.RowRef? then x.row else 0) else ElemOf(x)
  }

  function AllPlaced(prop: Property, vs: seq<Value>): (es: seq<Elem>)
    ensures |es| == |vs| && forall k :: 0 <= k < |vs| ==> es[k] == Placed(prop, vs[k])
  {
    seq(|vs|, k requires 0 <= k < |vs| => Placed(prop, vs[k]))
  }

  /** What is raised for an element that cannot be placed. */
  function NotPlaced(prop: Property, x: Value): Error {
    if prop.base.Object? then InvalidRow else Refusal(x)
  }

  /** All values can be placed, or an exception says why the first of the others cannot. */
  ghost predicate PlacedOrRaised(db: Db, prop: Property, vs: seq<Value>, k: nat, res: Result<()>) {
    && (res.Ok? <==> forall j :: k <= j < |vs| ==> Placeable(db, prop, vs[j]))
    && (res.Err? ==> exists j: nat :: k <= j < |vs| && IsFirstRefused(db, prop, vs, k, j, res.error))
  }

  ghost predicate IsFirstRefused(db: Db, prop: Property, vs: seq<Value>, k: nat, j: nat, e: Error)
    requires j < |vs|
  {
    && !Placeable(db, prop, vs[j]) && e == NotPlaced(prop, vs[j])
    && forall i :: k <= i < j ==> Placeable(db, prop, vs[i])
  }

  /** Nothing in the list has to be created. */
  predicate CreatesNothing(prop: Property, vs: seq<Value>) {
    prop.base.Object? ==> forall k :: 0 <= k < |vs| ==> vs[k].RowRef?
  }

  lemma ElementIsPlaced(c: Config, db: Db, t: nat, row: nat, p: nat, x: Value, upd: bool, k: nat, sz: nat)
    requires c.inWrite && InRange(db, t, row, p) && CellAt(db, t, row, p).Many?
    requires CellOk(db, Prop(c, t, p), CellAt(db, t, row, p)) && (Prop(c, t, p).base.Object? ==> x.RowRef?)
    requires !Prop(c, t, p).nullable || !Prop(c, t, p).base.Object?
    requires |ListAt(db, t, row, p)| == if k < sz then sz else k
    ensures var s := if k < sz then SetValue(c, db, t, row, p, k, x, upd) else AddValue(c, db, t, row, p, x, upd);
      var prop, es := Prop(c, t, p), ListAt(db, t, row, p);
      && OnlyAt(db, s.db, Loc(t, row, p))
      && (if Placeable(db, prop, x) then
            && s.res.Ok?
            && CellAt(s.db, t, row, p) == Many(if k < sz then es[k := Placed(prop, x)] else es + [Placed(prop, x)])
          else s.res == Err(NotPlaced(prop, x)))
  {
    var prop, es := Prop(c, t, p), ListAt(db, t, row, p);
    var cur := if k < sz then LinkRow(es[k]) else None;
    var u := UnboxItem(c, db, prop, x, upd, k < sz, cur);
    var es' := if k < sz then es[k := Placed(prop, x)] else es + [Placed(prop, x)];
    PutOnlyAt(db, if k < sz then ListSet else ListAdd, Loc(t, row, p), Many(es'));
    if k < sz && es[k] == Placed(prop, x) { assert es' == es; }
  }

  lemma {:induction false} LoopPlaces(c: Config, db: Db, t: nat, row: nat, p: nat, vs: seq<Value>, upd: bool, k: nat,
                        sz: nat)
    requires c.inWrite && InRange(db, t, row, p) && CellAt(db, t, row, p).Many? && k <= |vs|
    requires CellOk(db, Prop(c, t, p), CellAt(db, t, row, p)) && CreatesNothing(Prop(c, t, p), vs)
    requires !Prop(c, t, p).nullable || !Prop(c, t, p).base.Object?
    requires |ListAt(db, t, row, p)| == if k < sz then sz else k
    ensures var s := AssignDiff(c, db, t, row, p, vs, upd, k, sz);
      && OnlyAt(db, s.db, Loc(t, row, p)) && PlacedOrRaised(db, Prop(c, t, p), vs, k, s.res)
      && (s.res.Ok? ==>
            CellAt(s.db, t, row, p) == Many(ListAt(db, t, row, p)[..k] + AllPlaced(Prop(c, t, p), vs[k..])))
    decreases |vs| - k
  {
    hide SetValue, AddValue, OnlyAt, Placeable, Placed, PlacedOrRaised, CellOk;
    var prop, es, l := Prop(c, t, p), ListAt(db, t, row, p), Loc(t, row, p);
    if k == |vs| {
      TrimCuts(db, l, k, sz);
      NothingLeft(db, prop, vs, k);
      assert es[..k] + AllPlaced(prop, vs[k..]) == es[..k];
      assert OnlyAt(db, db, l) by { ItselfOnly(db, l); }
    } else {
      ElementIsPlaced(c, db, t, row, p, vs[k], upd, k, sz);
      var s := if k < sz then SetValue(c, db, t, row, p, k, vs[k], upd) else AddValue(c, db, t, row, p, vs[k], upd);
      if s.res.Ok? {
        var now, end := ListAt(s.db, t, row, p), AssignDiff(c, s.db, t, row, p, vs, upd, k + 1, sz);
        PlacedListIsOk(db, s.db, prop, l, k, sz, vs[k]);
        LoopPlaces(c, s.db, t, row, p, vs, upd, k + 1, sz);
        OneMorePlaced(db, s.db, prop, l, vs, k, end.res);
        PlacedInFront(prop, vs, es, now, k, sz);
        OnlyAtOn(db, s.db, end.db, l);
      } else {
        RefusedHere(db, prop, vs, k, s.res.error);
      }
    }
  }

  lemma PlacedInFront(prop: Property, vs: seq<Value>, es: seq<Elem>, now: seq<Elem>, k: nat, sz: nat)
    requires k < |vs| && |es| == if k < sz then sz else k
    requires now == if k < sz then es[k := Placed(prop, vs[k])] else es + [Placed(prop, vs[k])]
    ensures now[..k + 1] + AllPlaced(prop, vs[k + 1..]) == es[..k] + AllPlaced(prop, vs[k..])
  {}

  lemma ItselfOnly(db: Db, l: Loc)
    ensures OnlyAt(db, db, l)
  {}

  lemma OnlyAtOn(a: Db, b: Db, d: Db, l: Loc)
    requires OnlyAt(a, b, l) && OnlyAt(b, d, l)
    ensures OnlyAt(a, d, l)
  {}

  lemma NothingLeft(db: Db, prop: Property, vs: seq<Value>, k: nat)
    requires k >= |vs|
    ensures PlacedOrRaised(db, prop, vs, k, Ok(()))
  {}

  lemma PlacedListIsOk(db: Db, db': Db, prop: Property, l: Loc, k: nat, sz: nat, x: Value)
    requires InRange(db, l.t, l.row, l.p) && CellAt(db, l.t, l.row, l.p).Many? && OnlyAt(db, db', l)
    requires CellOk(db, prop, CellAt(db, l.t, l.row, l.p)) && Placeable(db, prop, x)
    requires |ListAt(db, l.t, l.row, l.p)| == if k < sz then sz else k
    requires var es := ListAt(db, l.t, l.row, l.p);
      CellAt(db', l.t, l.row, l.p) == Many(if k < sz then es[k := Placed(prop, x)] else es + [Placed(prop, x)])
    ensures InRange(db', l.t, l.row, l.p) && CellOk(db', prop, CellAt(db', l.t, l.row, l.p))
  {
    assert NumRows(db', prop.target) == NumRows(db, prop.target);
  }

  /** What can be placed does not depend on the list. */
  lemma PlacedAlike(db: Db, db': Db, prop: Property, l: Loc, vs: seq<Value>, k: nat, res: Result<()>)
    requires OnlyAt(db, db', l) && PlacedOrRaised(db', prop, vs, k, res)
    ensures PlacedOrRaised(db, prop, vs, k, res)
  {
    forall j | k <= j < |vs| ensures Placeable(db, prop, vs[j]) == Placeable(db', prop, vs[j]) {
      assert NumRows(db', prop.target) == NumRows(db, prop.target);
    }
    if res.Err? {
      var j: nat :| k <= j < |vs| && IsFirstRefused(db', prop, vs, k, j, res.error);
      assert IsFirstRefused(db, prop, vs, k, j, res.error);
    }
  }

  lemma OneMorePlaced(db: Db, db': Db, prop: Property, l: Loc, vs: seq<Value>, k: nat, res: Result<()>)
    requires OnlyAt(db, db', l) && k < |vs| && Placeable(db, prop, vs[k]) && PlacedOrRaised(db', prop, vs, k + 1, res)
    ensures PlacedOrRaised(db, prop, vs, k, res)
  {
    PlacedAlike(db, db', prop, l, vs, k + 1, res);
    if res.Err? {
      var j: nat :| k + 1 <= j < |vs| && IsFirstRefused(db, prop, vs, k + 1, j, res.error);
      assert IsFirstRefused(db, prop, vs, k, j, res.error);
    }
  }

  lemma RefusedHere(db: Db, prop: Property, vs: seq<Value>, k: nat, e: Error)
    requires k < |vs| && !Placeable(db, prop, vs[k]) && e == NotPlaced(prop, vs[k])
    ensures PlacedOrRaised(db, prop, vs, k, Err(e))
  {
    assert IsFirstRefused(db, prop, vs, k, k, e);
  }

  /**
   * Assigning a list of scalars, or of objects that are there, returns in either mode if and only if every
   * scalar is of its type and every object is a row of the target table, and then the list holds just those,
   * in order. Otherwise the first that is not decides what is raised.
   */
  lemma AssignPlacesIff(c: Config, db: Db, t: nat, row: nat, p: nat, vs: seq<Value>, upd: bool, diff: bool)
    requires ValidConfig(c) && Sound(c, db) && c.inWrite && ListCell(c, t, p) && row < NumRows(db, t)
    requires CreatesNothing(Prop(c, t, p), vs)
    ensures var s := Assign(c, db, t, row, p, Vals(vs), upd, diff);
      && OnlyAt(db, s.db, Loc(t, row, p)) && PlacedOrRaised(db, Prop(c, t, p), vs, 0, s.res)
      && (s.res.Ok? ==> CellAt(s.db, t, row, p) == Many(AllPlaced(Prop(c, t, p), vs)))
  {
    var l, was := Loc(t, row, p), ListAt(db, t, row, p);
    assert InRange(db, t, row, p) && CellOk(db, Prop(c, t, p), CellAt(db, t, row, p));
    assert ValidProperty(c, Prop(c, t, p)) && vs[0..] == vs;
    if diff {
      LoopPlaces(c, db, t, row, p, vs, upd, 0, |was|);
    } else {
      var cleared := Clear(db, t, row, p);
      PutOnlyAt(db, ListClear, l, Many([]));
      LoopPlaces(c, cleared, t, row, p, vs, upd, 0, 0);
      DiffOfNothing(c, cleared, t, row, p, vs, upd, 0);
      PlacedAlike(db, cleared, Prop(c, t, p), l, vs, 0, AssignPlain(c, cleared, t, row, p, vs, upd, 0).res);
    }
  }

  /** Setting a link to a row that is there returns, in either mode, if and only if the target table has the row. */
  lemma LinkIsSetIff(c: Config, db: Db, t: nat, row: nat, p: nat, x: Value, upd: bool, diff: bool)
    requires ValidConfig(c) && Sound(c, db) && t < |c.schema| && row < NumRows(db, t) && p < |Props(c, t)|
    requires Prop(c, t, p).base.Object? && !Prop(c, t, p).isArray && x.RowRef?
    ensures var s, target := SetProp(c, db, t, row, p, x, upd, diff, false), Prop(c, t, p).target;
      && OnlyAt(db, s.db, Loc(t, row, p))
      && (s.res.Ok? <==> x.row < NumRows(db, target)) && (s.res.Err? ==> s.res == Err(TargetOutOfRange))
      && (s.res.Ok? ==> CellAt(s.db, t, row, p) == One(Link(x.row)))
  {
    assert InRange(db, t, row, p) && CellOk(db, Prop(c, t, p), CellAt(db, t, row, p));
    PutOnlyAt(db, SetCell, Loc(t, row, p), One(Link(x.row)));
  }

  // ---- Outside a transaction ------------------------------------------------------------------------

  /**
   * Outside a transaction assigning a list changes nothing. In the plain mode only a list assigned to itself
   * raises nothing.
   */
  lemma AssignOutside(c: Config, db: Db, t: nat, row: nat, p: nat, x: Value, upd: bool, diff: bool)
    requires !c.inWrite
    ensures var s := Assign(c, db, t, row, p, x, upd, diff);
      && s.db == db
      && (!diff ==> s.res == if x == ListRef(t, row, p) then Ok(()) else Err(NotInWrite))
  {
    if diff && x.Vals? { LoopOutside(c, db, t, row, p, x.elems, upd, 0, |ListAt(db, t, row, p)|); }
  }

  lemma {:induction false} LoopOutside(c: Config, db: Db, t: nat, row: nat, p: nat, vs: seq<Value>, upd: bool, k: nat,
                        sz: nat)
    requires !c.inWrite
    ensures AssignDiff(c, db, t, row, p, vs, upd, k, sz).db == db
    decreases |vs| - k
  {
    if k < |vs| {
      ElementOutside(c, db, t, row, p, vs[k], upd, k, sz);
      LoopOutside(c, db, t, row, p, vs, upd, k + 1, sz);
    }
  }

  lemma ElementOutside(c: Config, db: Db, t: nat, row: nat, p: nat, x: Value, upd: bool, k: nat, sz: nat)
    requires !c.inWrite
    ensures var s := if k < sz then SetValue(c, db, t, row, p, k, x, upd) else AddValue(c, db, t, row, p, x, upd);
      s.db == db
  {
    var cur := if k < sz && k < |ListAt(db, t, row, p)| then LinkRow(ListAt(db, t, row, p)[k]) else None;
    assert UnboxItem(c, db, Prop(c, t, p), x, upd, k < sz, cur).db == db;
  }
}
