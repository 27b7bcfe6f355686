/**
 * Writing only differences against plain writing: from the same database both modes end with the
 * same result, and in the same tables but for the cells about which the diff mode was mistaken.
 */
module DiffMode {
  import opened Outcomes
  import opened Schemas
  import opened Tables
  import opened Upsert
  import opened Trace
  import opened Evolution
  import opened Keeps
  import opened Descriptions

  // ---- Databases that agree but for a few cells --------------------------------------------

  ghost predicate Similar(a: Db, b: Db, X: set<Loc>) {
    && |a.tables| == |b.tables|
    && (forall t: nat :: NumRows(a, t) == NumRows(b, t))
    && (forall t: nat, row: nat, p: nat :: InRange(a, t, row, p) == InRange(b, t, row, p))
    && (forall t: nat, row: nat, p: nat :: Loc(t, row, p) !in X ==> CellAt(a, t, row, p) == CellAt(b, t, row, p))
  }

  /** The cells that may disagree lie in rows under assignment, whose identities are `K`. */
  ghost predicate Pending(c: Config, K: set<Id>, db: Db, X: set<Loc>) {
    forall l :: l in X ==>
      && l.row < NumRows(db, l.t)
      && Held(K, RowId(c, db, l.t, l.row))
      && !IsPrimary(c, l.t, l.p)
  }

  /** At most one cell changed. */
  ghost predicate OnlyAt(db: Db, db': Db, l: Loc) {
    Similar(db, db', {l})
  }

  lemma PutOnlyAt(db: Db, kind: Kind, l: Loc, cell: Cell)
    requires InRange(db, l.t, l.row, l.p)
    ensures OnlyAt(db, Put(db, kind, l.t, l.row, l.p, cell), l)
    ensures CellAt(Put(db, kind, l.t, l.row, l.p, cell), l.t, l.row, l.p) == cell
  {}

  /** Changing one cell on both sides keeps all other agreement. */
  lemma SimilarStays(a: Db, b: Db, a': Db, b': Db, X: set<Loc>, l: Loc)
    requires Similar(a, b, X + {l}) && OnlyAt(a, a', l) && OnlyAt(b, b', l)
    ensures Similar(a', b', X + {l})
    ensures CellAt(a', l.t, l.row, l.p) == CellAt(b', l.t, l.row, l.p) ==> Similar(a', b', X)
  {}

  lemma SimilarWeaken(a: Db, b: Db, X: set<Loc>, Y: set<Loc>)
    requires Similar(a, b, X) && X <= Y
    ensures Similar(a, b, Y)
  {}

  lemma PendingStays(c: Config, kw: bool, K: set<Id>, K1: set<Id>, W: set<Loc>, db: Db, db': Db, X: set<Loc>)
    requires Pending(c, K, db, X) && K <= K1 && (kw ==> Everything in K1)
    requires Evolves(c, kw, {}, W, db, db') || db == db'
    ensures Pending(c, K1, db', X)
  {}

  lemma SparedCell(c: Config, kw: bool, K: set<Id>, W: set<Loc>, db: Db, db': Db, t: nat, row: nat, p: nat)
    requires Evolves(c, kw, K, W, db, db') && (kw ==> Everything in K) && InRange(db, t, row, p)
    requires Held(K, RowId(c, db, t, row)) && Loc(t, row, p) !in W
    ensures CellAt(db', t, row, p) == CellAt(db, t, row, p)
  {}

  // ---- Finding or adding the row ------------------------------------------------------------

  lemma FindAgrees(a: Db, b: Db, t: nat, p: nat, e: Elem)
    requires NumRows(a, t) == NumRows(b, t)
    requires forall k: nat :: k < NumRows(a, t) ==> CellAt(a, t, k, p) == CellAt(b, t, k, p)
    ensures FindFirst(a, t, p, e) == FindFirst(b, t, p, e)
  {}

  lemma AppendSimilar(a: Db, b: Db, t: nat, r: Row, X: set<Loc>)
    requires Similar(a, b, X) && t < |a.tables|
    ensures Similar(Append(a, t, r), Append(b, t, r), X)
  {
    AppendCells(a, t, r);
    AppendCells(b, t, r);
    var a', b' := Append(a, t, r), Append(b, t, r);
    forall t1: nat, r1: nat, p1: nat
      ensures InRange(a', t1, r1, p1) == InRange(b', t1, r1, p1)
      ensures Loc(t1, r1, p1) !in X ==> CellAt(a', t1, r1, p1) == CellAt(b', t1, r1, p1)
    {
      assert InRange(a, t1, r1, p1) == InRange(b, t1, r1, p1);
      if InRange(a, t1, r1, p1) {
        assert Loc(t1, r1, p1) !in X ==> CellAt(a, t1, r1, p1) == CellAt(b, t1, r1, p1);
      } else if InRange(a', t1, r1, p1) {
        assert CellAt(a', t1, r1, p1) == r[p1] == CellAt(b', t1, r1, p1);
      }
    }
  }

  // ---- Cells that disagree --------------------------------------------------------------------

  /** The cells about which a run is mistaken. */
  ghost function Mistakes(steps: seq<Step>): set<Loc> {
    set s | s in steps && s.Mistaking? :: Loc(s.t, s.row, s.p)
  }

  lemma MistakesSplit(a: seq<Step>, b: seq<Step>)
    ensures Mistakes(a + b) == Mistakes(a) + Mistakes(b)
  {
    forall l | l in Mistakes(a) + Mistakes(b) ensures l in Mistakes(a + b) {
      assert Mistaking(l.t, l.row, l.p) in a + b;
    }
  }

  lemma NoMistakes()
    ensures Mistakes([]) == {}
  {}

  /** All the cells differ. */
  ghost predicate Apart(a: Db, b: Db, D: set<Loc>) {
    forall l :: l in D ==> CellAt(a, l.t, l.row, l.p) != CellAt(b, l.t, l.row, l.p)
  }

  lemma ApartAt(a: Db, b: Db, a': Db, b': Db, D: set<Loc>, l: Loc)
    requires Apart(a, b, D) && OnlyAt(a, a', l) && OnlyAt(b, b', l) && l !in D
    ensures Apart(a', b', D)
  {}

  /** Nothing is reused and no key is mistaken. */
  ghost predicate Trusted(c: Config, steps: seq<Step>) {
    forall s :: s in steps ==> !s.Reusing? && (s.Mistaking? ==> !IsPrimary(c, s.t, s.p))
  }

  /** A mistake about a cell shows in the end only if its row is not described again. */
  ghost predicate Fair(c: Config, K: set<Id>, steps: seq<Step>, distinct: bool) {
    Trusted(c, steps) && (Everything in K || distinct || Mistakes(steps) == {})
  }

  lemma FairSplit(c: Config, K: set<Id>, a: seq<Step>, b: seq<Step>, distinct: bool)
    requires Fair(c, K, a + b, distinct)
    ensures Fair(c, K, a, distinct) && Fair(c, K, b, distinct) && Mistakes(a + b) == Mistakes(a) + Mistakes(b)
    ensures Mistakes(a) != {} && Everything !in K ==> distinct
  {
    MistakesSplit(a, b);
    assert forall s :: s in a ==> s in a + b;
    assert forall s :: s in b ==> s in a + b;
  }

  /**
   * The cells lie in rows that were not there in `from`, or were named in `I`, or are at hand in `O`;
   * and all their keys are named.
   */
  ghost predicate Named(c: Config, K: set<Id>, from: Db, db: Db, M: set<Loc>, I: set<Id>, O: set<Id>) {
    forall l :: l in M ==>
      && l.row < NumRows(db, l.t) && !IsPrimary(c, l.t, l.p)
      && !Prop(c, l.t, l.p).base.Object? && !Prop(c, l.t, l.p).isArray
      && (l.row < NumRows(from, l.t) ==>
            Unkeyed(l.t, l.row) in O || (Everything !in K && RowId(c, from, l.t, l.row) in I))
      && (Everything !in K && RowId(c, db, l.t, l.row).Keyed? ==> RowId(c, db, l.t, l.row) in I)
  }

  lemma NamedFrom(c: Config, kw: bool, K: set<Id>, from: Db, mid: Db, db: Db, M: set<Loc>, I: set<Id>, O: set<Id>)
    requires Named(c, K, mid, db, M, I, O) && Evolves(c, kw, {}, {}, from, mid) && (kw ==> Everything in K)
    ensures Named(c, K, from, db, M, I, O)
  {}

  lemma NamedOn(c: Config, kw: bool, K: set<Id>, from: Db, mid: Db, db: Db, M: set<Loc>, I: set<Id>, O: set<Id>)
    requires Named(c, K, from, mid, M, I, O) && Evolves(c, kw, {}, {}, mid, db) && (kw ==> Everything in K)
    ensures Named(c, K, from, db, M, I, O)
  {}

  lemma LocateAgrees(c: Config, K: set<Id>, X: set<Loc>, a: Db, b: Db, t: nat, v: Value, upd: bool, diff: bool,
                     curA: Option<nat>, curB: Option<nat>)
    requires ValidConfig(c) && Sound(c, a) && Sound(c, b) && t < |c.schema|
    requires diff ==> Primary(c, t).Some? || curB.None?
    requires Similar(a, b, X) && Pending(c, K, a, X)
    ensures var sa, sb := Locate(c, a, t, v, upd, false, curA), Locate(c, b, t, v, upd, diff, curB);
      && sa.res == sb.res
      && Similar(sa.db, sb.db, X)
  {
    if Primary(c, t).Some? {
      var p := Primary(c, t).value;
      if KeyOf(c, t, p, v).Ok? {
        forall k: nat | k < NumRows(a, t) ensures CellAt(a, t, k, p) == CellAt(b, t, k, p) {
          assert Loc(t, k, p) !in X;
        }
        FindAgrees(a, b, t, p, KeyOf(c, t, p, v).value);
        AppendSimilar(a, b, t, KeyedRow(Props(c, t), p, KeyOf(c, t, p, v).value), X);
      }
    }
    AppendSimilar(a, b, t, EmptyRow(Props(c, t)), X);
  }

  // ---- The induction: `a` is written plainly, `b` in the mode `diff` ------------------------

  /**
   * What the induction assumes of the two databases and the values still to be written: they differ
   * in `D` and may differ in `X`. Either the values never name a row of those, or nothing is updated
   * and all rows are protected.
   */
  ghost predicate Ready(c: Config, K: set<Id>, X: set<Loc>, D: set<Loc>, a: Db, b: Db, upd: bool, N: set<Node>) {
    && c.inWrite && ValidConfig(c) && Sound(c, a) && Sound(c, b)
    && Creating(K, upd) && (WritesKeys(c, upd) ==> Everything in K)
    && Similar(a, b, X) && Pending(c, K, a, X) && D <= X && Apart(a, b, D)
    && Avoids(c, K, N) && (SelfApart(c, N) || Everything in K)
  }

  /** Both runs end alike, and on success differ in the cells about which one was mistaken. */
  ghost predicate Agree<T>(c: Config, K: set<Id>, from: Db, sa: Ran<T>, sb: Ran<T>, X: set<Loc>, D: set<Loc>,
                           M: set<Loc>, I: set<Id>, O: set<Id>) {
    && sa.res == sb.res
    && (sa.res.Ok? ==> Similar(sa.db, sb.db, X + M) && Apart(sa.db, sb.db, D + M) && Named(c, K, from, sa.db, M, I, O))
  }

  /** The rows of the mistakes just made are protected as well. */
  ghost function Grown(c: Config, K: set<Id>, db: Db, M: set<Loc>): set<Id> {
    if Everything in K then K else K + set l | l in M :: RowId(c, db, l.t, l.row)
  }

  lemma NextReady(c: Config, K: set<Id>, X: set<Loc>, D: set<Loc>, M: set<Loc>, I: set<Id>, O: set<Id>,
                  a: Db, b: Db, a': Db, b': Db, upd: bool, N: set<Node>, N1: set<Node>)
    requires Ready(c, K, X, D, a, b, upd, N) && N1 <= N
    requires Evolves(c, WritesKeys(c, upd), {}, {}, a, a') && Sound(c, b')
    requires Similar(a', b', X + M) && Apart(a', b', D + M) && Named(c, K, a, a', M, I, O)
    requires Everything in K || M == {} || Ids(c, N1) !! I
    ensures Ready(c, Grown(c, K, a', M), X + M, D + M, a', b', upd, N1)
  {
    PendingStays(c, WritesKeys(c, upd), K, Grown(c, K, a', M), {}, a, a', X);
    if Everything !in K {
      forall n | n in N1 && NodeId(c, n).Some? ensures NodeId(c, n).value !in Grown(c, K, a', M) {
        assert NodeId(c, n).value in Ids(c, N1);
      }
    }
  }

  lemma ReadyLess(c: Config, K: set<Id>, X: set<Loc>, D: set<Loc>, a: Db, b: Db, upd: bool, N: set<Node>, N1: set<Node>)
    requires Ready(c, K, X, D, a, b, upd, N) && N1 <= N
    ensures Ready(c, K, X, D, a, b, upd, N1)
  {}

  lemma AgreeWiden<T>(c: Config, K: set<Id>, from: Db, sa: Ran<T>, sb: Ran<T>, X: set<Loc>, D: set<Loc>, M: set<Loc>,
                      I: set<Id>, I1: set<Id>, O: set<Id>)
    requires Agree(c, K, from, sa, sb, X, D, M, I, O) && I <= I1
    ensures Agree(c, K, from, sa, sb, X, D, M, I1, O)
  {}

  /** Two stretches of a run that agree make one. */
  lemma AgreeTogether<T>(c: Config, kw: bool, K: set<Id>, K1: set<Id>, from: Db, mid: Db, sa: Ran<T>, sb: Ran<T>,
                         X: set<Loc>, D: set<Loc>, M: set<Loc>, M1: set<Loc>, I: set<Id>, I1: set<Id>, O: set<Id>)
    requires Named(c, K, from, mid, M, I, O) && Agree(c, K1, mid, sa, sb, X + M, D + M, M1, I1, O)
    requires (Everything in K <==> Everything in K1) && (kw ==> Everything in K) && (I1 <= I || Everything in K)
    requires Evolves(c, kw, {}, {}, from, mid) && (sa.res.Ok? ==> Evolves(c, kw, {}, {}, mid, sa.db))
    ensures Agree(c, K, from, sa, sb, X, D, M + M1, I, O)
  {
    hide Evolves, Similar;
    assert X + M + M1 == X + (M + M1) && D + M + M1 == D + (M + M1);
    if sa.res.Ok? {
      assert Named(c, K, mid, sa.db, M1, I, O);
      NamedFrom(c, kw, K, from, mid, sa.db, M1, I, O);
      NamedOn(c, kw, K, from, mid, sa.db, M, I, O);
    }
  }

  /** Adding a row makes no cells alike. */
  lemma LocateApart(c: Config, X: set<Loc>, D: set<Loc>, K: set<Id>, a: Db, b: Db, t: nat, v: Value, upd: bool,
                    diff: bool, curA: Option<nat>, curB: Option<nat>)
    requires ValidConfig(c) && Sound(c, a) && Sound(c, b) && t < |c.schema|
    requires Similar(a, b, X) && Pending(c, K, a, X) && D <= X && Apart(a, b, D)
    requires curA.Some? ==> curA.value < NumRows(a, t)
    requires curB.Some? ==> curB.value < NumRows(b, t)
    ensures Apart(Locate(c, a, t, v, upd, false, curA).db, Locate(c, b, t, v, upd, diff, curB).db, D)
  {
    LocateEvolves(c, WritesKeys(c, upd), {Everything}, {}, a, t, v, upd, false, curA);
    LocateEvolves(c, WritesKeys(c, upd), {Everything}, {}, b, t, v, upd, diff, curB);
    forall l | l in D ensures InRange(a, l.t, l.row, l.p) && InRange(b, l.t, l.row, l.p) {
      assert InRange(a, l.t, l.row, l.p) == InRange(b, l.t, l.row, l.p);
    }
  }

  /** The row being populated may be written from property `i` on, and nothing below names it. */
  ghost predicate RowIsFree(c: Config, K: set<Id>, X: set<Loc>, a: Db, b: Db, t: nat, row: nat, v: Value, i: nat) {
    && RowId(c, b, t, row) == RowId(c, a, t, row)
    && (forall l :: l in X && l.t == t && l.row == row ==> l.p < i)
    && (Everything !in K ==> RowId(c, a, t, row) !in Ids(c, NodesFrom(c, t, v, i)))
  }

  lemma LocatedIsFree(c: Config, K: set<Id>, X: set<Loc>, D: set<Loc>, a: Db, b: Db, t: nat, v: Value, upd: bool,
                      diff: bool, curA: Option<nat>, curB: Option<nat>)
    requires Ready(c, K, X, D, a, b, upd, Nodes(c, t, v)) && t < |c.schema| && v.Obj?
    requires diff ==> Primary(c, t).Some? || curB.None?
    requires curA.Some? ==> curA.value < NumRows(a, t)
    requires curB.Some? ==> curB.value < NumRows(b, t)
    ensures var sa, sb := Locate(c, a, t, v, upd, false, curA), Locate(c, b, t, v, upd, diff, curB);
      sa.res.Ok? && sb.res == sa.res && Similar(sa.db, sb.db, X) ==>
          RowIsFree(c, K, X, sa.db, sb.db, t, sa.res.value.row, v, 0)
  {
    var kw, sa, sb := WritesKeys(c, upd), Locate(c, a, t, v, upd, false, curA), Locate(c, b, t, v, upd, diff, curB);
    LocateEvolves(c, kw, {}, {}, a, t, v, upd, false, curA);
    LocateEvolves(c, kw, {}, {}, b, t, v, upd, diff, curB);
    if sa.res.Ok? && sb.res == sa.res && Similar(sa.db, sb.db, X) {
      var row := sa.res.value.row;
      NodesBelow(c, t, v);
      assert Node(t, v) in Nodes(c, t, v);
      if Primary(c, t).Some? { assert Loc(t, row, Primary(c, t).value) !in X; }
      if Everything !in K {
        forall n | n in ChildNodes(c, t, v) && NodeId(c, n).Some?
          ensures NodeId(c, n).value != RowId(c, sa.db, t, row)
        {}
      }
    }
  }

  /** Apart from the row itself, a create makes the mistakes of populating it. */
  lemma BelowIsFair(c: Config, K: set<Id>, b: Db, t: nat, v: Value, upd: bool, diff: bool, cur: Option<nat>)
    requires c.inWrite && v.Obj? && Locate(c, b, t, v, upd, diff, cur).res.Ok?
    requires Fair(c, K, Steps(c, b, t, v, upd, diff, cur), Distinct(c, t, v))
    ensures var at := Locate(c, b, t, v, upd, diff, cur);
      var below := StepsFrom(c, at.db, t, at.res.value, v, upd, diff, 0);
      Fair(c, K, below, DistinctFrom(c, t, v, 0)) && Mistakes(Steps(c, b, t, v, upd, diff, cur)) == Mistakes(below)
  {
    var at := Locate(c, b, t, v, upd, diff, cur);
    var below := StepsFrom(c, at.db, t, at.res.value, v, upd, diff, 0);
    var own := StepIf(Primary(c, t).None? && diff && cur.Some?, Reusing(t, at.res.value.row)) +
               StepIf(Primary(c, t).None? && Reusing(t, at.res.value.row) in below, Reentering(t, at.res.value.row));
    assert Steps(c, b, t, v, upd, diff, cur) == own + below;
    FairSplit(c, K, own, below, Distinct(c, t, v));
    assert Mistakes(own) == {};
  }

  lemma PopulatedIsNamed(c: Config, K: set<Id>, a: Db, db: Db, t: nat, v: Value, upd: bool, cur: Option<nat>,
                         M: set<Loc>)
    requires ValidConfig(c) && Sound(c, a) && t < |c.schema| && v.Obj? && (cur.Some? ==> cur.value < NumRows(a, t))
    requires Creating(K, upd) && (WritesKeys(c, upd) ==> Everything in K)
    requires Locate(c, a, t, v, upd, false, cur).res.Ok?
    requires var at := Locate(c, a, t, v, upd, false, cur);
      Named(c, K, at.db, db, M, Ids(c, NodesFrom(c, t, v, 0)) + {RowId(c, at.db, t, at.res.value.row)},
            {Unkeyed(t, at.res.value.row)})
    ensures Named(c, K, a, db, M, Ids(c, Nodes(c, t, v)), {})
  {
    var kw, at := WritesKeys(c, upd), Locate(c, a, t, v, upd, false, cur);
    LocateEvolves(c, kw, {}, {}, a, t, v, upd, false, cur);
    NodesBelow(c, t, v);
    assert Node(t, v) in Nodes(c, t, v);
    IdsLess(c, NodesFrom(c, t, v, 0), Nodes(c, t, v));
    NamedFrom(c, kw, K, a, at.db, db, M, Ids(c, NodesFrom(c, t, v, 0)) + {RowId(c, at.db, t, at.res.value.row)},
              {Unkeyed(t, at.res.value.row)});
  }

  lemma ReuseIsAStep(c: Config, b: Db, t: nat, v: Value, upd: bool, diff: bool, cur: Option<nat>)
    requires c.inWrite && Trusted(c, Steps(c, b, t, v, upd, diff, cur))
    ensures diff ==> Primary(c, t).Some? || cur.None?
  {
    match cur
    case None =>
    case Some(row) => assert Primary(c, t).None? && diff ==> Reusing(t, row) in Steps(c, b, t, v, upd, diff, cur);
  }

  lemma CreateAgrees(c: Config, K: set<Id>, X: set<Loc>, D: set<Loc>, a: Db, b: Db, t: nat, v: Value, upd: bool,
                     diff: bool, curA: Option<nat>, curB: Option<nat>)
    requires Ready(c, K, X, D, a, b, upd, Nodes(c, t, v)) && t < |c.schema|
    requires Fair(c, K, Steps(c, b, t, v, upd, diff, curB), Distinct(c, t, v))
    requires curA.Some? ==> curA.value < NumRows(a, t)
    requires curB.Some? ==> curB.value < NumRows(b, t)
    ensures Agree(c, K, a, Create(c, a, t, v, upd, false, curA), Create(c, b, t, v, upd, diff, curB), X, D,
                  Mistakes(Steps(c, b, t, v, upd, diff, curB)), Ids(c, Nodes(c, t, v)), {})
    decreases Height(v), 2, 0
  {
    hide Similar, Evolves, Avoids, SelfApart, DistinctFrom, Apart, Locate, Ids, Populate, StepsFrom, Nodes;
    var kw, sa, sb := WritesKeys(c, upd), Locate(c, a, t, v, upd, false, curA), Locate(c, b, t, v, upd, diff, curB);
    ReuseIsAStep(c, b, t, v, upd, diff, curB);
    LocateAgrees(c, K, X, a, b, t, v, upd, diff, curA, curB);
    LocateEvolves(c, kw, {}, {}, a, t, v, upd, false, curA);
    LocateEvolves(c, kw, {}, {}, b, t, v, upd, diff, curB);
    LocateApart(c, X, D, K, a, b, t, v, upd, diff, curA, curB);
    if sa.res.Ok? {
      var place := sa.res.value;
      PendingStays(c, kw, K, K, {}, a, sa.db, X);
      if v.Obj? {
        NodesBelow(c, t, v);
        AvoidsLess(c, K, NodesFrom(c, t, v, 0), Nodes(c, t, v));
        SelfApartLess(c, NodesFrom(c, t, v, 0), Nodes(c, t, v));
        LocatedIsFree(c, K, X, D, a, b, t, v, upd, diff, curA, curB);
        BelowIsFair(c, K, b, t, v, upd, diff, curB);
        PopulateAgrees(c, K, X, D, sa.db, sb.db, t, place, v, upd, diff, 0);
        var end := Create(c, a, t, v, upd, false, curA);
        if end.res.Ok? {
          PopulatedIsNamed(c, K, a, end.db, t, v, upd, curA, Mistakes(StepsFrom(c, sb.db, t, place, v, upd, diff, 0)));
        }
      } else {
        NotAnObject(c, sa.db, sb.db, t, place, v, upd, diff, 0);
        assert Mistakes(Steps(c, b, t, v, upd, diff, curB)) == {};
        assert X + {} == X && D + {} == D;
      }
    }
  }

  lemma PopulateAgrees(c: Config, K: set<Id>, X: set<Loc>, D: set<Loc>, a: Db, b: Db, t: nat, place: Place, v: Value,
                       upd: bool, diff: bool, i: nat)
    requires Ready(c, K, X, D, a, b, upd, NodesFrom(c, t, v, i)) && t < |c.schema| && v.Obj?
    requires place.row < NumRows(a, t) && (place.skipPrimary || WritesKeys(c, upd))
    requires RowIsFree(c, K, X, a, b, t, place.row, v, i)
    requires Fair(c, K, StepsFrom(c, b, t, place, v, upd, diff, i), DistinctFrom(c, t, v, i))
    ensures Agree(c, K, a, Populate(c, a, t, place, v, upd, false, i), Populate(c, b, t, place, v, upd, diff, i), X, D,
                  Mistakes(StepsFrom(c, b, t, place, v, upd, diff, i)),
                  Ids(c, NodesFrom(c, t, v, i)) + {RowId(c, a, t, place.row)}, {Unkeyed(t, place.row)})
    decreases Height(v), 1, |Props(c, t)| - i
  {
    hide Choose, Similar, Sound, Spares, LogSpares, KeysStay, UniqueKeys, LogGrows, Avoids, SelfApart, Ready, Named,
         StepsAt;
    hide RowIsFree, Ids, NodesFrom, Grown, Apart, Evolves, Trusted, SetProp, Agree, Mistakes, ValidConfig, DistinctIn;
    NoMistakes();
    var kw, id, O := WritesKeys(c, upd), RowId(c, a, t, place.row), {Unkeyed(t, place.row)};
    var I := Ids(c, NodesFrom(c, t, v, i)) + {id};
    if i >= |Props(c, t)| {
      NothingWritten(c, K, X, D, a, b, upd, NodesFrom(c, t, v, i), place.row, I, O);
    } else {
      NodesStep(c, t, v, i);
      IdsLess(c, NodesFrom(c, t, v, i + 1), NodesFrom(c, t, v, i));
      match Choose(c, t, i, v, place)
      case Skip =>
        ReadyLess(c, K, X, D, a, b, upd, NodesFrom(c, t, v, i), NodesFrom(c, t, v, i + 1));
        SkippedIsFree(c, K, X, a, b, t, place.row, v, i);
        PopulateAgrees(c, K, X, D, a, b, t, place, v, upd, diff, i + 1);
        AgreeWiden(c, K, a, Populate(c, a, t, place, v, upd, false, i), Populate(c, b, t, place, v, upd, diff, i), X, D,
                   Mistakes(StepsFrom(c, b, t, place, v, upd, diff, i)), Ids(c, NodesFrom(c, t, v, i + 1)) + {id}, I,
                   O);
      case Fail(_) =>
        BothFail(c, K, a, Populate(c, a, t, place, v, upd, false, i), Populate(c, b, t, place, v, upd, diff, i), X, D,
                 {}, I, O);
      case Write(x, isDefault) =>
        var here := StepsAt(c, b, t, place.row, i, x, upd, diff, isDefault);
        var sa := SetProp(c, a, t, place.row, i, x, upd, false, isDefault);
        var sb := SetProp(c, b, t, place.row, i, x, upd, diff, isDefault);
        FairSplit(c, K, here, if sb.res.Ok? then StepsFrom(c, sb.db, t, place, v, upd, diff, i + 1) else [],
                  DistinctFrom(c, t, v, i));
        OneAgrees(c, K, X, D, a, b, t, place, v, upd, diff, i);
        if sa.res.Ok? {
          var M := Mistakes(here);
          GrownEverything(c, K, sa.db, M);
          PopulateAgrees(c, Grown(c, K, sa.db, M), X + M, D + M, sa.db, sb.db, t, place, v, upd, diff, i + 1);
          RestOfRow(c, kw, sa.db, t, place, v, upd, i + 1);
          AgreeTogether(c, kw, K, Grown(c, K, sa.db, M), a, sa.db,
                        Populate(c, sa.db, t, place, v, upd, false, i + 1),
                        Populate(c, sb.db, t, place, v, upd, diff, i + 1),
                        X, D, M, Mistakes(StepsFrom(c, sb.db, t, place, v, upd, diff, i + 1)), I,
                        Ids(c, NodesFrom(c, t, v, i + 1)) + {RowId(c, sa.db, t, place.row)}, O);
        } else {
          BothFail(c, K, a, Populate(c, a, t, place, v, upd, false, i), Populate(c, b, t, place, v, upd, diff, i), X, D,
                   Mistakes(StepsFrom(c, b, t, place, v, upd, diff, i)), I, O);
        }
    }
  }

  lemma BothFail<T>(c: Config, K: set<Id>, from: Db, sa: Ran<T>, sb: Ran<T>, X: set<Loc>, D: set<Loc>, M: set<Loc>,
                    I: set<Id>, O: set<Id>)
    requires sa.res == sb.res && sa.res.Err?
    ensures Agree(c, K, from, sa, sb, X, D, M, I, O)
  {}

  lemma NothingWritten(c: Config, K: set<Id>, X: set<Loc>, D: set<Loc>, a: Db, b: Db, upd: bool, N: set<Node>, row: nat,
                       I: set<Id>, O: set<Id>)
    requires Ready(c, K, X, D, a, b, upd, N)
    ensures Agree(c, K, a, Ran(a, Ok(row)), Ran(b, Ok(row)), X, D, {}, I, O)
  {
    assert X + {} == X && D + {} == D;
  }

  lemma SkippedIsFree(c: Config, K: set<Id>, X: set<Loc>, a: Db, b: Db, t: nat, row: nat, v: Value, i: nat)
    requires RowIsFree(c, K, X, a, b, t, row, v, i)
    ensures RowIsFree(c, K, X, a, b, t, row, v, i + 1)
  {}

  lemma GrownEverything(c: Config, K: set<Id>, db: Db, M: set<Loc>)
    ensures Everything in Grown(c, K, db, M) <==> Everything in K
    ensures K <= Grown(c, K, db, M)
  {}

  lemma RestOfRow(c: Config, kw: bool, db: Db, t: nat, place: Place, v: Value, upd: bool, i: nat)
    requires ValidConfig(c) && Sound(c, db) && t < |c.schema| && kw == WritesKeys(c, upd)
    requires place.row < NumRows(db, t) && (place.skipPrimary || kw)
    ensures Evolves(c, kw, {}, {}, db, Populate(c, db, t, place, v, upd, false, i).db)
  {
    PopulateEvolves(c, kw, {}, {}, db, t, place, v, upd, false, i);
  }

  /** One property: both sides are ready for the next. */
  lemma OneAgrees(c: Config, K: set<Id>, X: set<Loc>, D: set<Loc>, a: Db, b: Db, t: nat, place: Place, v: Value,
                  upd: bool, diff: bool, i: nat)
    requires Ready(c, K, X, D, a, b, upd, NodesFrom(c, t, v, i)) && t < |c.schema| && v.Obj?
    requires place.row < NumRows(a, t) && (place.skipPrimary || WritesKeys(c, upd))
    requires RowIsFree(c, K, X, a, b, t, place.row, v, i)
    requires i < |Props(c, t)| && Choose(c, t, i, v, place).Write?
    requires var w := Choose(c, t, i, v, place);
      Fair(c, K, StepsAt(c, b, t, place.row, i, w.x, upd, diff, w.isDefault), DistinctFrom(c, t, v, i))
    ensures var w := Choose(c, t, i, v, place);
      var sa := SetProp(c, a, t, place.row, i, w.x, upd, false, w.isDefault);
      var sb := SetProp(c, b, t, place.row, i, w.x, upd, diff, w.isDefault);
      var M := Mistakes(StepsAt(c, b, t, place.row, i, w.x, upd, diff, w.isDefault));
      && sa.res == sb.res && (WritesKeys(c, upd) ==> Everything in K)
      && (sa.res.Ok? ==>
            && Ready(c, Grown(c, K, sa.db, M), X + M, D + M, sa.db, sb.db, upd, NodesFrom(c, t, v, i + 1))
            && RowIsFree(c, Grown(c, K, sa.db, M), X + M, sa.db, sb.db, t, place.row, v, i + 1)
            && Named(c, K, a, sa.db, M, Ids(c, NodesFrom(c, t, v, i)) + {RowId(c, a, t, place.row)},
                     {Unkeyed(t, place.row)})
            && Evolves(c, WritesKeys(c, upd), {}, {}, a, sa.db) && place.row < NumRows(sa.db, t)
            && ValidConfig(c) && Sound(c, sa.db)
            && (Everything !in K ==> RowId(c, sa.db, t, place.row) == RowId(c, a, t, place.row)))
    decreases Height(v), 0, 0
  {
    hide Choose, Evolves, Sound, Similar, Mistakes, SetProp, NodesFrom, SelfApart, StepsAt, Apart, Trusted, Grown,
         Pending;
    var w, kw, id, O := Choose(c, t, i, v, place), WritesKeys(c, upd), RowId(c, a, t, place.row),
        {Unkeyed(t, place.row)};
    var prop, x := Prop(c, t, i), w.x;
    var sa := SetProp(c, a, t, place.row, i, x, upd, false, w.isDefault);
    var sb := SetProp(c, b, t, place.row, i, x, upd, diff, w.isDefault);
    var M := Mistakes(StepsAt(c, b, t, place.row, i, x, upd, diff, w.isDefault));
    WriteIsReady(c, K, X, D, a, b, t, place, v, upd, i);
    SetPropAgrees(c, K + {id}, X, D, a, b, t, place.row, i, x, upd, diff, w.isDefault);
    SetPropEvolves(c, kw, {}, {}, a, t, place.row, i, x, upd, false, w.isDefault);
    SetPropEvolves(c, kw, {}, {}, b, t, place.row, i, x, upd, diff, w.isDefault);
    if sa.res.Ok? {
      EvolvedRow(c, kw, {}, {}, a, sa.db, t, place.row);
      EvolvedRow(c, kw, {}, {}, b, sb.db, t, place.row);
      NodesStep(c, t, v, i);
      IdsLess(c, PropNodes(c, prop, x), NodesFrom(c, t, v, i));
      var I := Ids(c, PropNodes(c, prop, x)) + {id};
      assert Named(c, K, a, sa.db, M, I, O);
      NextReady(c, K, X, D, M, I, O, a, b, sa.db, sb.db, upd, NodesFrom(c, t, v, i), NodesFrom(c, t, v, i + 1));
      NextIsFree(c, K, X, D, M, a, b, sa.db, sb.db, t, place.row, v, upd, i);
    }
  }

  lemma DefaultsAreDistinct(c: Config, prop: Property, x: Value)
    requires Height(x) == 0
    ensures PropNodes(c, prop, x) == {} && DistinctIn(c, prop, x)
  {
    if prop.isArray && x.Vals? {
      forall k | 0 <= k < |x.elems| ensures Height(x.elems[k]) == 0 && !x.elems[k].Obj? {}
      PlainElemsAreDistinct(c, prop, x.elems, 0);
    }
  }

  lemma {:induction false} PlainElemsAreDistinct(c: Config, prop: Property, vs: seq<Value>, k: nat)
    requires forall j :: 0 <= j < |vs| ==> !vs[j].Obj?
    ensures DistinctAlong(c, prop, vs, k)
    decreases |vs| - k
  {
    if k < |vs| { PlainElemsAreDistinct(c, prop, vs, k + 1); }
  }

  /** A chosen value may be written on both sides, and names neither its own row nor a pending one. */
  lemma WriteIsReady(c: Config, K: set<Id>, X: set<Loc>, D: set<Loc>, a: Db, b: Db, t: nat, place: Place, v: Value,
                     upd: bool, i: nat)
    requires Ready(c, K, X, D, a, b, upd, NodesFrom(c, t, v, i)) && t < |c.schema| && v.Obj?
    requires place.row < NumRows(a, t) && (place.skipPrimary || WritesKeys(c, upd))
    requires RowIsFree(c, K, X, a, b, t, place.row, v, i)
    requires i < |Props(c, t)| && Choose(c, t, i, v, place).Write?
    ensures var x, id := Choose(c, t, i, v, place).x, RowId(c, a, t, place.row);
      && Ready(c, K + {id}, X, D, a, b, upd, PropNodes(c, Prop(c, t, i), x))
      && Loc(t, place.row, i) !in X && RowId(c, b, t, place.row) == id
      && MayWrite(c, WritesKeys(c, upd), {}, {}, a, t, place.row, i)
      && MayWrite(c, WritesKeys(c, upd), {}, {}, b, t, place.row, i)
      && PropNodes(c, Prop(c, t, i), x) <= NodesFrom(c, t, v, i)
      && (DistinctFrom(c, t, v, i) ==>
            DistinctIn(c, Prop(c, t, i), x)
                && Ids(c, PropNodes(c, Prop(c, t, i), x)) !! Ids(c, NodesFrom(c, t, v, i + 1)))
      && (Everything !in K ==> id !in Ids(c, NodesFrom(c, t, v, i)))
  {
    var w, id := Choose(c, t, i, v, place), RowId(c, a, t, place.row);
    NodesStep(c, t, v, i);
    if w.isDefault {
      DefaultsAreDistinct(c, Prop(c, t, i), w.x);
    } else {
      assert w.x == Supplied(v, i);
    }
    var N, N1 := NodesFrom(c, t, v, i), PropNodes(c, Prop(c, t, i), w.x);
    PendingStays(c, false, K, K + {id}, {}, a, a, X);
    SelfApartLess(c, N1, N);
    if Everything !in K {
      forall n | n in N1 && NodeId(c, n).Some? ensures NodeId(c, n).value !in K + {id} {
        assert NodeId(c, n).value in Ids(c, N);
      }
    }
  }

  lemma NextIsFree(c: Config, K: set<Id>, X: set<Loc>, D: set<Loc>, M: set<Loc>, a: Db, b: Db, a': Db, b': Db, t: nat,
                   row: nat, v: Value, upd: bool, i: nat)
    requires RowIsFree(c, K, X, a, b, t, row, v, i) && row < NumRows(a, t) && t < |c.schema|
    requires Ready(c, Grown(c, K, a', M), X + M, D + M, a', b', upd, NodesFrom(c, t, v, i + 1))
    requires Evolves(c, WritesKeys(c, upd), {}, {}, a, a')
    requires WritesKeys(c, upd) ==> Everything in K
    requires forall l :: l in M && l.t == t && l.row == row ==> l.p == i
    ensures RowIsFree(c, Grown(c, K, a', M), X + M, a', b', t, row, v, i + 1)
    ensures Everything !in K ==> RowId(c, a', t, row) == RowId(c, a, t, row)
  {
    GrownEverything(c, K, a', M);
    if Primary(c, t).Some? { assert Loc(t, row, Primary(c, t).value) !in X + M; }
  }

  lemma SetPropAgrees(c: Config, K: set<Id>, X: set<Loc>, D: set<Loc>, a: Db, b: Db, t: nat, row: nat, p: nat, x: Value,
                      upd: bool, diff: bool, isDefault: bool)
    requires Ready(c, K, X, D, a, b, upd, PropNodes(c, Prop(c, t, p), x))
    requires t < |c.schema| && p < |Props(c, t)| && row < NumRows(a, t)
    requires Held(K, RowId(c, a, t, row)) && RowId(c, b, t, row) == RowId(c, a, t, row) && Loc(t, row, p) !in X
    requires Fair(c, K, StepsAt(c, b, t, row, p, x, upd, diff, isDefault), DistinctIn(c, Prop(c, t, p), x))
    ensures var M := Mistakes(StepsAt(c, b, t, row, p, x, upd, diff, isDefault));
      && Agree(c, K, a, SetProp(c, a, t, row, p, x, upd, false, isDefault),
               SetProp(c, b, t, row, p, x, upd, diff, isDefault), X, D, M,
               Ids(c, PropNodes(c, Prop(c, t, p), x)) + {RowId(c, a, t, row)}, {Unkeyed(t, row)})
      && (SetProp(c, a, t, row, p, x, upd, false, isDefault).res.Ok? ==>
            forall l :: l in M && l.t == t && l.row == row ==> l.p == p)
    decreases Height(x), 6, 0
  {
    hide Spares, LogSpares, KeysStay, UniqueKeys, LogGrows, Avoids, SelfApart, Distinct, DistinctAlong, Similar, Apart,
         Named;
    var prop, id := Prop(c, t, p), RowId(c, a, t, row);
    assert ValidProperty(c, prop);
    if prop.isArray {
      if !(prop.nullable && x.Null?) {
        AssignAgrees(c, K, X, D, a, b, t, row, p, x, upd, diff);
        AssignedIsNamed(c, K, a, Assign(c, a, t, row, p, x, upd, false), Assign(c, b, t, row, p, x, upd, diff), X, D,
                        Mistakes(StepsOf(c, b, t, row, p, x, upd, diff)), Ids(c, PropNodes(c, prop, x)), {id},
                        {Unkeyed(t, row)});
      } else {
        NoMistakes();
      }
    } else if prop.base.Object? && !x.Null? {
      SetLinkAgrees(c, K, X, D, a, b, t, row, p, x, upd, diff, isDefault);
    } else {
      CellAgrees(c, K, X, D, a, b, t, row, p, x, upd, diff, isDefault);
    }
  }

  lemma AssignedIsNamed<T>(c: Config, K: set<Id>, from: Db, sa: Ran<T>, sb: Ran<T>, X: set<Loc>, D: set<Loc>,
                           M: set<Loc>, I: set<Id>, J: set<Id>, O: set<Id>)
    requires Agree(c, K, from, sa, sb, X, D, M, I, {})
    ensures Agree(c, K, from, sa, sb, X, D, M, I + J, O)
  {}

  /** A scalar or a null: mistaken, the one side writes it and the other keeps its null. */
  lemma CellAgrees(c: Config, K: set<Id>, X: set<Loc>, D: set<Loc>, a: Db, b: Db, t: nat, row: nat, p: nat, x: Value,
                   upd: bool, diff: bool, isDefault: bool)
    requires Ready(c, K, X, D, a, b, upd, PropNodes(c, Prop(c, t, p), x))
    requires t < |c.schema| && p < |Props(c, t)| && row < NumRows(a, t) && ValidProperty(c, Prop(c, t, p))
    requires Loc(t, row, p) !in X && !Prop(c, t, p).isArray && (Prop(c, t, p).base.Object? ==> x.Null?)
    requires Trusted(c, StepsAt(c, b, t, row, p, x, upd, diff, isDefault))
    ensures var M := Mistakes(StepsAt(c, b, t, row, p, x, upd, diff, isDefault));
      && Agree(c, K, a, SetProp(c, a, t, row, p, x, upd, false, isDefault),
               SetProp(c, b, t, row, p, x, upd, diff, isDefault), X, D, M,
               Ids(c, PropNodes(c, Prop(c, t, p), x)) + {RowId(c, a, t, row)}, {Unkeyed(t, row)})
      && forall l :: l in M ==> l == Loc(t, row, p)
  {
    hide Spares, LogSpares, KeysStay, UniqueKeys, LogGrows, Avoids, SelfApart, Apart, Similar, Pending;
    var prop, l, steps := Prop(c, t, p), Loc(t, row, p), StepsAt(c, b, t, row, p, x, upd, diff, isDefault);
    var N, I := PropNodes(c, prop, x), Ids(c, PropNodes(c, prop, x)) + {RowId(c, a, t, row)};
    CellsAreThere(c, X, a, b, t, row, p);
    NoMistakes();
    if prop.nullable && x.Null? {
      OneCellAgrees(c, K, X, D, a, b, upd, N, l, One(Nothing), I);
      assert Mistakes(steps) == {};
    } else if UnboxScalar(prop, x).Ok? {
      var e := UnboxScalar(prop, x).value;
      OneCellAgrees(c, K, X, D, a, b, upd, N, l, One(e), I);
      if diff && MistakenAt(c, prop, x, CellAt(b, t, row, p)) {
        assert steps == [Mistaking(t, row, p)] && Mistaking(t, row, p) in steps && Mistakes(steps) == {l};
        assert RowId(c, Put(a, SetCell, t, row, p, One(e)), t, row) == RowId(c, a, t, row);
      } else {
        assert Mistakes(steps) == {};
      }
    }
  }

  lemma CellsAreThere(c: Config, X: set<Loc>, a: Db, b: Db, t: nat, row: nat, p: nat)
    requires Sound(c, a) && Sound(c, b) && Similar(a, b, X) && Loc(t, row, p) !in X
    requires p < |Props(c, t)| && row < NumRows(a, t)
    ensures InRange(a, t, row, p) && InRange(b, t, row, p) && CellAt(a, t, row, p) == CellAt(b, t, row, p)
    ensures CellOk(a, Prop(c, t, p), CellAt(a, t, row, p)) && CellOk(b, Prop(c, t, p), CellAt(b, t, row, p))
    ensures row < NumRows(b, t)
  {}

  /** One cell is written on the one side; on the other it is written, or left as it is. */
  lemma OneCellAgrees(c: Config, K: set<Id>, X: set<Loc>, D: set<Loc>, a: Db, b: Db, upd: bool, N: set<Node>, l: Loc,
                      cell: Cell, I: set<Id>)
    requires Ready(c, K, X, D, a, b, upd, N) && l !in X
    requires InRange(a, l.t, l.row, l.p) && InRange(b, l.t, l.row, l.p)
    ensures var ra, rb, O := Put(a, SetCell, l.t, l.row, l.p, cell), Put(b, SetCell, l.t, l.row, l.p, cell),
            {Unkeyed(l.t, l.row)};
      && Agree(c, K, a, Ran(ra, Ok(())), Ran(rb, Ok(())), X, D, {}, I, O)
      && Agree(c, K, a, Ran(a, Ok(())), Ran(b, Ok(())), X, D, {}, I, O)
      && (CellAt(b, l.t, l.row, l.p) == cell ==> Agree(c, K, a, Ran(ra, Ok(())), Ran(b, Ok(())), X, D, {}, I, O))
      && (CellAt(b, l.t, l.row, l.p) != cell ==>
            Similar(ra, b, X + {l}) && Apart(ra, b, D + {l}))
  {
    assert X + {} == X && D + {} == D;
    PutOnlyAt(a, SetCell, l, cell);
    PutOnlyAt(b, SetCell, l, cell);
    var ra, rb := Put(a, SetCell, l.t, l.row, l.p, cell), Put(b, SetCell, l.t, l.row, l.p, cell);
    SimilarWeaken(a, b, X, X + {l});
    PutsAgree(a, b, X, SetCell, SetCell, l, cell);
    SimilarStays(a, b, ra, b, X, l);
    ApartAt(a, b, ra, rb, D, l);
    ApartAt(a, b, ra, b, D, l);
  }

  /** Only a dictionary populates anything. */
  lemma {:induction false} NotAnObject(c: Config, a: Db, b: Db, t: nat, place: Place, v: Value, upd: bool, diff: bool,
                        i: nat)
    requires !v.Obj?
    ensures Populate(c, a, t, place, v, upd, false, i).db == a
    ensures Populate(c, b, t, place, v, upd, diff, i).db == b
    ensures Populate(c, a, t, place, v, upd, false, i).res == Populate(c, b, t, place, v, upd, diff, i).res
    decreases |Props(c, t)| - i
  {
    if i < |Props(c, t)| && Choose(c, t, i, v, place).Skip? {
      NotAnObject(c, a, b, t, place, v, upd, diff, i + 1);
    }
  }

  lemma LinkIsThere(c: Config, X: set<Loc>, a: Db, b: Db, t: nat, row: nat, p: nat)
    requires Sound(c, a) && Sound(c, b) && Similar(a, b, X) && Loc(t, row, p) !in X
    requires p < |Props(c, t)| && row < NumRows(a, t)
    ensures row < NumRows(b, t) && InRange(b, t, row, p) && CellAt(a, t, row, p) == CellAt(b, t, row, p)
    ensures var cur := LinkOf(CellAt(b, t, row, p));
      cur.Some? ==> cur.value < NumRows(a, Prop(c, t, p).target) && cur.value < NumRows(b, Prop(c, t, p).target)
  {}

  /** Writing a cell, or leaving it when it already holds the value, comes to the same. */
  lemma PutsAgree(a: Db, b: Db, X: set<Loc>, ka: Kind, kb: Kind, l: Loc, cell: Cell)
    requires Similar(a, b, X + {l}) && InRange(a, l.t, l.row, l.p) && InRange(b, l.t, l.row, l.p)
    ensures Similar(Put(a, ka, l.t, l.row, l.p, cell), Put(b, kb, l.t, l.row, l.p, cell), X)
    ensures CellAt(b, l.t, l.row, l.p) == cell ==> Similar(Put(a, ka, l.t, l.row, l.p, cell), b, X)
    ensures CellAt(a, l.t, l.row, l.p) == cell && CellAt(b, l.t, l.row, l.p) == cell ==> Similar(a, b, X)
  {
    PutOnlyAt(a, ka, l, cell);
    PutOnlyAt(b, kb, l, cell);
    SimilarStays(a, b, Put(a, ka, l.t, l.row, l.p, cell), Put(b, kb, l.t, l.row, l.p, cell), X, l);
    SimilarStays(a, b, Put(a, ka, l.t, l.row, l.p, cell), b, X, l);
    SimilarStays(a, b, a, b, X, l);
  }

  /** With nothing to compare against, the diff loop is the plain loop. */
  lemma {:induction false} DiffOfNothing(c: Config, db: Db, t: nat, row: nat, p: nat, vs: seq<Value>, upd: bool, k: nat)
    ensures AssignDiff(c, db, t, row, p, vs, upd, k, 0) == AssignPlain(c, db, t, row, p, vs, upd, k)
    decreases |vs| - k
  {
    if k < |vs| {
      DiffOfNothing(c, AddValue(c, db, t, row, p, vs[k], upd).db, t, row, p, vs, upd, k + 1);
    }
  }

  lemma SoundCell(c: Config, db: Db, t: nat, row: nat, p: nat)
    requires Sound(c, db) && row < NumRows(db, t) && p < |Props(c, t)|
    ensures InRange(db, t, row, p) && CellOk(db, Prop(c, t, p), CellAt(db, t, row, p))
  {}

  /** Trimming cuts the list at `k` and touches nothing else. */
  lemma {:induction false} TrimCuts(db: Db, l: Loc, k: nat, sz: nat)
    requires InRange(db, l.t, l.row, l.p) && CellAt(db, l.t, l.row, l.p).Many?
    requires k <= |ListAt(db, l.t, l.row, l.p)| == if k < sz then sz else k
    ensures var s := Trim(db, l.t, l.row, l.p, k, sz);
      s.res == Ok(()) && OnlyAt(db, s.db, l) && CellAt(s.db, l.t, l.row, l.p) == Many(ListAt(db, l.t, l.row, l.p)[..k])
    decreases sz
  {
    var es := ListAt(db, l.t, l.row, l.p);
    if k < sz {
      var cell := Many(es[..k] + es[k + 1..]);
      var db' := Put(db, ListRemove, l.t, l.row, l.p, cell);
      PutOnlyAt(db, ListRemove, l, cell);
      assert InRange(db', l.t, l.row, l.p);
      TrimCuts(db', l, k, sz - 1);
      assert (es[..k] + es[k + 1..])[..k] == es[..k];
      SimilarStays(db, db, db, db', {}, l);
      SimilarStays(db, db', db, Trim(db', l.t, l.row, l.p, k, sz - 1).db, {}, l);
    } else {
      assert es[..k] == es;
    }
  }

  lemma ListElemOk(c: Config, db: Db, t: nat, row: nat, p: nat, k: nat)
    requires Sound(c, db) && k < |ListAt(db, t, row, p)|
    ensures ElemOk(db, Prop(c, t, p), ListAt(db, t, row, p)[k])
  {}

  /** What the diff loop does with an unboxed element. */
  function PlaceItem(db: Db, prop: Property, t: nat, row: nat, p: nat, k: nat, sz: nat, item: Item): Ran<()> {
    if k >= sz then AddItem(db, prop, t, row, p, item)
    else if k < |ListAt(db, t, row, p)| && ItemDiffers(prop, ListAt(db, t, row, p)[k], item) then
      SetItem(db, prop, t, row, p, k, item)
    else Ran(db, Ok(()))
  }

  /** What the two list loops keep: the plain list is as long as `k` and leads the other one. */
  ghost predicate ListsMatch(a: Db, b: Db, l: Loc, k: nat, sz: nat) {
    var ea, eb := ListAt(a, l.t, l.row, l.p), ListAt(b, l.t, l.row, l.p);
    && CellAt(a, l.t, l.row, l.p).Many? && CellAt(b, l.t, l.row, l.p).Many?
    && InRange(a, l.t, l.row, l.p) && InRange(b, l.t, l.row, l.p)
    && |ea| == k && |eb| == (if k < sz then sz else k) && ea == eb[..k]
  }

  /** What holds of a list cell under assignment throughout. */
  predicate ListCell(c: Config, t: nat, p: nat) {
    t < |c.schema| && p < |Props(c, t)| && !IsPrimary(c, t, p) && Prop(c, t, p).isArray
  }

  /** The element is the same in both lists, whether it was added, set, or there already. */
  lemma ListsAgree(a: Db, b: Db, X: set<Loc>, l: Loc, k: nat, sz: nat, e: Elem)
    requires Similar(a, b, X + {l}) && ListsMatch(a, b, l, k, sz)
    ensures var ea, eb := ListAt(a, l.t, l.row, l.p), ListAt(b, l.t, l.row, l.p);
      var a' := Put(a, ListAdd, l.t, l.row, l.p, Many(ea + [e]));
      var b' := if k < sz then Put(b, ListSet, l.t, l.row, l.p, Many(eb[k := e]))
                else Put(b, ListAdd, l.t, l.row, l.p, Many(eb + [e]));
      && Similar(a', b', X + {l}) && ListsMatch(a', b', l, k + 1, sz)
      && (k < sz && eb[k] == e ==> Similar(a', b, X + {l}) && ListsMatch(a', b, l, k + 1, sz))
  {
    var ea, eb := ListAt(a, l.t, l.row, l.p), ListAt(b, l.t, l.row, l.p);
    var ca, cb := Many(ea + [e]), Many(if k < sz then eb[k := e] else eb + [e]);
    var kind := if k < sz then ListSet else ListAdd;
    assert (ea + [e]) == cb.es[..k + 1];
    PutOnlyAt(a, ListAdd, l, ca);
    PutOnlyAt(b, kind, l, cb);
    var a', b' := Put(a, ListAdd, l.t, l.row, l.p, ca), Put(b, kind, l.t, l.row, l.p, cb);
    SimilarStays(a, b, a', b', X, l);
    SimilarStays(a, b, a', b, X, l);
  }

  lemma SetLinkAgrees(c: Config, K: set<Id>, X: set<Loc>, D: set<Loc>, a: Db, b: Db, t: nat, row: nat, p: nat, x: Value,
                      upd: bool, diff: bool, isDefault: bool)
    requires Ready(c, K, X, D, a, b, upd, PropNodes(c, Prop(c, t, p), x))
    requires t < |c.schema| && p < |Props(c, t)| && row < NumRows(a, t)
    requires Held(K, RowId(c, a, t, row)) && RowId(c, b, t, row) == RowId(c, a, t, row) && Loc(t, row, p) !in X
    requires Prop(c, t, p).base.Object? && !Prop(c, t, p).isArray && !x.Null?
    requires Fair(c, K, StepsAt(c, b, t, row, p, x, upd, diff, isDefault), DistinctIn(c, Prop(c, t, p), x))
    ensures var M := Mistakes(StepsAt(c, b, t, row, p, x, upd, diff, isDefault));
      && Agree(c, K, a, SetProp(c, a, t, row, p, x, upd, false, isDefault),
               SetProp(c, b, t, row, p, x, upd, diff, isDefault), X, D, M,
               Ids(c, PropNodes(c, Prop(c, t, p), x)) + {RowId(c, a, t, row)}, {Unkeyed(t, row)})
      && (SetProp(c, a, t, row, p, x, upd, false, isDefault).res.Ok? ==>
            forall l :: l in M && l.t == t && l.row == row ==> l.p == p)
    decreases Height(x), 4, 0
  {
    hide Avoids, SelfApart, Similar, Sound, Pending, Apart, Named, Distinct, Create, Nodes, Steps, Ids, Trusted,
         UnboxItem, StepsIn, Ready, SetLink, Agree, StepsAt, Mistakes, Fair;
    var prop, cur := Prop(c, t, p), LinkOf(CellAt(b, t, row, p));
    ReadyLink(c, K, X, D, a, b, upd, PropNodes(c, prop, x), t, row, p);
    var below := StepsIn(c, b, prop, x, upd, diff, cur);
    var ua, ub := UnboxItem(c, a, prop, x, upd, false, cur), UnboxItem(c, b, prop, x, upd, diff, cur);
    LinkIsFair(c, K, b, t, row, p, x, upd, diff, isDefault);
    UnboxItemAgrees(c, K, X, D, a, b, prop, x, upd, diff, cur, cur);
    AgreeSays(c, K, a, ua, ub, X, D, Mistakes(below), Ids(c, ItemNodes(c, prop, x)), {});
    var sa, sb := SetProp(c, a, t, row, p, x, upd, false, isDefault), SetProp(c, b, t, row, p, x, upd, diff, isDefault);
    if ua.res.Ok? {
      LinkAgrees(c, K, X, D, Mistakes(below), a, b, t, row, p, x, upd, diff, cur, ua, ub);
    } else {
      BothFail(c, K, a, sa, sb, X, D, Mistakes(below), Ids(c, PropNodes(c, prop, x)) + {RowId(c, a, t, row)},
               {Unkeyed(t, row)});
    }
  }

  /** Setting a link makes the mistakes of unboxing it. */
  lemma LinkIsFair(c: Config, K: set<Id>, b: Db, t: nat, row: nat, p: nat, x: Value, upd: bool, diff: bool,
                   isDefault: bool)
    requires Prop(c, t, p).base.Object? && !Prop(c, t, p).isArray && !x.Null?
    requires Fair(c, K, StepsAt(c, b, t, row, p, x, upd, diff, isDefault), DistinctIn(c, Prop(c, t, p), x))
    ensures var below := StepsIn(c, b, Prop(c, t, p), x, upd, diff, LinkOf(CellAt(b, t, row, p)));
      && Fair(c, K, below, Distinct(c, Prop(c, t, p).target, x)) && Trusted(c, below)
      && Mistakes(StepsAt(c, b, t, row, p, x, upd, diff, isDefault)) == Mistakes(below)
  {
    hide Distinct, StepsIn, UnboxItem;
    var prop, cur := Prop(c, t, p), LinkOf(CellAt(b, t, row, p));
    var below, ub := StepsIn(c, b, prop, x, upd, diff, cur), UnboxItem(c, b, prop, x, upd, diff, cur);
    var own := StepIf(!diff && ub.res.Ok? && CellAt(ub.db, t, row, p) == One(Link(ItemRow(ub.res.value))),
                      Repeating(t, row, p));
    assert StepsAt(c, b, t, row, p, x, upd, diff, isDefault) == below + own;
    FairSplit(c, K, below, own, DistinctIn(c, prop, x));
    assert Mistakes(own) == {};
  }

  lemma ReadyLink(c: Config, K: set<Id>, X: set<Loc>, D: set<Loc>, a: Db, b: Db, upd: bool, N: set<Node>,
                  t: nat, row: nat, p: nat)
    requires Ready(c, K, X, D, a, b, upd, N) && Loc(t, row, p) !in X && p < |Props(c, t)| && row < NumRows(a, t)
    requires t < |c.schema|
    ensures ValidProperty(c, Prop(c, t, p)) && CellAt(a, t, row, p) == CellAt(b, t, row, p)
    ensures var cur := LinkOf(CellAt(b, t, row, p));
      cur.Some? ==> cur.value < NumRows(a, Prop(c, t, p).target) && cur.value < NumRows(b, Prop(c, t, p).target)
  {
    LinkIsThere(c, X, a, b, t, row, p);
  }

  lemma UnboxItemAgrees(c: Config, K: set<Id>, X: set<Loc>, D: set<Loc>, a: Db, b: Db, prop: Property, x: Value,
                        upd: bool, diff: bool, curA: Option<nat>, curB: Option<nat>)
    requires Ready(c, K, X, D, a, b, upd, ItemNodes(c, prop, x)) && ValidProperty(c, prop)
    requires Fair(c, K, StepsIn(c, b, prop, x, upd, diff, curB), prop.base.Object? ==> Distinct(c, prop.target, x))
    requires curA.Some? && prop.base.Object? ==> curA.value < NumRows(a, prop.target)
    requires curB.Some? && prop.base.Object? ==> curB.value < NumRows(b, prop.target)
    ensures Agree(c, K, a, UnboxItem(c, a, prop, x, upd, false, curA), UnboxItem(c, b, prop, x, upd, diff, curB), X, D,
                  Mistakes(StepsIn(c, b, prop, x, upd, diff, curB)), Ids(c, ItemNodes(c, prop, x)), {})
    decreases Height(x), 3, 0
  {
    hide Similar, Apart, Named, Sound, Pending, Create, Steps, Nodes, Distinct, Ids, Mistakes, Trusted, Avoids,
         SelfApart;
    if prop.base.Object? && !x.RowRef? {
      CreateAgrees(c, K, X, D, a, b, prop.target, x, upd, diff, curA, curB);
    } else {
      NoMistakes();
      assert X + {} == X && D + {} == D;
      NoneNamed(c, K, a, a, Ids(c, ItemNodes(c, prop, x)), {});
    }
  }

  lemma NoneNamed(c: Config, K: set<Id>, from: Db, db: Db, I: set<Id>, O: set<Id>)
    ensures Named(c, K, from, db, {}, I, O)
  {}

  /** The link is set on the one side, and on the other if it differs. */
  lemma LinkAgrees(c: Config, K: set<Id>, X: set<Loc>, D: set<Loc>, M: set<Loc>, a: Db, b: Db, t: nat, row: nat, p: nat,
                   x: Value, upd: bool, diff: bool, cur: Option<nat>, ua: Ran<Item>, ub: Ran<Item>)
    requires Ready(c, K, X, D, a, b, upd, PropNodes(c, Prop(c, t, p), x))
    requires t < |c.schema| && p < |Props(c, t)| && row < NumRows(a, t)
    requires Held(K, RowId(c, a, t, row)) && RowId(c, b, t, row) == RowId(c, a, t, row) && Loc(t, row, p) !in X
    requires Prop(c, t, p).base.Object? && !Prop(c, t, p).isArray && cur == LinkOf(CellAt(b, t, row, p))
    requires ua == UnboxItem(c, a, Prop(c, t, p), x, upd, false, cur) && ua.res.Ok?
    requires ub == UnboxItem(c, b, Prop(c, t, p), x, upd, diff, cur)
    requires Trusted(c, StepsIn(c, b, Prop(c, t, p), x, upd, diff, cur))
    requires Agree(c, K, a, ua, ub, X, D, M, Ids(c, ItemNodes(c, Prop(c, t, p), x)), {})
    ensures var prop, O := Prop(c, t, p), {Unkeyed(t, row)};
      var sa := SetLink(ua.db, prop, t, row, p, cur, ua.res.value, false);
      var sb := SetLink(ub.db, prop, t, row, p, cur, ub.res.value, diff);
      && Agree(c, K, a, sa, sb, X, D, M, Ids(c, PropNodes(c, prop, x)) + {RowId(c, a, t, row)}, O)
      && forall l :: l in M ==> l.t != t || l.row != row
  {
    hide Evolves, Sound, SelfApart, UnboxItem, StepsIn, Similar, Apart, Pending, Trusted, ElemOk, Nodes;
    var kw, prop, N, O := WritesKeys(c, upd), Prop(c, t, p), ItemNodes(c, Prop(c, t, p), x), {Unkeyed(t, row)};
    assert ValidProperty(c, prop) && !IsPrimary(c, t, p);
    CellsAreThere(c, X, a, b, t, row, p);
    LinkIsThere(c, X, a, b, t, row, p);
    UnboxItemEvolves(c, kw, {}, {}, a, prop, x, upd, false, cur);
    UnboxKeepsCell(c, K, a, t, row, p, x, upd, false, cur);
    UnboxKeepsCell(c, K, b, t, row, p, x, upd, diff, cur);
    NotInOwnRow(c, K, a, ua.db, M, N, t, row);
    LinkPlacedAgrees(c, X + M, D + M, b, ub.db, ua.db, t, row, p, ua.res.value, diff, cur);
    var sa := SetLink(ua.db, prop, t, row, p, cur, ua.res.value, false);
    SetLinkEvolves(c, kw, {}, {}, ua.db, ua.db, t, row, p, cur, ua.res.value, false) by {
      EvolvesRefl(c, kw, {}, {}, ua.db);
    }
    NamedOn(c, kw, K, a, ua.db, sa.db, M, Ids(c, N), {});
  }

  lemma TrustedLeavesAlone(c: Config, K: set<Id>, steps: seq<Step>)
    requires Trusted(c, steps)
    ensures LeavesAlone(K, steps)
  {}

  /** What is described below a row under assignment is another row. */
  lemma NotInOwnRow(c: Config, K: set<Id>, from: Db, db: Db, M: set<Loc>, N: set<Node>, t: nat, row: nat)
    requires Named(c, K, from, db, M, Ids(c, N), {}) && Avoids(c, K, N)
    requires row < NumRows(from, t) && Held(K, RowId(c, from, t, row))
    ensures forall l :: l in M ==> l.t != t || l.row != row
  {}

  lemma LinkPlacedAgrees(c: Config, X: set<Loc>, D: set<Loc>, b: Db, b': Db, a': Db, t: nat, row: nat, p: nat,
                         item: Item, diff: bool, cur: Option<nat>)
    requires Similar(a', b', X) && Apart(a', b', D) && Loc(t, row, p) !in D
    requires InRange(a', t, row, p) && InRange(b', t, row, p) && CellAt(b', t, row, p) == CellAt(b, t, row, p)
    requires cur == LinkOf(CellAt(b, t, row, p)) && (cur.Some? ==> cur.value < NumRows(b', Prop(c, t, p).target))
    ensures var prop := Prop(c, t, p);
      var sa, sb := SetLink(a', prop, t, row, p, cur, item, false), SetLink(b', prop, t, row, p, cur, item, diff);
      && sa.res == sb.res && (sa.res.Ok? ==> Similar(sa.db, sb.db, X) && Apart(sa.db, sb.db, D))
  {
    var l, cell := Loc(t, row, p), One(Link(ItemRow(item)));
    SimilarWeaken(a', b', X, X + {l});
    PutOnlyAt(a', SetCell, l, cell);
    PutOnlyAt(b', SetCell, l, cell);
    PutsAgree(a', b', X, SetCell, SetCell, l, cell);
    ApartAt(a', b', Put(a', SetCell, t, row, p, cell), Put(b', SetCell, t, row, p, cell), D, l);
    ApartAt(a', b', Put(a', SetCell, t, row, p, cell), b', D, l);
    assert NumRows(a', Prop(c, t, p).target) == NumRows(b', Prop(c, t, p).target);
  }

  lemma AssignAgrees(c: Config, K: set<Id>, X: set<Loc>, D: set<Loc>, a: Db, b: Db, t: nat, row: nat, p: nat, x: Value,
                     upd: bool, diff: bool)
    requires Ready(c, K, X, D, a, b, upd, PropNodes(c, Prop(c, t, p), x))
    requires t < |c.schema| && p < |Props(c, t)| && row < NumRows(a, t)
    requires Held(K, RowId(c, a, t, row)) && RowId(c, b, t, row) == RowId(c, a, t, row) && Loc(t, row, p) !in X
    requires Prop(c, t, p).isArray
    requires Fair(c, K, StepsOf(c, b, t, row, p, x, upd, diff), DistinctIn(c, Prop(c, t, p), x))
    ensures var M := Mistakes(StepsOf(c, b, t, row, p, x, upd, diff));
      && Agree(c, K, a, Assign(c, a, t, row, p, x, upd, false), Assign(c, b, t, row, p, x, upd, diff), X, D, M,
               Ids(c, PropNodes(c, Prop(c, t, p), x)), {})
      && (Assign(c, a, t, row, p, x, upd, false).res.Ok? ==> forall l :: l in M ==> l.t != t || l.row != row)
    decreases Height(x), 5, 0
  {
    hide Spares, LogSpares, KeysStay, UniqueKeys, LogGrows, Avoids, SelfApart, Similar, Apart, Named, Pending,
         Distinct, Ready;
    var l, prop, I := Loc(t, row, p), Prop(c, t, p), Ids(c, PropNodes(c, Prop(c, t, p), x));
    ReadyCell(c, K, X, D, a, b, upd, PropNodes(c, prop, x), t, row, p);
    var inVain := StepIf(c.inWrite && CellAt(b, t, row, p) == Many([]), Repeating(t, row, p));
    assert Mistakes(inVain) == {} && Mistakes([]) == {};
    ClearsAgree(c, K, X, D, a, b, upd, PropNodes(c, prop, x), l, I);
    if x.Vals? {
      var ca, cb := Clear(a, t, row, p), if diff then b else Clear(b, t, row, p);
      var sz := if diff then |ListAt(b, t, row, p)| else 0;
      var along := StepsAlong(c, cb, t, row, p, x.elems, upd, 0, sz);
      FairSplit(c, K, if diff then [] else inVain, along, DistinctIn(c, prop, x));
      assert StepsOf(c, b, t, row, p, x, upd, diff) == (if diff then [] else inVain) + along;
      assert Mistakes(StepsOf(c, b, t, row, p, x, upd, diff)) == Mistakes(along);
      ElemsAre(c, prop, x);
      ClearedIsReady(c, K, X, D, a, b, t, row, p, upd, PropNodes(c, prop, x), diff);
      LoopAgrees(c, K, X, D, ca, cb, t, row, p, x, upd, 0, sz);
      DiffOfNothing(c, cb, t, row, p, x.elems, upd, 0);
      ClearedIsNamed(c, K, a, l, upd, AssignPlain(c, ca, t, row, p, x.elems, upd, 0),
                     AssignDiff(c, cb, t, row, p, x.elems, upd, 0, sz), X, D, Mistakes(along), I);
    } else {
      assert Mistakes(StepsOf(c, b, t, row, p, x, upd, diff)) == {};
    }
  }

  lemma ReadyCell(c: Config, K: set<Id>, X: set<Loc>, D: set<Loc>, a: Db, b: Db, upd: bool, N: set<Node>,
                  t: nat, row: nat, p: nat)
    requires Ready(c, K, X, D, a, b, upd, N) && Loc(t, row, p) !in X && p < |Props(c, t)| && row < NumRows(a, t)
    ensures c.inWrite && ValidConfig(c) && Sound(c, a) && Sound(c, b) && Loc(t, row, p) !in D
    ensures InRange(a, t, row, p) && InRange(b, t, row, p) && CellAt(a, t, row, p) == CellAt(b, t, row, p)
    ensures CellOk(a, Prop(c, t, p), CellAt(a, t, row, p)) && CellOk(b, Prop(c, t, p), CellAt(b, t, row, p))
  {}

  /** Clearing on both sides, or on none. */
  lemma ClearsAgree(c: Config, K: set<Id>, X: set<Loc>, D: set<Loc>, a: Db, b: Db, upd: bool, N: set<Node>, l: Loc,
                    I: set<Id>)
    requires Ready(c, K, X, D, a, b, upd, N) && l !in X
    requires InRange(a, l.t, l.row, l.p) && InRange(b, l.t, l.row, l.p)
    ensures Agree(c, K, a, Ran(a, Ok(())), Ran(b, Ok(())), X, D, {}, I, {})
    ensures Agree(c, K, a, Ran(Clear(a, l.t, l.row, l.p), Ok(())), Ran(Clear(b, l.t, l.row, l.p), Ok(())), X, D, {}, I,
                  {})
  {
    assert X + {} == X && D + {} == D;
    SimilarWeaken(a, b, X, X + {l});
    PutsAgree(a, b, X, ListClear, ListClear, l, Many([]));
    PutOnlyAt(a, ListClear, l, Many([]));
    PutOnlyAt(b, ListClear, l, Many([]));
    ApartAt(a, b, Clear(a, l.t, l.row, l.p), Clear(b, l.t, l.row, l.p), D, l);
  }

  lemma ClearedIsNamed(c: Config, K: set<Id>, a: Db, l: Loc, upd: bool, sa: Ran<()>, sb: Ran<()>, X: set<Loc>,
                       D: set<Loc>, M: set<Loc>, I: set<Id>)
    requires Agree(c, K, Clear(a, l.t, l.row, l.p), sa, sb, X, D, M, I, {})
    requires InRange(a, l.t, l.row, l.p) && !IsPrimary(c, l.t, l.p)
    ensures Agree(c, K, a, sa, sb, X, D, M, I, {})
  {
    PutCells(a, ListClear, l.t, l.row, l.p, Many([]));
  }

  /** The state between two elements of the two list loops. */
  ghost predicate OnList(c: Config, K: set<Id>, D: set<Loc>, a: Db, b: Db, t: nat, row: nat, p: nat, k: nat, sz: nat) {
    && t < |c.schema| && p < |Props(c, t)| && Prop(c, t, p).isArray && !IsPrimary(c, t, p)
    && row < NumRows(a, t) && Held(K, RowId(c, a, t, row)) && RowId(c, b, t, row) == RowId(c, a, t, row)
    && Loc(t, row, p) !in D && ListsMatch(a, b, Loc(t, row, p), k, sz)
  }

  /** Clearing on the plain side, and on the other unless it compares, leaves both loops ready. */
  lemma ClearedIsReady(c: Config, K: set<Id>, X: set<Loc>, D: set<Loc>, a: Db, b: Db, t: nat, row: nat, p: nat,
                       upd: bool, N: set<Node>, diff: bool)
    requires Ready(c, K, X, D, a, b, upd, N) && Loc(t, row, p) !in X
    requires t < |c.schema| && p < |Props(c, t)| && row < NumRows(a, t) && Prop(c, t, p).isArray
    requires Held(K, RowId(c, a, t, row)) && RowId(c, b, t, row) == RowId(c, a, t, row)
    ensures var ca, cb := Clear(a, t, row, p), if diff then b else Clear(b, t, row, p);
      && Ready(c, K, X + {Loc(t, row, p)}, D, ca, cb, upd, N)
      && OnList(c, K, D, ca, cb, t, row, p, 0, if diff then |ListAt(b, t, row, p)| else 0)
      && RowId(c, ca, t, row) == RowId(c, a, t, row)
  {
    hide Avoids, SelfApart, Spares, LogSpares, LogGrows, UniqueKeys;
    var l, ca, cb := Loc(t, row, p), Clear(a, t, row, p), Clear(b, t, row, p);
    ReadyCell(c, K, X, D, a, b, upd, N, t, row, p);
    assert !IsPrimary(c, t, p);
    PutEvolves(c, false, {}, {}, a, ListClear, t, row, p, Many([]));
    PutEvolves(c, false, {}, {}, b, ListClear, t, row, p, Many([]));
    PendingStays(c, false, K, K, {}, a, ca, X);
    PutOnlyAt(a, ListClear, l, Many([]));
    PutOnlyAt(b, ListClear, l, Many([]));
    SimilarWeaken(a, b, X, X + {l});
    SimilarStays(a, b, ca, b, X, l);
    SimilarStays(a, b, ca, cb, X, l);
    ApartAt(a, b, ca, b, D, l);
    ApartAt(a, b, ca, cb, D, l);
  }

  lemma LoopAgrees(c: Config, K: set<Id>, X: set<Loc>, D: set<Loc>, a: Db, b: Db, t: nat, row: nat, p: nat, x: Value,
                   upd: bool, k: nat, sz: nat)
    requires x.Vals? && k <= |x.elems| && OnList(c, K, D, a, b, t, row, p, k, sz)
    requires Ready(c, K, X + {Loc(t, row, p)}, D, a, b, upd, ElemsFrom(c, Prop(c, t, p), x.elems, k))
    requires Fair(c, K, StepsAlong(c, b, t, row, p, x.elems, upd, k, sz), DistinctAlong(c, Prop(c, t, p), x.elems, k))
    ensures var M := Mistakes(StepsAlong(c, b, t, row, p, x.elems, upd, k, sz));
      && Agree(c, K, a, AssignPlain(c, a, t, row, p, x.elems, upd, k), AssignDiff(c, b, t, row, p, x.elems, upd, k, sz),
               X, D, M, Ids(c, ElemsFrom(c, Prop(c, t, p), x.elems, k)), {})
      && (AssignPlain(c, a, t, row, p, x.elems, upd, k).res.Ok? ==> forall l :: l in M ==> l.t != t || l.row != row)
    decreases Height(x), 4, |x.elems| - k
  {
    hide Spares, LogSpares, KeysStay, UniqueKeys, LogGrows, Avoids, SelfApart, Similar, Apart, Named, Pending,
         Distinct, Ready;
    hide OnList, SetValue, AddValue, StepsBy, Grown, Evolves, Sound, Ids, ElemsFrom, Trusted, Agree, Mistakes,
         ItemNodes;
    var l, prop, kw := Loc(t, row, p), Prop(c, t, p), WritesKeys(c, upd);
    NoMistakes();
    if k == |x.elems| {
      LoopEnds(c, K, X, D, a, b, t, row, p, upd, ElemsFrom(c, prop, x.elems, k), k, sz,
               Ids(c, ElemsFrom(c, prop, x.elems, k)));
    } else {
      var y, N, N1 := x.elems[k], ElemsFrom(c, prop, x.elems, k), ElemsFrom(c, prop, x.elems, k + 1);
      var sa := AddValue(c, a, t, row, p, y, upd);
      var sb := if k < sz then SetValue(c, b, t, row, p, k, y, upd) else AddValue(c, b, t, row, p, y, upd);
      var here := StepsBy(c, b, t, row, p, y, upd, k, sz);
      ElemsStep(c, prop, x.elems, k);
      IdsLess(c, N1, N);
      IdsLess(c, ItemNodes(c, prop, y), N);
      FairSplit(c, K, here, if sb.res.Ok? then StepsAlong(c, sb.db, t, row, p, x.elems, upd, k + 1, sz) else [],
                DistinctAlong(c, prop, x.elems, k));
      ReadyLess(c, K, X + {l}, D, a, b, upd, N, ItemNodes(c, prop, y));
      ElementAgrees(c, K, X, D, a, b, t, row, p, y, upd, k, sz);
      if sa.res.Ok? {
        var M, I := Mistakes(here), Ids(c, ItemNodes(c, prop, y));
        var K1 := Grown(c, K, sa.db, M);
        GrownEverything(c, K, sa.db, M);
        NamedWiden(c, K, a, sa.db, M, I, Ids(c, N), {});
        NextReady(c, K, X + {l}, D, M, I, {}, a, b, sa.db, sb.db, upd, N, N1);
        assert X + {l} + M == X + M + {l};
        NextOnList(c, K, X + M + {l}, D, M, a, b, sa.db, sb.db, t, row, p, upd, N1, k, sz);
        LoopAgrees(c, K1, X + M, D + M, sa.db, sb.db, t, row, p, x, upd, k + 1, sz);
        RestOfList(c, kw, sa.db, t, row, p, x, upd, k + 1);
        AgreeTogether(c, kw, K, K1, a, sa.db, AssignPlain(c, sa.db, t, row, p, x.elems, upd, k + 1),
                      AssignDiff(c, sb.db, t, row, p, x.elems, upd, k + 1, sz), X, D, M,
                      Mistakes(StepsAlong(c, sb.db, t, row, p, x.elems, upd, k + 1, sz)), Ids(c, N), Ids(c, N1), {});
      } else {
        BothFail(c, K, a, sa, sb, X, D, Mistakes(StepsAlong(c, b, t, row, p, x.elems, upd, k, sz)), Ids(c, N), {});
      }
    }
  }

  lemma TrimAgrees(a: Db, b: Db, X: set<Loc>, l: Loc, k: nat, sz: nat)
    requires Similar(a, b, X + {l}) && ListsMatch(a, b, l, k, sz)
    ensures Trim(b, l.t, l.row, l.p, k, sz).res == Ok(())
    ensures Similar(a, Trim(b, l.t, l.row, l.p, k, sz).db, X)
  {
    TrimCuts(b, l, k, sz);
    SimilarStays(a, b, a, Trim(b, l.t, l.row, l.p, k, sz).db, X, l);
  }

  lemma NamedWiden(c: Config, K: set<Id>, from: Db, db: Db, M: set<Loc>, I: set<Id>, I1: set<Id>, O: set<Id>)
    requires Named(c, K, from, db, M, I, O) && I <= I1
    ensures Named(c, K, from, db, M, I1, O)
  {}

  lemma LoopEnds(c: Config, K: set<Id>, X: set<Loc>, D: set<Loc>, a: Db, b: Db, t: nat, row: nat, p: nat, upd: bool,
                 N: set<Node>, k: nat, sz: nat, I: set<Id>)
    requires OnList(c, K, D, a, b, t, row, p, k, sz) && Ready(c, K, X + {Loc(t, row, p)}, D, a, b, upd, N)
    ensures Agree(c, K, a, Ran(a, Ok(())), if k < sz then InTransaction(c, b, Trim(b, t, row, p, k, sz))
                  else Ran(b, Ok(())), X, D, {}, I, {})
  {
    var l := Loc(t, row, p);
    assert X + {} == X && D + {} == D;
    TrimAgrees(a, b, X, l, k, sz);
    TrimCuts(b, l, k, sz);
    ApartAt(a, b, a, Trim(b, t, row, p, k, sz).db, D, l);
  }

  lemma NextOnList(c: Config, K: set<Id>, X: set<Loc>, D: set<Loc>, M: set<Loc>, a: Db, b: Db, a': Db, b': Db, t: nat,
                   row: nat, p: nat, upd: bool, N: set<Node>, k: nat, sz: nat)
    requires OnList(c, K, D, a, b, t, row, p, k, sz) && ListsMatch(a', b', Loc(t, row, p), k + 1, sz)
    requires Ready(c, Grown(c, K, a', M), X, D + M, a', b', upd, N) && M <= X
    requires Evolves(c, WritesKeys(c, upd), {}, {}, a, a') && (WritesKeys(c, upd) ==> Everything in K)
    requires forall l :: l in M ==> l.t != t || l.row != row
    ensures OnList(c, Grown(c, K, a', M), D + M, a', b', t, row, p, k + 1, sz)
  {
    GrownEverything(c, K, a', M);
    if Primary(c, t).Some? { assert Loc(t, row, Primary(c, t).value) !in X; }
  }

  lemma RestOfList(c: Config, kw: bool, db: Db, t: nat, row: nat, p: nat, x: Value, upd: bool, k: nat)
    requires ValidConfig(c) && Sound(c, db) && t < |c.schema| && kw == WritesKeys(c, upd) && x.Vals?
    requires row < NumRows(db, t) && p < |Props(c, t)| && !IsPrimary(c, t, p) && Prop(c, t, p).isArray
    ensures Evolves(c, kw, {}, {}, db, AssignPlain(c, db, t, row, p, x.elems, upd, k).db)
  {
    AssignPlainEvolves(c, kw, {}, {}, db, t, row, p, x, upd, k);
  }

  /** One element: added on the plain side; compared and set, or added, on the other. */
  lemma ElementAgrees(c: Config, K: set<Id>, X: set<Loc>, D: set<Loc>, a: Db, b: Db, t: nat, row: nat, p: nat, x: Value,
                      upd: bool, k: nat, sz: nat)
    requires Ready(c, K, X + {Loc(t, row, p)}, D, a, b, upd, ItemNodes(c, Prop(c, t, p), x))
    requires OnList(c, K, D, a, b, t, row, p, k, sz)
    requires Fair(c, K, StepsBy(c, b, t, row, p, x, upd, k, sz), Prop(c, t, p).base.Object? ==>
                  Distinct(c, Prop(c, t, p).target, x))
    ensures var sa := AddValue(c, a, t, row, p, x, upd);
      var sb := if k < sz then SetValue(c, b, t, row, p, k, x, upd) else AddValue(c, b, t, row, p, x, upd);
      var M := Mistakes(StepsBy(c, b, t, row, p, x, upd, k, sz));
      && sa.res == sb.res && (WritesKeys(c, upd) ==> Everything in K)
      && (sa.res.Ok? ==>
            && Similar(sa.db, sb.db, X + {Loc(t, row, p)} + M) && Apart(sa.db, sb.db, D + M)
            && Named(c, K, a, sa.db, M, Ids(c, ItemNodes(c, Prop(c, t, p), x)), {})
            && ListsMatch(sa.db, sb.db, Loc(t, row, p), k + 1, sz) && (forall l :: l in M ==> l.t != t || l.row != row)
            && Evolves(c, WritesKeys(c, upd), {}, {}, a, sa.db) && ValidConfig(c) && Sound(c, sa.db) && Sound(c, sb.db)
            && row < NumRows(sa.db, t) && p < |Props(c, t)| && !IsPrimary(c, t, p) && t < |c.schema|)
    decreases Height(x), 4, 0
  {
    hide Ready, Similar, Apart, Named, Distinct, Create, Nodes, Steps, Trusted, Evolves, Sound, Avoids, Ids, Mistakes,
         Fair, ItemNodes, UnboxItem, ElemOk, ListsMatch, Agree, AddValue, SetValue, PlaceItem, AddItem, Validate;
    var l, prop, kw, N := Loc(t, row, p), Prop(c, t, p), WritesKeys(c, upd), ItemNodes(c, Prop(c, t, p), x);
    var cur, M := RowAt(b, t, row, p, k, sz), Mistakes(StepsBy(c, b, t, row, p, x, upd, k, sz));
    OnReadyList(c, K, X, D, a, b, t, row, p, upd, N, k, sz);
    UnboxBoth(c, K, X, D, a, b, t, row, p, x, upd, k, sz);
    ElementsEvolve(c, a, b, t, row, p, x, upd, k, sz);
    var ua, ub := UnboxItem(c, a, prop, x, upd, false, None), UnboxItem(c, b, prop, x, upd, k < sz, cur);
    AddedIsPlaced(c, a, t, row, p, x, upd);
    ElementIsPlaced(c, a, b, t, row, p, x, upd, k, sz);
    AgreeSays(c, K, a, ua, ub, X + {l}, D, M, Ids(c, N), {});
    if ua.res.Ok? {
      assert X + {l} + M == X + M + {l};
      PlacedAgrees(c, X + M, D + M, ua.db, ub.db, t, row, p, ua.res.value, k, sz);
      AddItemEvolves(c, kw, {}, {}, ua.db, t, row, p, ua.res.value);
      NamedOn(c, kw, K, a, ua.db, AddItem(ua.db, prop, t, row, p, ua.res.value).db, M, Ids(c, N), {});
    }
  }

  lemma AgreeSays<T>(c: Config, K: set<Id>, from: Db, sa: Ran<T>, sb: Ran<T>, X: set<Loc>, D: set<Loc>, M: set<Loc>,
                     I: set<Id>, O: set<Id>)
    requires Agree(c, K, from, sa, sb, X, D, M, I, O)
    ensures sa.res == sb.res
    ensures sa.res.Ok? ==> Similar(sa.db, sb.db, X + M) && Apart(sa.db, sb.db, D + M)
    ensures sa.res.Ok? ==> Named(c, K, from, sa.db, M, I, O)
  {}

  lemma AddedIsPlaced(c: Config, db: Db, t: nat, row: nat, p: nat, x: Value, upd: bool)
    requires c.inWrite
    ensures var prop := Prop(c, t, p);
      var u := UnboxItem(c, db, prop, x, upd, false, None);
      AddValue(c, db, t, row, p, x, upd) ==
      if u.res.Ok? then AddItem(u.db, prop, t, row, p, u.res.value) else Ran(u.db, Err(u.res.error))
  {
    hide UnboxItem;
  }

  lemma ElementIsPlaced(c: Config, a: Db, b: Db, t: nat, row: nat, p: nat, x: Value, upd: bool, k: nat, sz: nat)
    requires c.inWrite && ListsMatch(a, b, Loc(t, row, p), k, sz)
    ensures var prop := Prop(c, t, p);
      var u := UnboxItem(c, b, prop, x, upd, k < sz, RowAt(b, t, row, p, k, sz));
      var s := if k < sz then SetValue(c, b, t, row, p, k, x, upd) else AddValue(c, b, t, row, p, x, upd);
      && (u.res.Ok? && CellAt(u.db, t, row, p) == CellAt(b, t, row, p) ==>
          s == PlaceItem(u.db, prop, t, row, p, k, sz, u.res.value))
      && (u.res.Err? ==> s == Ran(u.db, Err(u.res.error)))
  {
    hide UnboxItem;
  }

  lemma ElementsEvolve(c: Config, a: Db, b: Db, t: nat, row: nat, p: nat, x: Value, upd: bool, k: nat, sz: nat)
    requires ValidConfig(c) && Sound(c, a) && Sound(c, b) && t < |c.schema| && p < |Props(c, t)|
    requires row < NumRows(a, t) && row < NumRows(b, t) && !IsPrimary(c, t, p) && Prop(c, t, p).isArray
    ensures var sa := AddValue(c, a, t, row, p, x, upd);
      var sb := if k < sz then SetValue(c, b, t, row, p, k, x, upd) else AddValue(c, b, t, row, p, x, upd);
      && Evolves(c, WritesKeys(c, upd), {}, {}, a, sa.db) && Sound(c, sa.db) && Sound(c, sb.db)
      && row < NumRows(sa.db, t) && row < NumRows(sb.db, t)
  {
    var kw := WritesKeys(c, upd);
    AddValueEvolves(c, kw, {}, {}, a, t, row, p, x, upd);
    assert NumRows(a, t) <= NumRows(AddValue(c, a, t, row, p, x, upd).db, t);
    if k < sz {
      SetValueEvolves(c, kw, {}, {}, b, t, row, p, k, x, upd);
      assert NumRows(b, t) <= NumRows(SetValue(c, b, t, row, p, k, x, upd).db, t);
    } else {
      AddValueEvolves(c, kw, {}, {}, b, t, row, p, x, upd);
      assert NumRows(b, t) <= NumRows(AddValue(c, b, t, row, p, x, upd).db, t);
    }
  }

  /** Unboxing one element on both sides leaves the lists as they were. */
  lemma UnboxBoth(c: Config, K: set<Id>, X: set<Loc>, D: set<Loc>, a: Db, b: Db, t: nat, row: nat, p: nat, x: Value,
                  upd: bool, k: nat, sz: nat)
    requires Ready(c, K, X + {Loc(t, row, p)}, D, a, b, upd, ItemNodes(c, Prop(c, t, p), x))
    requires OnList(c, K, D, a, b, t, row, p, k, sz)
    requires Fair(c, K, StepsBy(c, b, t, row, p, x, upd, k, sz), Prop(c, t, p).base.Object? ==>
                  Distinct(c, Prop(c, t, p).target, x))
    ensures var prop, cur := Prop(c, t, p), RowAt(b, t, row, p, k, sz);
      var M := Mistakes(StepsBy(c, b, t, row, p, x, upd, k, sz));
      var ua, ub := UnboxItem(c, a, prop, x, upd, false, None), UnboxItem(c, b, prop, x, upd, k < sz, cur);
      && Agree(c, K, a, ua, ub, X + {Loc(t, row, p)}, D, M, Ids(c, ItemNodes(c, prop, x)), {})
      && (ua.res.Ok? ==>
            && Sound(c, ua.db) && Sound(c, ub.db) && row < NumRows(ua.db, t)
            && ListsMatch(ua.db, ub.db, Loc(t, row, p), k, sz) && CellAt(ub.db, t, row, p) == CellAt(b, t, row, p)
            && (forall l :: l in M ==> l.t != t || l.row != row)
            && (Validate(ua.db, prop, ua.res.value).Ok? ==>
                ElemOk(ua.db, prop, Validate(ua.db, prop, ua.res.value).value))
            && ua.res.value.RowItem? == prop.base.Object?)
    decreases Height(x), 3, 1
  {
    hide Ready, OnList, Similar, Apart, Named, Sound, Mistakes, Ids, Trusted, Agree, Create, Nodes, Distinct, ElemOk,
         Steps, UnboxItem, ItemNodes, StepsIn, Avoids;
    var l, prop, N := Loc(t, row, p), Prop(c, t, p), ItemNodes(c, Prop(c, t, p), x);
    var cur, M := RowAt(b, t, row, p, k, sz), Mistakes(StepsBy(c, b, t, row, p, x, upd, k, sz));
    OnReadyList(c, K, X, D, a, b, t, row, p, upd, N, k, sz);
    var ua, ub := UnboxItem(c, a, prop, x, upd, false, None), UnboxItem(c, b, prop, x, upd, k < sz, cur);
    UnboxItemAgrees(c, K, X + {l}, D, a, b, prop, x, upd, k < sz, None, cur);
    UnboxKeepsCell(c, K, a, t, row, p, x, upd, false, None);
    UnboxKeepsCell(c, K, b, t, row, p, x, upd, k < sz, cur);
    if ua.res.Ok? { AgreedNotInOwnRow(c, K, a, ua, ub, X + {l}, D, M, N, t, row); }
  }

  /** What both loops know of the list and the element before it is unboxed. */
  lemma OnReadyList(c: Config, K: set<Id>, X: set<Loc>, D: set<Loc>, a: Db, b: Db, t: nat, row: nat, p: nat, upd: bool,
                    N: set<Node>, k: nat, sz: nat)
    requires Ready(c, K, X + {Loc(t, row, p)}, D, a, b, upd, N) && OnList(c, K, D, a, b, t, row, p, k, sz)
    ensures var cur := RowAt(b, t, row, p, k, sz);
      && c.inWrite && ValidConfig(c) && Sound(c, a) && Sound(c, b) && ValidProperty(c, Prop(c, t, p))
      && Creating(K, upd) && (WritesKeys(c, upd) ==> Everything in K) && Avoids(c, K, N)
      && InRange(a, t, row, p) && InRange(b, t, row, p) && row < NumRows(a, t) && row < NumRows(b, t)
      && Held(K, RowId(c, a, t, row)) && Held(K, RowId(c, b, t, row))
      && (cur.Some? && Prop(c, t, p).base.Object? ==> cur.value < NumRows(b, Prop(c, t, p).target))
      && ListsMatch(a, b, Loc(t, row, p), k, sz)
  {
    hide Similar, Avoids;
    if k < sz { ListElemOk(c, b, t, row, p, k); }
  }

  /** Unboxing leaves a cell of a protected row as it is. */
  lemma UnboxKeepsCell(c: Config, K: set<Id>, db: Db, t: nat, row: nat, p: nat, x: Value, upd: bool, diff: bool,
                       cur: Option<nat>)
    requires ValidConfig(c) && Sound(c, db) && ValidProperty(c, Prop(c, t, p))
    requires Creating(K, upd) && (WritesKeys(c, upd) ==> Everything in K)
             && Avoids(c, K, ItemNodes(c, Prop(c, t, p), x))
    requires InRange(db, t, row, p) && Held(K, RowId(c, db, t, row))
    requires cur.Some? && Prop(c, t, p).base.Object? ==> cur.value < NumRows(db, Prop(c, t, p).target)
    requires diff ==> Trusted(c, StepsIn(c, db, Prop(c, t, p), x, upd, diff, cur))
    ensures var prop := Prop(c, t, p);
      var u := UnboxItem(c, db, prop, x, upd, diff, cur);
      && Sound(c, u.db) && InRange(u.db, t, row, p) && row < NumRows(u.db, t)
         && CellAt(u.db, t, row, p) == CellAt(db, t, row, p)
      && NumRows(db, prop.target) <= NumRows(u.db, prop.target)
      && (u.res.Ok? ==> u.res.value.RowItem? == prop.base.Object?)
      && (u.res.Ok? && Validate(u.db, prop, u.res.value).Ok? ==>
          ElemOk(u.db, prop, Validate(u.db, prop, u.res.value).value))
  {
    hide Spares, LogSpares, KeysStay, UniqueKeys, LogGrows, NoneAdded, Avoids, Nodes, Create;
    var kw := WritesKeys(c, upd);
    if diff { TrustedLeavesAlone(c, K, StepsIn(c, db, Prop(c, t, p), x, upd, diff, cur)); }
    UnboxItemEvolves(c, kw, K, {}, db, Prop(c, t, p), x, upd, diff, cur);
    var u := UnboxItem(c, db, Prop(c, t, p), x, upd, diff, cur);
    SparedCell(c, kw, K, {}, db, u.db, t, row, p);
    StillThere(c, kw, K, db, u.db, t, row, p);
  }

  lemma AgreedNotInOwnRow<T>(c: Config, K: set<Id>, from: Db, sa: Ran<T>, sb: Ran<T>, X: set<Loc>, D: set<Loc>,
                             M: set<Loc>, N: set<Node>, t: nat, row: nat)
    requires Agree(c, K, from, sa, sb, X, D, M, Ids(c, N), {}) && sa.res.Ok? && Avoids(c, K, N)
    requires row < NumRows(from, t) && Held(K, RowId(c, from, t, row))
    ensures forall l :: l in M ==> l.t != t || l.row != row
  {
    NotInOwnRow(c, K, from, sa.db, M, N, t, row);
  }

  lemma StillThere(c: Config, kw: bool, K: set<Id>, db: Db, db': Db, t: nat, row: nat, p: nat)
    requires Evolves(c, kw, K, {}, db, db') && InRange(db, t, row, p)
    ensures InRange(db', t, row, p) && row < NumRows(db', t)
  {}

  lemma PlacedAgrees(c: Config, X: set<Loc>, D: set<Loc>, a: Db, b: Db, t: nat, row: nat, p: nat, item: Item, k: nat,
                     sz: nat)
    requires Sound(c, b) && Similar(a, b, X + {Loc(t, row, p)}) && Apart(a, b, D) && Loc(t, row, p) !in D
    requires ListsMatch(a, b, Loc(t, row, p), k, sz) && item.RowItem? == Prop(c, t, p).base.Object?
    ensures var prop := Prop(c, t, p);
      var sa := AddItem(a, prop, t, row, p, item);
      var sb := PlaceItem(b, prop, t, row, p, k, sz, item);
      && sa.res == sb.res
      && (sa.res.Ok? ==>
            && Similar(sa.db, sb.db, X + {Loc(t, row, p)}) && Apart(sa.db, sb.db, D)
            && ListsMatch(sa.db, sb.db, Loc(t, row, p), k + 1, sz))
  {
    var l, prop, eb := Loc(t, row, p), Prop(c, t, p), ListAt(b, t, row, p);
    assert NumRows(a, prop.target) == NumRows(b, prop.target);
    assert item.RowItem? ==> NumRows(a, item.t) == NumRows(b, item.t);
    if k < sz { ListElemOk(c, b, t, row, p, k); }
    if Validate(a, prop, item).Ok? {
      var e := Validate(a, prop, item).value;
      ListsAgree(a, b, X, l, k, sz, e);
      var a' := Put(a, ListAdd, t, row, p, Many(ListAt(a, t, row, p) + [e]));
      var kind, cell := if k < sz then ListSet else ListAdd, Many(if k < sz then eb[k := e] else eb + [e]);
      PutOnlyAt(a, ListAdd, l, Many(ListAt(a, t, row, p) + [e]));
      PutOnlyAt(b, kind, l, cell);
      ApartAt(a, b, a', Put(b, kind, t, row, p, cell), D, l);
      ApartAt(a, b, a', b, D, l);
    }
  }
}
