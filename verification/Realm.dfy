/** The object store as it runs: tables updated in place, proved against the functions of `Upsert`. */
module RealmObjects {
  import opened Outcomes
  import opened Schemas
  import opened Tables
  import opened Evolution
  import U = Upsert
  import Keeps
  import Safety

  class Realm {
    const c: Config
    var tables: seq<Table>
    var log: seq<Event>

    function State(): Db
      reads this
    {
      Db(tables, log)
    }

    /** What every operation requires and keeps. */
    ghost predicate Valid()
      reads this
    {
      ValidConfig(c) && Sound(c, State())
    }

    constructor (c: Config)
      requires ValidConfig(c)
      ensures Valid() && this.c == c && State() == Safety.EmptyDb(c)
    {
      this.c := c;
      tables := seq(|c.schema|, _ => []);
      log := [];
      new;
      Safety.EmptyIsSound(c);
    }

    // ---- Core -----------------------------------------------------------------------------------

    /** `Table::add_empty_row` */
    method AddEmptyRow(t: nat) returns (row: nat)
      requires t < |tables|
      modifies this
      ensures State() == Append(old(State()), t, EmptyRow(Props(c, t)))
      ensures row == old(NumRows(State(), t)) == |tables[t]| - 1
    {
      row := |tables[t]|;
      tables := tables[t := tables[t] + [EmptyRow(Props(c, t))]];
      log := log + [Added(t)];
    }

    /** `Table::set_unique` and `set_null_unique` on the row just added. */
    method StampKey(t: nat, row: nat, p: nat, key: Elem)
      requires InRange(State(), t, row, p)
      modifies this`tables
      ensures tables == old(tables)[t := old(tables)[t][row := old(tables)[t][row][p := One(key)]]]
    {
      tables := tables[t := tables[t][row := tables[t][row][p := One(key)]]];
    }

    /** A write to one cell: `set`, `set_null`, `set_link`, `nullify_link`, or a change of its list. */
    method WriteCell(kind: Kind, t: nat, row: nat, p: nat, cell: Cell)
      requires InRange(State(), t, row, p)
      modifies this
      ensures State() == Put(old(State()), kind, t, row, p, cell)
    {
      log := log + [Wrote(kind, t, row, p, tables[t][row][p], cell)];
      tables := tables[t := tables[t][row := tables[t][row][p := cell]]];
    }

    // ---- Objects --------------------------------------------------------------------------------

    /** `Object::create` */
    method Create(t: nat, v: Value, upd: bool, diff: bool, cur: Option<nat>) returns (r: Result<nat>)
      requires Valid() && t < |c.schema|
      requires cur.Some? ==> cur.value < NumRows(State(), t)
      modifies this
      ensures Valid() && U.Ran(State(), r) == U.Create(c, old(State()), t, v, upd, diff, cur)
      decreases Height(v), 2, 0
    {
      hide U.Populate, Nodes, Spares, LogSpares, KeysStay, LogGrows, UniqueKeys;
      ghost var start := State();
      Keeps.CreateEvolves(c, true, {}, {}, start, t, v, upd, diff, cur) by { NothingToAvoid(c, Nodes(c, t, v)); }
      if !c.inWrite { return Err(NotInWrite); }
      var row, created, skipPrimary := 0, false, true;
      if Primary(c, t).Some? {
        var p := Primary(c, t).value;
        var wanted := U.KeyOf(c, t, p, v);
        if wanted.Err? { return Err(wanted.error); }
        var found := FindFirst(State(), t, p, wanted.value);
        if found.None? {
          created := true;
          row := AddEmptyRow(t);
          StampKey(t, row, p, wanted.value);
          assert tables[t][row] == U.KeyedRow(Props(c, t), p, wanted.value);
          assert tables[t] == start.tables[t] + [U.KeyedRow(Props(c, t), p, wanted.value)];
        } else if upd {
          row := found.value;
        } else if c.inMigration {
          row := AddEmptyRow(t);
          created, skipPrimary := true, false;
        } else {
          return Err(DuplicateKey);
        }
      } else if diff && cur.Some? {
        row := cur.value;
      } else {
        row := AddEmptyRow(t);
        created := true;
      }
      ghost var place := U.Place(row, created, skipPrimary);
      assert U.Locate(c, start, t, v, upd, diff, cur) == U.Ran(State(), Ok(place));
      Keeps.LocateEvolves(c, true, {}, {}, start, t, v, upd, diff, cur);
      r := PopulateRow(t, row, created, skipPrimary, v, upd, diff);
    }

    static lemma NothingToAvoid(c: Config, N: set<Node>)
      ensures Avoids(c, {}, N)
    {}

    /** The population loop of `Object::create`. */
    method PopulateRow(t: nat, row: nat, created: bool, skipPrimary: bool, v: Value, upd: bool, diff: bool)
      returns (r: Result<nat>)
      requires Valid() && t < |c.schema| && row < NumRows(State(), t)
      modifies this
      ensures Valid()
      ensures U.Ran(State(), r) == U.Populate(c, old(State()), t, U.Place(row, created, skipPrimary), v, upd, diff, 0)
      decreases Height(v), 1, 0
    {
      ghost var start, place := State(), U.Place(row, created, skipPrimary);
      var i := 0;
      while i < |Props(c, t)|
        invariant i <= |Props(c, t)|
        invariant Valid() && row < NumRows(State(), t)
        invariant U.Populate(c, State(), t, place, v, upd, diff, i) == U.Populate(c, start, t, place, v, upd, diff, 0)
      {
        var prop := Prop(c, t, i);
        if !(skipPrimary && IsPrimary(c, t, i)) {
          var supplied := U.FieldOf(v, i);
          if supplied.Err? { return Err(supplied.error); }
          var f := supplied.value;
          if created || f.Given? {
            var isDefault := f.Absent?;
            if isDefault { f := prop.default; }
            if (f.Absent? || f.v.Null?) && !prop.nullable && !prop.isArray {
              if IsPrimary(c, t, i) || !v.allowMissing { return Err(MissingProperty); }
            }
            if f.Given? {
              var s := SetPropertyValueImpl(t, row, i, f.v, upd, diff, isDefault);
              if s.Err? { return Err(s.error); }
            }
          }
        }
        i := i + 1;
      }
      r := Ok(row);
    }

    /** `Object::set_property_value` */
    method SetPropertyValue(t: nat, row: nat, p: nat, x: Value, upd: bool) returns (r: Result<()>)
      requires Valid() && t < |c.schema|
      modifies this
      ensures Valid() && U.Ran(State(), r) == U.SetPropertyValue(c, old(State()), t, row, p, x, upd)
    {
      if row >= |tables[t]| { return Err(Detached); }
      if !c.inWrite { return Err(NotInWrite); }
      if p >= |Props(c, t)| { return Err(InvalidProperty); }
      if IsPrimary(c, t, p) && !c.inMigration { return Err(ModifyPrimaryKey); }
      r := SetPropertyValueImpl(t, row, p, x, upd, false, false);
    }

    /** `Object::set_property_value_impl` */
    method SetPropertyValueImpl(t: nat, row: nat, p: nat, x: Value, upd: bool, diff: bool, isDefault: bool)
      returns (r: Result<()>)
      requires Valid() && t < |c.schema| && row < NumRows(State(), t) && p < |Props(c, t)|
      modifies this
      ensures Valid() && row < NumRows(State(), t)
      ensures U.Ran(State(), r) == U.SetProp(c, old(State()), t, row, p, x, upd, diff, isDefault)
      decreases Height(x), 6, 0
    {
      ghost var start := State();
      SetStays(start, t, row, p, x, upd, diff, isDefault);
      var prop, cell := Prop(c, t, p), tables[t][row][p];
      if prop.nullable && x.Null? {
        if prop.isArray { return Err(NullNotAllowed); }
        if !diff || cell != One(Nothing) {
          if prop.base.Object? {
            if !isDefault { WriteCell(SetCell, t, row, p, One(Nothing)); }
          } else {
            WriteCell(SetCell, t, row, p, One(Nothing));
          }
        }
        return Ok(());
      }
      if prop.isArray {
        r := Assign(t, row, p, x, upd, diff);
        return;
      }
      if prop.base.Object? {
        var curLink := U.LinkOf(cell);
        var link := Unbox(prop, x, upd, diff, curLink);
        if link.Err? { return Err(link.error); }
        var target := U.ItemRow(link.value);
        if !diff || curLink != Some(target) {
          if target >= |tables[prop.target]| { return Err(TargetOutOfRange); }
          WriteCell(SetCell, t, row, p, One(Link(target)));
        }
        return Ok(());
      }
      var e := U.UnboxScalar(prop, x);
      if e.Err? { return Err(e.error); }
      if !diff || U.Differs(c, prop, cell, e.value) {
        WriteCell(SetCell, t, row, p, One(e.value));
      }
      r := Ok(());
    }

    lemma SetStays(start: Db, t: nat, row: nat, p: nat, x: Value, upd: bool, diff: bool, isDefault: bool)
      requires ValidConfig(c) && Sound(c, start) && t < |c.schema| && row < NumRows(start, t) && p < |Props(c, t)|
      ensures var s := U.SetProp(c, start, t, row, p, x, upd, diff, isDefault);
        Sound(c, s.db) && row < NumRows(s.db, t)
      ensures InRange(start, t, row, p) && ElemsOk(start, Prop(c, t, p), CellAt(start, t, row, p))
      ensures ValidProperty(c, Prop(c, t, p)) && |start.tables| == |c.schema|
    {
      Keeps.SetPropEvolves(c, true, {}, {}, start, t, row, p, x, upd, diff, isDefault) by {
        assert Avoids(c, {}, PropNodes(c, Prop(c, t, p), x));
      }
      assert NumRows(start, t) <= NumRows(U.SetProp(c, start, t, row, p, x, upd, diff, isDefault).db, t);
      assert InRange(start, t, row, p) && CellOk(start, Prop(c, t, p), CellAt(start, t, row, p));
    }

    static predicate ElemsOk(db: Db, prop: Property, cell: Cell) {
      cell.Many? == prop.isArray && (cell.One? ==> ElemOk(db, prop, cell.e))
    }

    /** Unboxing a link or a list element, which may create or update an object. */
    method Unbox(prop: Property, x: Value, upd: bool, diff: bool, cur: Option<nat>) returns (r: Result<U.Item>)
      requires Valid() && ValidProperty(c, prop)
      requires cur.Some? && prop.base.Object? ==> cur.value < NumRows(State(), prop.target)
      modifies this
      ensures Valid() && U.Ran(State(), r) == U.UnboxItem(c, old(State()), prop, x, upd, diff, cur)
      ensures forall t: nat, row: nat, p: nat :: old(InRange(State(), t, row, p)) ==> InRange(State(), t, row, p)
      decreases Height(x), 3, 0
    {
      Keeps.UnboxItemEvolves(c, true, {}, {}, State(), prop, x, upd, diff, cur) by {
        assert Avoids(c, {}, Keeps.ItemNodes(c, prop, x));
      }
      if !prop.base.Object? {
        var e := U.UnboxScalar(prop, x);
        if e.Err? { return Err(e.error); }
        return Ok(U.ElemItem(e.value));
      }
      if x.RowRef? { return Ok(U.RowItem(x.t, x.row)); }
      var row := Create(prop.target, x, upd, diff, cur);
      if row.Err? { return Err(row.error); }
      r := Ok(U.RowItem(prop.target, row.value));
    }

    // ---- Lists ----------------------------------------------------------------------------------

    /** The list cell of a row of this realm. */
    ghost predicate HasList(t: nat, row: nat, p: nat)
      reads this
    {
      Valid() && t < |c.schema| && row < NumRows(State(), t) && p < |Props(c, t)| && Prop(c, t, p).isArray
    }

    lemma ListIsOk(t: nat, row: nat, p: nat)
      requires HasList(t, row, p)
      ensures ValidProperty(c, Prop(c, t, p))
      ensures InRange(State(), t, row, p) && CellAt(State(), t, row, p).Many?
      ensures forall k :: 0 <= k < |ListAt(State(), t, row, p)| ==>
                ElemOk(State(), Prop(c, t, p), ListAt(State(), t, row, p)[k])
    {}

    /** `List::add` of a boxed value */
    method Add(t: nat, row: nat, p: nat, x: Value, upd: bool) returns (r: Result<()>)
      requires HasList(t, row, p)
      modifies this
      ensures HasList(t, row, p) && U.Ran(State(), r) == U.AddValue(c, old(State()), t, row, p, x, upd)
      decreases Height(x), 4, 0
    {
      AddStays(State(), t, row, p, x, upd);
      ListIsOk(t, row, p);
      var item := Unbox(Prop(c, t, p), x, upd, false, None);
      if item.Err? { return Err(item.error); }
      var e := U.Validate(State(), Prop(c, t, p), item.value);
      if e.Err? { return Err(e.error); }
      if !c.inWrite { return Err(NotInWrite); }
      WriteCell(ListAdd, t, row, p, Many(ListAt(State(), t, row, p) + [e.value]));
      r := Ok(());
    }

    lemma AddStays(start: Db, t: nat, row: nat, p: nat, x: Value, upd: bool)
      requires HasList(t, row, p) && start == State()
      ensures var s := U.AddValue(c, start, t, row, p, x, upd); Sound(c, s.db) && row < NumRows(s.db, t)
    {
      Keeps.AddValueEvolves(c, true, {}, {}, start, t, row, p, x, upd) by {
        assert Avoids(c, {}, Keeps.ItemNodes(c, Prop(c, t, p), x));
      }
      assert NumRows(start, t) <= NumRows(U.AddValue(c, start, t, row, p, x, upd).db, t);
    }

    /** `List::set_if_different` */
    method SetIfDifferent(t: nat, row: nat, p: nat, k: nat, x: Value, upd: bool) returns (r: Result<()>)
      requires HasList(t, row, p)
      modifies this
      ensures HasList(t, row, p) && U.Ran(State(), r) == U.SetValue(c, old(State()), t, row, p, k, x, upd)
      decreases Height(x), 4, 0
    {
      ghost var start := State();
      SetIfDifferentStays(State(), t, row, p, k, x, upd);
      ListIsOk(t, row, p);
      if k >= |ListAt(State(), t, row, p)| { return Err(OutOfBounds); }
      var was := ListAt(State(), t, row, p)[k];
      var item := Unbox(Prop(c, t, p), x, upd, true, U.LinkRow(was));
      if item.Err? { return Err(item.error); }
      if U.ItemDiffers(Prop(c, t, p), was, item.value) {
        var e := U.Validate(State(), Prop(c, t, p), item.value);
        if e.Err? { return Err(e.error); }
        if !c.inWrite { return Err(NotInWrite); }
        var es := ListAt(State(), t, row, p);
        if k >= |es| { return Err(OutOfBounds); }
        WriteCell(ListSet, t, row, p, Many(es[k := e.value]));
      }
      r := Ok(());
    }

    lemma SetIfDifferentStays(start: Db, t: nat, row: nat, p: nat, k: nat, x: Value, upd: bool)
      requires HasList(t, row, p) && start == State()
      ensures var s := U.SetValue(c, start, t, row, p, k, x, upd); Sound(c, s.db) && row < NumRows(s.db, t)
    {
      Keeps.SetValueEvolves(c, true, {}, {}, start, t, row, p, k, x, upd) by {
        assert Avoids(c, {}, Keeps.ItemNodes(c, Prop(c, t, p), x));
      }
      assert NumRows(start, t) <= NumRows(U.SetValue(c, start, t, row, p, k, x, upd).db, t);
    }

    /** `List::remove_all` */
    method RemoveAll(t: nat, row: nat, p: nat) returns (r: Result<()>)
      requires HasList(t, row, p)
      modifies this
      ensures HasList(t, row, p)
      ensures r == if c.inWrite then Ok(()) else Err(NotInWrite)
      ensures State() == if c.inWrite then U.Clear(old(State()), t, row, p) else old(State())
    {
      if !c.inWrite { return Err(NotInWrite); }
      PutEvolves(c, true, {}, {}, State(), ListClear, t, row, p, Many([]));
      ListIsOk(t, row, p);
      WriteCell(ListClear, t, row, p, Many([]));
      r := Ok(());
    }

    /** `List::remove` */
    method RemoveAt(t: nat, row: nat, p: nat, k: nat) returns (r: Result<()>)
      requires HasList(t, row, p)
      modifies this
      ensures HasList(t, row, p)
      ensures var es := old(ListAt(State(), t, row, p));
        && r == (if !c.inWrite then Err(NotInWrite) else if k < |es| then Ok(()) else Err(OutOfBounds))
        && State() == if r.Ok? then Put(old(State()), ListRemove, t, row, p, Many(es[..k] + es[k + 1..]))
           else old(State())
    {
      if !c.inWrite { return Err(NotInWrite); }
      var es := ListAt(State(), t, row, p);
      if k >= |es| { return Err(OutOfBounds); }
      ListIsOk(t, row, p);
      PutEvolves(c, true, {}, {}, State(), ListRemove, t, row, p, Many(es[..k] + es[k + 1..]));
      WriteCell(ListRemove, t, row, p, Many(es[..k] + es[k + 1..]));
      r := Ok(());
    }

    /** `List::assign` */
    method Assign(t: nat, row: nat, p: nat, x: Value, upd: bool, diff: bool) returns (r: Result<()>)
      requires HasList(t, row, p)
      modifies this
      ensures HasList(t, row, p) && U.Ran(State(), r) == U.Assign(c, old(State()), t, row, p, x, upd, diff)
      decreases Height(x), 5, 0
    {
      if x == ListRef(t, row, p) { return Ok(()); }
      if x.Null? {
        r := RemoveAll(t, row, p);
        return;
      }
      if diff {
        if !x.Vals? { return Err(BadCast); }
        r := AssignDifferences(t, row, p, x.elems, upd);
      } else {
        r := RemoveAll(t, row, p);
        if r.Err? { return; }
        if !x.Vals? { return Err(BadCast); }
        r := AddAll(t, row, p, x.elems, upd);
      }
    }

    /** The diff branch of `List::assign`: set or add each value, then remove what is left over. */
    method AssignDifferences(t: nat, row: nat, p: nat, vs: seq<Value>, upd: bool) returns (r: Result<()>)
      requires HasList(t, row, p)
      modifies this
      ensures HasList(t, row, p)
      ensures U.Ran(State(), r) ==
              U.AssignDiff(c, old(State()), t, row, p, vs, upd, 0, old(|ListAt(State(), t, row, p)|))
      decreases ValuesHeight(vs), 4, 1
    {
      ghost var start := State();
      var sz: nat, index: nat := |ListAt(State(), t, row, p)|, 0;
      while index < |vs|
        invariant index <= |vs| && HasList(t, row, p)
        invariant U.AssignDiff(c, State(), t, row, p, vs, upd, index, sz) ==
                  U.AssignDiff(c, start, t, row, p, vs, upd, 0, sz)
      {
        if index < sz {
          r := SetIfDifferent(t, row, p, index, vs[index], upd);
        } else {
          r := Add(t, row, p, vs[index], upd);
        }
        if r.Err? { return; }
        index := index + 1;
      }
      r := RemoveFrom(t, row, p, index, sz);
    }

    /** The last loop of the diff branch: removes at `index` until the recorded size is down to it. */
    method RemoveFrom(t: nat, row: nat, p: nat, index: nat, size: nat) returns (r: Result<()>)
      requires HasList(t, row, p)
      modifies this
      ensures HasList(t, row, p)
      ensures U.Ran(State(), r) ==
              if index < size then U.InTransaction(c, old(State()), U.Trim(old(State()), t, row, p, index, size))
                                   else U.Ran(old(State()), Ok(()))
    {
      ghost var start := State();
      var sz: nat := size;
      while index < sz
        invariant HasList(t, row, p) && (sz < size ==> c.inWrite) && sz <= size && (index <= size ==> index <= sz)
        invariant U.Trim(State(), t, row, p, index, sz) == U.Trim(start, t, row, p, index, size)
        invariant sz == size ==> State() == start
      {
        r := RemoveAt(t, row, p, index);
        if r.Err? { return; }
        sz := sz - 1;
      }
      r := Ok(());
    }

    /** The plain branch of `List::assign`, on the cleared list. */
    method AddAll(t: nat, row: nat, p: nat, vs: seq<Value>, upd: bool) returns (r: Result<()>)
      requires HasList(t, row, p)
      modifies this
      ensures HasList(t, row, p)
      ensures U.Ran(State(), r) == U.AssignPlain(c, old(State()), t, row, p, vs, upd, 0)
      decreases ValuesHeight(vs), 4, 1
    {
      ghost var start := State();
      var k := 0;
      while k < |vs|
        invariant k <= |vs| && HasList(t, row, p)
        invariant U.AssignPlain(c, State(), t, row, p, vs, upd, k) == U.AssignPlain(c, start, t, row, p, vs, upd, 0)
      {
        r := Add(t, row, p, vs[k], upd);
        if r.Err? { return; }
        k := k + 1;
      }
      r := Ok(());
    }
  }
}
