/**
 * What creating and updating objects does, as functions from one database to the next.
 * A failing operation returns the database as the exception leaves it.
 */
module Upsert {
  import opened Outcomes
  import opened Schemas
  import opened Tables

  datatype Ran<+T> = Ran(db: Db, res: Result<T>)

  // ---- Unboxing ---------------------------------------------------------------------------

  function UnboxScalar(prop: Property, x: Value): Result<Elem> {
    match x
    case Null => if prop.nullable then Ok(Nothing) else Err(NullNotAllowed)
    case Prim(base, bits) => if base == prop.base && !base.Object? then Ok(Scalar(bits)) else Err(BadCast)
    case _ => Err(BadCast)
  }

  /** `value_for_property`: only a dictionary can be asked for a property. */
  function FieldOf(v: Value, i: nat): (r: Result<Field>)
    ensures r.Ok? ==> v.Obj? && FieldHeight(r.value) < Height(v)
  {
    match v
    case Obj(fields, _) => if i < |fields| then Ok(fields[i]) else Ok(Absent)
    case _ => Err(BadCast)
  }

  /** The primary key a value asks for: supplied, else defaulted, else null where that is allowed. */
  function KeyOf(c: Config, t: nat, p: nat, v: Value): Result<Elem> {
    var prop := Prop(c, t, p);
    match FieldOf(v, p)
    case Err(e) => Err(e)
    case Ok(Given(x)) => UnboxScalar(prop, x)
    case Ok(Absent) =>
      if prop.default.Given? then UnboxScalar(prop, prop.default.v)
      else if prop.nullable then Ok(Nothing)
      else Err(MissingProperty)
  }

  // ---- Finding or adding the row ----------------------------------------------------------

  datatype Place = Place(row: nat, created: bool, skipPrimary: bool)

  function Locate(c: Config, db: Db, t: nat, v: Value, upd: bool, diff: bool, cur: Option<nat>): Ran<Place> {
    var n := NumRows(db, t);
    match Primary(c, t)
    case None =>
      if diff && cur.Some? then Ran(db, Ok(Place(cur.value, false, true)))
      else Ran(Append(db, t, EmptyRow(Props(c, t))), Ok(Place(n, true, true)))
    case Some(p) =>
      match KeyOf(c, t, p, v)
      case Err(e) => Ran(db, Err(e))
      case Ok(key) =>
        match FindFirst(db, t, p, key)
        case None => Ran(Append(db, t, KeyedRow(Props(c, t), p, key)), Ok(Place(n, true, true)))
        case Some(row) =>
          if upd then Ran(db, Ok(Place(row, false, true)))
          else if c.inMigration then Ran(Append(db, t, EmptyRow(Props(c, t))), Ok(Place(n, true, false)))
          else Ran(db, Err(DuplicateKey))
  }

  /** An empty row on which the primary key has been stamped. */
  function KeyedRow(props: seq<Property>, p: nat, key: Elem): (r: Row)
    ensures |r| == |props|
    ensures forall i :: 0 <= i < |r| ==> r[i] == if i == p then One(key) else EmptyCell(props[i])
  {
    if p < |props| then EmptyRow(props)[p := One(key)] else EmptyRow(props)
  }

  // ---- Populating it ----------------------------------------------------------------------

  datatype Choice = Skip | Fail(error: Error) | Write(x: Value, isDefault: bool)

  /** What the population loop does with one property. */
  function Choose(c: Config, t: nat, i: nat, v: Value, place: Place): (r: Choice)
    ensures r.Write? ==> v.Obj? && Height(r.x) < Height(v)
  {
    if place.skipPrimary && IsPrimary(c, t, i) then Skip
    else
      var prop := Prop(c, t, i);
      match FieldOf(v, i)
      case Err(e) => Fail(e)
      case Ok(supplied) =>
        if !place.created && supplied.Absent? then Skip
        else
          var f := if supplied.Given? then supplied else prop.default;
          if (f.Absent? || f.v.Null?) && !prop.nullable && !prop.isArray &&
             (IsPrimary(c, t, i) || !v.allowMissing)
          then Fail(MissingProperty)
          else if f.Given? then Write(f.v, supplied.Absent?)
          else Skip
  }

  function Create(c: Config, db: Db, t: nat, v: Value, upd: bool, diff: bool, cur: Option<nat>): Ran<nat>
    decreases Height(v), 2, 0
  {
    if !c.inWrite then Ran(db, Err(NotInWrite))
    else
      var at := Locate(c, db, t, v, upd, diff, cur);
      match at.res
      case Err(e) => Ran(at.db, Err(e))
      case Ok(place) => Populate(c, at.db, t, place, v, upd, diff, 0)
  }

  /** Writes the properties from index `i` on. */
  function Populate(c: Config, db: Db, t: nat, place: Place, v: Value, upd: bool, diff: bool, i: nat): Ran<nat>
    decreases Height(v), 1, |Props(c, t)| - i
  {
    if i >= |Props(c, t)| then Ran(db, Ok(place.row))
    else
      match Choose(c, t, i, v, place)
      case Skip => Populate(c, db, t, place, v, upd, diff, i + 1)
      case Fail(e) => Ran(db, Err(e))
      case Write(x, isDefault) =>
        var s := SetProp(c, db, t, place.row, i, x, upd, diff, isDefault);
        if s.res.Err? then Ran(s.db, Err(s.res.error))
        else Populate(c, s.db, t, place, v, upd, diff, i + 1)
  }

  /** `do_update_value`: whether the value differs from what a typed read of the cell returns. */
  predicate Differs(c: Config, prop: Property, cell: Cell, e: Elem) {
    if cell == One(Nothing) then !(prop.base in c.nullRead && e == Scalar(c.nullRead[prop.base]))
    else cell != One(e)
  }

  /** `get_link`: the row a link cell names, if any. */
  function LinkOf(cell: Cell): Option<nat> {
    if cell.One? && cell.e.Link? then Some(cell.e.row) else None
  }

  function SetProp(c: Config, db: Db, t: nat, row: nat, p: nat, x: Value,
                   upd: bool, diff: bool, isDefault: bool): Ran<()>
    decreases Height(x), 6, 0
  {
    var prop := Prop(c, t, p);
    var cell := CellAt(db, t, row, p);
    if prop.nullable && x.Null? then
      if prop.isArray then Ran(db, Err(NullNotAllowed))
      else if diff && cell == One(Nothing) then Ran(db, Ok(()))
      else if prop.base.Object? && isDefault then Ran(db, Ok(()))
      else Ran(Put(db, SetCell, t, row, p, One(Nothing)), Ok(()))
    else if prop.isArray then
      Assign(c, db, t, row, p, x, upd, diff)
    else if prop.base.Object? then
      var u := UnboxItem(c, db, prop, x, upd, diff, LinkOf(cell));
      if u.res.Err? then Ran(u.db, Err(u.res.error))
      else SetLink(u.db, prop, t, row, p, LinkOf(cell), u.res.value, diff)
    else
      match UnboxScalar(prop, x)
      case Err(e) => Ran(db, Err(e))
      case Ok(e) =>
        if diff && !Differs(c, prop, cell, e) then Ran(db, Ok(()))
        else Ran(Put(db, SetCell, t, row, p, One(e)), Ok(()))
  }

  /** `set_link`, which takes the row index only and checks it against the target table. */
  function SetLink(db: Db, prop: Property, t: nat, row: nat, p: nat,
                   cur: Option<nat>, item: Item, diff: bool): Ran<()> {
    var target := ItemRow(item);
    if diff && cur == Some(target) then Ran(db, Ok(()))
    else if target < NumRows(db, prop.target) then Ran(Put(db, SetCell, t, row, p, One(Link(target))), Ok(()))
    else Ran(db, Err(TargetOutOfRange))
  }

  // ---- Lists ------------------------------------------------------------------------------

  /** An unboxed list element or link: a row of some table, or a scalar. */
  datatype Item = RowItem(t: nat, row: nat) | ElemItem(e: Elem)

  function ItemRow(item: Item): nat {
    match item case RowItem(_, row) => row case ElemItem(_) => 0
  }

  /** Unboxing an object or a row gives a row, creating or updating it on the way. */
  function UnboxItem(c: Config, db: Db, prop: Property, x: Value,
                     upd: bool, diff: bool, cur: Option<nat>): Ran<Item>
    decreases Height(x), 3, 0
  {
    if !prop.base.Object? then
      match UnboxScalar(prop, x)
      case Err(e) => Ran(db, Err(e))
      case Ok(e) => Ran(db, Ok(ElemItem(e)))
    else if x.RowRef? then Ran(db, Ok(RowItem(x.t, x.row)))
    else
      var s := Create(c, db, prop.target, x, upd, diff, cur);
      match s.res
      case Err(e) => Ran(s.db, Err(e))
      case Ok(row) => Ran(s.db, Ok(RowItem(prop.target, row)))
  }

  /** `List::validate`: the row must be attached and belong to the list's target table. */
  function Validate(db: Db, prop: Property, item: Item): Result<Elem> {
    match item
    case ElemItem(e) => Ok(e)
    case RowItem(t, row) => if t == prop.target && row < NumRows(db, t) then Ok(Link(row)) else Err(InvalidRow)
  }

  /** `help_compare_values` */
  predicate ItemDiffers(prop: Property, was: Elem, item: Item) {
    match item
    case ElemItem(e) => was != e
    case RowItem(t, row) => t != prop.target || was != Link(row)
  }

  function LinkRow(e: Elem): Option<nat> {
    if e.Link? then Some(e.row) else None
  }

  function AddItem(db: Db, prop: Property, t: nat, row: nat, p: nat, item: Item): Ran<()> {
    match Validate(db, prop, item)
    case Err(e) => Ran(db, Err(e))
    case Ok(e) => Ran(Put(db, ListAdd, t, row, p, Many(ListAt(db, t, row, p) + [e])), Ok(()))
  }

  function SetItem(db: Db, prop: Property, t: nat, row: nat, p: nat, k: nat, item: Item): Ran<()> {
    match Validate(db, prop, item)
    case Err(e) => Ran(db, Err(e))
    case Ok(e) =>
      var es := ListAt(db, t, row, p);
      if k < |es| then Ran(Put(db, ListSet, t, row, p, Many(es[k := e])), Ok(()))
      else Ran(db, Err(OutOfBounds))
  }

  /** What a change of a list comes to: `verify_in_transaction` stops it outside a transaction. */
  function InTransaction(c: Config, db: Db, s: Ran<()>): Ran<()> {
    if c.inWrite then s else Ran(db, Err(NotInWrite))
  }

  /** `List::assign` */
  function Assign(c: Config, db: Db, t: nat, row: nat, p: nat, x: Value, upd: bool, diff: bool): Ran<()>
    decreases Height(x), 5, 0
  {
    if x == ListRef(t, row, p) then Ran(db, Ok(()))
    else if x.Null? then InTransaction(c, db, Ran(Clear(db, t, row, p), Ok(())))
    else if diff then
      if x.Vals? then AssignDiff(c, db, t, row, p, x.elems, upd, 0, |ListAt(db, t, row, p)|)
      else Ran(db, Err(BadCast))
    else if !c.inWrite then Ran(db, Err(NotInWrite))
    else
      if x.Vals? then AssignPlain(c, Clear(db, t, row, p), t, row, p, x.elems, upd, 0)
      else Ran(Clear(db, t, row, p), Err(BadCast))
  }

  function Clear(db: Db, t: nat, row: nat, p: nat): Db {
    Put(db, ListClear, t, row, p, Many([]))
  }

  /** Adds the values from index `k` on. */
  function AssignPlain(c: Config, db: Db, t: nat, row: nat, p: nat, vs: seq<Value>, upd: bool, k: nat): Ran<()>
    decreases ValuesHeight(vs), 4, |vs| - k
  {
    if k >= |vs| then Ran(db, Ok(()))
    else
      var s := AddValue(c, db, t, row, p, vs[k], upd);
      if s.res.Err? then s else AssignPlain(c, s.db, t, row, p, vs, upd, k + 1)
  }

  /** `List::add` of a boxed value: it is always unboxed in the plain mode. */
  function AddValue(c: Config, db: Db, t: nat, row: nat, p: nat, x: Value, upd: bool): Ran<()>
    decreases Height(x), 4, 0
  {
    var u := UnboxItem(c, db, Prop(c, t, p), x, upd, false, None);
    if u.res.Err? then Ran(u.db, Err(u.res.error))
    else if Validate(u.db, Prop(c, t, p), u.res.value).Err? then AddItem(u.db, Prop(c, t, p), t, row, p, u.res.value)
    else InTransaction(c, u.db, AddItem(u.db, Prop(c, t, p), t, row, p, u.res.value))
  }

  /** `List::set_if_different` */
  function SetValue(c: Config, db: Db, t: nat, row: nat, p: nat, k: nat, x: Value, upd: bool): Ran<()>
    decreases Height(x), 4, 0
  {
    var es := ListAt(db, t, row, p);
    if k >= |es| then Ran(db, Err(OutOfBounds))
    else
      var u := UnboxItem(c, db, Prop(c, t, p), x, upd, true, LinkRow(es[k]));
      if u.res.Err? then Ran(u.db, Err(u.res.error))
      else if ItemDiffers(Prop(c, t, p), es[k], u.res.value) then
        if Validate(u.db, Prop(c, t, p), u.res.value).Err? then SetItem(u.db, Prop(c, t, p), t, row, p, k, u.res.value)
        else InTransaction(c, u.db, SetItem(u.db, Prop(c, t, p), t, row, p, k, u.res.value))
      else Ran(u.db, Ok(()))
  }

  /** Handles the values from index `k` on against a list that held `sz` elements, then trims it. */
  function AssignDiff(c: Config, db: Db, t: nat, row: nat, p: nat, vs: seq<Value>, upd: bool, k: nat, sz: nat): Ran<()>
    decreases ValuesHeight(vs), 4, |vs| - k
  {
    if k >= |vs| then
      if k < sz then InTransaction(c, db, Trim(db, t, row, p, k, sz)) else Ran(db, Ok(()))
    else
      var s := if k < sz then SetValue(c, db, t, row, p, k, vs[k], upd)
               else AddValue(c, db, t, row, p, vs[k], upd);
      if s.res.Err? then s else AssignDiff(c, s.db, t, row, p, vs, upd, k + 1, sz)
  }

  /** Removes the element at `k` until the recorded size has come down to `k`. */
  function Trim(db: Db, t: nat, row: nat, p: nat, k: nat, sz: nat): Ran<()>
    decreases sz - k
  {
    if k >= sz then Ran(db, Ok(()))
    else
      var es := ListAt(db, t, row, p);
      if k >= |es| then Ran(db, Err(OutOfBounds))
      else Trim(Put(db, ListRemove, t, row, p, Many(es[..k] + es[k + 1..])), t, row, p, k, sz - 1)
  }

  // ---- The public entry points besides Create ---------------------------------------------

  /** `Object::set_property_value` */
  function SetPropertyValue(c: Config, db: Db, t: nat, row: nat, p: nat, x: Value, upd: bool): Ran<()> {
    if row >= NumRows(db, t) then Ran(db, Err(Detached))
    else if !c.inWrite then Ran(db, Err(NotInWrite))
    else if p >= |Props(c, t)| then Ran(db, Err(InvalidProperty))
    else if IsPrimary(c, t, p) && !c.inMigration then Ran(db, Err(ModifyPrimaryKey))
    else SetProp(c, db, t, row, p, x, upd, false, false)
  }

  /** `Object::get_for_primary_key`: no row when the key is not there. */
  function GetForPrimaryKey(c: Config, db: Db, t: nat, x: Value): Result<Option<nat>> {
    match Primary(c, t)
    case None => Err(MissingPrimaryKey)
    case Some(p) =>
      match UnboxScalar(Prop(c, t, p), x)
      case Err(e) => Err(e)
      case Ok(key) => Ok(FindFirst(db, t, p, key))
  }

  /** Boxing one element of a column. */
  function BoxElem(prop: Property, e: Elem): Value {
    match e
    case Nothing => Null
    case Scalar(bits) => Prim(prop.base, bits)
    case Link(row) => RowRef(prop.target, row)
  }

  /** `Object::get_property_value`, with a list boxed as its present elements. */
  function GetPropertyValue(c: Config, db: Db, t: nat, row: nat, p: nat): Result<Value> {
    if p >= |Props(c, t)| then Err(InvalidProperty)
    else if row >= NumRows(db, t) then Err(Detached)
    else
      match CellAt(db, t, row, p)
      case One(e) => Ok(BoxElem(Prop(c, t, p), e))
      case Many(es) => Ok(Vals(seq(|es|, i requires 0 <= i < |es| => BoxElem(Prop(c, t, p), es[i]))))
  }
}
