/** What a value asks of a column, a property or a row, told from the value alone. */
module Meanings {
  import opened Outcomes
  import opened Schemas
  import opened Tables

  /** A scalar column takes null where it may be null, and scalars of its own type. */
  predicate Takes(prop: Property, x: Value) {
    if x.Null? then prop.nullable else x.Prim? && x.base == prop.base && !prop.base.Object?
  }

  /** The element that a scalar or null becomes. */
  function ElemOf(x: Value): Elem {
    if x.Prim? then Scalar(x.bits) else Nothing
  }

  /** What a scalar column raises for a value that it does not take. */
  function Refusal(x: Value): Error {
    if x.Null? then NullNotAllowed else BadCast
  }

  /** A dictionary holds a value for the property. */
  predicate Supplies(v: Value, i: nat, x: Value) {
    v.Obj? && i < |v.fields| && v.fields[i] == Given(x)
  }

  /** A dictionary holds nothing for the property. */
  predicate Omits(v: Value, i: nat) {
    v.Obj? && (i < |v.fields| ==> v.fields[i].Absent?)
  }

  /** The property needs a value: it can neither be null nor be an empty list. */
  predicate Required(prop: Property) {
    !prop.nullable && !prop.isArray
  }

  /** What a dictionary offers for a property of a new object: its own value, or else the default. */
  function Offered(prop: Property, v: Value, i: nat): (f: Field)
    requires v.Obj?
    ensures FieldHeight(f) < Height(v)
  {
    if Omits(v, i) then prop.default else v.fields[i]
  }

  /** The primary key that a dictionary asks for: the one offered, or else null where that is allowed. */
  predicate AsksFor(c: Config, t: nat, v: Value, key: Elem) {
    Primary(c, t).Some? && v.Obj? &&
    var p := Primary(c, t).value;
    match Offered(Prop(c, t, p), v, p)
    case Given(x) => Takes(Prop(c, t, p), x) && key == ElemOf(x)
    case Absent => Prop(c, t, p).nullable && key == Nothing
  }

  /** A row of the table carries the key. */
  ghost predicate Carried(c: Config, db: Db, t: nat, key: Elem) {
    && Primary(c, t).Some?
    && exists row: nat :: row < NumRows(db, t) && CellAt(db, t, row, Primary(c, t).value) == One(key)
  }

  /** The row carries the key that a dictionary asks for, if its type has keys. */
  ghost predicate IsOf(c: Config, db: Db, t: nat, row: nat, v: Value) {
    Primary(c, t).Some? ==>
      exists key :: AsksFor(c, t, v, key) && CellAt(db, t, row, Primary(c, t).value) == One(key)
  }

  /** What reading gives back for an element. */
  predicate Boxes(prop: Property, e: Elem, x: Value) {
    match e
    case Nothing => x == Null
    case Scalar(bits) => x == Prim(prop.base, bits)
    case Link(row) => x == RowRef(prop.target, row)
  }
}
