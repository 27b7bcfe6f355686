/** Shared result types. */
module Outcomes {

  datatype Option<+T> = None | Some(value: T)

  /** The exceptions the object store raises while it writes. */
  datatype Error =
    | NotInWrite           // InvalidTransactionException
    | Detached             // InvalidatedObjectException, or a detached row
    | InvalidProperty      // InvalidPropertyException
    | ModifyPrimaryKey     // ModifyPrimaryKeyException
    | MissingProperty      // MissingPropertyValueException
    | MissingPrimaryKey    // MissingPrimaryKeyException
    | DuplicateKey         // logic_error "existing primary key value"
    | NullNotAllowed       // null handed to a required column
    | BadCast              // any_cast on a value of another type
    | InvalidRow           // List::validate: detached row or wrong table
    | TargetOutOfRange     // set_link beyond the end of the target table
    | OutOfBounds          // List::OutOfBoundsIndexException

  datatype Result<+T> = Ok(value: T) | Err(error: Error)
}

/** Object schemas and the type-erased values an accessor context hands to the object store. */
module Schemas {
  import opened Outcomes

  datatype Base = Int | Bool | String | Data | Date | Float | Double | Object

  /**
   * A boxed input value. `Prim` is a scalar of one base type: its payload stands for the value
   * itself, and zero is the value core gives a fresh required column of that type.
   * `Obj` is a dictionary (or, with `allowMissing`, an NSArray) that describes an object;
   * `RowRef` boxes a managed object and `ListRef` boxes the managed list of one cell.
   */
  datatype Value =
    | Null
    | Prim(base: Base, bits: int)
    | RowRef(t: nat, row: nat)
    | ListRef(t: nat, row: nat, p: nat)
    | Vals(elems: seq<Value>)
    | Obj(fields: seq<Field>, allowMissing: bool)

  /** What a dictionary holds for one property. */
  datatype Field = Absent | Given(v: Value)

  /** How deep the objects described by a value are nested; zero when there are none. */
  function Height(v: Value): nat
    decreases v
  {
    match v
    case Vals(vs) => ValuesHeight(vs)
    case Obj(fs, _) => 1 + FieldsHeight(fs)
    case _ => 0
  }

  function ValuesHeight(vs: seq<Value>): (h: nat)
    ensures forall i :: 0 <= i < |vs| ==> Height(vs[i]) <= h
    decreases vs
  {
    if vs == [] then 0 else
      var first, rest := Height(vs[0]), ValuesHeight(vs[1..]);
      assert forall i :: 1 <= i < |vs| ==> vs[i] == vs[1..][i - 1];
      if first < rest then rest else first
  }

  function FieldHeight(f: Field): nat
    decreases f
  {
    match f
    case Given(v) => Height(v)
    case Absent => 0
  }

  function FieldsHeight(fs: seq<Field>): (h: nat)
    ensures forall i :: 0 <= i < |fs| ==> FieldHeight(fs[i]) <= h
    decreases fs
  {
    if fs == [] then 0 else
      var first, rest := FieldHeight(fs[0]), FieldsHeight(fs[1..]);
      assert forall i :: 1 <= i < |fs| ==> fs[i] == fs[1..][i - 1];
      if first < rest then rest else first
  }

  /** A default value: it may be null, a scalar, a link or a list of those, but creates no object. */
  type Default = d: Field | FieldHeight(d) == 0 witness Absent

  datatype Property = Property(base: Base, nullable: bool, isArray: bool, target: nat, default: Default)

  datatype ObjectSchema = ObjectSchema(props: seq<Property>, primary: Option<nat>)

  /**
   * What stays fixed while objects are written: the schema, whether the realm is in a write
   * transaction and in a migration, and what core returns when a typed `Table::get` reads a null
   * cell (`nullRead` holds a payload for the base types where that is an ordinary value).
   */
  datatype Config = Config(schema: seq<ObjectSchema>, inWrite: bool, inMigration: bool, nullRead: map<Base, int>)

  function Props(c: Config, t: nat): seq<Property> {
    if t < |c.schema| then c.schema[t].props else []
  }

  function Prop(c: Config, t: nat, p: nat): Property {
    if p < |Props(c, t)| then Props(c, t)[p] else Property(Int, false, false, 0, Absent)
  }

  function Primary(c: Config, t: nat): Option<nat> {
    if t < |c.schema| then c.schema[t].primary else None
  }

  predicate IsPrimary(c: Config, t: nat, p: nat) {
    Primary(c, t) == Some(p)
  }

  /** The parts of schema validation that the object store relies on. */
  predicate ValidProperty(c: Config, prop: Property) {
    prop.base.Object? ==> prop.nullable != prop.isArray && prop.target < |c.schema|
  }

  ghost predicate ValidConfig(c: Config) {
    && (forall t: nat, p: nat :: t < |c.schema| && p < |Props(c, t)| ==> ValidProperty(c, Prop(c, t, p)))
    && (forall t: nat :: t < |c.schema| && Primary(c, t).Some? ==>
          var p := Primary(c, t).value;
          p < |Props(c, t)| && !Prop(c, t, p).isArray && Prop(c, t, p).base in {Int, String})
  }
}
