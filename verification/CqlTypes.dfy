/**
 CQL data types and values as the C API builds them, with the type checks made when a value is
 bound (scylla-rust-wrapper/src/cql_types/data_type.rs and value.rs).

 The `frozen` flags are left out: no check looks at them.
 */
module CqlTypes {

  import opened Prelude

  datatype ValueType =
    | Ascii | Bigint | Blob | Boolean | Counter | Decimal | Double | Float | Int | Text | Timestamp
    | Uuid | Varchar | Varint | Timeuuid | Inet | Date | Time | SmallInt | TinyInt | Duration
    | ListType | SetType | MapType | TupleType | UdtType | VectorType | CustomType | Unknown

  predicate IsNative(vt: ValueType) {
    !(vt.ListType? || vt.SetType? || vt.MapType? || vt.TupleType? || vt.UdtType? || vt.VectorType? ||
      vt.CustomType? || vt.Unknown?)
  }

  /** The value types data types are made from directly; the others have constructors of their own. */
  type NativeType = vt: ValueType | IsNative(vt) witness Ascii

  datatype Field = Field(name: string, typ: DataType)

  /** A missing subtype stands for an untyped collection, an empty tuple for an untyped tuple. */
  datatype DataType =
    | Value(vt: NativeType)
    | Udt(keyspace: string, name: string, fields: seq<Field>)
    | List(elem: Option<DataType>)
    | Set(elem: Option<DataType>)
    | Map(key: Option<DataType>, val: Option<DataType>) // val.Some? only if key.Some?
    | Tuple(items: seq<DataType>)
    | Vector(typ: DataType, dimensions: nat)
    | Custom(cls: string)

  function GetValueType(t: DataType): ValueType {
    match t
    case Value(vt) => vt
    case Udt(_, _, _) => UdtType
    case List(_) => ListType
    case Set(_) => SetType
    case Map(_, _) => MapType
    case Tuple(_) => TupleType
    case Vector(_, _) => VectorType
    case Custom(_) => CustomType
  }

  /** TEXT and VARCHAR both denote the CQL `text` type. */
  predicate ValueTypesEqual(t1: ValueType, t2: ValueType) {
    t1 == t2 || (t1.Text? && t2.Varchar?) || (t1.Varchar? && t2.Text?)
  }

  predicate EmptyOrEqual(s1: string, s2: string) {
    s1 == "" || s2 == "" || s1 == s2
  }

  function Min(a: nat, b: nat): nat {
    if a < b then a else b
  }

  /** Whether all subtypes are named, down to the leaves. */
  predicate FullyTyped(t: DataType) {
    match t
    case Value(_) => true
    case Custom(_) => false
    case List(e) => e.Some? && FullyTyped(e.value)
    case Set(e) => e.Some? && FullyTyped(e.value)
    case Map(k, v) => k.Some? && v.Some? && FullyTyped(k.value) && FullyTyped(v.value)
    case Tuple(items) => items != [] && forall i | 0 <= i < |items| :: FullyTyped(items[i])
    case Udt(_, _, fields) => fields != [] && forall i | 0 <= i < |fields| :: FullyTyped(fields[i].typ)
    case Vector(e, _) => FullyTyped(e)
  }

  /** No custom type anywhere: the check panics on one. */
  predicate NoCustom(t: DataType) {
    match t
    case Value(_) => true
    case Custom(_) => false
    case List(e) => e.Some? ==> NoCustom(e.value)
    case Set(e) => e.Some? ==> NoCustom(e.value)
    case Map(k, v) => (k.Some? ==> NoCustom(k.value)) && (v.Some? ==> NoCustom(v.value))
    case Tuple(items) => forall i | 0 <= i < |items| :: NoCustom(items[i])
    case Udt(_, _, fields) => forall i | 0 <= i < |fields| :: NoCustom(fields[i].typ)
    case Vector(e, _) => NoCustom(e)
  }

  /** The equality used by type checks: missing subtypes are wildcards, and two user-defined types
      agree when the first fields they share do. */
  predicate TypecheckEquals(a: DataType, b: DataType)
    requires NoCustom(a)
    decreases a
  {
    match a
    case Value(t) => ValueTypesEqual(t, GetValueType(b))
    case Udt(keyspace, name, fields) =>
      && b.Udt? && EmptyOrEqual(keyspace, b.keyspace) && EmptyOrEqual(name, b.name)
      && forall i | 0 <= i < Min(|fields|, |b.fields|) ::
           fields[i].name == b.fields[i].name && TypecheckEquals(fields[i].typ, b.fields[i].typ)
    case List(e) => b.List? && (e.Some? && b.elem.Some? ==> TypecheckEquals(e.value, b.elem.value))
    case Set(e) => b.Set? && (e.Some? && b.elem.Some? ==> TypecheckEquals(e.value, b.elem.value))
    case Map(k, v) =>
      && b.Map?
      && (k.Some? && b.key.Some? ==>
            && v.Some? == b.val.Some?
            && TypecheckEquals(k.value, b.key.value)
            && (v.Some? && b.val.Some? ==> TypecheckEquals(v.value, b.val.value)))
    case Tuple(items) =>
      && b.Tuple?
      && (items != [] && b.items != [] ==>
            |items| == |b.items| && forall i | 0 <= i < |items| :: TypecheckEquals(items[i], b.items[i]))
    case Vector(e, d) => b.Vector? && d == b.dimensions && TypecheckEquals(e, b.typ)
    case Custom(_) => false
  }

  // ----- Values

  datatype NativeKind =
    | TinyIntKind | SmallIntKind | IntKind | BigIntKind | FloatKind | DoubleKind | BooleanKind
    | TextKind | BlobKind | UuidKind | DateKind | InetKind | DurationKind | DecimalKind

  datatype UdtFieldValue = UdtFieldValue(name: string, value: Option<CqlValue>)

  datatype Pair = Pair(key: CqlValue, val: CqlValue)

  /** A native value is its kind and its serialized bytes; their encoding is the rust driver's. */
  datatype CqlValue =
    | Native(kind: NativeKind, bytes: seq<byte>)
    | TupleValue(declared: Option<DataType>, items: seq<Option<CqlValue>>)
    | ListValue(declared: Option<DataType>, values: seq<CqlValue>)
    | SetValue(declared: Option<DataType>, values: seq<CqlValue>)
    | MapValue(declared: Option<DataType>, pairs: seq<Pair>)
    | VectorValue(typ: DataType, elem: DataType, slots: seq<Option<CqlValue>>)
    | UdtValue(typ: DataType, fields: seq<UdtFieldValue>)

  /** Which native types a value of a kind can be bound to. */
  predicate Accepts(kind: NativeKind, vt: ValueType) {
    match kind
    case TinyIntKind => vt.TinyInt?
    case SmallIntKind => vt.SmallInt?
    case IntKind => vt.Int?
    case BigIntKind => vt.Bigint? || vt.Counter? || vt.Timestamp? || vt.Time?
    case FloatKind => vt.Float?
    case DoubleKind => vt.Double?
    case BooleanKind => vt.Boolean?
    case TextKind => vt.Text? || vt.Varchar? || vt.Ascii? || vt.Blob? || vt.Varint?
    case BlobKind => vt.Blob? || vt.Varint?
    case UuidKind => vt.Uuid? || vt.Timeuuid?
    case DateKind => vt.Date?
    case InetKind => vt.Inet?
    case DurationKind => vt.Duration?
    case DecimalKind => vt.Decimal?
  }

  /** The length of the serialized bytes of the fixed-width kinds. */
  function KindWidth(kind: NativeKind): Option<nat> {
    match kind
    case TinyIntKind => Some(1)
    case SmallIntKind => Some(2)
    case IntKind => Some(4)
    case BigIntKind => Some(8)
    case FloatKind => Some(4)
    case DoubleKind => Some(8)
    case BooleanKind => Some(1)
    case UuidKind => Some(16)
    case DateKind => Some(4)
    case _ => None
  }

  /** The element sizes a vector knows (the rust driver's table); other types carry a length. */
  function VectorWidth(vt: ValueType): Option<nat> {
    match vt
    case Boolean => Some(1)
    case Float => Some(4)
    case Int => Some(4)
    case Bigint => Some(8)
    case Double => Some(8)
    case Timestamp => Some(8)
    case Uuid => Some(16)
    case Timeuuid => Some(16)
    case _ => None
  }

  predicate UsesVariableLength(t: DataType) {
    match t
    case Value(vt) => VectorWidth(vt).None?
    case Vector(e, _) => UsesVariableLength(e)
    case _ => true
  }

  /** is_type_compatible: a native value is checked against the type, a container only through the
      type it was created from. */
  predicate Compatible(v: CqlValue, t: DataType)
    requires DeclaredOk(v)
  {
    match v
    case Native(kind, _) => Accepts(kind, GetValueType(t))
    case TupleValue(d, _) => if d.Some? then TypecheckEquals(d.value, t) else GetValueType(t).TupleType?
    case ListValue(d, _) => if d.Some? then TypecheckEquals(d.value, t) else GetValueType(t).ListType?
    case SetValue(d, _) => if d.Some? then TypecheckEquals(d.value, t) else GetValueType(t).SetType?
    case MapValue(d, _) => if d.Some? then TypecheckEquals(d.value, t) else GetValueType(t).MapType?
    case VectorValue(d, _, _) => TypecheckEquals(d, t)
    case UdtValue(d, _) => TypecheckEquals(d, t)
  }

  /** The declared type of a container has no custom type in it. */
  predicate DeclaredOk(v: CqlValue) {
    match v
    case Native(_, _) => true
    case TupleValue(d, _) => d.Some? ==> NoCustom(d.value)
    case ListValue(d, _) => d.Some? ==> NoCustom(d.value)
    case SetValue(d, _) => d.Some? ==> NoCustom(d.value)
    case MapValue(d, _) => d.Some? ==> NoCustom(d.value)
    case VectorValue(d, _, _) => NoCustom(d)
    case UdtValue(d, _) => NoCustom(d)
  }

  /** The value is one of the type, down to the leaves. The user-defined type may have fields the
      value does not know yet, but not fewer; a vector's elements have to be encoded as the type asks. */
  predicate HasType(v: CqlValue, t: DataType) {
    match v
    case Native(kind, bytes) =>
      t.Value? && Accepts(kind, t.vt) && (KindWidth(kind).Some? ==> |bytes| == KindWidth(kind).value)
    case TupleValue(_, items) =>
      && t.Tuple? && |items| == |t.items|
      && forall i | 0 <= i < |items| :: items[i].Some? ==> HasType(items[i].value, t.items[i])
    case ListValue(_, values) =>
      t.List? && t.elem.Some? && forall i | 0 <= i < |values| :: HasType(values[i], t.elem.value)
    case SetValue(_, values) =>
      t.Set? && t.elem.Some? && forall i | 0 <= i < |values| :: HasType(values[i], t.elem.value)
    case MapValue(_, pairs) =>
      && t.Map? && t.key.Some? && t.val.Some?
      && forall i | 0 <= i < |pairs| :: HasType(pairs[i].key, t.key.value) && HasType(pairs[i].val, t.val.value)
    case VectorValue(_, elem, slots) =>
      && t.Vector? && |slots| == t.dimensions && UsesVariableLength(elem) == UsesVariableLength(t.typ)
      && forall i | 0 <= i < |slots| :: slots[i].Some? ==> HasType(slots[i].value, t.typ)
    case UdtValue(_, fields) =>
      && t.Udt? && |fields| <= |t.fields|
      && forall i | 0 <= i < |fields| ::
           && fields[i].name == t.fields[i].name
           && (fields[i].value.Some? ==> HasType(fields[i].value.value, t.fields[i].typ))
  }

  // ----- Values the API can make

  predicate OptionCompatible(v: Option<CqlValue>, t: DataType)
    requires v.Some? ==> DeclaredOk(v.value)
  {
    v.Some? ==> Compatible(v.value, t)
  }

  /** The value went through the checks of the API, and so did everything in it. */
  predicate Made(v: CqlValue)
    ensures Made(v) ==> DeclaredOk(v)
  {
    DeclaredOk(v) &&
    match v
    case Native(kind, bytes) => KindWidth(kind).Some? ==> |bytes| == KindWidth(kind).value
    case TupleValue(d, items) =>
      && (forall i | 0 <= i < |items| :: items[i].Some? ==> Made(items[i].value))
      && (d.Some? ==>
            && d.value.Tuple? && |d.value.items| == |items|
            && forall i | 0 <= i < |items| :: OptionCompatible(items[i], d.value.items[i]))
    case ListValue(d, values) =>
      && (forall i | 0 <= i < |values| :: Made(values[i]))
      && (d.Some? ==>
            && d.value.List?
            && (d.value.elem.Some? ==> forall i | 0 <= i < |values| :: Compatible(values[i], d.value.elem.value)))
    case SetValue(d, values) =>
      && (forall i | 0 <= i < |values| :: Made(values[i]))
      && (d.Some? ==>
            && d.value.Set?
            && (d.value.elem.Some? ==> forall i | 0 <= i < |values| :: Compatible(values[i], d.value.elem.value)))
    case MapValue(d, pairs) =>
      && (forall i | 0 <= i < |pairs| :: Made(pairs[i].key) && Made(pairs[i].val))
      && (d.Some? ==>
            && d.value.Map?
            && (d.value.key.Some? ==> forall i | 0 <= i < |pairs| :: Compatible(pairs[i].key, d.value.key.value))
            && (d.value.val.Some? ==> forall i | 0 <= i < |pairs| :: Compatible(pairs[i].val, d.value.val.value)))
    case VectorValue(d, elem, slots) =>
      && d.Vector? && elem == d.typ && |slots| == d.dimensions
      && forall i | 0 <= i < |slots| :: slots[i].Some? ==> Made(slots[i].value) && Compatible(slots[i].value, elem)
    case UdtValue(d, fields) =>
      && d.Udt? && |fields| <= |d.fields|
      && forall i | 0 <= i < |fields| ::
           && fields[i].name == d.fields[i].name
           && (fields[i].value.Some? ==> Made(fields[i].value.value) && Compatible(fields[i].value.value, d.fields[i].typ))
  }

  function Declared(v: CqlValue): Option<DataType> {
    match v
    case Native(_, _) => None
    case TupleValue(d, _) => d
    case ListValue(d, _) => d
    case SetValue(d, _) => d
    case MapValue(d, _) => d
    case VectorValue(d, _, _) => Some(d)
    case UdtValue(d, _) => Some(d)
  }
}
