/**
 What the type check made when a value is bound guarantees about the whole value.

 A value is checked once, at the top, against the type of the slot it goes into: a container is
 compared by the type it was made from, and user-defined types are compared on their common first
 fields only.
 */
module CqlTypecheck {

  import opened Prelude
  import opened CqlTypes

  /** The types a column can have: every subtype is named. */
  predicate Concrete(t: DataType) {
    match t
    case Value(_) => true
    case Custom(_) => false
    case List(e) => e.Some? && Concrete(e.value)
    case Set(e) => e.Some? && Concrete(e.value)
    case Map(k, v) => k.Some? && v.Some? && Concrete(k.value) && Concrete(v.value)
    case Tuple(items) => items != [] && forall i | 0 <= i < |items| :: Concrete(items[i])
    case Udt(_, _, fields) => fields != [] && forall i | 0 <= i < |fields| :: Concrete(fields[i].typ)
    case Vector(e, d) => d > 0 && Concrete(e)
  }

  /** No user-defined type in `a` is a newer version of its counterpart in `b`: it has no more fields. */
  predicate NotNewer(a: DataType, b: DataType) {
    match a
    case Udt(_, _, fields) =>
      b.Udt? ==> |fields| <= |b.fields| && forall i | 0 <= i < |fields| :: NotNewer(fields[i].typ, b.fields[i].typ)
    case List(e) => b.List? && e.Some? && b.elem.Some? ==> NotNewer(e.value, b.elem.value)
    case Set(e) => b.Set? && e.Some? && b.elem.Some? ==> NotNewer(e.value, b.elem.value)
    case Map(k, v) =>
      b.Map? && k.Some? && v.Some? && b.key.Some? && b.val.Some? ==>
        NotNewer(k.value, b.key.value) && NotNewer(v.value, b.val.value)
    case Tuple(items) =>
      b.Tuple? && |items| == |b.items| ==> forall i | 0 <= i < |items| :: NotNewer(items[i], b.items[i])
    case Vector(e, _) => b.Vector? ==> NotNewer(e, b.typ)
    case _ => true
  }

  lemma {:induction false} ConcreteHasNoCustom(t: DataType)
    requires Concrete(t)
    ensures NoCustom(t) && FullyTyped(t)
  {
    match t
    case Value(_) =>
    case List(e) => ConcreteHasNoCustom(e.value);
    case Set(e) => ConcreteHasNoCustom(e.value);
    case Map(k, v) => ConcreteHasNoCustom(k.value); ConcreteHasNoCustom(v.value);
    case Tuple(items) =>
      forall i | 0 <= i < |items| ensures NoCustom(items[i]) && FullyTyped(items[i]) {
        ConcreteHasNoCustom(items[i]);
      }
    case Udt(_, _, fields) =>
      forall i | 0 <= i < |fields| ensures NoCustom(fields[i].typ) && FullyTyped(fields[i].typ) {
        ConcreteHasNoCustom(fields[i].typ);
      }
    case Vector(e, _) => ConcreteHasNoCustom(e);
  }

  lemma {:induction false} SameEncoding(a: DataType, b: DataType)
    requires NoCustom(a) && TypecheckEquals(a, b)
    ensures UsesVariableLength(a) == UsesVariableLength(b)
    decreases a
  {
    if a.Vector? {
      SameEncoding(a.typ, b.typ);
    }
  }

  ghost predicate Pairs(a: DataType, b: DataType) {
    Concrete(a) && Concrete(b) && NoCustom(a) && TypecheckEquals(a, b)
  }

  /** A value of type `a` has every type `a` passes the check against and is not newer than. */
  lemma {:induction false} Lift(v: CqlValue, a: DataType, b: DataType)
    requires Pairs(a, b) && NotNewer(a, b) && HasType(v, a)
    ensures HasType(v, b)
    decreases v
  {
    match v
    case Native(_, _) =>
    case TupleValue(_, items) =>
      forall i | 0 <= i < |items| && items[i].Some? ensures HasType(items[i].value, b.items[i]) {
        assert items decreases to items[i];
        Lift(items[i].value, a.items[i], b.items[i]);
      }
    case ListValue(_, values) =>
      forall i | 0 <= i < |values| ensures HasType(values[i], b.elem.value) {
        Lift(values[i], a.elem.value, b.elem.value);
      }
    case SetValue(_, values) =>
      forall i | 0 <= i < |values| ensures HasType(values[i], b.elem.value) {
        Lift(values[i], a.elem.value, b.elem.value);
      }
    case MapValue(_, pairs) =>
      forall i | 0 <= i < |pairs|
        ensures HasType(pairs[i].key, b.key.value) && HasType(pairs[i].val, b.val.value)
      {
        assert pairs decreases to pairs[i];
        Lift(pairs[i].key, a.key.value, b.key.value);
        Lift(pairs[i].val, a.val.value, b.val.value);
      }
    case VectorValue(_, _, slots) =>
      SameEncoding(a.typ, b.typ);
      forall i | 0 <= i < |slots| && slots[i].Some? ensures HasType(slots[i].value, b.typ) {
        assert slots decreases to slots[i];
        Lift(slots[i].value, a.typ, b.typ);
      }
    case UdtValue(_, fields) =>
      forall i | 0 <= i < |fields| && fields[i].value.Some?
        ensures HasType(fields[i].value.value, b.fields[i].typ)
      {
        assert fields decreases to fields[i];
        Lift(fields[i].value.value, a.fields[i].typ, b.fields[i].typ);
      }
  }

  // ----- With a newer type, the check lets wrong values through

  lemma {:induction false} TypecheckReflexive(t: DataType)
    requires NoCustom(t)
    ensures TypecheckEquals(t, t)
  {
    match t
    case Value(_) =>
    case List(e) =>
      if e.Some? {
        TypecheckReflexive(e.value);
      }
    case Set(e) =>
      if e.Some? {
        TypecheckReflexive(e.value);
      }
    case Map(k, v) =>
      if k.Some? {
        TypecheckReflexive(k.value);
      }
      if v.Some? {
        TypecheckReflexive(v.value);
      }
    case Tuple(items) =>
      forall i | 0 <= i < |items| ensures TypecheckEquals(items[i], items[i]) {
        TypecheckReflexive(items[i]);
      }
    case Udt(_, _, fields) =>
      forall i | 0 <= i < |fields| ensures TypecheckEquals(fields[i].typ, fields[i].typ) {
        TypecheckReflexive(fields[i].typ);
      }
    case Vector(e, _) => TypecheckReflexive(e);
  }

  function KindFor(vt: ValueType): NativeKind {
    match vt
    case TinyInt => TinyIntKind
    case SmallInt => SmallIntKind
    case Int => IntKind
    case Bigint => BigIntKind
    case Counter => BigIntKind
    case Timestamp => BigIntKind
    case Time => BigIntKind
    case Float => FloatKind
    case Double => DoubleKind
    case Boolean => BooleanKind
    case Uuid => UuidKind
    case Timeuuid => UuidKind
    case Date => DateKind
    case Inet => InetKind
    case Duration => DurationKind
    case Decimal => DecimalKind
    case _ => TextKind
  }

  /** A value made for slots of type `t`. */
  ghost predicate MadeFor(v: CqlValue, t: DataType) {
    Made(v) && Compatible(v, t) && HasType(v, t)
  }

  /** The fields of a type, all null. */
  function NoValues(t: DataType): (fields: seq<UdtFieldValue>)
    requires t.Udt?
    ensures |fields| == |t.fields|
    ensures forall i | 0 <= i < |fields| :: fields[i] == UdtFieldValue(t.fields[i].name, None)
  {
    seq(|t.fields|, i requires 0 <= i < |t.fields| => UdtFieldValue(t.fields[i].name, None))
  }

  function Inhabitant(t: DataType): (v: CqlValue)
    requires Concrete(t)
    ensures MadeFor(v, t)
  {
    ConcreteHasNoCustom(t);
    TypecheckReflexive(t);
    match t
    case Value(vt) =>
      var width := KindWidth(KindFor(vt));
      Native(KindFor(vt), seq(if width.Some? then width.value else 0, _ => 0))
    case List(_) => ListValue(Some(t), [])
    case Set(_) => SetValue(Some(t), [])
    case Map(_, _) => MapValue(Some(t), [])
    case Tuple(items) => TupleValue(Some(t), seq(|items|, _ => None))
    case Vector(e, d) => VectorValue(t, e, seq(d, _ => None))
    case Udt(_, _, _) => UdtValue(t, NoValues(t))
  }

  /** Made for `a`, and not of type `b`. */
  ghost predicate Breaks(v: CqlValue, a: DataType, b: DataType) {
    MadeFor(v, a) && !HasType(v, b)
  }

  lemma BrokenTuple(a: DataType, b: DataType, i: nat, w: CqlValue) returns (v: CqlValue)
    requires Pairs(a, b) && a.Tuple? && i < |a.items| && Breaks(w, a.items[i], b.items[i])
    ensures Breaks(v, a, b) && Declared(v) == Some(a)
  {
    var items: seq<Option<CqlValue>> := seq(|a.items|, _ => None);
    v := TupleValue(Some(a), items[i := Some(w)]);
    TypecheckReflexive(a);
    assert v.items[i] == Some(w);
  }

  lemma BrokenVector(a: DataType, b: DataType, w: CqlValue) returns (v: CqlValue)
    requires Pairs(a, b) && a.Vector? && Breaks(w, a.typ, b.typ)
    ensures Breaks(v, a, b) && Declared(v) == Some(a)
  {
    var slots: seq<Option<CqlValue>> := seq(a.dimensions, _ => None);
    v := VectorValue(a, a.typ, slots[0 := Some(w)]);
    TypecheckReflexive(a);
    assert v.slots[0] == Some(w);
  }

  lemma BrokenField(a: DataType, b: DataType, i: nat, w: CqlValue) returns (v: CqlValue)
    requires Pairs(a, b) && a.Udt? && i < |a.fields| && i < |b.fields| && Breaks(w, a.fields[i].typ, b.fields[i].typ)
    ensures Breaks(v, a, b) && Declared(v) == Some(a)
  {
    v := UdtValue(a, NoValues(a)[i := UdtFieldValue(a.fields[i].name, Some(w))]);
    TypecheckReflexive(a);
    assert v.fields[i].value == Some(w);
  }

  /** A record of a newer version has fields the slot's type does not know. */
  lemma BrokenUdt(a: DataType, b: DataType) returns (v: CqlValue)
    requires Pairs(a, b) && a.Udt? && |a.fields| > |b.fields|
    ensures Breaks(v, a, b) && Declared(v) == Some(a)
  {
    v := UdtValue(a, NoValues(a));
    TypecheckReflexive(a);
  }

  lemma BrokenList(a: DataType, b: DataType, w: CqlValue) returns (v: CqlValue)
    requires Pairs(a, b) && (a.List? || a.Set?) && Breaks(w, a.elem.value, b.elem.value)
    ensures Breaks(v, a, b) && Declared(v) == Some(a)
  {
    v := if a.List? then ListValue(Some(a), [w]) else SetValue(Some(a), [w]);
    TypecheckReflexive(a);
    assert v.values[0] == w;
  }

  lemma BrokenMap(a: DataType, b: DataType, p: Pair) returns (v: CqlValue)
    requires Pairs(a, b) && a.Map? && MadeFor(p.key, a.key.value) && MadeFor(p.val, a.val.value)
    requires !HasType(p.key, b.key.value) || !HasType(p.val, b.val.value)
    ensures Breaks(v, a, b) && Declared(v) == Some(a)
  {
    v := MapValue(Some(a), [p]);
    TypecheckReflexive(a);
    assert v.pairs[0] == p;
  }

  /** If `a` is newer than `b` somewhere, some value made for `a` is not of type `b`. */
  lemma {:induction false} Breaker(a: DataType, b: DataType) returns (v: CqlValue)
    requires Pairs(a, b) && !NotNewer(a, b)
    ensures Breaks(v, a, b) && Declared(v) == Some(a)
    decreases a
  {
    if a.List? || a.Set? {
      var w := Breaker(a.elem.value, b.elem.value);
      v := BrokenList(a, b, w);
    } else if a.Map? {
      if !NotNewer(a.key.value, b.key.value) {
        var w := Breaker(a.key.value, b.key.value);
        v := BrokenMap(a, b, Pair(w, Inhabitant(a.val.value)));
      } else {
        var w := Breaker(a.val.value, b.val.value);
        v := BrokenMap(a, b, Pair(Inhabitant(a.key.value), w));
      }
    } else if a.Tuple? {
      var i :| 0 <= i < |a.items| && !NotNewer(a.items[i], b.items[i]);
      var w := Breaker(a.items[i], b.items[i]);
      v := BrokenTuple(a, b, i, w);
    } else if a.Vector? {
      var w := Breaker(a.typ, b.typ);
      v := BrokenVector(a, b, w);
    } else if |a.fields| > |b.fields| {
      v := BrokenUdt(a, b);
    } else {
      var i :| 0 <= i < |a.fields| && !NotNewer(a.fields[i].typ, b.fields[i].typ);
      var w := Breaker(a.fields[i].typ, b.fields[i].typ);
      v := BrokenField(a, b, i, w);
    }
  }

  /** The check of the types is enough for every value made for the first exactly if no user-defined
      type in it is newer than in the second. */
  lemma CheckIsSoundExactlyWhenNotNewer(a: DataType, b: DataType)
    requires Concrete(a) && Concrete(b) && NoCustom(a) && TypecheckEquals(a, b)
    ensures (forall v | MadeFor(v, a) :: HasType(v, b)) <==> NotNewer(a, b)
  {
    if NotNewer(a, b) {
      forall v | MadeFor(v, a) ensures HasType(v, b) {
        Lift(v, a, b);
      }
    } else {
      var v := Breaker(a, b);
      assert Breaks(v, a, b);
    }
  }
}
