/**
 Which types the check made at bind time takes for equal: the types are compared along every path
 that leads from the top into both of them, and they have to agree at its end.
 */
module CqlTypePaths {

  import opened Prelude
  import opened CqlTypes
  import opened CqlTypecheck

  /** A step from a type to one of its subtypes. */
  datatype Turn = Elem | Key | Val | Item(i: nat) | FieldAt(i: nat)

  function Sub(t: DataType, turn: Turn): Option<DataType> {
    match turn
    case Elem => if t.List? || t.Set? then t.elem else if t.Vector? then Some(t.typ) else None
    case Key => if t.Map? then t.key else None
    case Val => if t.Map? && t.key.Some? then t.val else None
    case Item(i) => if t.Tuple? && i < |t.items| then Some(t.items[i]) else None
    case FieldAt(i) => if t.Udt? && i < |t.fields| then Some(t.fields[i].typ) else None
  }

  /** The subtype at the end of the path, if the type has one there. */
  function At(t: DataType, path: seq<Turn>): Option<DataType>
    decreases |path|
  {
    if path == [] then Some(t) else
    var sub := Sub(t, path[0]);
    if sub.None? then None else At(sub.value, path[1..])
  }

  /** Names agree if they are the same, or one of them is left open. */
  predicate NamesAgree(a: string, b: string) {
    |a| > 0 && |b| > 0 ==> a == b
  }

  /** The types agree as far as can be seen without going into them. */
  predicate HeadsAgree(a: DataType, b: DataType) {
    match a
    case Value(vt) => b.Value? && (b.vt == vt || {b.vt, vt} == {Text, Varchar})
    case Udt(keyspace, name, fields) =>
      && b.Udt? && NamesAgree(keyspace, b.keyspace) && NamesAgree(name, b.name)
      && forall i | 0 <= i < |fields| && i < |b.fields| :: fields[i].name == b.fields[i].name
    case List(_) => b.List?
    case Set(_) => b.Set?
    case Map(key, val) => b.Map? && (key.Some? && b.key.Some? ==> (val.Some? <==> b.val.Some?))
    case Tuple(items) => b.Tuple? && (|items| == |b.items| || |items| == 0 || |b.items| == 0)
    case Vector(_, dimensions) => b.Vector? && dimensions == b.dimensions
    case Custom(_) => false
  }

  ghost predicate AgreeAt(a: DataType, b: DataType, path: seq<Turn>) {
    At(a, path).Some? && At(b, path).Some? ==> HeadsAgree(At(a, path).value, At(b, path).value)
  }

  ghost predicate AgreeEverywhere(a: DataType, b: DataType) {
    forall path :: AgreeAt(a, b, path)
  }

  lemma HeadsOfEqual(a: DataType, b: DataType)
    requires NoCustom(a) && TypecheckEquals(a, b)
    ensures HeadsAgree(a, b)
  {
  }

  lemma SubsOfEqual(a: DataType, b: DataType, turn: Turn)
    requires NoCustom(a) && TypecheckEquals(a, b) && Sub(a, turn).Some? && Sub(b, turn).Some?
    ensures NoCustom(Sub(a, turn).value) && TypecheckEquals(Sub(a, turn).value, Sub(b, turn).value)
  {
  }

  lemma {:induction false} EqualAgrees(a: DataType, b: DataType, path: seq<Turn>)
    requires NoCustom(a) && TypecheckEquals(a, b)
    ensures AgreeAt(a, b, path)
    decreases |path|
  {
    if path == [] {
      HeadsOfEqual(a, b);
    } else if Sub(a, path[0]).Some? && Sub(b, path[0]).Some? {
      SubsOfEqual(a, b, path[0]);
      EqualAgrees(Sub(a, path[0]).value, Sub(b, path[0]).value, path[1..]);
    }
  }

  lemma AgreeBelow(a: DataType, b: DataType, turn: Turn)
    requires AgreeEverywhere(a, b) && Sub(a, turn).Some? && Sub(b, turn).Some?
    ensures AgreeEverywhere(Sub(a, turn).value, Sub(b, turn).value)
  {
    forall path ensures AgreeAt(Sub(a, turn).value, Sub(b, turn).value, path) {
      assert AgreeAt(a, b, [turn] + path);
      assert ([turn] + path)[1..] == path;
    }
  }

  lemma {:induction false} AgreeingIsEqual(a: DataType, b: DataType)
    requires NoCustom(a) && AgreeEverywhere(a, b)
    ensures TypecheckEquals(a, b)
    decreases a
  {
    assert AgreeAt(a, b, []);
    match a
    case Value(_) =>
    case List(e) =>
      if e.Some? && b.elem.Some? {
        AgreeBelow(a, b, Elem);
        AgreeingIsEqual(e.value, b.elem.value);
      }
    case Set(e) =>
      if e.Some? && b.elem.Some? {
        AgreeBelow(a, b, Elem);
        AgreeingIsEqual(e.value, b.elem.value);
      }
    case Map(k, v) =>
      if k.Some? && b.key.Some? {
        AgreeBelow(a, b, Key);
        AgreeingIsEqual(k.value, b.key.value);
        if v.Some? && b.val.Some? {
          AgreeBelow(a, b, Val);
          AgreeingIsEqual(v.value, b.val.value);
        }
      }
    case Tuple(items) =>
      forall i | 0 <= i < |items| && i < |b.items| ensures TypecheckEquals(items[i], b.items[i]) {
        AgreeBelow(a, b, Item(i));
        AgreeingIsEqual(items[i], b.items[i]);
      }
    case Udt(_, _, fields) =>
      forall i | 0 <= i < |fields| && i < |b.fields| ensures TypecheckEquals(fields[i].typ, b.fields[i].typ) {
        AgreeBelow(a, b, FieldAt(i));
        AgreeingIsEqual(fields[i].typ, b.fields[i].typ);
      }
    case Vector(e, _) =>
      AgreeBelow(a, b, Elem);
      AgreeingIsEqual(e, b.typ);
  }

  /** The check passes if and only if the types agree at the end of every path that both have. */
  lemma CheckComparesEveryPath(a: DataType, b: DataType)
    requires NoCustom(a)
    ensures TypecheckEquals(a, b) <==> AgreeEverywhere(a, b)
  {
    if TypecheckEquals(a, b) {
      forall path ensures AgreeAt(a, b, path) {
        EqualAgrees(a, b, path);
      }
    } else if AgreeEverywhere(a, b) {
      AgreeingIsEqual(a, b);
    }
  }

  /** A user-defined type of another keyspace or name is refused, however deep it is found. */
  lemma OtherNameIsRefused(a: DataType, b: DataType, path: seq<Turn>)
    requires NoCustom(a) && At(a, path).Some? && At(b, path).Some? && At(a, path).value.Udt? && At(b, path).value.Udt?
    requires var u, v := At(a, path).value, At(b, path).value;
             || (u.keyspace != v.keyspace && u.keyspace != "" && v.keyspace != "")
             || (u.name != v.name && u.name != "" && v.name != "")
    ensures !TypecheckEquals(a, b)
  {
    CheckComparesEveryPath(a, b);
    assert !AgreeAt(a, b, path);
  }

  // ----- Where nothing is left open

  /** Text and varchar are two names of one type. */
  function Normal(t: DataType): DataType {
    match t
    case Value(vt) => if vt.Text? then Value(Varchar) else t
    case Custom(_) => t
    case List(e) => List(if e.Some? then Some(Normal(e.value)) else None)
    case Set(e) => Set(if e.Some? then Some(Normal(e.value)) else None)
    case Map(k, v) =>
      Map(if k.Some? then Some(Normal(k.value)) else None, if v.Some? then Some(Normal(v.value)) else None)
    case Tuple(items) => Tuple(seq(|items|, i requires 0 <= i < |items| => Normal(items[i])))
    case Udt(keyspace, name, fields) =>
      Udt(keyspace, name, seq(|fields|, i requires 0 <= i < |fields| => Field(fields[i].name, Normal(fields[i].typ))))
    case Vector(e, d) => Vector(Normal(e), d)
  }

  /** Every user-defined type says which one it is. */
  predicate Named(t: DataType) {
    match t
    case Value(_) => true
    case Custom(_) => true
    case List(e) => e.Some? ==> Named(e.value)
    case Set(e) => e.Some? ==> Named(e.value)
    case Map(k, v) => (k.Some? ==> Named(k.value)) && (v.Some? ==> Named(v.value))
    case Tuple(items) => forall i | 0 <= i < |items| :: Named(items[i])
    case Udt(keyspace, name, fields) =>
      keyspace != "" && name != "" && forall i | 0 <= i < |fields| :: Named(fields[i].typ)
    case Vector(e, _) => Named(e)
  }

  /** Versions of a user-defined type that stand in the same place have the same number of fields. */
  predicate SameCounts(a: DataType, b: DataType) {
    match a
    case List(e) => b.List? && e.Some? && b.elem.Some? ==> SameCounts(e.value, b.elem.value)
    case Set(e) => b.Set? && e.Some? && b.elem.Some? ==> SameCounts(e.value, b.elem.value)
    case Map(k, v) =>
      b.Map? && k.Some? && v.Some? && b.key.Some? && b.val.Some? ==>
        SameCounts(k.value, b.key.value) && SameCounts(v.value, b.val.value)
    case Tuple(items) =>
      b.Tuple? && |items| == |b.items| ==> forall i | 0 <= i < |items| :: SameCounts(items[i], b.items[i])
    case Udt(_, _, fields) =>
      b.Udt? ==> |fields| == |b.fields| && forall i | 0 <= i < |fields| :: SameCounts(fields[i].typ, b.fields[i].typ)
    case Vector(e, _) => b.Vector? ==> SameCounts(e, b.typ)
    case _ => true
  }

  ghost predicate Closed(a: DataType, b: DataType) {
    Concrete(a) && Concrete(b) && NoCustom(a) && Named(a) && Named(b) && SameCounts(a, b)
  }

  /** Between types that leave nothing open the check is equality. */
  lemma {:induction false} CheckIsEquality(a: DataType, b: DataType)
    requires Concrete(a) && Concrete(b) && NoCustom(a) && Named(a) && Named(b) && SameCounts(a, b)
    ensures TypecheckEquals(a, b) <==> Normal(a) == Normal(b)
    decreases a
  {
    match a
    case Value(_) =>
    case List(e) =>
      if b.List? {
        CheckIsEquality(e.value, b.elem.value);
      }
    case Set(e) =>
      if b.Set? {
        CheckIsEquality(e.value, b.elem.value);
      }
    case Map(k, v) =>
      if b.Map? {
        CheckIsEquality(k.value, b.key.value);
        CheckIsEquality(v.value, b.val.value);
      }
    case Tuple(items) =>
      if b.Tuple? {
        TupleIsEquality(a, b);
      }
    case Udt(_, _, fields) =>
      if b.Udt? {
        UdtIsEquality(a, b);
      }
    case Vector(e, _) =>
      if b.Vector? {
        CheckIsEquality(e, b.typ);
      }
  }

  lemma {:induction false} TupleIsEquality(a: DataType, b: DataType)
    requires Closed(a, b) && a.Tuple? && b.Tuple?
    ensures TypecheckEquals(a, b) <==> Normal(a) == Normal(b)
    decreases a, 0
  {
    assert |Normal(a).items| == |a.items| && |Normal(b).items| == |b.items|;
    if |a.items| != |b.items| {
      return;
    }
    forall i | 0 <= i < |a.items| ensures TypecheckEquals(a.items[i], b.items[i]) <==> Normal(a.items[i]) == Normal(b.items[i]) {
      CheckIsEquality(a.items[i], b.items[i]);
    }
    var x, y := Normal(a).items, Normal(b).items;
    assert x == y <==> forall i | 0 <= i < |x| :: x[i] == y[i];
    assert forall i | 0 <= i < |x| :: x[i] == Normal(a.items[i]) && y[i] == Normal(b.items[i]);
  }

  lemma {:induction false} UdtIsEquality(a: DataType, b: DataType)
    requires Closed(a, b) && a.Udt? && b.Udt?
    ensures TypecheckEquals(a, b) <==> Normal(a) == Normal(b)
    decreases a, 0
  {
    forall i | 0 <= i < |a.fields|
      ensures TypecheckEquals(a.fields[i].typ, b.fields[i].typ) <==> Normal(a.fields[i].typ) == Normal(b.fields[i].typ)
    {
      CheckIsEquality(a.fields[i].typ, b.fields[i].typ);
    }
    var x, y := Normal(a).fields, Normal(b).fields;
    assert x == y <==> forall i | 0 <= i < |x| :: x[i] == y[i];
    assert forall i | 0 <= i < |x| ::
             x[i] == Field(a.fields[i].name, Normal(a.fields[i].typ)) && y[i] == Field(b.fields[i].name, Normal(b.fields[i].typ));
  }

  // ----- What is checked of a value

  /** Each native type takes one kind of value, blob and varint two. */
  lemma OneKindPerType(kind: NativeKind, vt: NativeType)
    ensures Accepts(kind, vt) <==> kind == KindFor(vt) || (kind.BlobKind? && (vt.Blob? || vt.Varint?))
  {
  }

  /** A native value needs a type of its kind, an untyped container one of its shape, and a container
      that was made from a type one that agrees with it along every path. */
  lemma AcceptedExactlyWhen(v: CqlValue, t: DataType)
    requires DeclaredOk(v)
    ensures v.Native? ==> (Compatible(v, t) <==> t.Value? && Accepts(v.kind, t.vt))
    ensures !v.Native? && Declared(v).None? ==>
              (Compatible(v, t) <==> (v.TupleValue? && t.Tuple?) || (v.ListValue? && t.List?) ||
                                     (v.SetValue? && t.Set?) || (v.MapValue? && t.Map?))
    ensures Declared(v).Some? ==>
              (Compatible(v, t) <==> AgreeEverywhere(Declared(v).value, t))
  {
    if Declared(v).Some? {
      CheckComparesEveryPath(Declared(v).value, t);
    }
  }

  /** A record of one user-defined type is refused by a column of another with the same fields. */
  lemma AddressIsNoPerson(fields: seq<Field>, v: CqlValue)
    requires v.UdtValue? && v.typ == Udt("ks", "address", fields) && DeclaredOk(v)
    ensures !Compatible(v, Udt("ks", "person", fields))
  {
    OtherNameIsRefused(v.typ, Udt("ks", "person", fields), []);
  }
}
