/**
 The objects through which the C API assembles composite values: CassTuple, CassVector,
 CassUserType and CassCollection. Every value they produce satisfies `Made`.
 */
module CqlBuilders {

  import opened Prelude
  import opened CqlTypes

  datatype CassError =
    | CassOk | IndexOutOfBounds | InvalidValueType | NameDoesNotExist | InvalidItemCount

  predicate OptionMade(v: Option<CqlValue>) {
    v.Some? ==> Made(v.value)
  }

  // ----- Tuples

  class CassTuple {
    const dataType: Option<DataType>
    var items: seq<Option<CqlValue>>

    ghost predicate Valid()
      reads this
    {
      Made(ToValue())
    }

    /** The value bound to a statement. */
    function ToValue(): CqlValue
      reads this
    {
      TupleValue(dataType, items)
    }

    constructor Untyped(itemCount: nat)
      ensures Valid() && dataType == None && items == seq(itemCount, _ => None)
    {
      dataType := None;
      items := seq(itemCount, _ => None);
    }

    constructor FromDataType(t: DataType)
      requires t.Tuple? && NoCustom(t)
      ensures Valid() && dataType == Some(t) && items == seq(|t.items|, _ => None)
    {
      dataType := Some(t);
      items := seq(|t.items|, _ => None);
    }

    method BindValue(index: nat, v: Option<CqlValue>) returns (err: CassError)
      requires Valid() && OptionMade(v)
      modifies this
      ensures Valid()
      ensures err == (if index >= |old(items)| then IndexOutOfBounds
                      else if dataType.Some? && !OptionCompatible(v, dataType.value.items[index]) then InvalidValueType
                      else CassOk)
      ensures items == if err == CassOk then old(items)[index := v] else old(items)
    {
      if index >= |items| {
        return IndexOutOfBounds;
      }
      if dataType.Some? && !OptionCompatible(v, dataType.value.items[index]) {
        return InvalidValueType;
      }
      items := items[index := v];
      return CassOk;
    }
  }

  // ----- Vectors

  /** cass_data_type_new_vector: no vector of an element type with missing subtypes, nor of none. */
  function NewVectorType(elem: DataType, dimensions: nat): Option<DataType> {
    if !FullyTyped(elem) || dimensions == 0 then None else Some(Vector(elem, dimensions))
  }

  lemma {:induction false} FullyTypedHasNoCustom(t: DataType)
    requires FullyTyped(t)
    ensures NoCustom(t)
  {
    match t
    case Value(_) =>
    case List(e) => FullyTypedHasNoCustom(e.value);
    case Set(e) => FullyTypedHasNoCustom(e.value);
    case Map(k, v) => FullyTypedHasNoCustom(k.value); FullyTypedHasNoCustom(v.value);
    case Tuple(items) =>
      forall i | 0 <= i < |items| ensures NoCustom(items[i]) {
        FullyTypedHasNoCustom(items[i]);
      }
    case Udt(_, _, fields) =>
      forall i | 0 <= i < |fields| ensures NoCustom(fields[i].typ) {
        FullyTypedHasNoCustom(fields[i].typ);
      }
    case Vector(e, _) => FullyTypedHasNoCustom(e);
  }

  class CassVector {
    const dataType: DataType
    const elementType: DataType
    var items: seq<Option<CqlValue>>

    ghost predicate Valid()
      reads this
    {
      Made(ToValue())
    }

    function ToValue(): CqlValue
      reads this
    {
      VectorValue(dataType, elementType, items)
    }

    constructor (elem: DataType, dimensions: nat)
      requires NewVectorType(elem, dimensions).Some?
      ensures Valid() && dataType == Vector(elem, dimensions) && items == seq(dimensions, _ => None)
    {
      dataType := Vector(elem, dimensions);
      elementType := elem;
      items := seq(dimensions, _ => None);
      new;
      FullyTypedHasNoCustom(elem);
    }

    method BindValue(index: nat, v: CqlValue) returns (err: CassError)
      requires Valid() && Made(v)
      modifies this
      ensures Valid()
      ensures err == (if index >= |old(items)| then IndexOutOfBounds
                      else if !Compatible(v, elementType) then InvalidValueType
                      else CassOk)
      ensures items == if err == CassOk then old(items)[index := Some(v)] else old(items)
    {
      if index >= |items| {
        return IndexOutOfBounds;
      }
      if !Compatible(v, elementType) {
        return InvalidValueType;
      }
      items := items[index := Some(v)];
      return CassOk;
    }
  }

  // ----- User-defined types

  /** What comes of setting field `i` of a value that has `count` of them. */
  function FieldError(t: DataType, count: nat, v: Option<CqlValue>, i: nat): CassError
    requires t.Udt? && OptionMade(v) && (i < count ==> i < |t.fields|)
  {
    if i >= count then IndexOutOfBounds
    else if !OptionCompatible(v, t.fields[i].typ) then InvalidValueType
    else CassOk
  }

  /** The field has that name and the value cannot go into it. */
  predicate Refuses(t: DataType, count: nat, name: string, v: Option<CqlValue>, i: nat)
    requires t.Udt? && OptionMade(v) && i < |t.fields|
  {
    t.fields[i].name == name && FieldError(t, count, v, i) != CassOk
  }

  /** The first such field from `i` on, or the number of fields. */
  function FirstRefusal(t: DataType, count: nat, name: string, v: Option<CqlValue>, i: nat): (r: nat)
    requires t.Udt? && OptionMade(v) && i <= |t.fields|
    ensures i <= r <= |t.fields|
    decreases |t.fields| - i
  {
    if i == |t.fields| || Refuses(t, count, name, v, i) then i else FirstRefusal(t, count, name, v, i + 1)
  }

  lemma {:induction false} FirstRefusalIsFirst(t: DataType, count: nat, name: string, v: Option<CqlValue>, i: nat)
    requires t.Udt? && OptionMade(v) && i <= |t.fields|
    ensures var r := FirstRefusal(t, count, name, v, i);
            && (r < |t.fields| ==> Refuses(t, count, name, v, r))
            && forall k | i <= k < r :: !Refuses(t, count, name, v, k)
    decreases |t.fields| - i
  {
    if i < |t.fields| && !Refuses(t, count, name, v, i) {
      FirstRefusalIsFirst(t, count, name, v, i + 1);
    }
  }

  /** One of the first `n` fields has that name. */
  predicate HasField(t: DataType, name: string, n: nat)
    requires t.Udt? && n <= |t.fields|
  {
    n > 0 && (t.fields[n - 1].name == name || HasField(t, name, n - 1))
  }

  /** The values after the fields of that name among the first `n` have been set. */
  function WithNamed(values: seq<Option<CqlValue>>, t: DataType, name: string, v: Option<CqlValue>, n: nat): (r: seq<Option<CqlValue>>)
    requires t.Udt? && |values| <= |t.fields|
    ensures |r| == |values|
  {
    seq(|values|, i requires 0 <= i < |values| => if i < n && t.fields[i].name == name then v else values[i])
  }

  lemma NextNamed(values: seq<Option<CqlValue>>, t: DataType, name: string, v: Option<CqlValue>, n: nat)
    requires t.Udt? && |values| <= |t.fields| && n < |t.fields|
    ensures WithNamed(values, t, name, v, n + 1) ==
            if n < |values| && t.fields[n].name == name then WithNamed(values, t, name, v, n)[n := v]
            else WithNamed(values, t, name, v, n)
  {
  }

  /** The fields of that name are set up to the first that refuses, which also tells the error. */
  predicate SetByName(t: DataType, name: string, v: Option<CqlValue>, before: seq<Option<CqlValue>>,
                      after: seq<Option<CqlValue>>, err: CassError)
    requires t.Udt? && OptionMade(v) && |before| <= |t.fields|
  {
    var stop := FirstRefusal(t, |before|, name, v, 0);
    && after == WithNamed(before, t, name, v, stop)
    && err == if stop < |t.fields| then FieldError(t, |before|, v, stop)
              else if HasField(t, name, |t.fields|) then CassOk else NameDoesNotExist
  }

  /** The first `n` fields have been gone through without a refusal. */
  predicate SetSoFar(t: DataType, name: string, v: Option<CqlValue>, before: seq<Option<CqlValue>>,
                     after: seq<Option<CqlValue>>, found: bool, n: nat)
    requires t.Udt? && OptionMade(v) && |before| <= |t.fields| && n <= |t.fields|
  {
    && found == HasField(t, name, n)
    && FirstRefusal(t, |before|, name, v, 0) == FirstRefusal(t, |before|, name, v, n)
    && after == WithNamed(before, t, name, v, n)
  }

  lemma Passing(t: DataType, name: string, v: Option<CqlValue>, before: seq<Option<CqlValue>>,
                now: seq<Option<CqlValue>>, found: bool, n: nat)
    requires t.Udt? && OptionMade(v) && |now| == |before| <= |t.fields| && n < |t.fields|
    requires SetSoFar(t, name, v, before, now, found, n)
    ensures t.fields[n].name != name ==> SetSoFar(t, name, v, before, now, found, n + 1)
    ensures t.fields[n].name == name ==>
              var err := FieldError(t, |before|, v, n);
              if err == CassOk then SetSoFar(t, name, v, before, now[n := v], true, n + 1)
              else SetByName(t, name, v, before, now, err)
  {
    NextNamed(before, t, name, v, n);
  }

  lemma Passed(t: DataType, name: string, v: Option<CqlValue>, before: seq<Option<CqlValue>>,
               now: seq<Option<CqlValue>>, found: bool)
    requires t.Udt? && OptionMade(v) && |now| == |before| <= |t.fields|
    requires SetSoFar(t, name, v, before, now, found, |t.fields|)
    ensures SetByName(t, name, v, before, now, if found then CassOk else NameDoesNotExist)
  {
  }

  predicate Fitting(v: Option<CqlValue>, t: DataType) {
    OptionMade(v) && OptionCompatible(v, t)
  }

  class CassUserType {
    const dataType: DataType
    var fieldValues: seq<Option<CqlValue>>

    ghost predicate Valid()
      reads this
    {
      && dataType.Udt? && NoCustom(dataType) && |fieldValues| <= |dataType.fields|
      && forall i | 0 <= i < |fieldValues| :: Fitting(fieldValues[i], dataType.fields[i].typ)
    }

    function ToValue(): (v: CqlValue)
      requires Valid()
      reads this
      ensures Made(v) && v.UdtValue? && v.typ == dataType && |v.fields| == |fieldValues|
      ensures forall i | 0 <= i < |fieldValues| :: v.fields[i] == UdtFieldValue(dataType.fields[i].name, fieldValues[i])
    {
      var t, values := dataType, fieldValues;
      assert forall i | 0 <= i < |values| :: Fitting(values[i], t.fields[i].typ);
      UdtValue(t, seq(|values|, i requires 0 <= i < |values| && |values| <= |t.fields| && t.Udt? =>
        UdtFieldValue(t.fields[i].name, values[i])))
    }

    constructor (t: DataType)
      requires t.Udt? && NoCustom(t)
      ensures Valid() && dataType == t && fieldValues == seq(|t.fields|, _ => None)
    {
      dataType := t;
      fieldValues := seq(|t.fields|, _ => None);
    }

    method SetFieldByIndex(index: nat, v: Option<CqlValue>) returns (err: CassError)
      requires Valid() && OptionMade(v)
      modifies this
      ensures Valid()
      ensures err == FieldError(dataType, |old(fieldValues)|, v, index)
      ensures fieldValues == if err == CassOk then old(fieldValues)[index := v] else old(fieldValues)
    {
      if index >= |fieldValues| {
        return IndexOutOfBounds;
      }
      if !OptionCompatible(v, dataType.fields[index].typ) {
        return InvalidValueType;
      }
      fieldValues := fieldValues[index := v];
      return CassOk;
    }

    /** Every field of that name is set, up to the first one that cannot be: those before it keep
        the new value although the call fails. */
    method SetFieldByName(name: string, v: Option<CqlValue>) returns (err: CassError)
      requires Valid() && OptionMade(v)
      modifies this
      ensures Valid() && SetByName(dataType, name, v, old(fieldValues), fieldValues, err)
    {
      var foundField := false;
      ghost var before := fieldValues;
      for index := 0 to |dataType.fields|
        invariant Valid() && |fieldValues| == |before|
        invariant SetSoFar(dataType, name, v, before, fieldValues, foundField, index)
      {
        Passing(dataType, name, v, before, fieldValues, foundField, index);
        if dataType.fields[index].name == name {
          foundField := true;
          err := SetFieldByIndex(index, v);
          if err != CassOk {
            return;
          }
        }
      }
      Passed(dataType, name, v, before, fieldValues, foundField);
      if foundField {
        return CassOk;
      } else {
        return NameDoesNotExist;
      }
    }
  }

  // ----- Collections

  datatype CollectionType = ListCollection | SetCollection | MapCollection

  predicate Matches(kind: CollectionType, t: DataType) {
    match kind
    case ListCollection => t.List?
    case SetCollection => t.Set?
    case MapCollection => t.Map?
  }

  /** The type item `index` is checked against; keys and values of a map alternate. */
  function SlotType(t: DataType, index: nat): Option<DataType>
    requires t.List? || t.Set? || t.Map?
  {
    match t
    case List(e) => e
    case Set(e) => e
    case Map(k, v) => if k.None? then None else if index % 2 == 0 then k else v
  }

  predicate Admits(t: Option<DataType>, index: nat, v: CqlValue)
    requires Made(v) && (t.Some? ==> t.value.List? || t.value.Set? || t.value.Map?)
  {
    t.Some? && SlotType(t.value, index).Some? ==> Compatible(v, SlotType(t.value, index).value)
  }

  /** Key-value pairs of a flat list. */
  function PairUp(items: seq<CqlValue>): (pairs: seq<Pair>)
    requires |items| % 2 == 0
    ensures |pairs| == |items| / 2
    ensures forall i | 0 <= i < |pairs| :: pairs[i] == Pair(items[2 * i], items[2 * i + 1])
  {
    seq(|items| / 2, i requires 0 <= i < |items| / 2 => Pair(items[2 * i], items[2 * i + 1]))
  }

  class CassCollection {
    const collectionType: CollectionType
    const dataType: Option<DataType>
    var items: seq<CqlValue>

    ghost predicate Valid()
      reads this
    {
      && (dataType.Some? ==> Matches(collectionType, dataType.value) && NoCustom(dataType.value))
      && (dataType.Some? && dataType.value.Map? && dataType.value.val.Some? ==> dataType.value.key.Some?)
      && forall i | 0 <= i < |items| :: Made(items[i]) && Admits(dataType, i, items[i])
    }

    constructor Untyped(kind: CollectionType)
      ensures Valid() && collectionType == kind && dataType == None && items == []
    {
      collectionType := kind;
      dataType := None;
      items := [];
    }

    constructor FromDataType(t: DataType)
      requires (t.List? || t.Set? || t.Map?) && NoCustom(t) && (t.Map? && t.val.Some? ==> t.key.Some?)
      ensures Valid() && dataType == Some(t) && items == []
    {
      collectionType := if t.List? then ListCollection else if t.Set? then SetCollection else MapCollection;
      dataType := Some(t);
      items := [];
    }

    method Append(v: CqlValue) returns (err: CassError)
      requires Valid() && Made(v)
      modifies this
      ensures Valid()
      ensures err == if Admits(dataType, |old(items)|, v) then CassOk else InvalidValueType
      ensures items == if err == CassOk then old(items) + [v] else old(items)
    {
      if dataType.Some? {
        var slot := SlotType(dataType.value, |items|);
        if slot.Some? && !Compatible(v, slot.value) {
          return InvalidValueType;
        }
      }
      items := items + [v];
      return CassOk;
    }

    /** The value to bind; a map needs as many values as keys. */
    method ToValue() returns (r: Result<CqlValue, CassError>)
      requires Valid()
      ensures r.Err? <==> collectionType.MapCollection? && |items| % 2 == 1
      ensures r.Err? ==> r.error == InvalidItemCount
      ensures r.Ok? ==> Made(r.value)
      ensures r.Ok? ==> match collectionType
                        case ListCollection => r.value == ListValue(dataType, items)
                        case SetCollection => r.value == SetValue(dataType, items)
                        case MapCollection => r.value == MapValue(dataType, PairUp(items))
    {
      match collectionType
      case ListCollection => return Ok(ListValue(dataType, items));
      case SetCollection => return Ok(SetValue(dataType, items));
      case MapCollection =>
        if |items| % 2 == 1 {
          return Err(InvalidItemCount);
        }
        MapIsMade(dataType, items);
        return Ok(MapValue(dataType, PairUp(items)));
    }
  }

  lemma MapIsMade(t: Option<DataType>, items: seq<CqlValue>)
    requires |items| % 2 == 0
    requires t.Some? ==> t.value.Map? && NoCustom(t.value) && (t.value.val.Some? ==> t.value.key.Some?)
    requires forall i | 0 <= i < |items| :: Made(items[i]) && Admits(t, i, items[i])
    ensures Made(MapValue(t, PairUp(items)))
  {
    var pairs := PairUp(items);
    forall i | 0 <= i < |pairs|
      ensures Made(pairs[i].key) && Made(pairs[i].val)
      ensures t.Some? && t.value.key.Some? ==> Compatible(pairs[i].key, t.value.key.value)
      ensures t.Some? && t.value.val.Some? ==> Compatible(pairs[i].val, t.value.val.value)
    {
      PairAdmitted(t, items, i);
    }
  }

  lemma PairAdmitted(t: Option<DataType>, items: seq<CqlValue>, i: nat)
    requires t.Some? ==> t.value.Map? && NoCustom(t.value) && (t.value.val.Some? ==> t.value.key.Some?)
    requires 2 * i + 1 < |items| && forall j | 0 <= j < |items| :: Made(items[j]) && Admits(t, j, items[j])
    ensures Made(items[2 * i]) && Made(items[2 * i + 1])
    ensures t.Some? && t.value.key.Some? ==> Compatible(items[2 * i], t.value.key.value)
    ensures t.Some? && t.value.val.Some? ==> Compatible(items[2 * i + 1], t.value.val.value)
  {
    var even, odd := 2 * i, 2 * i + 1;
    assert even % 2 == 0 && odd % 2 == 1;
    assert Admits(t, even, items[even]) && Admits(t, odd, items[odd]);
  }
}
