/**
 When serialization succeeds, and how many bytes it writes: the sizes are computed from the value
 alone, so that a caller can tell beforehand.
 */
module CqlSizes {

  import opened Prelude
  import opened CqlTypes
  import opened CqlFrames
  import opened CqlWire
  import Vint

  /** The number of bytes of a value. */
  function Length(v: CqlValue): nat
    decreases v, 1
  {
    match v
    case Native(_, bytes) => |bytes|
    case TupleValue(_, items) => ItemsLength(items, 0)
    case ListValue(_, values) => 4 + ValuesLength(values, 0)
    case SetValue(_, values) => 4 + ValuesLength(values, 0)
    case MapValue(_, pairs) => 4 + PairsLength(pairs, 0)
    case VectorValue(_, elem, slots) => SlotsLength(UsesVariableLength(elem), slots, 0)
    case UdtValue(_, fields) => FieldsLength(fields, 0)
  }

  function ItemsLength(items: seq<Option<CqlValue>>, i: nat): nat
    requires i <= |items|
    decreases items, 0, |items| - i
  {
    if i == |items| then 0 else
    assert items decreases to items[i];
    4 + (if items[i].Some? then Length(items[i].value) else 0) + ItemsLength(items, i + 1)
  }

  function ValuesLength(values: seq<CqlValue>, i: nat): nat
    requires i <= |values|
    decreases values, 0, |values| - i
  {
    if i == |values| then 0 else 4 + Length(values[i]) + ValuesLength(values, i + 1)
  }

  function PairsLength(pairs: seq<Pair>, i: nat): nat
    requires i <= |pairs|
    decreases pairs, 0, |pairs| - i
  {
    if i == |pairs| then 0 else
    assert pairs decreases to pairs[i];
    8 + Length(pairs[i].key) + Length(pairs[i].val) + PairsLength(pairs, i + 1)
  }

  function FieldsLength(fields: seq<UdtFieldValue>, i: nat): nat
    requires i <= |fields|
    decreases fields, 0, |fields| - i
  {
    if i == |fields| then 0 else
    assert fields decreases to fields[i];
    4 + (if fields[i].value.Some? then Length(fields[i].value.value) else 0) + FieldsLength(fields, i + 1)
  }

  /** An element of a vector, with its length in front if it is variable. */
  function PartLength(variable: bool, n: nat): nat {
    (if variable then Vint.VintSize(n % TWO_64) else 0) + n
  }

  function SlotsLength(variable: bool, slots: seq<Option<CqlValue>>, i: nat): nat
    requires i <= |slots|
    decreases slots, 0, |slots| - i
  {
    if i == |slots| then 0 else
    assert slots decreases to slots[i];
    var n := if slots[i].Some? then Length(slots[i].value) else 0;
    PartLength(variable, n) + SlotsLength(variable, slots, i + 1)
  }

  /** Every vector is filled, and every count and every length in front of a cell fits an i32. */
  predicate Writable(v: CqlValue) {
    match v
    case Native(_, _) => true
    case TupleValue(_, items) =>
      forall i | 0 <= i < |items| :: items[i].Some? ==> Writable(items[i].value) && Length(items[i].value) <= I32_MAX
    case ListValue(_, values) =>
      && |values| <= I32_MAX
      && forall i | 0 <= i < |values| :: Writable(values[i]) && Length(values[i]) <= I32_MAX
    case SetValue(_, values) =>
      && |values| <= I32_MAX
      && forall i | 0 <= i < |values| :: Writable(values[i]) && Length(values[i]) <= I32_MAX
    case MapValue(_, pairs) =>
      && |pairs| <= I32_MAX
      && forall i | 0 <= i < |pairs| ::
           && Writable(pairs[i].key) && Length(pairs[i].key) <= I32_MAX
           && Writable(pairs[i].val) && Length(pairs[i].val) <= I32_MAX
    case VectorValue(_, _, slots) =>
      forall i | 0 <= i < |slots| :: slots[i].Some? && Writable(slots[i].value)
    case UdtValue(_, fields) =>
      forall i | 0 <= i < |fields| ::
        fields[i].value.Some? ==> Writable(fields[i].value.value) && Length(fields[i].value.value) <= I32_MAX
  }

  /** The value serializes if and only if it is writable, to as many bytes as computed. */
  ghost predicate Agrees(v: CqlValue) {
    && (Payload(v).Ok? <==> Writable(v))
    && (Payload(v).Ok? ==> |Payload(v).value| == Length(v))
  }

  predicate CellWritable(v: Option<CqlValue>) {
    v.Some? ==> Writable(v.value) && Length(v.value) <= I32_MAX
  }

  lemma JoinFirst<A>(put: A -> Bytes, first: A, rest: seq<A>)
    ensures |Join(put, [first] + rest)| == |put(first)| + |Join(put, rest)|
  {
    assert ([first] + rest)[1..] == rest;
  }

  lemma {:induction false} ItemsAgree(items: seq<Option<CqlValue>>, i: nat)
    requires i <= |items| && forall j | i <= j < |items| :: items[j].Some? ==> Agrees(items[j].value)
    ensures TupleCells(items, i).Ok? <==> forall j | i <= j < |items| :: CellWritable(items[j])
    ensures TupleCells(items, i).Ok? ==> |Join(Frame, TupleCells(items, i).value)| == ItemsLength(items, i)
    decreases |items| - i
  {
    if i < |items| {
      ItemsAgree(items, i + 1);
      if TupleCells(items, i).Ok? {
        JoinFirst(Frame, TupleCells(items, i).value[0], TupleCells(items, i + 1).value);
      }
    }
  }

  lemma {:induction false} ValuesAgree(values: seq<CqlValue>, i: nat)
    requires i <= |values| && forall j | i <= j < |values| :: Agrees(values[j])
    ensures SequenceCells(values, i).Ok? <==> forall j | i <= j < |values| :: CellWritable(Some(values[j]))
    ensures SequenceCells(values, i).Ok? ==> |Join(Frame, SequenceCells(values, i).value)| == ValuesLength(values, i)
    decreases |values| - i
  {
    if i < |values| {
      ValuesAgree(values, i + 1);
      if SequenceCells(values, i).Ok? {
        JoinFirst(Frame, SequenceCells(values, i).value[0], SequenceCells(values, i + 1).value);
      }
    }
  }

  lemma SizedAgrees(v: CqlValue)
    requires Agrees(v)
    ensures Sized(v).Ok? <==> CellWritable(Some(v))
    ensures Sized(v).Ok? ==> |Frame(Some(Sized(v).value))| == 4 + Length(v)
  {
  }

  lemma JoinTwo(c: Option<Bytes>, d: Option<Bytes>, rest: seq<Option<Bytes>>)
    ensures |Join(Frame, [c, d] + rest)| == |Frame(c)| + |Frame(d)| + |Join(Frame, rest)|
  {
    assert [c, d] + rest == [c] + ([d] + rest);
    JoinFirst(Frame, c, [d] + rest);
    JoinFirst(Frame, d, rest);
  }

  lemma {:induction false} PairsAgree(pairs: seq<Pair>, i: nat)
    requires i <= |pairs| && forall j | i <= j < |pairs| :: Agrees(pairs[j].key) && Agrees(pairs[j].val)
    ensures MapCells(pairs, i).Ok? <==>
            forall j | i <= j < |pairs| :: CellWritable(Some(pairs[j].key)) && CellWritable(Some(pairs[j].val))
    ensures MapCells(pairs, i).Ok? ==> |Join(Frame, MapCells(pairs, i).value)| == PairsLength(pairs, i)
    decreases |pairs| - i
  {
    if i < |pairs| {
      PairsAgree(pairs, i + 1);
      SizedAgrees(pairs[i].key);
      SizedAgrees(pairs[i].val);
      if MapCells(pairs, i).Ok? {
        JoinTwo(Some(Sized(pairs[i].key).value), Some(Sized(pairs[i].val).value), MapCells(pairs, i + 1).value);
      }
    }
  }

  lemma {:induction false} FieldsAgree(fields: seq<UdtFieldValue>, i: nat)
    requires i <= |fields| && forall j | i <= j < |fields| :: fields[j].value.Some? ==> Agrees(fields[j].value.value)
    ensures UdtCells(fields, i).Ok? <==> forall j | i <= j < |fields| :: CellWritable(fields[j].value)
    ensures UdtCells(fields, i).Ok? ==> |Join(Frame, UdtCells(fields, i).value)| == FieldsLength(fields, i)
    decreases |fields| - i
  {
    if i < |fields| {
      FieldsAgree(fields, i + 1);
      if UdtCells(fields, i).Ok? {
        JoinFirst(Frame, UdtCells(fields, i).value[0], UdtCells(fields, i + 1).value);
      }
    }
  }

  predicate SlotWritable(v: Option<CqlValue>) {
    v.Some? && Writable(v.value)
  }

  lemma PartsLength(variable: bool, first: Bytes, rest: seq<Bytes>)
    ensures |JoinParts(variable, [first] + rest)| == PartLength(variable, |first|) + |JoinParts(variable, rest)|
  {
    if variable {
      JoinFirst(Prefixed, first, rest);
      Vint.SizesAgree(LengthOf(first));
    } else {
      JoinFirst(Raw, first, rest);
    }
  }

  lemma {:induction false} SlotsAgree(variable: bool, slots: seq<Option<CqlValue>>, i: nat)
    requires i <= |slots| && forall j | i <= j < |slots| :: slots[j].Some? ==> Agrees(slots[j].value)
    ensures VectorParts(slots, i).Ok? <==> forall j | i <= j < |slots| :: SlotWritable(slots[j])
    ensures VectorParts(slots, i).Ok? ==> |JoinParts(variable, VectorParts(slots, i).value)| == SlotsLength(variable, slots, i)
    decreases |slots| - i
  {
    if i < |slots| {
      SlotsAgree(variable, slots, i + 1);
      if VectorParts(slots, i).Ok? {
        PartsLength(variable, Payload(slots[i].value).value, VectorParts(slots, i + 1).value);
      }
    }
  }

  lemma {:induction false} SequencesAgree(v: CqlValue)
    requires v.TupleValue? || v.ListValue? || v.SetValue?
    ensures Agrees(v)
    decreases v, 0
  {
    match v
    case TupleValue(_, items) =>
      forall i | 0 <= i < |items| && items[i].Some? ensures Agrees(items[i].value) {
        assert items decreases to items[i];
        AllAgree(items[i].value);
      }
      ItemsAgree(items, 0);
    case ListValue(_, values) =>
      forall i | 0 <= i < |values| ensures Agrees(values[i]) {
        AllAgree(values[i]);
      }
      ValuesAgree(values, 0);
    case SetValue(_, values) =>
      forall i | 0 <= i < |values| ensures Agrees(values[i]) {
        AllAgree(values[i]);
      }
      ValuesAgree(values, 0);
  }

  lemma {:induction false} OthersAgree(v: CqlValue)
    requires v.MapValue? || v.VectorValue? || v.UdtValue?
    ensures Agrees(v)
    decreases v, 0
  {
    match v
    case MapValue(_, pairs) =>
      forall i | 0 <= i < |pairs| ensures Agrees(pairs[i].key) && Agrees(pairs[i].val) {
        assert pairs decreases to pairs[i];
        AllAgree(pairs[i].key);
        AllAgree(pairs[i].val);
      }
      PairsAgree(pairs, 0);
    case VectorValue(_, elem, slots) =>
      forall i | 0 <= i < |slots| && slots[i].Some? ensures Agrees(slots[i].value) {
        assert slots decreases to slots[i];
        AllAgree(slots[i].value);
      }
      SlotsAgree(UsesVariableLength(elem), slots, 0);
    case UdtValue(_, fields) =>
      forall i | 0 <= i < |fields| && fields[i].value.Some? ensures Agrees(fields[i].value.value) {
        assert fields decreases to fields[i];
        AllAgree(fields[i].value.value);
      }
      FieldsAgree(fields, 0);
  }

  lemma {:induction false} AllAgree(v: CqlValue)
    ensures Agrees(v)
    decreases v, 1
  {
    if v.TupleValue? || v.ListValue? || v.SetValue? {
      SequencesAgree(v);
    } else if !v.Native? {
      OthersAgree(v);
    }
  }

  /** Serialization fails exactly when a vector slot is unset or a count or length is out of range. */
  lemma SerializesExactlyWhenWritable(v: CqlValue)
    ensures Sized(v).Ok? <==> Writable(v) && Length(v) <= I32_MAX
    ensures Sized(v).Ok? ==> |Sized(v).value| == Length(v)
  {
    AllAgree(v);
  }
}
