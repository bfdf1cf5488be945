/**
 Composite values as the C API assembles them (scylla-rust-wrapper/src/cql_types/tuple.rs,
 collection.rs, user_type.rs and vector.rs), and what their bind-time checks amount to: when a value
 that passed them reads back from the column it is bound to, and values that passed and do not.

 A data type does not change once values are made from it. Custom types abort the process when
 they are compared, so no declared type contains one.
 */
module CqlBinding {

  import opened Prelude
  import opened CqlTypes
  import opened CqlFrames
  import opened CqlWire
  import opened CqlTypecheck

  /** A caller can tell beforehand, container by container, that the checks are enough: by the type
      the container was made from, or by checking its parts against the slot's own subtypes. */
  predicate Vouched(v: CqlValue, t: DataType)
    decreases v, 1
  {
    v.Native? || NotAhead(v, t) || CheckedInside(v, t)
  }

  /** The container was made from a type with all subtypes named, which is no newer a version of a
      user-defined type than the slot's. */
  predicate NotAhead(v: CqlValue, t: DataType)
    decreases v, 0
  {
    var d := Declared(v);
    d.Some? && Concrete(d.value) && NotNewer(d.value, t) &&
    match v
    case Native(_, _) => false
    case TupleValue(_, items) =>
      d.value.Tuple? && |items| == |d.value.items| &&
      forall i | 0 <= i < |items| :: items[i].Some? ==> Vouched(items[i].value, d.value.items[i])
    case ListValue(_, values) =>
      d.value.List? && forall i | 0 <= i < |values| :: Vouched(values[i], d.value.elem.value)
    case SetValue(_, values) =>
      d.value.Set? && forall i | 0 <= i < |values| :: Vouched(values[i], d.value.elem.value)
    case MapValue(_, pairs) =>
      d.value.Map? &&
      forall i | 0 <= i < |pairs| :: Vouched(pairs[i].key, d.value.key.value) && Vouched(pairs[i].val, d.value.val.value)
    case VectorValue(_, elem, slots) =>
      forall i | 0 <= i < |slots| :: slots[i].Some? ==> Vouched(slots[i].value, elem)
    case UdtValue(_, fields) =>
      d.value.Udt? && |fields| <= |d.value.fields| &&
      forall i | 0 <= i < |fields| :: fields[i].value.Some? ==> Vouched(fields[i].value.value, d.value.fields[i].typ)
  }

  predicate PartChecked(v: CqlValue, t: DataType)
    decreases v, 2
  {
    DeclaredOk(v) && Compatible(v, t) && Vouched(v, t)
  }

  /** The parts pass the driver's own check against the slot's subtypes, whatever the container was
      made from. */
  predicate CheckedInside(v: CqlValue, t: DataType)
    decreases v, 0
  {
    match v
    case Native(_, _) => false
    case TupleValue(_, items) =>
      t.Tuple? && |items| == |t.items| &&
      forall i | 0 <= i < |items| :: items[i].Some? ==> PartChecked(items[i].value, t.items[i])
    case ListValue(_, values) =>
      t.List? && t.elem.Some? && forall i | 0 <= i < |values| :: PartChecked(values[i], t.elem.value)
    case SetValue(_, values) =>
      t.Set? && t.elem.Some? && forall i | 0 <= i < |values| :: PartChecked(values[i], t.elem.value)
    case MapValue(_, pairs) =>
      t.Map? && t.key.Some? && t.val.Some? &&
      forall i | 0 <= i < |pairs| :: PartChecked(pairs[i].key, t.key.value) && PartChecked(pairs[i].val, t.val.value)
    case VectorValue(_, _, slots) =>
      t.Vector? && forall i | 0 <= i < |slots| :: slots[i].Some? ==> PartChecked(slots[i].value, t.typ)
    case UdtValue(_, fields) =>
      t.Udt? && |fields| <= |t.fields| &&
      forall i | 0 <= i < |fields| :: fields[i].value.Some? ==> PartChecked(fields[i].value.value, t.fields[i].typ)
  }

  /** Each child has the type its container declares for it. */
  ghost predicate ChildrenFit(v: CqlValue) {
    v.Native? || (Declared(v).Some? && HasType(v, Declared(v).value))
  }

  lemma FitsSlot(v: CqlValue, t: DataType)
    requires Made(v) && Compatible(v, t) && NotAhead(v, t) && Concrete(t) && ChildrenFit(v)
    ensures HasType(v, t)
  {
    Lift(v, Declared(v).value, t);
  }

  lemma {:induction false} SequenceChildrenFit(v: CqlValue, t: DataType)
    requires v.TupleValue? || v.ListValue? || v.SetValue?
    requires Made(v) && NotAhead(v, t)
    ensures ChildrenFit(v)
    decreases v, 0
  {
    match v
    case TupleValue(d, items) =>
      forall i | 0 <= i < |items| && items[i].Some? ensures HasType(items[i].value, d.value.items[i]) {
        assert items decreases to items[i];
        assert OptionCompatible(items[i], d.value.items[i]);
        ChecksReachTheLeaves(items[i].value, d.value.items[i]);
      }
    case ListValue(d, values) =>
      forall i | 0 <= i < |values| ensures HasType(values[i], d.value.elem.value) {
        ChecksReachTheLeaves(values[i], d.value.elem.value);
      }
    case SetValue(d, values) =>
      forall i | 0 <= i < |values| ensures HasType(values[i], d.value.elem.value) {
        ChecksReachTheLeaves(values[i], d.value.elem.value);
      }
  }

  lemma {:induction false} OtherChildrenFit(v: CqlValue, t: DataType)
    requires v.MapValue? || v.VectorValue? || v.UdtValue?
    requires Made(v) && NotAhead(v, t)
    ensures ChildrenFit(v)
    decreases v, 0
  {
    match v
    case MapValue(d, pairs) =>
      forall i | 0 <= i < |pairs|
        ensures HasType(pairs[i].key, d.value.key.value) && HasType(pairs[i].val, d.value.val.value)
      {
        assert pairs decreases to pairs[i];
        ChecksReachTheLeaves(pairs[i].key, d.value.key.value);
        ChecksReachTheLeaves(pairs[i].val, d.value.val.value);
      }
    case VectorValue(d, elem, slots) =>
      forall i | 0 <= i < |slots| && slots[i].Some? ensures HasType(slots[i].value, d.typ) {
        assert slots decreases to slots[i];
        ChecksReachTheLeaves(slots[i].value, d.typ);
      }
    case UdtValue(d, fields) =>
      forall i | 0 <= i < |fields| && fields[i].value.Some?
        ensures HasType(fields[i].value.value, d.fields[i].typ)
      {
        assert fields decreases to fields[i];
        ChecksReachTheLeaves(fields[i].value.value, d.fields[i].typ);
      }
  }

  lemma {:induction false} SequenceFitsInside(v: CqlValue, t: DataType)
    requires v.TupleValue? || v.ListValue? || v.SetValue?
    requires Made(v) && CheckedInside(v, t) && Concrete(t)
    ensures HasType(v, t)
    decreases v, 0
  {
    match v
    case TupleValue(_, items) =>
      forall i | 0 <= i < |items| && items[i].Some? ensures HasType(items[i].value, t.items[i]) {
        assert items decreases to items[i];
        assert PartChecked(items[i].value, t.items[i]);
        ChecksReachTheLeaves(items[i].value, t.items[i]);
      }
    case ListValue(_, values) =>
      forall i | 0 <= i < |values| ensures HasType(values[i], t.elem.value) {
        ChecksReachTheLeaves(values[i], t.elem.value);
      }
    case SetValue(_, values) =>
      forall i | 0 <= i < |values| ensures HasType(values[i], t.elem.value) {
        ChecksReachTheLeaves(values[i], t.elem.value);
      }
  }

  lemma {:induction false} OthersFitInside(v: CqlValue, t: DataType)
    requires v.MapValue? || v.VectorValue? || v.UdtValue?
    requires Made(v) && Compatible(v, t) && CheckedInside(v, t) && Concrete(t)
    ensures HasType(v, t)
    decreases v, 0
  {
    match v
    case MapValue(_, pairs) =>
      forall i | 0 <= i < |pairs| ensures HasType(pairs[i].key, t.key.value) && HasType(pairs[i].val, t.val.value) {
        assert pairs decreases to pairs[i];
        ChecksReachTheLeaves(pairs[i].key, t.key.value);
        ChecksReachTheLeaves(pairs[i].val, t.val.value);
      }
    case VectorValue(d, elem, slots) =>
      SameEncoding(d.typ, t.typ);
      forall i | 0 <= i < |slots| && slots[i].Some? ensures HasType(slots[i].value, t.typ) {
        assert slots decreases to slots[i];
        ChecksReachTheLeaves(slots[i].value, t.typ);
      }
    case UdtValue(_, fields) =>
      forall i | 0 <= i < |fields| && fields[i].value.Some? ensures HasType(fields[i].value.value, t.fields[i].typ) {
        assert fields decreases to fields[i];
        ChecksReachTheLeaves(fields[i].value.value, t.fields[i].typ);
      }
  }

  /** The check at the top of a value that was assembled through the API extends to the leaves. */
  lemma {:induction false} ChecksReachTheLeaves(v: CqlValue, t: DataType)
    requires Made(v) && Compatible(v, t) && Vouched(v, t) && Concrete(t)
    ensures HasType(v, t)
    decreases v, 1
  {
    if v.TupleValue? || v.ListValue? || v.SetValue? {
      if NotAhead(v, t) {
        SequenceChildrenFit(v, t);
        FitsSlot(v, t);
      } else {
        SequenceFitsInside(v, t);
      }
    } else if !v.Native? {
      if NotAhead(v, t) {
        OtherChildrenFit(v, t);
        FitsSlot(v, t);
      } else {
        OthersFitInside(v, t);
      }
    }
  }

  /** A checked value that serializes is read back from its column as what was sent. */
  lemma BoundValuesReadBack(v: CqlValue, column: DataType)
    requires Made(v) && Compatible(v, column) && Vouched(v, column) && Concrete(column)
    ensures HasType(v, column)
    ensures Sized(v).Ok? ==> Read(column, Sized(v).value) == Some(Seen(v, column))
  {
    ChecksReachTheLeaves(v, column);
    RoundTrip(v, column);
  }

  // ----- A stale type in the middle hides a wrong field

  const INT_ZERO := Native(IntKind, [0, 0, 0, 0])
  const V1 := Udt("ks", "user", [Field("a", Value(Int))])
  const V2 := Udt("ks", "user", [Field("a", Value(Int)), Field("b", Value(Bigint))])
  const MINE := Udt("ks", "user", [Field("a", Value(Int)), Field("b", Value(Int))])
  const RECORD := UdtValue(MINE, [UdtFieldValue("a", Some(INT_ZERO)), UdtFieldValue("b", Some(INT_ZERO))])
  const RECORDS := ListValue(Some(List(Some(V1))), [RECORD])

  lemma TwoCells(p: Bytes, q: Bytes)
    ensures |Join(Frame, [Some(p), Some(q)])| == 8 + |p| + |q|
  {
    assert [Some(p), Some(q)][1..] == [Some(q)];
    assert |Join(Frame, [Some(q)])| == 4 + |q|;
  }

  const ZERO: Bytes := [0, 0, 0, 0]
  const CELLS: seq<Option<Bytes>> := [Some(ZERO), Some(ZERO)]

  lemma RecordIs()
    ensures Sized(RECORD) == Ok(Join(Frame, CELLS)) && |Join(Frame, CELLS)| == 16
  {
    assert Holds(Some(ZERO), Some(INT_ZERO));
    UdtCellsAre(RECORD.fields, 0, CELLS);
    assert Payload(RECORD) == Ok([] + Join(Frame, CELLS));
    assert [] + Join(Frame, CELLS) == Join(Frame, CELLS);
    TwoCells(ZERO, ZERO);
  }

  lemma RecordBytes()
    ensures Sized(RECORD).Ok? && |Sized(RECORD).value| == 16
    ensures Read(V2, Sized(RECORD).value) == None
  {
    RecordIs();
    CellsComeBack(CELLS);
    assert ReadCell(V2.fields[1].typ, CellAt(CELLS, 1)) == None;
  }

  lemma ListOfOne(v: CqlValue, d: Option<DataType>)
    requires Sized(v).Ok? && |Sized(v).value| < 1000
    ensures var list := ListValue(d, [v]);
            Sized(list) == Ok(Be32(1) + Join(Frame, [Some(Sized(v).value)]))
  {
    var list, p := ListValue(d, [v]), Some(Sized(v).value);
    assert SequenceCells([v], 0) == Prepend([p], SequenceCells([v], 1));
    assert SequenceCells([v], 0) == Ok([p] + []) && [p] + [] == [p];
    assert Payload(list) == Counted(1, SequenceCells([v], 0));
    assert |Join(Frame, [p])| == 4 + |p.value|;
  }

  lemma ReadListOfOne(e: DataType, p: Bytes)
    requires |p| <= I32_MAX && Read(e, p) == None
    ensures Read(List(Some(e)), Be32(1) + Join(Frame, [Some(p)])) == None
  {
    var cells: seq<Option<Bytes>> := [Some(p)];
    CountedComeBack(1, 1, cells);
    assert ReadCell(e, cells[0]) == None;
  }

  lemma RecordsAreUnreadable()
    ensures Sized(RECORDS).Ok? && Read(List(Some(V2)), Sized(RECORDS).value) == None
  {
    RecordBytes();
    ListOfOne(RECORD, Some(List(Some(V1))));
    ReadListOfOne(V2, Sized(RECORD).value);
  }

  lemma TypesMatch()
    ensures NoCustom(V1) && NoCustom(MINE) && NoCustom(List(Some(V1)))
    ensures TypecheckEquals(MINE, V1) && TypecheckEquals(V1, V2) && Concrete(V2) && !NotNewer(MINE, V1)
  {
  }

  lemma RecordIsMade()
    ensures Made(RECORD) && Compatible(RECORD, V1)
  {
    TypesMatch();
    assert Made(INT_ZERO) && Compatible(INT_ZERO, Value(Int));
  }

  lemma RecordsAreMade()
    ensures Made(RECORDS) && Compatible(RECORDS, List(Some(V2)))
  {
    TypesMatch();
    RecordIsMade();
  }

  /** Every bind succeeds, and yet the column cannot be read: a list declared for an older version
      of a user-defined type accepts a record whose later field does not match the column's. */
  lemma StaleTypeHidesWrongField()
    ensures Made(RECORD) && Compatible(RECORD, V1)
    ensures Made(RECORDS) && Compatible(RECORDS, List(Some(V2))) && Concrete(List(Some(V2)))
    ensures Sized(RECORDS).Ok? && Read(List(Some(V2)), Sized(RECORDS).value) == None
    ensures !NotNewer(MINE, V1)
  {
    TypesMatch();
    RecordIsMade();
    RecordsAreMade();
    assert Sized(RECORDS).Ok? && Read(List(Some(V2)), Sized(RECORDS).value) == None by {
      RecordsAreUnreadable();
    }
  }

  /** A record of a newer version is accepted for a column of an older one, which cannot be read. */
  lemma NewerRecordIsUnreadable()
    ensures Made(RECORD) && Compatible(RECORD, V1) && Concrete(V1) && !NotNewer(MINE, V1)
    ensures Sized(RECORD).Ok? && Read(V1, Sized(RECORD).value) == None
  {
    TypesMatch();
    RecordIsMade();
    SecondCellIsLeft();
  }

  lemma OlderFieldsAreNative(v: CqlValue)
    requires Made(v) && v.UdtValue? && v.typ == V1
    ensures forall i | 0 <= i < |v.fields| && v.fields[i].value.Some? :: v.fields[i].value.value.Native?
  {
    forall i | 0 <= i < |v.fields| && v.fields[i].value.Some? ensures v.fields[i].value.value.Native? {
      assert Compatible(v.fields[i].value.value, V1.fields[i].typ);
    }
  }

  lemma NativeFieldsAreVouched(v: CqlValue, t: DataType)
    requires Made(v) && v.UdtValue? && Concrete(v.typ) && NotNewer(v.typ, t)
    requires forall i | 0 <= i < |v.fields| && v.fields[i].value.Some? :: v.fields[i].value.value.Native?
    ensures Vouched(v, t)
  {
    assert NotAhead(v, t);
  }

  /** A record of an older version reads back from a column of a newer one. */
  lemma OlderRecordReadsBack(v: CqlValue)
    requires Made(v) && v.UdtValue? && v.typ == V1
    ensures Compatible(v, V2) && HasType(v, V2)
    ensures Sized(v).Ok? ==> Read(V2, Sized(v).value) == Some(Seen(v, V2))
  {
    TypesMatch();
    OlderFieldsAreNative(v);
    NativeFieldsAreVouched(v, V2);
    BoundValuesReadBack(v, V2);
  }

  lemma SecondCellIsLeft()
    ensures Sized(RECORD).Ok? && Read(V1, Sized(RECORD).value) == None
  {
    RecordIs();
    var rest := Join(Frame, CELLS[1..]);
    assert Join(Frame, CELLS) == Frame(CELLS[0]) + rest;
    TakeFramed(CELLS[0], rest);
    assert CELLS[1..] == [CELLS[1]] && rest == Frame(CELLS[1]) + Join(Frame, CELLS[1..][1..]) && rest != [];
    assert SplitUpTo(TakeCell, 0, rest) == Some(([], rest));
    assert SplitUpTo(TakeCell, 1, Frame(CELLS[0]) + rest) == Some(([CELLS[0]] + [], rest));
  }
}
