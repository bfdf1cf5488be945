/**
 Exactly when a value made through the API is read back from a column as what was sent: when the
 value, walked down to its leaves, has the column's type. This covers untyped containers and values
 of older and newer versions of a user-defined type.
 */
module CqlExact {

  import opened Prelude
  import opened CqlTypes
  import opened CqlFrames
  import opened CqlWire
  import opened CqlTypecheck
  import opened CqlBinding
  import opened CqlDenotes
  import Vint

  /** Read through `t`, the bytes of the value come out as the value. */
  ghost predicate Arrives(v: CqlValue, t: DataType) {
    && Payload(v).Ok? && |Payload(v).value| <= I32_MAX
    && Read(t, Payload(v).value).Some? && Denotes(Read(t, Payload(v).value).value, v)
  }

  ghost predicate TypedIfArrives(v: CqlValue, t: DataType) {
    Arrives(v, t) ==> HasType(v, t)
  }

  lemma CellTyped(c: Option<Bytes>, v: Option<CqlValue>, t: DataType, item: Option<Item>)
    requires Holds(c, v) && ReadCell(t, c) == Some(item) && item.Some? == v.Some?
    requires v.Some? ==> Denotes(item.value, v.value) && TypedIfArrives(v.value, t)
    ensures v.Some? ==> HasType(v.value, t)
  {
  }

  // ----- What the reader saw, cell by cell

  lemma TupleRead(t: DataType, b: Bytes, cells: seq<Option<Bytes>>)
    requires t.Tuple? && Read(t, b).Some? && SplitAll(TakeCell, |t.items|, b) == Some(cells)
    ensures var items := Read(t, b).value.items;
            |items| == |cells| == |t.items| && forall i | 0 <= i < |items| :: ReadCell(t.items[i], cells[i]) == Some(items[i])
  {
  }

  lemma ElementsRead(t: DataType, b: Bytes, cells: seq<Option<Bytes>>)
    requires (t.List? || t.Set?) && Read(t, b).Some? && CountedCells(1, b) == Some(cells)
    ensures t.elem.Some? && Read(t, b).value.Items?
    ensures var items := Read(t, b).value.items;
            |items| == |cells| && forall i | 0 <= i < |items| :: ReadCell(t.elem.value, cells[i]) == Some(items[i])
  {
  }

  lemma MapRead(t: DataType, b: Bytes, cells: seq<Option<Bytes>>, i: nat)
    requires t.Map? && Read(t, b).Some? && CountedCells(2, b) == Some(cells) && 2 * i + 1 < |cells|
    ensures t.key.Some? && t.val.Some? && Read(t, b).value.Items? && |Read(t, b).value.items| == |cells|
    ensures PairRead(t.key.value, t.val.value, cells, Read(t, b).value.items, i)
  {
    var even, odd := 2 * i, 2 * i + 1;
    assert even % 2 == 0 && odd % 2 == 1;
    assert ReadCell(t.key.value, cells[even]).Some? && ReadCell(t.val.value, cells[odd]).Some?;
  }

  lemma UdtRead(t: DataType, b: Bytes, cells: seq<Option<Bytes>>)
    requires t.Udt? && Read(t, b).Some? && SplitUpTo(TakeCell, |t.fields|, b) == Some((cells, []))
    ensures var items := Read(t, b).value.fields;
            |items| == |t.fields| && forall i | 0 <= i < |items| ::
              items[i].name == t.fields[i].name && ReadCell(t.fields[i].typ, CellAt(cells, i)) == Some(items[i].value)
  {
  }

  // ----- Each shape of value has the type if its parts do

  lemma TupleTyped(v: CqlValue, t: DataType)
    requires v.TupleValue? && Arrives(v, t)
    requires t.Tuple? ==> forall i | 0 <= i < |v.items| && i < |t.items| :: v.items[i].Some? ==> TypedIfArrives(v.items[i].value, t.items[i])
    ensures HasType(v, t)
  {
    var b := Payload(v).value;
    ReadShape(t, b);
    TupleCellsHold(v.items, 0);
    var cells := TupleCells(v.items, 0).value;
    assert b == Join(Frame, cells);
    forall i | 0 <= i < |cells| ensures Holds(cells[i], v.items[i]) {
      assert Holds(cells[i], v.items[0 + i]);
    }
    CellsComeBack(cells);
    TupleRead(t, b, cells);
    forall i | 0 <= i < |v.items| && v.items[i].Some? ensures HasType(v.items[i].value, t.items[i]) {
      CellTyped(cells[i], v.items[i], t.items[i], Read(t, b).value.items[i]);
    }
  }

  lemma SequenceTyped(v: CqlValue, t: DataType)
    requires (v.ListValue? || v.SetValue?) && Arrives(v, t)
    requires (t.List? || t.Set?) && t.elem.Some? ==> forall i | 0 <= i < |v.values| :: TypedIfArrives(v.values[i], t.elem.value)
    ensures HasType(v, t)
  {
    var b := Payload(v).value;
    ReadShape(t, b);
    assert Payload(v) == Counted(|v.values|, SequenceCells(v.values, 0));
    SequenceCellsHold(v.values, 0);
    var cells := SequenceCells(v.values, 0).value;
    forall i | 0 <= i < |cells| ensures Holds(cells[i], Some(v.values[i])) {
      assert Holds(cells[i], Some(v.values[0 + i]));
    }
    CountedComeBack(|v.values|, 1, cells);
    ElementsRead(t, b, cells);
    forall i | 0 <= i < |v.values| ensures HasType(v.values[i], t.elem.value) {
      CellTyped(cells[i], Some(v.values[i]), t.elem.value, Read(t, b).value.items[i]);
    }
  }

  ghost predicate PairsHeld(cells: seq<Option<Bytes>>, pairs: seq<Pair>) {
    |cells| == 2 * |pairs| && forall i | 0 <= i < |pairs| :: PairHeld(cells, i, pairs[i])
  }

  lemma MapWritten(v: CqlValue, cells: seq<Option<Bytes>>)
    requires v.MapValue? && Payload(v).Ok? && MapCells(v.pairs, 0) == Ok(cells)
    ensures PairsHeld(cells, v.pairs) && CountedCells(2, Payload(v).value) == Some(cells)
  {
    assert Payload(v) == Counted(|v.pairs|, MapCells(v.pairs, 0));
    MapCellsHold(v.pairs, 0);
    forall i | 0 <= i < |v.pairs| ensures PairHeld(cells, i, v.pairs[i]) {
      assert PairHeld(cells, i - 0, v.pairs[i]);
    }
    PairsFit(cells, v.pairs);
    CountedComeBack(|v.pairs|, 2, cells);
  }

  lemma PairTyped(k: DataType, v: DataType, cells: seq<Option<Bytes>>, items: seq<Option<Item>>, i: nat, p: Pair)
    requires PairHeld(cells, i, p) && PairRead(k, v, cells, items, i)
    requires items[2 * i].Some? && Denotes(items[2 * i].value, p.key) && TypedIfArrives(p.key, k)
    requires items[2 * i + 1].Some? && Denotes(items[2 * i + 1].value, p.val) && TypedIfArrives(p.val, v)
    ensures HasType(p.key, k) && HasType(p.val, v)
  {
    CellTyped(cells[2 * i], Some(p.key), k, items[2 * i]);
    CellTyped(cells[2 * i + 1], Some(p.val), v, items[2 * i + 1]);
  }

  lemma MapTyped(v: CqlValue, t: DataType)
    requires v.MapValue? && Arrives(v, t)
    requires t.Map? && t.key.Some? && t.val.Some? ==>
               forall i | 0 <= i < |v.pairs| :: TypedIfArrives(v.pairs[i].key, t.key.value) && TypedIfArrives(v.pairs[i].val, t.val.value)
    ensures HasType(v, t)
  {
    var b := Payload(v).value;
    ReadShape(t, b);
    var cells := MapCells(v.pairs, 0).value;
    MapWritten(v, cells);
    forall i | 0 <= i < |v.pairs| ensures HasType(v.pairs[i].key, t.key.value) && HasType(v.pairs[i].val, t.val.value) {
      MapRead(t, b, cells, i);
      PairTyped(t.key.value, t.val.value, cells, Read(t, b).value.items, i, v.pairs[i]);
    }
  }

  lemma UdtWritten(v: CqlValue, cells: seq<Option<Bytes>>, n: nat)
    requires v.UdtValue? && Payload(v).Ok? && UdtCells(v.fields, 0) == Ok(cells) && |v.fields| <= n
    ensures |cells| == |v.fields| && forall i | 0 <= i < |cells| :: Holds(cells[i], v.fields[i].value)
    ensures SplitUpTo(TakeCell, n, Payload(v).value) == Some((cells, []))
  {
    assert Payload(v) == Body([], UdtCells(v.fields, 0));
    UdtCellsHold(v.fields, 0);
    assert [] + Join(Frame, cells) == Join(Frame, cells);
    forall i | 0 <= i < |cells| ensures Holds(cells[i], v.fields[i].value) {
      assert Holds(cells[i], v.fields[0 + i].value);
    }
    CellsComeBack(cells);
  }

  lemma UdtTyped(v: CqlValue, t: DataType)
    requires v.UdtValue? && Arrives(v, t)
    requires t.Udt? ==> forall i | 0 <= i < |v.fields| && i < |t.fields| ::
               v.fields[i].value.Some? ==> TypedIfArrives(v.fields[i].value.value, t.fields[i].typ)
    ensures HasType(v, t)
  {
    var b := Payload(v).value;
    ReadShape(t, b);
    UdtCount(v, t);
    var cells := UdtCells(v.fields, 0).value;
    UdtWritten(v, cells, |t.fields|);
    UdtRead(t, b, cells);
    forall i | 0 <= i < |v.fields| && v.fields[i].value.Some? ensures HasType(v.fields[i].value.value, t.fields[i].typ) {
      CellTyped(cells[i], v.fields[i].value, t.fields[i].typ, Read(t, b).value.fields[i].value);
    }
  }

  lemma UdtCount(v: CqlValue, t: DataType)
    requires v.UdtValue? && t.Udt? && Arrives(v, t)
    ensures |v.fields| <= |t.fields|
  {
  }

  // ----- Vectors

  lemma {:induction false} SameSize(a: DataType, b: DataType)
    requires NoCustom(a) && TypecheckEquals(a, b) && !UsesVariableLength(a) && !UsesVariableLength(b)
    ensures FixedSize(a) == FixedSize(b)
    decreases a
  {
    if a.Vector? {
      SameSize(a.typ, b.typ);
    }
  }

  lemma RawVectorLength(w: CqlValue)
    requires w.VectorValue? && Payload(w).Ok? && !UsesVariableLength(w.elem)
    requires forall i | 0 <= i < |w.slots| :: w.slots[i].Some? && Payload(w.slots[i].value).Ok? ==>
                                                |Payload(w.slots[i].value).value| == FixedSize(w.elem)
    ensures |Payload(w).value| == |w.slots| * FixedSize(w.elem)
  {
    VectorPayload(w);
    VectorPartsHold(w.slots, 0);
    var parts := VectorParts(w.slots, 0).value;
    forall i | 0 <= i < |parts| ensures |parts[i]| == FixedSize(w.elem) {
      assert HoldsPart(parts[i], w.slots[0 + i]);
    }
    RawLength(FixedSize(w.elem), parts);
  }

  /** A value made for a slot that is held raw has the slot's size. */
  lemma {:induction false} MadeLength(w: CqlValue, elem: DataType)
    requires Made(w) && Compatible(w, elem) && !UsesVariableLength(elem) && Payload(w).Ok?
    ensures |Payload(w).value| == FixedSize(elem)
    decreases w
  {
    if w.VectorValue? {
      SameEncoding(w.typ, elem);
      SameSize(w.typ, elem);
      forall i | 0 <= i < |w.slots| && w.slots[i].Some? && Payload(w.slots[i].value).Ok?
        ensures |Payload(w.slots[i].value).value| == FixedSize(w.elem)
      {
        assert w.slots decreases to w.slots[i];
        MadeLength(w.slots[i].value, w.elem);
      }
      RawVectorLength(w);
    }
  }

  lemma Cancel(n: nat, a: nat, b: nat)
    requires n > 0 && n * a == n * b
    ensures a == b
  {
    assert n * b - n * a == (b - a) * n && n * a - n * b == (a - b) * n;
    if a < b {
      Vint.MulAtLeast(b - a, n);
    } else if b < a {
      Vint.MulAtLeast(a - b, n);
    }
  }

  lemma PartSizes(v: CqlValue, parts: seq<Bytes>)
    requires v.VectorValue? && Made(v) && Payload(v).Ok? && VectorParts(v.slots, 0) == Ok(parts)
    ensures |parts| == |v.slots|
    ensures !UsesVariableLength(v.elem) ==> forall i | 0 <= i < |parts| :: |parts[i]| == FixedSize(v.elem)
  {
    VectorPartsHold(v.slots, 0);
    if !UsesVariableLength(v.elem) {
      forall i | 0 <= i < |parts| ensures |parts[i]| == FixedSize(v.elem) {
        assert HoldsPart(parts[i], v.slots[0 + i]);
        MadeLength(v.slots[i].value, v.elem);
      }
    }
  }

  /** Raw elements written and read in the same number of bytes have the same size. */
  lemma SizesMatch(b: Bytes, parts: seq<Bytes>, size: nat, t: DataType, n: nat)
    requires n > 0 && |parts| == n && b == Join(Raw, parts) && forall i | 0 <= i < n :: |parts[i]| == size
    requires !UsesVariableLength(t) && ElementsOf(t, n, b).Some?
    ensures size == FixedSize(t)
  {
    RawLength(size, parts);
    TakenElements(t, n, b);
    Cancel(n, size, FixedSize(t));
  }

  /** The reader finds the parts that were written. */
  lemma PartsMatch(v: CqlValue, t: DataType, parts: seq<Bytes>)
    requires v.VectorValue? && Made(v) && t.Vector? && t.dimensions > 0 && Arrives(v, t)
    requires VectorParts(v.slots, 0) == Ok(parts)
    ensures |v.slots| == t.dimensions && UsesVariableLength(v.elem) == UsesVariableLength(t.typ)
    ensures ElementsOf(t.typ, t.dimensions, Payload(v).value) == Some(parts)
  {
    EncodingsAgree(v, t);
    VectorPayload(v);
    PartSizes(v, parts);
    forall i | 0 <= i < |parts| ensures |parts[i]| <= I32_MAX {
      PartsAreShorter(UsesVariableLength(v.elem), parts, i);
    }
    if !UsesVariableLength(v.elem) {
      VectorRead(t, Payload(v).value);
      SizesMatch(Payload(v).value, parts, FixedSize(v.elem), t.typ, t.dimensions);
    }
    PartsComeBack(t.typ, parts);
  }

  lemma PartsTyped(v: CqlValue, t: DataType, parts: seq<Bytes>)
    requires v.VectorValue? && t.Vector? && Arrives(v, t) && VectorParts(v.slots, 0) == Ok(parts)
    requires |v.slots| == t.dimensions && UsesVariableLength(v.elem) == UsesVariableLength(t.typ)
    requires ElementsOf(t.typ, t.dimensions, Payload(v).value) == Some(parts)
    requires forall i | 0 <= i < |v.slots| && v.slots[i].Some? :: TypedIfArrives(v.slots[i].value, t.typ)
    ensures HasType(v, t)
  {
    var b := Payload(v).value;
    VectorPayload(v);
    VectorPartsHold(v.slots, 0);
    VectorRead(t, b);
    forall i | 0 <= i < |v.slots| && v.slots[i].Some? ensures HasType(v.slots[i].value, t.typ) {
      assert HoldsPart(parts[i], v.slots[0 + i]);
      PartsAreShorter(UsesVariableLength(v.elem), parts, i);
      assert Read(t.typ, parts[i]) == Read(t, b).value.items[i];
      assert Arrives(v.slots[i].value, t.typ);
    }
  }

  lemma VectorTyped(v: CqlValue, t: DataType)
    requires v.VectorValue? && Made(v) && Concrete(t) && Arrives(v, t)
    requires t.Vector? ==> forall i | 0 <= i < |v.slots| && v.slots[i].Some? :: TypedIfArrives(v.slots[i].value, t.typ)
    ensures HasType(v, t)
  {
    ReadShape(t, Payload(v).value);
    VectorPayload(v);
    var parts := VectorParts(v.slots, 0).value;
    PartsMatch(v, t, parts);
    PartsTyped(v, t, parts);
  }

  // ----- The whole value

  lemma {:induction false} SequenceArrives(v: CqlValue, t: DataType)
    requires (v.TupleValue? || v.ListValue? || v.SetValue?) && Made(v) && Concrete(t) && Arrives(v, t)
    ensures HasType(v, t)
    decreases v, 0
  {
    if v.TupleValue? {
      if t.Tuple? {
        forall i | 0 <= i < |v.items| && i < |t.items| && v.items[i].Some? ensures TypedIfArrives(v.items[i].value, t.items[i]) {
          assert v.items decreases to v.items[i];
          ArrivedIsTyped(v.items[i].value, t.items[i]);
        }
      }
      TupleTyped(v, t);
    } else {
      if t.List? || t.Set? {
        forall i | 0 <= i < |v.values| ensures TypedIfArrives(v.values[i], t.elem.value) {
          ArrivedIsTyped(v.values[i], t.elem.value);
        }
      }
      SequenceTyped(v, t);
    }
  }

  lemma {:induction false} OthersArrive(v: CqlValue, t: DataType)
    requires (v.MapValue? || v.VectorValue? || v.UdtValue?) && Made(v) && Concrete(t) && Arrives(v, t)
    ensures HasType(v, t)
    decreases v, 0
  {
    if v.MapValue? {
      if t.Map? {
        forall i | 0 <= i < |v.pairs| ensures TypedIfArrives(v.pairs[i].key, t.key.value) && TypedIfArrives(v.pairs[i].val, t.val.value) {
          assert v.pairs decreases to v.pairs[i];
          ArrivedIsTyped(v.pairs[i].key, t.key.value);
          ArrivedIsTyped(v.pairs[i].val, t.val.value);
        }
      }
      MapTyped(v, t);
    } else if v.VectorValue? {
      if t.Vector? {
        forall i | 0 <= i < |v.slots| && v.slots[i].Some? ensures TypedIfArrives(v.slots[i].value, t.typ) {
          assert v.slots decreases to v.slots[i];
          ArrivedIsTyped(v.slots[i].value, t.typ);
        }
      }
      VectorTyped(v, t);
    } else {
      if t.Udt? {
        forall i | 0 <= i < |v.fields| && i < |t.fields| && v.fields[i].value.Some?
          ensures TypedIfArrives(v.fields[i].value.value, t.fields[i].typ)
        {
          assert v.fields decreases to v.fields[i];
          ArrivedIsTyped(v.fields[i].value.value, t.fields[i].typ);
        }
      }
      UdtTyped(v, t);
    }
  }

  lemma {:induction false} ArrivedIsTyped(v: CqlValue, t: DataType)
    requires Made(v) && Concrete(t)
    ensures TypedIfArrives(v, t)
    decreases v, 1
  {
    if Arrives(v, t) {
      if v.TupleValue? || v.ListValue? || v.SetValue? {
        SequenceArrives(v, t);
      } else if !v.Native? {
        OthersArrive(v, t);
      } else {
        ReadShape(t, Payload(v).value);
      }
    }
  }

  /** The column shows the value that was sent. */
  ghost predicate ReadsAsSent(v: CqlValue, column: DataType)
    requires Sized(v).Ok?
  {
    Read(column, Sized(v).value).Some? && Denotes(Read(column, Sized(v).value).value, v)
  }

  /** A value made through the API that serializes is read back from a column as what was sent if
      and only if it has the column's type, whatever types its containers were declared with. */
  lemma ReadBackExactlyWhenTyped(v: CqlValue, column: DataType)
    requires Made(v) && Concrete(column) && Sized(v).Ok?
    ensures ReadsAsSent(v, column) <==> HasType(v, column)
  {
    if HasType(v, column) {
      RoundTrip(v, column);
      SeenDenotes(v, column);
    } else {
      ArrivedIsTyped(v, column);
    }
  }

  /** A record whose fields pass the check against the column's fields is read back if and only if
      it has no more fields than the column. */
  lemma RecordReadsBackExactlyWhenNotNewer(v: CqlValue, column: DataType)
    requires v.UdtValue? && column.Udt? && Made(v) && Compatible(v, column) && Concrete(column) && Sized(v).Ok?
    requires forall i | 0 <= i < |v.fields| && i < |column.fields| ::
               v.fields[i].value.Some? ==> PartChecked(v.fields[i].value.value, column.fields[i].typ)
    ensures ReadsAsSent(v, column) <==> |v.fields| <= |column.fields|
  {
    ReadBackExactlyWhenTyped(v, column);
    if |v.fields| <= |column.fields| {
      assert CheckedInside(v, column);
      ChecksReachTheLeaves(v, column);
    }
  }

  // ----- An untyped container hides a wrong element

  const WORD := Native(TextKind, [0x61, 0x62, 0x63, 0x64])
  const UNTYPED := ListValue(None, [WORD])
  const INTS := List(Some(Value(Int)))

  lemma WordIsRead()
    ensures Sized(WORD) == Ok(WORD.bytes) && Sized(UNTYPED) == Ok(Be32(1) + Join(Frame, [Some(WORD.bytes)]))
    ensures Read(INTS, Be32(1) + Join(Frame, [Some(WORD.bytes)])) == Some(Items(ListType, [Some(Scalar(Int, WORD.bytes))]))
  {
    var cells: seq<Option<Bytes>> := [Some(WORD.bytes)];
    ListOfOne(WORD, None);
    CountedComeBack(1, 1, cells);
    ReadElements(INTS, Be32(1) + Join(Frame, cells), cells, [Some(Scalar(Int, WORD.bytes))]);
  }

  lemma NumberIsNotTheWord()
    ensures Made(UNTYPED) && !Denotes(Items(ListType, [Some(Scalar(Int, WORD.bytes))]), UNTYPED)
  {
    var item := Items(ListType, [Some(Scalar(Int, WORD.bytes))]);
    assert item.items[0].value == Scalar(Int, WORD.bytes) && UNTYPED.values[0] == WORD && Made(WORD);
    assert !Denotes(item.items[0].value, UNTYPED.values[0]);
  }

  /** A list made without a type takes a text and is accepted for a list of integers, where the
      text is read as a number. */
  lemma UntypedListIsMisread()
    ensures Made(UNTYPED) && Compatible(UNTYPED, INTS) && Concrete(INTS) && Sized(UNTYPED).Ok?
    ensures Read(INTS, Sized(UNTYPED).value) == Some(Items(ListType, [Some(Scalar(Int, WORD.bytes))]))
    ensures !ReadsAsSent(UNTYPED, INTS)
  {
    WordIsRead();
    NumberIsNotTheWord();
  }
}
