/**
 What scylla-rust-wrapper/src/cql_types/value.rs writes for a value, and a reader that decodes the
 bytes by the column's type, written from the CQL native protocol v5. A user-defined type value may
 have fewer cells than the type has fields, but nothing may follow them.
 */
module CqlWire {

  import opened Prelude
  import opened CqlTypes
  import opened CqlFrames

  datatype Error =
    | SizeOverflow
    | TooManyElements
    | ElementNotSet(index: nat)
    | InTuple(index: nat, err: Error)
    | InSequence(err: Error)
    | InKey(err: Error)
    | InValue(err: Error)
    | InVector(err: Error)
    | InField(name: string, err: Error)

  type Cells = Result<seq<Option<Bytes>>, Error>

  function Prepend<A>(items: seq<A>, r: Result<seq<A>, Error>): Result<seq<A>, Error> {
    if r.Ok? then Ok(items + r.value) else r
  }

  // ----- Serialization

  /** The bytes of a value, without a length in front. */
  function Payload(v: CqlValue): Result<Bytes, Error>
    decreases v, 1
  {
    match v
    case Native(_, bytes) => Ok(bytes)
    case TupleValue(_, items) => Body([], TupleCells(items, 0))
    case ListValue(_, values) => Counted(|values|, SequenceCells(values, 0))
    case SetValue(_, values) => Counted(|values|, SequenceCells(values, 0))
    case MapValue(_, pairs) => Counted(|pairs|, MapCells(pairs, 0))
    case VectorValue(_, elem, slots) =>
      var parts := VectorParts(slots, 0);
      if parts.Err? then Err(parts.error) else Ok(JoinParts(UsesVariableLength(elem), parts.value))
    case UdtValue(_, fields) => Body([], UdtCells(fields, 0))
  }

  /** The bytes of a value that goes into a cell: a signed 32-bit length has to hold their number. */
  function Sized(v: CqlValue): Result<Bytes, Error>
    decreases v, 2
  {
    var p := Payload(v);
    if p.Ok? && |p.value| > I32_MAX then Err(SizeOverflow) else p
  }

  function Body(head: Bytes, cells: Cells): Result<Bytes, Error> {
    if cells.Err? then Err(cells.error) else Ok(head + Join(Frame, cells.value))
  }

  function Counted(n: nat, cells: Cells): Result<Bytes, Error> {
    if n > I32_MAX then Err(TooManyElements) else Body(Be32(n), cells)
  }

  function JoinParts(variable: bool, parts: seq<Bytes>): Bytes {
    if variable then Join(Prefixed, parts) else Join(Raw, parts)
  }

  /** The cells of items `i` and up, or the first error. */
  function TupleCells(items: seq<Option<CqlValue>>, i: nat): Cells
    requires i <= |items|
    decreases items, 0, |items| - i
  {
    if i == |items| then Ok([])
    else if items[i].None? then Prepend([None], TupleCells(items, i + 1))
    else
      assert items decreases to items[i];
      var p := Sized(items[i].value);
      if p.Err? then Err(InTuple(i, p.error)) else Prepend([Some(p.value)], TupleCells(items, i + 1))
  }

  function SequenceCells(values: seq<CqlValue>, i: nat): Cells
    requires i <= |values|
    decreases values, 0, |values| - i
  {
    if i == |values| then Ok([]) else
    var p := Sized(values[i]);
    if p.Err? then Err(InSequence(p.error)) else Prepend([Some(p.value)], SequenceCells(values, i + 1))
  }

  function MapCells(pairs: seq<Pair>, i: nat): Cells
    requires i <= |pairs|
    decreases pairs, 0, |pairs| - i
  {
    if i == |pairs| then Ok([]) else
    assert pairs decreases to pairs[i];
    var k := Sized(pairs[i].key);
    if k.Err? then Err(InKey(k.error)) else
    var p := Sized(pairs[i].val);
    if p.Err? then Err(InValue(p.error))
    else Prepend([Some(k.value), Some(p.value)], MapCells(pairs, i + 1))
  }

  function UdtCells(fields: seq<UdtFieldValue>, i: nat): Cells
    requires i <= |fields|
    decreases fields, 0, |fields| - i
  {
    if i == |fields| then Ok([])
    else if fields[i].value.None? then Prepend([None], UdtCells(fields, i + 1))
    else
      var p := Sized(fields[i].value.value);
      if p.Err? then Err(InField(fields[i].name, p.error))
      else Prepend([Some(p.value)], UdtCells(fields, i + 1))
  }

  function VectorParts(slots: seq<Option<CqlValue>>, i: nat): Result<seq<Bytes>, Error>
    requires i <= |slots|
    decreases slots, 0, |slots| - i
  {
    if i == |slots| then Ok([])
    else if slots[i].None? then Err(InVector(ElementNotSet(i)))
    else
      assert slots decreases to slots[i];
      var p := Payload(slots[i].value);
      if p.Err? then Err(InVector(p.error)) else Prepend([p.value], VectorParts(slots, i + 1))
  }

  // ----- The reader

  datatype FieldItem = FieldItem(name: string, value: Option<Item>)

  /** What a client of the database sees of a value: a native value with its type, the items of a
      container with what kind of container it is, or the fields of a record. */
  datatype Item =
    | Scalar(vt: ValueType, bytes: Bytes)
    | Items(shape: ValueType, items: seq<Option<Item>>)
    | Record(fields: seq<FieldItem>)

  /** The length the protocol gives a native type, if it is fixed. */
  function TypeWidth(vt: ValueType): Option<nat> {
    match vt
    case TinyInt => Some(1)
    case SmallInt => Some(2)
    case Int => Some(4)
    case Bigint => Some(8)
    case Counter => Some(8)
    case Timestamp => Some(8)
    case Time => Some(8)
    case Float => Some(4)
    case Double => Some(8)
    case Boolean => Some(1)
    case Uuid => Some(16)
    case Timeuuid => Some(16)
    case Date => Some(4)
    case _ => None
  }

  /** Vectors do without lengths for the types of fixed width, apart from five. */
  lemma VectorWidthIs(vt: NativeType)
    ensures VectorWidth(vt) == if vt in {TinyInt, SmallInt, Counter, Time, Date} then None else TypeWidth(vt)
  {
  }

  /** The size of an element a vector holds raw. */
  function FixedSize(t: DataType): nat
    requires !UsesVariableLength(t)
  {
    match t
    case Value(vt) => VectorWidth(vt).value
    case Vector(e, d) => d * FixedSize(e)
  }

  function SplitAll<A>(take: Bytes -> Option<(A, Bytes)>, n: nat, b: Bytes): Option<seq<A>> {
    match Split(take, n, b)
    case None => None
    case Some((items, left)) => if left == [] then Some(items) else None
  }

  function ElementsOf(t: DataType, n: nat, b: Bytes): Option<seq<Bytes>> {
    if UsesVariableLength(t) then SplitAll(TakePrefixed, n, b)
    else SplitAll(x => TakeFixed(FixedSize(t), x), n, b)
  }

  function CountedCells(perItem: nat, b: Bytes): Option<seq<Option<Bytes>>> {
    if |b| < 4 || FromBe32(b) > I32_MAX then None
    else SplitAll(TakeCell, perItem * FromBe32(b), b[4..])
  }

  function ReadCell(t: DataType, c: Option<Bytes>): Option<Option<Item>>
    decreases t, 1
  {
    if c.None? then Some(None) else
    var item := Read(t, c.value);
    if item.None? then None else Some(item)
  }

  /** Decodes the bytes of a value of type `t`. */
  function Read(t: DataType, b: Bytes): Option<Item>
    decreases t, 0
  {
    match t
    case Value(vt) =>
      if TypeWidth(vt).Some? && TypeWidth(vt).value != |b| then None else Some(Scalar(vt, b))
    case List(e) => if e.None? then None else ReadSequence(ListType, e.value, CountedCells(1, b))
    case Set(e) => if e.None? then None else ReadSequence(SetType, e.value, CountedCells(1, b))
    case Map(k, v) =>
      if k.None? || v.None? then None else
      var cells := CountedCells(2, b);
      if cells.None? then None
      else if !(forall i | 0 <= i < |cells.value| ::
             ReadCell(if i % 2 == 0 then k.value else v.value, cells.value[i]).Some?) then None
      else Some(Items(MapType, seq(|cells.value|, i requires 0 <= i < |cells.value| =>
             ReadCell(if i % 2 == 0 then k.value else v.value, cells.value[i]).value)))
    case Tuple(types) =>
      var cells := SplitAll(TakeCell, |types|, b);
      if cells.None? || |cells.value| != |types| then None
      else if !(forall i | 0 <= i < |types| :: ReadCell(types[i], cells.value[i]).Some?) then None
      else Some(Items(TupleType, seq(|types|, i requires 0 <= i < |types| => ReadCell(types[i], cells.value[i]).value)))
    case Vector(e, d) =>
      var parts := ElementsOf(e, d, b);
      if parts.None? || !(forall i | 0 <= i < |parts.value| :: Read(e, parts.value[i]).Some?) then None
      else Some(Items(VectorType, seq(|parts.value|, i requires 0 <= i < |parts.value| => Read(e, parts.value[i]))))
    case Udt(_, _, fields) =>
      var taken := SplitUpTo(TakeCell, |fields|, b);
      if taken.None? || taken.value.1 != [] then None else
      var cells := taken.value.0;
      if !(forall i | 0 <= i < |fields| :: ReadCell(fields[i].typ, CellAt(cells, i)).Some?) then None
      else Some(Record(seq(|fields|, i requires 0 <= i < |fields| =>
             FieldItem(fields[i].name, ReadCell(fields[i].typ, CellAt(cells, i)).value))))
    case Custom(_) => None
  }

  /** Fields the sender does not know yet are null. */
  function CellAt(cells: seq<Option<Bytes>>, i: nat): Option<Bytes> {
    if i < |cells| then cells[i] else None
  }

  function ReadSequence(shape: ValueType, t: DataType, cells: Option<seq<Option<Bytes>>>): Option<Item>
    decreases t, 2
  {
    if cells.None? || !(forall i | 0 <= i < |cells.value| :: ReadCell(t, cells.value[i]).Some?) then None
    else Some(Items(shape, seq(|cells.value|, i requires 0 <= i < |cells.value| => ReadCell(t, cells.value[i]).value)))
  }

  /** What should be seen of a value through a column of type `t`. */
  function Seen(v: CqlValue, t: DataType): Item
    requires HasType(v, t)
    decreases v
  {
    match v
    case Native(_, bytes) => Scalar(t.vt, bytes)
    case TupleValue(_, items) =>
      Items(TupleType, seq(|items|, i requires 0 <= i < |items| =>
        if items[i].None? then None else Some(Seen(items[i].value, t.items[i]))))
    case ListValue(_, values) =>
      Items(ListType, seq(|values|, i requires 0 <= i < |values| => Some(Seen(values[i], t.elem.value))))
    case SetValue(_, values) =>
      Items(SetType, seq(|values|, i requires 0 <= i < |values| => Some(Seen(values[i], t.elem.value))))
    case MapValue(_, pairs) =>
      Items(MapType, seq(2 * |pairs|, i requires 0 <= i < 2 * |pairs| =>
        Some(if i % 2 == 0 then Seen(pairs[i / 2].key, t.key.value) else Seen(pairs[i / 2].val, t.val.value))))
    case VectorValue(_, _, slots) =>
      Items(VectorType, seq(|slots|, i requires 0 <= i < |slots| =>
        if slots[i].None? then None else Some(Seen(slots[i].value, t.typ))))
    case UdtValue(_, fields) =>
      Record(seq(|t.fields|, i requires 0 <= i < |t.fields| =>
        if i < |fields| then
          FieldItem(fields[i].name, if fields[i].value.None? then None else Some(Seen(fields[i].value.value, t.fields[i].typ)))
        else FieldItem(t.fields[i].name, None)))
  }

  // ----- What is written is read back

  /** The cell holds the item. */
  ghost predicate Holds(c: Option<Bytes>, v: Option<CqlValue>) {
    if v.None? then c.None? else Sized(v.value).Ok? && c == Some(Sized(v.value).value)
  }

  ghost predicate ReadsBack(v: CqlValue, t: DataType) {
    HasType(v, t) && (Sized(v).Ok? ==> Read(t, Sized(v).value) == Some(Seen(v, t)))
  }

  lemma {:induction false} TupleCellsHold(items: seq<Option<CqlValue>>, i: nat)
    requires i <= |items| && TupleCells(items, i).Ok?
    ensures var cells := TupleCells(items, i).value;
            |cells| == |items| - i && forall j | 0 <= j < |cells| :: Holds(cells[j], items[i + j])
    decreases |items| - i
  {
    if i < |items| {
      TupleCellsHold(items, i + 1);
    }
  }

  lemma {:induction false} SequenceCellsHold(values: seq<CqlValue>, i: nat)
    requires i <= |values| && SequenceCells(values, i).Ok?
    ensures var cells := SequenceCells(values, i).value;
            |cells| == |values| - i && forall j | 0 <= j < |cells| :: Holds(cells[j], Some(values[i + j]))
    decreases |values| - i
  {
    if i < |values| {
      SequenceCellsHold(values, i + 1);
    }
  }

  /** Cells `2 * i` and `2 * i + 1` hold the pair. */
  ghost predicate PairHeld(cells: seq<Option<Bytes>>, i: nat, p: Pair) {
    2 * i + 1 < |cells| && Holds(cells[2 * i], Some(p.key)) && Holds(cells[2 * i + 1], Some(p.val))
  }

  lemma PairMoves(rest: seq<Option<Bytes>>, cells: seq<Option<Bytes>>, i: nat, p: Pair)
    requires PairHeld(rest, i, p) && |cells| == |rest| + 2 && cells[2..] == rest
    ensures PairHeld(cells, i + 1, p)
  {
    assert cells[2 * i + 2] == rest[2 * i] && cells[2 * i + 3] == rest[2 * i + 1];
  }

  lemma {:induction false} MapCellsHold(pairs: seq<Pair>, i: nat)
    requires i <= |pairs| && MapCells(pairs, i).Ok?
    ensures var cells := MapCells(pairs, i).value;
            |cells| == 2 * (|pairs| - i) && forall j | i <= j < |pairs| :: PairHeld(cells, j - i, pairs[j])
    decreases |pairs| - i
  {
    if i < |pairs| {
      MapCellsHold(pairs, i + 1);
      var cells, rest := MapCells(pairs, i).value, MapCells(pairs, i + 1).value;
      forall j | i <= j < |pairs| ensures PairHeld(cells, j - i, pairs[j]) {
        if j > i {
          PairMoves(rest, cells, j - i - 1, pairs[j]);
        }
      }
    }
  }

  lemma {:induction false} UdtCellsHold(fields: seq<UdtFieldValue>, i: nat)
    requires i <= |fields| && UdtCells(fields, i).Ok?
    ensures var cells := UdtCells(fields, i).value;
            |cells| == |fields| - i && forall j | 0 <= j < |cells| :: Holds(cells[j], fields[i + j].value)
    decreases |fields| - i
  {
    if i < |fields| {
      UdtCellsHold(fields, i + 1);
      var cells, rest := UdtCells(fields, i).value, UdtCells(fields, i + 1).value;
      assert Holds(cells[0], fields[i].value) && cells == [cells[0]] + rest;
      forall j | 0 <= j < |cells| ensures Holds(cells[j], fields[i + j].value) {
        if j > 0 {
          assert fields[i + j] == fields[i + 1 + (j - 1)] && cells[j] == rest[j - 1];
        }
      }
    }
  }

  lemma {:induction false} UdtCellsAre(fields: seq<UdtFieldValue>, i: nat, cells: seq<Option<Bytes>>)
    requires i <= |fields| && |cells| == |fields| - i
    requires forall j | 0 <= j < |cells| :: Holds(cells[j], fields[i + j].value)
    ensures UdtCells(fields, i) == Ok(cells)
    decreases |cells|
  {
    if cells != [] {
      assert Holds(cells[0], fields[i + 0].value);
      forall j | 0 <= j < |cells[1..]| ensures Holds(cells[1..][j], fields[i + 1 + j].value) {
        assert Holds(cells[j + 1], fields[i + (j + 1)].value);
      }
      UdtCellsAre(fields, i + 1, cells[1..]);
      assert cells == [cells[0]] + cells[1..];
    }
  }

  ghost predicate HoldsPart(p: Bytes, slot: Option<CqlValue>) {
    slot.Some? && Payload(slot.value) == Ok(p)
  }

  lemma {:induction false} VectorPartsHold(slots: seq<Option<CqlValue>>, i: nat)
    requires i <= |slots| && VectorParts(slots, i).Ok?
    ensures var parts := VectorParts(slots, i).value;
            |parts| == |slots| - i && forall j | 0 <= j < |parts| :: HoldsPart(parts[j], slots[i + j])
    decreases |slots| - i
  {
    if i < |slots| {
      VectorPartsHold(slots, i + 1);
      var parts, rest := VectorParts(slots, i).value, VectorParts(slots, i + 1).value;
      assert HoldsPart(parts[0], slots[i]) && parts == [parts[0]] + rest;
      forall j | 0 <= j < |parts| ensures HoldsPart(parts[j], slots[i + j]) {
        if j > 0 {
          assert slots[i + j] == slots[i + 1 + (j - 1)] && parts[j] == rest[j - 1];
        }
      }
    }
  }

  lemma CellsComeBack(cells: seq<Option<Bytes>>)
    requires forall i | 0 <= i < |cells| :: Fits(cells[i])
    ensures SplitAll(TakeCell, |cells|, Join(Frame, cells)) == Some(cells)
    ensures forall n: nat | n >= |cells| :: SplitUpTo(TakeCell, n, Join(Frame, cells)) == Some((cells, []))
  {
    forall i | 0 <= i < |cells| ensures Undoes(TakeCell, Frame, cells[i]) {
      TakeUndoesFrame(cells[i]);
    }
    SplitJoined(TakeCell, Frame, cells, []);
    assert Join(Frame, cells) + [] == Join(Frame, cells);
    forall n: nat | n >= |cells| ensures SplitUpTo(TakeCell, n, Join(Frame, cells)) == Some((cells, [])) {
      SplitUpToJoined(TakeCell, Frame, cells, n);
    }
  }

  lemma CountedComeBack(n: nat, perItem: nat, cells: seq<Option<Bytes>>)
    requires n <= I32_MAX && |cells| == perItem * n && forall i | 0 <= i < |cells| :: Fits(cells[i])
    ensures CountedCells(perItem, Be32(n) + Join(Frame, cells)) == Some(cells)
  {
    var b := Be32(n) + Join(Frame, cells);
    FourBytes(n, Join(Frame, cells));
    CellsComeBack(cells);
    assert b[4..] == Join(Frame, cells);
  }

  // ----- Each shape of value reads back if its parts do

  lemma CellReads(c: Option<Bytes>, v: Option<CqlValue>, t: DataType)
    requires Holds(c, v) && (v.Some? ==> ReadsBack(v.value, t))
    ensures Fits(c) && ReadCell(t, c) == Some(if v.None? then None else Some(Seen(v.value, t)))
  {
  }

  lemma ReadTuple(t: DataType, b: Bytes, cells: seq<Option<Bytes>>, items: seq<Option<Item>>)
    requires t.Tuple? && |cells| == |items| == |t.items| && SplitAll(TakeCell, |t.items|, b) == Some(cells)
    requires forall i | 0 <= i < |items| :: ReadCell(t.items[i], cells[i]) == Some(items[i])
    ensures Read(t, b) == Some(Items(TupleType, items))
  {
    assert Read(t, b).value.items == items;
  }

  lemma ReadElements(t: DataType, b: Bytes, cells: seq<Option<Bytes>>, items: seq<Option<Item>>)
    requires (t.List? || t.Set?) && t.elem.Some? && |cells| == |items| && CountedCells(1, b) == Some(cells)
    requires forall i | 0 <= i < |items| :: ReadCell(t.elem.value, cells[i]) == Some(items[i])
    ensures Read(t, b) == Some(Items(GetValueType(t), items))
  {
    assert ReadSequence(GetValueType(t), t.elem.value, Some(cells)).value.items == items;
  }

  ghost predicate PairRead(k: DataType, v: DataType, cells: seq<Option<Bytes>>, items: seq<Option<Item>>, i: nat) {
    && 2 * i + 1 < |cells| && 2 * i + 1 < |items|
    && ReadCell(k, cells[2 * i]) == Some(items[2 * i]) && ReadCell(v, cells[2 * i + 1]) == Some(items[2 * i + 1])
  }

  lemma PairsAreCells(k: DataType, v: DataType, cells: seq<Option<Bytes>>, items: seq<Option<Item>>, n: nat, j: nat)
    requires |cells| == |items| == 2 * n && j < 2 * n && PairRead(k, v, cells, items, j / 2)
    ensures ReadCell(if j % 2 == 0 then k else v, cells[j]) == Some(items[j])
  {
    assert j == if j % 2 == 0 then 2 * (j / 2) else 2 * (j / 2) + 1;
  }

  lemma ReadMap(t: DataType, b: Bytes, cells: seq<Option<Bytes>>, items: seq<Option<Item>>, n: nat)
    requires t.Map? && t.key.Some? && t.val.Some? && |cells| == |items| == 2 * n && CountedCells(2, b) == Some(cells)
    requires forall i | 0 <= i < n :: PairRead(t.key.value, t.val.value, cells, items, i)
    ensures Read(t, b) == Some(Items(MapType, items))
  {
    forall j | 0 <= j < 2 * n
      ensures ReadCell(if j % 2 == 0 then t.key.value else t.val.value, cells[j]) == Some(items[j])
    {
      PairsAreCells(t.key.value, t.val.value, cells, items, n, j);
    }
    assert Read(t, b).value.items == items;
  }

  lemma ReadVector(t: DataType, b: Bytes, parts: seq<Bytes>, items: seq<Option<Item>>)
    requires t.Vector? && |parts| == |items| && ElementsOf(t.typ, t.dimensions, b) == Some(parts)
    requires forall i | 0 <= i < |items| :: items[i].Some? && Read(t.typ, parts[i]) == items[i]
    ensures Read(t, b) == Some(Items(VectorType, items))
  {
    assert Read(t, b).value.items == items;
  }

  lemma ReadRecord(t: DataType, b: Bytes, cells: seq<Option<Bytes>>, items: seq<FieldItem>)
    requires t.Udt? && |items| == |t.fields| && SplitUpTo(TakeCell, |t.fields|, b) == Some((cells, []))
    requires forall i | 0 <= i < |items| ::
               items[i].name == t.fields[i].name && ReadCell(t.fields[i].typ, CellAt(cells, i)) == Some(items[i].value)
    ensures Read(t, b) == Some(Record(items))
  {
    assert Read(t, b).value.fields == items;
  }

  lemma TupleReadsBack(v: CqlValue, t: DataType)
    requires v.TupleValue? && HasType(v, t)
    requires forall i | 0 <= i < |v.items| :: v.items[i].Some? ==> ReadsBack(v.items[i].value, t.items[i])
    ensures ReadsBack(v, t)
  {
    if Sized(v).Ok? {
      assert Payload(v) == Body([], TupleCells(v.items, 0));
      TupleCellsHold(v.items, 0);
      var cells := TupleCells(v.items, 0).value;
      forall i | 0 <= i < |cells|
        ensures Fits(cells[i]) && ReadCell(t.items[i], cells[i]) == Some(Seen(v, t).items[i])
      {
        assert Holds(cells[i], v.items[0 + i]);
        CellReads(cells[i], v.items[i], t.items[i]);
      }
      CellsComeBack(cells);
      assert [] + Join(Frame, cells) == Join(Frame, cells);
      ReadTuple(t, Sized(v).value, cells, Seen(v, t).items);
    }
  }

  lemma SeenSequence(v: CqlValue, t: DataType)
    requires (v.ListValue? || v.SetValue?) && HasType(v, t)
    ensures Seen(v, t) == Items(GetValueType(t), Seen(v, t).items) && |Seen(v, t).items| == |v.values|
    ensures forall i | 0 <= i < |v.values| :: HasType(v.values[i], t.elem.value) && Seen(v, t).items[i] == Some(Seen(v.values[i], t.elem.value))
    ensures Payload(v) == Counted(|v.values|, SequenceCells(v.values, 0))
  {
  }

  lemma {:induction false} SequenceCellsRead(values: seq<CqlValue>, t: DataType, cells: seq<Option<Bytes>>, items: seq<Option<Item>>)
    requires SequenceCells(values, 0) == Ok(cells) && |items| == |values|
    requires forall i | 0 <= i < |values| :: ReadsBack(values[i], t) && items[i] == Some(Seen(values[i], t))
    ensures |cells| == |values|
    ensures forall i | 0 <= i < |cells| :: Fits(cells[i]) && ReadCell(t, cells[i]) == Some(items[i])
  {
    SequenceCellsHold(values, 0);
    forall i | 0 <= i < |cells| ensures Fits(cells[i]) && ReadCell(t, cells[i]) == Some(items[i]) {
      assert Holds(cells[i], Some(values[0 + i]));
      CellReads(cells[i], Some(values[i]), t);
    }
  }

  lemma SequenceReadsBack(v: CqlValue, t: DataType)
    requires (v.ListValue? || v.SetValue?) && HasType(v, t)
    requires forall i | 0 <= i < |v.values| :: ReadsBack(v.values[i], t.elem.value)
    ensures ReadsBack(v, t)
  {
    if Sized(v).Ok? {
      SeenSequence(v, t);
      var cells, items := SequenceCells(v.values, 0).value, Seen(v, t).items;
      SequenceCellsRead(v.values, t.elem.value, cells, items);
      CountedComeBack(|v.values|, 1, cells);
      ReadElements(t, Sized(v).value, cells, items);
    }
  }

  /** Items `2 * i` and `2 * i + 1` are what should be seen of the pair. */
  ghost predicate PairSeen(items: seq<Option<Item>>, i: nat, p: Pair, k: DataType, v: DataType) {
    && HasType(p.key, k) && HasType(p.val, v) && 2 * i + 1 < |items|
    && items[2 * i] == Some(Seen(p.key, k)) && items[2 * i + 1] == Some(Seen(p.val, v))
  }

  lemma {:induction false} SeenMapItems(v: CqlValue, t: DataType)
    requires v.MapValue? && HasType(v, t)
    ensures Payload(v) == Counted(|v.pairs|, MapCells(v.pairs, 0))
    ensures Seen(v, t) == Items(MapType, Seen(v, t).items) && |Seen(v, t).items| == 2 * |v.pairs|
    ensures forall j | 0 <= j < 2 * |v.pairs| ::
              && HasType(v.pairs[j / 2].key, t.key.value) && HasType(v.pairs[j / 2].val, t.val.value)
              && Seen(v, t).items[j] == Some(if j % 2 == 0 then Seen(v.pairs[j / 2].key, t.key.value)
                                             else Seen(v.pairs[j / 2].val, t.val.value))
  {
  }

  lemma Halves(i: nat)
    ensures 2 * i / 2 == i && 2 * i % 2 == 0 && (2 * i + 1) / 2 == i && (2 * i + 1) % 2 == 1
  {
  }

  lemma {:induction false} SeenMap(v: CqlValue, t: DataType)
    requires v.MapValue? && HasType(v, t)
    ensures Payload(v) == Counted(|v.pairs|, MapCells(v.pairs, 0))
    ensures Seen(v, t) == Items(MapType, Seen(v, t).items) && |Seen(v, t).items| == 2 * |v.pairs|
    ensures forall i | 0 <= i < |v.pairs| :: PairSeen(Seen(v, t).items, i, v.pairs[i], t.key.value, t.val.value)
  {
    SeenMapItems(v, t);
    forall i | 0 <= i < |v.pairs| ensures PairSeen(Seen(v, t).items, i, v.pairs[i], t.key.value, t.val.value) {
      Halves(i);
      var even, odd := 2 * i, 2 * i + 1;
      assert Seen(v, t).items[even].Some? && Seen(v, t).items[odd].Some?;
    }
  }

  lemma PairReads(cells: seq<Option<Bytes>>, items: seq<Option<Item>>, k: DataType, v: DataType, i: nat, p: Pair)
    requires PairHeld(cells, i, p) && PairSeen(items, i, p, k, v) && ReadsBack(p.key, k) && ReadsBack(p.val, v)
    ensures PairRead(k, v, cells, items, i)
  {
    CellReads(cells[2 * i], Some(p.key), k);
    CellReads(cells[2 * i + 1], Some(p.val), v);
  }

  lemma PairsFit(cells: seq<Option<Bytes>>, pairs: seq<Pair>)
    requires |cells| == 2 * |pairs| && forall i | 0 <= i < |pairs| :: PairHeld(cells, i, pairs[i])
    ensures forall j | 0 <= j < |cells| :: Fits(cells[j])
  {
    forall j | 0 <= j < |cells| ensures Fits(cells[j]) {
      assert PairHeld(cells, j / 2, pairs[j / 2]);
      assert j == 2 * (j / 2) || j == 2 * (j / 2) + 1;
    }
  }

  lemma {:induction false} MapPairsRead(pairs: seq<Pair>, k: DataType, v: DataType, cells: seq<Option<Bytes>>, items: seq<Option<Item>>)
    requires MapCells(pairs, 0) == Ok(cells)
    requires forall i | 0 <= i < |pairs| ::
               PairSeen(items, i, pairs[i], k, v) && ReadsBack(pairs[i].key, k) && ReadsBack(pairs[i].val, v)
    ensures |cells| == 2 * |pairs|
    ensures forall i | 0 <= i < |pairs| :: PairHeld(cells, i, pairs[i]) && PairRead(k, v, cells, items, i)
  {
    MapCellsHold(pairs, 0);
    forall i | 0 <= i < |pairs| ensures PairHeld(cells, i, pairs[i]) && PairRead(k, v, cells, items, i) {
      assert PairHeld(cells, i - 0, pairs[i]);
      PairReads(cells, items, k, v, i, pairs[i]);
    }
  }

  lemma MapReadsBack(v: CqlValue, t: DataType)
    requires v.MapValue? && HasType(v, t)
    requires forall i | 0 <= i < |v.pairs| :: ReadsBack(v.pairs[i].key, t.key.value) && ReadsBack(v.pairs[i].val, t.val.value)
    ensures ReadsBack(v, t)
  {
    if Sized(v).Ok? {
      SeenMap(v, t);
      var cells, items := MapCells(v.pairs, 0).value, Seen(v, t).items;
      MapPairsRead(v.pairs, t.key.value, t.val.value, cells, items);
      PairsFit(cells, v.pairs);
      CountedComeBack(|v.pairs|, 2, cells);
      ReadMap(t, Sized(v).value, cells, items, |v.pairs|);
    }
  }

  lemma SeenUdt(v: CqlValue, t: DataType)
    requires v.UdtValue? && HasType(v, t)
    ensures Payload(v) == Body([], UdtCells(v.fields, 0))
    ensures Seen(v, t) == Record(Seen(v, t).fields) && |Seen(v, t).fields| == |t.fields|
    ensures forall i | 0 <= i < |v.fields| ::
              && v.fields[i].name == t.fields[i].name
              && (v.fields[i].value.Some? ==> HasType(v.fields[i].value.value, t.fields[i].typ))
              && Seen(v, t).fields[i] == FieldItem(v.fields[i].name, if v.fields[i].value.None? then None
                                                                     else Some(Seen(v.fields[i].value.value, t.fields[i].typ)))
    ensures forall i | |v.fields| <= i < |t.fields| :: Seen(v, t).fields[i] == FieldItem(t.fields[i].name, None)
  {
  }

  lemma FieldReads(c: Option<Bytes>, v: UdtFieldValue, f: Field, item: FieldItem)
    requires Holds(c, v.value) && v.name == f.name && (v.value.Some? ==> ReadsBack(v.value.value, f.typ))
    requires item == FieldItem(v.name, if v.value.None? then None else Some(Seen(v.value.value, f.typ)))
    ensures Fits(c) && item.name == f.name && ReadCell(f.typ, c) == Some(item.value)
  {
    CellReads(c, v.value, f.typ);
  }

  lemma {:induction false} UdtCellsRead(values: seq<UdtFieldValue>, fields: seq<Field>, cells: seq<Option<Bytes>>, items: seq<FieldItem>)
    requires UdtCells(values, 0) == Ok(cells) && |values| <= |fields| == |items|
    requires forall i | 0 <= i < |values| ::
               && values[i].name == fields[i].name && (values[i].value.Some? ==> ReadsBack(values[i].value.value, fields[i].typ))
               && items[i] == FieldItem(values[i].name, if values[i].value.None? then None
                                                        else Some(Seen(values[i].value.value, fields[i].typ)))
    requires forall i | |values| <= i < |fields| :: items[i] == FieldItem(fields[i].name, None)
    ensures |cells| == |values| && forall i | 0 <= i < |cells| :: Fits(cells[i])
    ensures forall i | 0 <= i < |items| ::
              items[i].name == fields[i].name && ReadCell(fields[i].typ, CellAt(cells, i)) == Some(items[i].value)
  {
    UdtCellsHold(values, 0);
    forall i | 0 <= i < |cells|
      ensures Fits(cells[i]) && items[i].name == fields[i].name && ReadCell(fields[i].typ, cells[i]) == Some(items[i].value)
    {
      assert Holds(cells[i], values[0 + i].value);
      FieldReads(cells[i], values[i], fields[i], items[i]);
    }
  }

  lemma UdtReadsBack(v: CqlValue, t: DataType)
    requires v.UdtValue? && HasType(v, t)
    requires forall i | 0 <= i < |v.fields| ::
               v.fields[i].value.Some? ==> ReadsBack(v.fields[i].value.value, t.fields[i].typ)
    ensures ReadsBack(v, t)
  {
    if Sized(v).Ok? {
      SeenUdt(v, t);
      var cells, items := UdtCells(v.fields, 0).value, Seen(v, t).fields;
      UdtCellsRead(v.fields, t.fields, cells, items);
      CellsComeBack(cells);
      assert [] + Join(Frame, cells) == Join(Frame, cells);
      ReadRecord(t, Sized(v).value, cells, items);
    }
  }

  // ----- Vectors

  lemma {:induction false} RawLength(size: nat, parts: seq<Bytes>)
    requires forall i | 0 <= i < |parts| :: |parts[i]| == size
    ensures |Join(Raw, parts)| == |parts| * size
  {
    if parts != [] {
      RawLength(size, parts[1..]);
    }
  }

  lemma VectorPayload(v: CqlValue)
    requires v.VectorValue? && Payload(v).Ok?
    ensures VectorParts(v.slots, 0).Ok?
    ensures Payload(v).value == JoinParts(UsesVariableLength(v.elem), VectorParts(v.slots, 0).value)
  {
  }

  lemma NativeLength(v: CqlValue, t: DataType)
    requires v.Native? && HasType(v, t) && !UsesVariableLength(t)
    ensures Payload(v) == Ok(v.bytes) && |v.bytes| == FixedSize(t)
  {
  }

  lemma VectorLength(v: CqlValue, t: DataType)
    requires v.VectorValue? && HasType(v, t) && !UsesVariableLength(t) && Payload(v).Ok?
    requires forall i | 0 <= i < |v.slots| :: v.slots[i].Some? && Payload(v.slots[i].value).Ok? ==>
                                                |Payload(v.slots[i].value).value| == FixedSize(t.typ)
    ensures |Payload(v).value| == FixedSize(t)
  {
    VectorPayload(v);
    VectorPartsHold(v.slots, 0);
    var parts := VectorParts(v.slots, 0).value;
    forall i | 0 <= i < |parts| ensures |parts[i]| == FixedSize(t.typ) {
      assert HoldsPart(parts[i], v.slots[0 + i]);
    }
    RawLength(FixedSize(t.typ), parts);
  }

  /** A value of a type a vector holds raw has that type's size. */
  lemma {:induction false} FixedLength(v: CqlValue, t: DataType)
    requires HasType(v, t) && !UsesVariableLength(t) && Payload(v).Ok?
    ensures |Payload(v).value| == FixedSize(t)
    decreases v
  {
    if v.VectorValue? {
      forall i | 0 <= i < |v.slots| && v.slots[i].Some? && Payload(v.slots[i].value).Ok?
        ensures |Payload(v.slots[i].value).value| == FixedSize(t.typ)
      {
        assert v.slots decreases to v.slots[i];
        FixedLength(v.slots[i].value, t.typ);
      }
      VectorLength(v, t);
    } else {
      NativeLength(v, t);
    }
  }

  lemma PartsComeBack(t: DataType, parts: seq<Bytes>)
    requires forall i | 0 <= i < |parts| :: |parts[i]| <= I32_MAX
    requires !UsesVariableLength(t) ==> forall i | 0 <= i < |parts| :: |parts[i]| == FixedSize(t)
    ensures ElementsOf(t, |parts|, JoinParts(UsesVariableLength(t), parts)) == Some(parts)
  {
    var b := JoinParts(UsesVariableLength(t), parts);
    assert b + [] == b;
    if UsesVariableLength(t) {
      forall i | 0 <= i < |parts| ensures Undoes(TakePrefixed, Prefixed, parts[i]) {
        TakeUndoesPrefixed(parts[i]);
      }
      SplitJoined(TakePrefixed, Prefixed, parts, []);
    } else {
      var size := FixedSize(t);
      forall i | 0 <= i < |parts| ensures Undoes(x => TakeFixed(size, x), Raw, parts[i]) {
        TakeUndoesRaw(size, parts[i]);
      }
      SplitJoined(x => TakeFixed(size, x), Raw, parts, []);
    }
  }

  lemma PartsAreShorter(variable: bool, parts: seq<Bytes>, i: nat)
    requires i < |parts|
    ensures |parts[i]| <= |JoinParts(variable, parts)|
  {
    if variable {
      JoinLonger(Prefixed, parts, i);
    } else {
      JoinLonger(Raw, parts, i);
    }
  }

  lemma {:induction false} SeenVector(v: CqlValue, t: DataType, items: seq<Option<Item>>)
    requires v.VectorValue? && HasType(v, t) && Seen(v, t).Items? && Seen(v, t).items == items
    ensures Seen(v, t) == Items(VectorType, items) && |items| == |v.slots| == t.dimensions
    ensures forall i | 0 <= i < |v.slots| && v.slots[i].Some? ::
              HasType(v.slots[i].value, t.typ) && items[i] == Some(Seen(v.slots[i].value, t.typ))
  {
  }

  lemma PartReads(p: Bytes, w: CqlValue, t: DataType)
    requires Payload(w) == Ok(p) && |p| <= I32_MAX && ReadsBack(w, t)
    ensures Read(t, p) == Some(Seen(w, t)) && (!UsesVariableLength(t) ==> |p| == FixedSize(t))
  {
    if !UsesVariableLength(t) {
      FixedLength(w, t);
    }
  }

  lemma {:induction false} VectorPartsRead(slots: seq<Option<CqlValue>>, t: DataType, parts: seq<Bytes>, items: seq<Option<Item>>)
    requires VectorParts(slots, 0) == Ok(parts) && |items| == |slots| && forall i | 0 <= i < |parts| :: |parts[i]| <= I32_MAX
    requires forall i | 0 <= i < |slots| && slots[i].Some? ::
               ReadsBack(slots[i].value, t) && items[i] == Some(Seen(slots[i].value, t))
    ensures |parts| == |slots|
    ensures forall i | 0 <= i < |parts| :: items[i].Some? && Read(t, parts[i]) == items[i]
    ensures !UsesVariableLength(t) ==> forall i | 0 <= i < |parts| :: |parts[i]| == FixedSize(t)
  {
    VectorPartsHold(slots, 0);
    forall i | 0 <= i < |parts|
      ensures items[i].Some? && Read(t, parts[i]) == items[i] && (!UsesVariableLength(t) ==> |parts[i]| == FixedSize(t))
    {
      assert HoldsPart(parts[i], slots[0 + i]);
      PartReads(parts[i], slots[i].value, t);
    }
  }

  lemma {:induction false} VectorReadsBack(v: CqlValue, t: DataType)
    requires v.VectorValue? && HasType(v, t)
    requires forall i | 0 <= i < |v.slots| :: v.slots[i].Some? ==> ReadsBack(v.slots[i].value, t.typ)
    ensures ReadsBack(v, t)
  {
    if Sized(v).Ok? {
      VectorPayload(v);
      var parts, items := VectorParts(v.slots, 0).value, Seen(v, t).items;
      SeenVector(v, t, items);
      forall i | 0 <= i < |parts| ensures |parts[i]| <= I32_MAX {
        PartsAreShorter(UsesVariableLength(v.elem), parts, i);
      }
      VectorPartsRead(v.slots, t.typ, parts, items);
      PartsComeBack(t.typ, parts);
      ReadVector(t, Sized(v).value, parts, items);
    }
  }

  /** Whatever serializes reads back as the value that was sent. */
  lemma {:induction false} RoundTrip(v: CqlValue, t: DataType)
    requires HasType(v, t)
    ensures ReadsBack(v, t)
    decreases v
  {
    match v
    case Native(kind, _) =>
    case TupleValue(_, items) =>
      forall i | 0 <= i < |items| && items[i].Some? ensures ReadsBack(items[i].value, t.items[i]) {
        assert items decreases to items[i];
        RoundTrip(items[i].value, t.items[i]);
      }
      TupleReadsBack(v, t);
    case ListValue(_, values) =>
      forall i | 0 <= i < |values| ensures ReadsBack(values[i], t.elem.value) {
        RoundTrip(values[i], t.elem.value);
      }
      SequenceReadsBack(v, t);
    case SetValue(_, values) =>
      forall i | 0 <= i < |values| ensures ReadsBack(values[i], t.elem.value) {
        RoundTrip(values[i], t.elem.value);
      }
      SequenceReadsBack(v, t);
    case MapValue(_, pairs) =>
      forall i | 0 <= i < |pairs|
        ensures ReadsBack(pairs[i].key, t.key.value) && ReadsBack(pairs[i].val, t.val.value)
      {
        assert pairs decreases to pairs[i];
        RoundTrip(pairs[i].key, t.key.value);
        RoundTrip(pairs[i].val, t.val.value);
      }
      MapReadsBack(v, t);
    case VectorValue(_, _, slots) =>
      forall i | 0 <= i < |slots| && slots[i].Some? ensures ReadsBack(slots[i].value, t.typ) {
        assert slots decreases to slots[i];
        RoundTrip(slots[i].value, t.typ);
      }
      VectorReadsBack(v, t);
    case UdtValue(_, fields) =>
      forall i | 0 <= i < |fields| && fields[i].value.Some?
        ensures ReadsBack(fields[i].value.value, t.fields[i].typ)
      {
        assert fields decreases to fields[i];
        RoundTrip(fields[i].value.value, t.fields[i].typ);
      }
      UdtReadsBack(v, t);
  }
}
