/**
 What it means for the item a reader sees to be the value that was sent, and how many bytes the
 native values inside vectors account for on either side of the wire.
 */
module CqlDenotes {

  import opened Prelude
  import opened CqlTypes
  import opened CqlFrames
  import opened CqlWire
  import opened CqlTypecheck

  /** The item is the value: the same shape with the same parts, and at the leaves the same bytes,
      read as a type the value can be bound to. Fields the value does not have are null. */
  predicate Denotes(item: Item, v: CqlValue)
    decreases v
  {
    match v
    case Native(kind, bytes) => item.Scalar? && Accepts(kind, item.vt) && item.bytes == bytes
    case TupleValue(_, items) =>
      && item.Items? && item.shape.TupleType? && |item.items| == |items|
      && forall i | 0 <= i < |items| ::
           item.items[i].Some? == items[i].Some? && (items[i].Some? ==> Denotes(item.items[i].value, items[i].value))
    case ListValue(_, values) =>
      && item.Items? && item.shape.ListType? && |item.items| == |values|
      && forall i | 0 <= i < |values| :: item.items[i].Some? && Denotes(item.items[i].value, values[i])
    case SetValue(_, values) =>
      && item.Items? && item.shape.SetType? && |item.items| == |values|
      && forall i | 0 <= i < |values| :: item.items[i].Some? && Denotes(item.items[i].value, values[i])
    case MapValue(_, pairs) =>
      && item.Items? && item.shape.MapType? && |item.items| == 2 * |pairs|
      && forall i | 0 <= i < |pairs| ::
           && item.items[2 * i].Some? && Denotes(item.items[2 * i].value, pairs[i].key)
           && item.items[2 * i + 1].Some? && Denotes(item.items[2 * i + 1].value, pairs[i].val)
    case VectorValue(_, _, slots) =>
      && item.Items? && item.shape.VectorType? && |item.items| == |slots|
      && forall i | 0 <= i < |slots| ::
           item.items[i].Some? == slots[i].Some? && (slots[i].Some? ==> Denotes(item.items[i].value, slots[i].value))
    case UdtValue(_, fields) =>
      && item.Record? && |fields| <= |item.fields|
      && (forall i | 0 <= i < |fields| ::
            && item.fields[i].name == fields[i].name
            && item.fields[i].value.Some? == fields[i].value.Some?
            && (fields[i].value.Some? ==> Denotes(item.fields[i].value.value, fields[i].value.value)))
      && forall i | |fields| <= i < |item.fields| :: item.fields[i].value.None?
  }

  // ----- What should be seen of a value is the value

  lemma MapSeenDenotes(v: CqlValue, t: DataType)
    requires v.MapValue? && HasType(v, t)
    requires forall i | 0 <= i < |v.pairs| ::
               && HasType(v.pairs[i].key, t.key.value) && HasType(v.pairs[i].val, t.val.value)
               && Denotes(Seen(v.pairs[i].key, t.key.value), v.pairs[i].key)
               && Denotes(Seen(v.pairs[i].val, t.val.value), v.pairs[i].val)
    ensures Denotes(Seen(v, t), v)
  {
    SeenMap(v, t);
    forall i | 0 <= i < |v.pairs|
      ensures Seen(v, t).items[2 * i] == Some(Seen(v.pairs[i].key, t.key.value))
      ensures Seen(v, t).items[2 * i + 1] == Some(Seen(v.pairs[i].val, t.val.value))
    {
      assert PairSeen(Seen(v, t).items, i, v.pairs[i], t.key.value, t.val.value);
    }
  }

  lemma {:induction false} SeenDenotes(v: CqlValue, t: DataType)
    requires HasType(v, t)
    ensures Denotes(Seen(v, t), v)
    decreases v
  {
    match v
    case Native(_, _) =>
    case TupleValue(_, items) =>
      forall i | 0 <= i < |items| && items[i].Some? ensures Denotes(Seen(items[i].value, t.items[i]), items[i].value) {
        assert items decreases to items[i];
        SeenDenotes(items[i].value, t.items[i]);
      }
    case ListValue(_, values) =>
      forall i | 0 <= i < |values| ensures Denotes(Seen(values[i], t.elem.value), values[i]) {
        SeenDenotes(values[i], t.elem.value);
      }
    case SetValue(_, values) =>
      forall i | 0 <= i < |values| ensures Denotes(Seen(values[i], t.elem.value), values[i]) {
        SeenDenotes(values[i], t.elem.value);
      }
    case MapValue(_, pairs) =>
      forall i | 0 <= i < |pairs|
        ensures Denotes(Seen(pairs[i].key, t.key.value), pairs[i].key)
        ensures Denotes(Seen(pairs[i].val, t.val.value), pairs[i].val)
      {
        assert pairs decreases to pairs[i];
        SeenDenotes(pairs[i].key, t.key.value);
        SeenDenotes(pairs[i].val, t.val.value);
      }
      MapSeenDenotes(v, t);
    case VectorValue(_, _, slots) =>
      forall i | 0 <= i < |slots| && slots[i].Some? ensures Denotes(Seen(slots[i].value, t.typ), slots[i].value) {
        assert slots decreases to slots[i];
        SeenDenotes(slots[i].value, t.typ);
      }
    case UdtValue(_, fields) =>
      forall i | 0 <= i < |fields| && fields[i].value.Some?
        ensures Denotes(Seen(fields[i].value.value, t.fields[i].typ), fields[i].value.value)
      {
        assert fields decreases to fields[i];
        SeenDenotes(fields[i].value.value, t.fields[i].typ);
      }
      SeenUdt(v, t);
  }

  // ----- Bytes of native values in vectors

  /** The bytes of the native values a vector holds, through nested vectors. */
  function LeafBytes(v: CqlValue): nat
    decreases v, 1
  {
    match v
    case Native(_, bytes) => |bytes|
    case VectorValue(_, _, slots) => SlotBytes(slots, 0)
    case _ => 0
  }

  function SlotBytes(slots: seq<Option<CqlValue>>, i: nat): nat
    requires i <= |slots|
    decreases slots, 0, |slots| - i
  {
    if i == |slots| then 0 else
    assert slots decreases to slots[i];
    (if slots[i].Some? then LeafBytes(slots[i].value) else 0) + SlotBytes(slots, i + 1)
  }

  /** Parts that are each as long as the native bytes in their slot, or longer. */
  ghost predicate Covered(parts: seq<Bytes>, slots: seq<Option<CqlValue>>) {
    |parts| == |slots| && forall i | 0 <= i < |parts| :: slots[i].Some? && |parts[i]| >= LeafBytes(slots[i].value)
  }

  ghost predicate Filled(parts: seq<Bytes>, slots: seq<Option<CqlValue>>) {
    |parts| == |slots| && forall i | 0 <= i < |parts| :: slots[i].Some? && |parts[i]| == LeafBytes(slots[i].value)
  }

  lemma {:induction false} JoinedParts(parts: seq<Bytes>, slots: seq<Option<CqlValue>>, i: nat)
    requires i <= |parts| && Covered(parts, slots)
    ensures |Join(Raw, parts[i..])| >= SlotBytes(slots, i)
    ensures Filled(parts, slots) ==> |Join(Raw, parts[i..])| == SlotBytes(slots, i)
    ensures |Join(Prefixed, parts[i..])| >= |parts| - i + SlotBytes(slots, i)
    decreases |parts| - i
  {
    if i < |parts| {
      JoinedParts(parts, slots, i + 1);
      assert parts[i..][1..] == parts[i + 1..];
    }
  }

  /** What is written for a vector, against the native bytes in it. */
  ghost predicate WrittenLength(v: CqlValue) {
    Payload(v).Ok? ==>
      var n := |Payload(v).value|;
      && n >= LeafBytes(v)
      && (v.Native? || (v.VectorValue? && !UsesVariableLength(v.elem)) ==> n == LeafBytes(v))
      && (v.VectorValue? && UsesVariableLength(v.elem) ==> n >= |v.slots| + LeafBytes(v))
  }

  /** What fits a slot that is held raw is itself a native value or a vector of raw elements. */
  lemma RawSlot(w: CqlValue, elem: DataType)
    requires Made(w) && Compatible(w, elem) && !UsesVariableLength(elem)
    ensures w.Native? || (w.VectorValue? && !UsesVariableLength(w.elem))
  {
    if w.VectorValue? {
      SameEncoding(w.typ, elem);
    }
  }

  lemma PartWritten(w: CqlValue, elem: DataType, p: Bytes)
    requires Made(w) && Compatible(w, elem) && WrittenLength(w) && Payload(w) == Ok(p)
    ensures |p| >= LeafBytes(w) && (!UsesVariableLength(elem) ==> |p| == LeafBytes(w))
  {
    if !UsesVariableLength(elem) {
      RawSlot(w, elem);
    }
  }

  lemma PartsWritten(v: CqlValue, parts: seq<Bytes>)
    requires v.VectorValue? && Made(v) && VectorParts(v.slots, 0) == Ok(parts)
    requires forall i | 0 <= i < |v.slots| :: v.slots[i].Some? ==> WrittenLength(v.slots[i].value)
    ensures Covered(parts, v.slots) && (!UsesVariableLength(v.elem) ==> Filled(parts, v.slots))
  {
    VectorPartsHold(v.slots, 0);
    forall i | 0 <= i < |parts|
      ensures v.slots[i].Some? && |parts[i]| >= LeafBytes(v.slots[i].value)
      ensures !UsesVariableLength(v.elem) ==> |parts[i]| == LeafBytes(v.slots[i].value)
    {
      assert HoldsPart(parts[i], v.slots[0 + i]);
      PartWritten(v.slots[i].value, v.elem, parts[i]);
    }
  }

  lemma VectorWritten(v: CqlValue)
    requires v.VectorValue? && Made(v)
    requires forall i | 0 <= i < |v.slots| :: v.slots[i].Some? ==> WrittenLength(v.slots[i].value)
    ensures WrittenLength(v)
  {
    if Payload(v).Ok? {
      VectorPayload(v);
      var parts := VectorParts(v.slots, 0).value;
      PartsWritten(v, parts);
      JoinedParts(parts, v.slots, 0);
      assert parts[0..] == parts;
    }
  }

  lemma {:induction false} Written(v: CqlValue)
    requires Made(v)
    ensures WrittenLength(v)
    decreases v
  {
    if v.VectorValue? {
      forall i | 0 <= i < |v.slots| && v.slots[i].Some? ensures WrittenLength(v.slots[i].value) {
        assert v.slots decreases to v.slots[i];
        Written(v.slots[i].value);
      }
      VectorWritten(v);
    }
  }

  // ----- The same, from the reader's side

  /** Which constructor an item has tells which type it was read as. */
  lemma ReadShape(t: DataType, b: Bytes)
    requires Read(t, b).Some?
    ensures Read(t, b).value.Scalar? <==> t.Value?
    ensures Read(t, b).value.Record? <==> t.Udt?
    ensures Read(t, b).value.Items? ==> Read(t, b).value.shape == GetValueType(t)
  {
  }

  lemma {:induction false} TakenFixed(size: nat, n: nat, b: Bytes)
    requires Split(x => TakeFixed(size, x), n, b).Some?
    ensures var (parts, left) := Split(x => TakeFixed(size, x), n, b).value;
            && |parts| == n && |b| == n * size + |left| && |b| == |Join(Raw, parts)| + |left|
            && forall i | 0 <= i < n :: |parts[i]| == size
  {
    if n > 0 {
      var rest := TakeFixed(size, b).value.1;
      TakenFixed(size, n - 1, rest);
      var parts, tail := Split(x => TakeFixed(size, x), n, b).value.0, Split(x => TakeFixed(size, x), n - 1, rest).value.0;
      assert parts[1..] == tail;
    }
  }

  lemma {:induction false} TakenPrefixed(n: nat, b: Bytes)
    requires Split(TakePrefixed, n, b).Some?
    ensures var (parts, left) := Split(TakePrefixed, n, b).value;
            |parts| == n && |b| >= n + |Join(Raw, parts)| + |left|
  {
    if n > 0 {
      var rest := TakePrefixed(b).value.1;
      TakenPrefixed(n - 1, rest);
      var parts, tail := Split(TakePrefixed, n, b).value.0, Split(TakePrefixed, n - 1, rest).value.0;
      assert parts[1..] == tail;
    }
  }

  lemma TakenElements(t: DataType, n: nat, b: Bytes)
    requires ElementsOf(t, n, b).Some?
    ensures var parts := ElementsOf(t, n, b).value;
            && |parts| == n
            && (if UsesVariableLength(t) then |b| >= n + |Join(Raw, parts)|
                else |b| == |Join(Raw, parts)| && |b| == n * FixedSize(t) && forall i | 0 <= i < n :: |parts[i]| == FixedSize(t))
  {
    if UsesVariableLength(t) {
      TakenPrefixed(n, b);
    } else {
      TakenFixed(FixedSize(t), n, b);
    }
  }

  lemma VectorRead(t: DataType, b: Bytes)
    requires t.Vector? && Read(t, b).Some?
    ensures ElementsOf(t.typ, t.dimensions, b).Some?
    ensures var parts, items := ElementsOf(t.typ, t.dimensions, b).value, Read(t, b).value.items;
            Read(t, b).value == Items(VectorType, items) && |parts| == |items| &&
            forall i | 0 <= i < |items| :: items[i].Some? && Read(t.typ, parts[i]) == items[i]
  {
  }

  ghost predicate ReadLength(v: CqlValue, t: DataType, b: Bytes) {
    Read(t, b).Some? && Denotes(Read(t, b).value, v) ==>
      && |b| >= LeafBytes(v)
      && (!UsesVariableLength(t) ==> |b| == LeafBytes(v))
      && (t.Vector? && UsesVariableLength(t.typ) ==> v.VectorValue? && |b| >= |v.slots| + LeafBytes(v))
  }

  lemma VectorTaken(v: CqlValue, t: DataType, b: Bytes)
    requires v.VectorValue? && t.Vector? && Read(t, b).Some? && Denotes(Read(t, b).value, v)
    requires forall i | 0 <= i < |v.slots| && v.slots[i].Some? :: forall p: Bytes :: ReadLength(v.slots[i].value, t.typ, p)
    ensures ReadLength(v, t, b)
  {
    VectorRead(t, b);
    TakenElements(t.typ, t.dimensions, b);
    var parts := ElementsOf(t.typ, t.dimensions, b).value;
    forall i | 0 <= i < |parts|
      ensures v.slots[i].Some? && |parts[i]| >= LeafBytes(v.slots[i].value)
      ensures !UsesVariableLength(t.typ) ==> |parts[i]| == LeafBytes(v.slots[i].value)
    {
      assert Read(t.typ, parts[i]) == Read(t, b).value.items[i];
      assert ReadLength(v.slots[i].value, t.typ, parts[i]);
    }
    JoinedParts(parts, v.slots, 0);
    assert parts[0..] == parts;
  }

  lemma {:induction false} Taken(v: CqlValue, t: DataType, b: Bytes)
    ensures ReadLength(v, t, b)
    decreases v
  {
    if Read(t, b).Some? && Denotes(Read(t, b).value, v) {
      ReadShape(t, b);
      if v.VectorValue? {
        forall i | 0 <= i < |v.slots| && v.slots[i].Some? ensures forall p: Bytes :: ReadLength(v.slots[i].value, t.typ, p) {
          forall p: Bytes ensures ReadLength(v.slots[i].value, t.typ, p) {
            assert v.slots decreases to v.slots[i];
            Taken(v.slots[i].value, t.typ, p);
          }
        }
        VectorTaken(v, t, b);
      }
    }
  }

  /** A vector of one encoding is not read as a vector of the other. */
  lemma EncodingsAgree(v: CqlValue, t: DataType)
    requires v.VectorValue? && Made(v) && Payload(v).Ok? && t.Vector? && t.dimensions > 0
    ensures Read(t, Payload(v).value).Some? && Denotes(Read(t, Payload(v).value).value, v) ==>
              |v.slots| == t.dimensions && UsesVariableLength(v.elem) == UsesVariableLength(t.typ)
  {
    var b := Payload(v).value;
    if Read(t, b).Some? && Denotes(Read(t, b).value, v) {
      VectorRead(t, b);
      TakenElements(t.typ, t.dimensions, b);
      Written(v);
      Taken(v, t, b);
    }
  }
}
