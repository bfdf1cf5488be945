/**
 Serialization as scylla-rust-wrapper/src/cql_types/value.rs carries it out, appending to a buffer
 and stopping at the first error.
 */
module CqlSerializer {

  import opened Prelude
  import opened CqlTypes
  import opened CqlFrames
  import opened CqlWire

  lemma {:induction false} JoinAppend<A>(put: A -> Bytes, items: seq<A>, last: seq<A>)
    ensures Join(put, items + last) == Join(put, items) + Join(put, last)
  {
    if items == [] {
      assert items + last == last;
      assert [] + Join(put, last) == Join(put, last);
    } else {
      JoinAppend(put, items[1..], last);
      assert (items + last)[1..] == items[1..] + last;
    }
  }

  lemma JoinOne<A>(put: A -> Bytes, items: seq<A>, last: A)
    ensures Join(put, items + [last]) == Join(put, items) + put(last)
  {
    JoinAppend(put, items, [last]);
    assert Join(put, [last]) == put(last) + Join(put, []);
  }

  lemma PrependNothing<A>(r: Result<seq<A>, Error>)
    ensures Prepend([], r) == r
  {
    if r.Ok? {
      assert [] + r.value == r.value;
    }
  }

  lemma NothingLeft<A>(xs: seq<A>)
    ensures Prepend(xs, Ok([])) == Ok(xs)
  {
    assert xs + [] == xs;
  }

  lemma PrependTwice<A>(xs: seq<A>, ys: seq<A>, r: Result<seq<A>, Error>)
    ensures Prepend(xs, Prepend(ys, r)) == Prepend(xs + ys, r)
  {
    if r.Ok? {
      assert xs + (ys + r.value) == xs + ys + r.value;
    }
  }

  // The type a value was declared with is not looked at: None stands for any.

  /** do_serialize into a cell without a length. */
  method DoSerialize(v: CqlValue) returns (r: Result<Bytes, Error>)
    ensures r == Payload(v)
    decreases v, 1
  {
    match v
    case Native(_, bytes) => return Ok(bytes);
    case TupleValue(_, items) => r := SerializeTupleLike(items);
    case ListValue(_, values) => r := SerializeSequence(values);
    case SetValue(_, values) => r := SerializeSequence(values);
    case MapValue(_, pairs) => r := SerializeMapping(pairs);
    case VectorValue(_, elem, slots) => r := SerializeVector(elem, slots);
    case UdtValue(_, fields) => r := SerializeUdt(fields);
  }

  /** do_serialize into a cell: the length is filled in at the end and has to fit. */
  method SerializeCell(v: CqlValue) returns (r: Result<Bytes, Error>)
    ensures r == Sized(v)
    decreases v, 2
  {
    r := DoSerialize(v);
    if r.Ok? && |r.value| > I32_MAX {
      return Err(SizeOverflow);
    }
  }

  method SerializeTupleLike(items: seq<Option<CqlValue>>) returns (r: Result<Bytes, Error>)
    ensures r == Payload(TupleValue(None, items))
    decreases items, 0
  {
    var buf: Bytes := [];
    ghost var done: seq<Option<Bytes>> := [];
    PrependNothing(TupleCells(items, 0));
    for i := 0 to |items|
      invariant buf == Join(Frame, done) && |done| == i
      invariant TupleCells(items, 0) == Prepend(done, TupleCells(items, i))
    {
      var cell: Option<Bytes> := None;
      if items[i].Some? {
        assert items decreases to items[i];
        var p := SerializeCell(items[i].value);
        if p.Err? {
          return Err(InTuple(i, p.error));
        }
        cell := Some(p.value);
      }
      JoinOne(Frame, done, cell);
      PrependTwice(done, [cell], TupleCells(items, i + 1));
      buf, done := buf + Frame(cell), done + [cell];
    }
    NothingLeft(done);
    assert [] + buf == buf;
    return Ok(buf);
  }

  method SerializeUdt(fields: seq<UdtFieldValue>) returns (r: Result<Bytes, Error>)
    ensures r == Body([], UdtCells(fields, 0))
    decreases fields, 0
  {
    var buf: Bytes := [];
    ghost var done: seq<Option<Bytes>> := [];
    PrependNothing(UdtCells(fields, 0));
    for i := 0 to |fields|
      invariant buf == Join(Frame, done) && |done| == i
      invariant UdtCells(fields, 0) == Prepend(done, UdtCells(fields, i))
    {
      var cell: Option<Bytes> := None;
      if fields[i].value.Some? {
        assert fields decreases to fields[i];
        var p := SerializeCell(fields[i].value.value);
        if p.Err? {
          return Err(InField(fields[i].name, p.error));
        }
        cell := Some(p.value);
      }
      JoinOne(Frame, done, cell);
      PrependTwice(done, [cell], UdtCells(fields, i + 1));
      buf, done := buf + Frame(cell), done + [cell];
    }
    NothingLeft(done);
    assert [] + buf == buf;
    return Ok(buf);
  }

  method SerializeSequence(values: seq<CqlValue>) returns (r: Result<Bytes, Error>)
    ensures r == Payload(ListValue(None, values))
    decreases values, 0
  {
    if |values| > I32_MAX {
      return Err(TooManyElements);
    }
    var buf := Be32(|values|);
    ghost var done: seq<Option<Bytes>> := [];
    PrependNothing(SequenceCells(values, 0));
    for i := 0 to |values|
      invariant buf == Be32(|values|) + Join(Frame, done) && |done| == i
      invariant SequenceCells(values, 0) == Prepend(done, SequenceCells(values, i))
    {
      var p := SerializeCell(values[i]);
      if p.Err? {
        return Err(InSequence(p.error));
      }
      var cell := Some(p.value);
      JoinOne(Frame, done, cell);
      PrependTwice(done, [cell], SequenceCells(values, i + 1));
      buf, done := buf + Frame(cell), done + [cell];
    }
    NothingLeft(done);
    return Ok(buf);
  }

  lemma JoinPair(done: seq<Option<Bytes>>, key: Option<Bytes>, val: Option<Bytes>)
    ensures Join(Frame, done + [key, val]) == Join(Frame, done) + Frame(key) + Frame(val)
  {
    JoinOne(Frame, done, key);
    JoinOne(Frame, done + [key], val);
    assert done + [key] + [val] == done + [key, val];
  }

  method SerializeMapping(entries: seq<Pair>) returns (r: Result<Bytes, Error>)
    ensures r == Payload(MapValue(None, entries))
    decreases entries, 0
  {
    if |entries| > I32_MAX {
      return Err(TooManyElements);
    }
    var buf := Be32(|entries|);
    ghost var done: seq<Option<Bytes>> := [];
    PrependNothing(MapCells(entries, 0));
    for i := 0 to |entries|
      invariant buf == Be32(|entries|) + Join(Frame, done)
      invariant MapCells(entries, 0) == Prepend(done, MapCells(entries, i))
    {
      assert entries decreases to entries[i];
      var k := SerializeCell(entries[i].key);
      if k.Err? {
        return Err(InKey(k.error));
      }
      var p := SerializeCell(entries[i].val);
      if p.Err? {
        return Err(InValue(p.error));
      }
      var key, val := Some(k.value), Some(p.value);
      JoinPair(done, key, val);
      PrependTwice(done, [key, val], MapCells(entries, i + 1));
      buf, done := buf + Frame(key) + Frame(val), done + [key, val];
    }
    NothingLeft(done);
    return Ok(buf);
  }

  method SerializeVector(elem: DataType, slots: seq<Option<CqlValue>>) returns (r: Result<Bytes, Error>)
    ensures r == (var parts := VectorParts(slots, 0);
                  if parts.Err? then Err(parts.error) else Ok(JoinParts(UsesVariableLength(elem), parts.value)))
    decreases slots, 0
  {
    var variableLength := UsesVariableLength(elem);
    var buf: Bytes := [];
    ghost var done: seq<Bytes> := [];
    PrependNothing(VectorParts(slots, 0));
    for i := 0 to |slots|
      invariant buf == JoinParts(variableLength, done)
      invariant VectorParts(slots, 0) == Prepend(done, VectorParts(slots, i))
    {
      if slots[i].None? {
        return Err(InVector(ElementNotSet(i)));
      }
      assert slots decreases to slots[i];
      var p := DoSerialize(slots[i].value);
      if p.Err? {
        return Err(InVector(p.error));
      }
      PrependTwice(done, [p.value], VectorParts(slots, i + 1));
      if variableLength {
        JoinOne(Prefixed, done, p.value);
        buf := buf + Prefixed(p.value);
      } else {
        JoinOne(Raw, done, p.value);
        buf := buf + p.value;
      }
      done := done + [p.value];
    }
    NothingLeft(done);
    return Ok(buf);
  }
}
