/**
 RingBuffer::peek_multiple (src/ring_buffer.hpp): the readable chunks from a position to the write
 head, following the ring of buffers.
 */
module RingBuffer {

  import opened Prelude

  class Buffer {
    var readPos: nat
    var writePos: nat
    var next: Buffer?
    const data: array<byte>

    constructor (length: nat)
      ensures readPos == 0 && writePos == 0 && next == null && data.Length == length
    {
      readPos, writePos, next := 0, 0, null;
      data := new byte[length](_ => 0);
    }
  }

  /** A pointer into a buffer and a length (uv_buf_t). */
  datatype Chunk = Chunk(buf: Buffer, base: nat, len: nat)

  /** The buffers from `path[0]` along `next` to the first occurrence of the write head. */
  ghost predicate Leads(path: seq<Buffer>, writeHead: Buffer)
    reads path
  {
    && path != [] && path[|path| - 1] == writeHead
    && forall i | 0 <= i < |path| - 1 :: path[i] != writeHead && path[i].next == path[i + 1]
  }

  // What a buffer holds, apart from the heap

  datatype View = View(data: seq<byte>, readPos: nat, writePos: nat)

  ghost predicate Shows(path: seq<Buffer>, views: seq<View>)
    reads path, set b | b in path :: b.data
  {
    && |views| == |path|
    && forall i | 0 <= i < |path| :: views[i] == View(path[i].data[..], path[i].readPos, path[i].writePos)
  }

  /** Where reading starts: at the position in the first buffer, at the read position in the others. */
  function Base(views: seq<View>, pos: nat, i: nat): nat
    requires i < |views|
  {
    if i == 0 then pos else views[i].readPos
  }

  /** Reading positions do not pass write positions. */
  predicate Filled(views: seq<View>, pos: nat) {
    forall i | 0 <= i < |views| :: Base(views, pos, i) <= views[i].writePos <= |views[i].data|
  }

  /** The bytes from the position to the write position of the `k`th buffer. */
  function Readable(views: seq<View>, pos: nat, k: nat): seq<byte>
    requires k <= |views| && Filled(views, pos)
  {
    if k == 0 then []
    else Readable(views, pos, k - 1) + views[k - 1].data[Base(views, pos, k - 1)..views[k - 1].writePos]
  }

  ghost predicate InBounds(chunks: seq<Chunk>) {
    forall i | 0 <= i < |chunks| :: chunks[i].base + chunks[i].len <= chunks[i].buf.data.Length
  }

  /** The bytes the chunks point to. */
  ghost function Bytes(chunks: seq<Chunk>): seq<byte>
    reads set c | c in chunks :: c.buf.data
    requires InBounds(chunks)
  {
    if chunks == [] then [] else
    var last := chunks[|chunks| - 1];
    Bytes(chunks[..|chunks| - 1]) + last.buf.data[last.base..last.base + last.len]
  }

  ghost predicate ChunksOf(chunks: seq<Chunk>, path: seq<Buffer>, views: seq<View>, pos: nat) {
    && |chunks| <= |path| == |views|
    && forall i | 0 <= i < |chunks| ::
         && chunks[i].buf == path[i] && chunks[i].base == Base(views, pos, i)
         && chunks[i].base + chunks[i].len == views[i].writePos
  }

  lemma {:induction false} BytesAreReadable(chunks: seq<Chunk>, path: seq<Buffer>, views: seq<View>, pos: nat)
    requires Shows(path, views) && Filled(views, pos) && ChunksOf(chunks, path, views, pos)
    ensures InBounds(chunks) && Bytes(chunks) == Readable(views, pos, |chunks|)
    decreases |chunks|
  {
    forall i | 0 <= i < |chunks| ensures chunks[i].base + chunks[i].len <= chunks[i].buf.data.Length {
      assert views[i].data == path[i].data[..];
    }
    if chunks != [] {
      var k := |chunks| - 1;
      BytesAreReadable(chunks[..k], path, views, pos);
      var c := chunks[k];
      assert c.buf.data[c.base..c.base + c.len] == views[k].data[c.base..views[k].writePos];
    }
  }

  lemma OneMoreChunk(chunks: seq<Chunk>, path: seq<Buffer>, views: seq<View>, pos: nat, c: Chunk)
    requires Filled(views, pos) && ChunksOf(chunks, path, views, pos) && |chunks| < |path|
    requires c.buf == path[|chunks|] && c.base == Base(views, pos, |chunks|) && c.base + c.len == views[|chunks|].writePos
    ensures ChunksOf(chunks + [c], path, views, pos)
    ensures |Readable(views, pos, |chunks| + 1)| == |Readable(views, pos, |chunks|)| + c.len
  {
  }

  lemma StepOn(path: seq<Buffer>, writeHead: Buffer, k: nat)
    requires Leads(path, writeHead) && k < |path| && path[k] != writeHead
    ensures k + 1 < |path| && path[k].next == path[k + 1]
  {
  }

  /** The chunks are the readable bytes up to the write head, in order. */
  method PeekMultiple(writeHead: Buffer, buf: Buffer, pos: nat, bufs: seq<Chunk>,
                      ghost path: seq<Buffer>, ghost views: seq<View>)
    returns (total: nat, result: seq<Chunk>)
    requires Leads(path, writeHead) && path[0] == buf && Shows(path, views) && Filled(views, pos)
    ensures bufs <= result && |result| == |bufs| + |path|
    ensures InBounds(result[|bufs|..]) && Bytes(result[|bufs|..]) == Readable(views, pos, |path|)
    ensures total == |Readable(views, pos, |path|)|
  {
    var current: Buffer, offset := buf, pos;
    total, result := 0, bufs;
    ghost var k, chunks: seq<Chunk> := 0, [];
    while true
      invariant k < |path| && path[k] == current && offset == Base(views, pos, k)
      invariant |chunks| == k && result == bufs + chunks && ChunksOf(chunks, path, views, pos)
      invariant total == |Readable(views, pos, k)|
      decreases |path| - k
    {
      assert views[k].writePos == current.writePos;
      var len := current.writePos - offset;
      OneMoreChunk(chunks, path, views, pos, Chunk(current, offset, len));
      result := result + [Chunk(current, offset, len)];
      chunks := chunks + [Chunk(current, offset, len)];
      total := total + len;
      k := k + 1;
      if current == writeHead {
        break;
      }
      StepOn(path, writeHead, k - 1);
      current := current.next;
      offset := current.readPos;
    }
    BytesAreReadable(chunks, path, views, pos);
    assert result[|bufs|..] == chunks;
  }
}
