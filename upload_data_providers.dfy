/**
 * The byte-buffer upload provider: an UploadDataProvider that hands the bytes of
 * one buffer to the network stack, one caller-supplied destination buffer at a time.
 * Buffers follow java.nio.ByteBuffer: a fixed backing array with `position` and
 * `limit` cursors, where the bytes still to be transferred are `data[position..limit]`.
 */
module UploadDataProviders {
  import opened Wrappers

  newtype byte = b: int | 0 <= b < 256

  function Min(a: int, b: int): int
  {
    if a <= b then a else b
  }

  /** `s` with the bytes of `w` written over it from index `at` on. */
  function Overwrite(s: seq<byte>, at: nat, w: seq<byte>): (r: seq<byte>)
    requires at + |w| <= |s|
    ensures |r| == |s|
    ensures r[..at] == s[..at]
    ensures r[at..at + |w|] == w
    ensures r[at + |w|..] == s[at + |w|..]
  {
    seq(|s|, k requires 0 <= k < |s| => if at <= k < at + |w| then w[k - at] else s[k])
  }

  /**
   * The bytes one read hands over: as many of `bytes[pos..]` as fit into a
   * destination with `room` bytes remaining.
   */
  function Chunk(bytes: seq<byte>, pos: nat, room: nat): (r: seq<byte>)
    requires pos <= |bytes|
    ensures |r| <= room && pos + |r| <= |bytes|
    ensures r == bytes[pos..pos + |r|]
    ensures |r| == room || pos + |r| == |bytes|
  {
    bytes[pos..pos + Min(room, |bytes| - pos)]
  }

  /** A java.nio.ByteBuffer over a fixed backing array. */
  class ByteBuffer {
    const data: array<byte>
    var position: nat
    var limit: nat

    ghost predicate Valid()
      reads this
    {
      position <= limit <= data.Length
    }

    /** The number of bytes between the cursors, `remaining()`. */
    function Remaining(): (n: nat)
      reads this
      requires Valid()
      ensures position + n == limit
    {
      limit - position
    }

    /** `ByteBuffer.wrap(bytes)`: position 0, limit and capacity the length of `bytes`. */
    constructor Wrap(bytes: seq<byte>)
      ensures Valid() && fresh(data)
      ensures data[..] == bytes && position == 0 && limit == |bytes|
    {
      data := new byte[|bytes|](k requires 0 <= k < |bytes| => bytes[k]);
      position, limit := 0, |bytes|;
    }

    /** `limit(newLimit)`: a position beyond the new limit is pulled back to it. */
    method SetLimit(newLimit: nat)
      requires Valid() && newLimit <= data.Length
      modifies this
      ensures Valid()
      ensures limit == newLimit && position == Min(old(position), newLimit)
    {
      limit := newLimit;
      if position > newLimit {
        position := newLimit;
      }
    }

    /** `position(newPosition)`. */
    method SetPosition(newPosition: nat)
      requires Valid() && newPosition <= limit
      modifies this
      ensures Valid()
      ensures position == newPosition && limit == old(limit)
    {
      position := newPosition;
    }

    /**
     * `put(src)`: moves all of `src`'s remaining bytes to this buffer's position
     * and advances both positions by their number. When they do not fit, it
     * reports an overflow (BufferOverflowException) and changes nothing.
     */
    method Put(src: ByteBuffer) returns (overflow: bool)
      requires Valid() && src.Valid()
      requires src != this && src.data != data
      modifies this`position, data, src`position
      ensures Valid() && src.Valid()
      ensures overflow == (old(src.Remaining()) > old(Remaining()))
      ensures overflow ==>
        position == old(position) && src.position == old(src.position) && data[..] == old(data[..])
      ensures !overflow ==>
        && position == old(position) + old(src.Remaining())
        && src.position == src.limit
        && data[..] == Overwrite(old(data[..]), old(position), src.data[old(src.position)..src.limit])
    {
      var n := src.limit - src.position;
      if n > limit - position {
        return true;
      }
      overflow := false;
      var i := 0;
      while i < n
        invariant 0 <= i <= n
        invariant position == old(position) && src.position == old(src.position)
        invariant forall k :: 0 <= k < data.Length ==>
          data[k] == if position <= k < position + i then src.data[src.position + k - position] else old(data[k])
      {
        data[position + i] := src.data[src.position + i];
        i := i + 1;
      }
      assert data[..] == Overwrite(old(data[..]), position, src.data[src.position..src.limit]);
      position := position + n;
      src.position := src.position + n;
    }
  }

  /** What the provider reports to its UploadDataSink. */
  datatype SinkEvent = ReadSucceeded(finalChunk: bool) | RewindSucceeded

  /** An UploadDataSink, observed only through the callbacks it receives, in order. */
  class UploadDataSink {
    var events: seq<SinkEvent>

    constructor ()
      ensures events == []
    {
      events := [];
    }

    method OnReadSucceeded(finalChunk: bool)
      modifies this
      ensures events == old(events) + [ReadSucceeded(finalChunk)]
    {
      events := events + [ReadSucceeded(finalChunk)];
    }

    method OnRewindSucceeded()
      modifies this
      ensures events == old(events) + [RewindSucceeded]
    {
      events := events + [RewindSucceeded];
    }
  }

  datatype ProviderError = IllegalState(message: string)

  const NoBytesRemaining := "Cronet passed a buffer with no bytes remaining"

  /** Uploads the bytes of one ByteBuffer. */
  class ByteBufferUploadProvider {
    const uploadBuffer: ByteBuffer
    /** The bytes to upload: those of the buffer up to its limit when the provider was made. */
    ghost const bytes: seq<byte>
    /** Everything delivered by reads since the provider was made or last rewound. */
    ghost var sent: seq<byte>

    ghost predicate Valid()
      reads this, uploadBuffer, uploadBuffer.data
    {
      && uploadBuffer.Valid()
      && uploadBuffer.limit == |bytes|
      && uploadBuffer.data[..|bytes|] == bytes
      && sent == bytes[..uploadBuffer.position]
    }

    constructor (buffer: ByteBuffer)
      requires buffer.Valid() && buffer.position == 0
      ensures Valid() && uploadBuffer == buffer
      ensures bytes == buffer.data[..buffer.limit] && sent == []
    {
      uploadBuffer := buffer;
      bytes := buffer.data[..buffer.limit];
      sent := [];
    }

    /** `getLength()`: the size of the upload, which is the buffer's limit. */
    function GetLength(): (n: int)
      reads this, uploadBuffer, uploadBuffer.data
      requires Valid()
      ensures n == |bytes|
    {
      uploadBuffer.limit
    }

    /**
     * `read(sink, dest)`: copies as much of the remaining upload as fits into
     * `dest` and signals a non-final chunk; a `dest` with no room is refused.
     */
    method Read(sink: UploadDataSink, dest: ByteBuffer) returns (r: Outcome<ProviderError>)
      requires Valid() && dest.Valid()
      requires dest != uploadBuffer && dest.data != uploadBuffer.data
      modifies this`sent, uploadBuffer, dest`position, dest.data, sink
      ensures Valid() && dest.Valid()
      ensures dest.limit == old(dest.limit) && GetLength() == old(GetLength())
      ensures old(dest.Remaining()) == 0 ==>
        && r == Fail(IllegalState(NoBytesRemaining))
        && uploadBuffer.position == old(uploadBuffer.position) && sent == old(sent)
        && dest.position == old(dest.position) && dest.data[..] == old(dest.data[..])
        && sink.events == old(sink.events)
      ensures old(dest.Remaining()) > 0 ==>
        var chunk := Chunk(bytes, old(uploadBuffer.position), old(dest.Remaining()));
        && r == Pass
        && |chunk| == Min(old(dest.Remaining()), old(uploadBuffer.Remaining()))
        && uploadBuffer.position == old(uploadBuffer.position) + |chunk|
        && dest.position == old(dest.position) + |chunk|
        && dest.data[..] == Overwrite(old(dest.data[..]), old(dest.position), chunk)
        && sent == old(sent) + chunk
        && sink.events == old(sink.events) + [ReadSucceeded(false)]
    {
      if dest.limit - dest.position == 0 {
        return Fail(IllegalState(NoBytesRemaining));
      }
      ghost var from := uploadBuffer.position;
      CopyInto(dest);
      assert uploadBuffer.data[..|bytes|] == bytes;
      assert bytes[from..uploadBuffer.position] == uploadBuffer.data[from..uploadBuffer.position];
      sent := sent + bytes[from..uploadBuffer.position];
      assert bytes[..uploadBuffer.position] == bytes[..from] + bytes[from..uploadBuffer.position];
      sink.OnReadSucceeded(false);
      r := Pass;
    }

    /**
     * The copy step of `read`: all of the remaining upload when it fits into
     * `dest`, otherwise only as much as fits, by narrowing this buffer's limit
     * for the `put` and restoring it afterwards.
     */
    method CopyInto(dest: ByteBuffer)
      requires uploadBuffer.Valid() && dest.Valid()
      requires dest != uploadBuffer && dest.data != uploadBuffer.data
      modifies uploadBuffer, dest`position, dest.data
      ensures uploadBuffer.Valid() && dest.Valid()
      ensures uploadBuffer.limit == old(uploadBuffer.limit) && dest.limit == old(dest.limit)
      ensures var n := Min(old(dest.Remaining()), old(uploadBuffer.Remaining()));
        && uploadBuffer.position == old(uploadBuffer.position) + n
        && dest.position == old(dest.position) + n
        && dest.data[..] == Overwrite(old(dest.data[..]), old(dest.position),
                                      uploadBuffer.data[old(uploadBuffer.position)..uploadBuffer.position])
    {
      var overflow;
      if dest.limit - dest.position >= uploadBuffer.limit - uploadBuffer.position {
        overflow := dest.Put(uploadBuffer);
      } else {
        var oldLimit := uploadBuffer.limit;
        uploadBuffer.SetLimit(uploadBuffer.position + (dest.limit - dest.position));
        overflow := dest.Put(uploadBuffer);
        uploadBuffer.SetLimit(oldLimit);
      }
      assert !overflow;
    }

    /** `rewind(sink)`: the next read starts again from the first byte. */
    method Rewind(sink: UploadDataSink)
      requires Valid()
      modifies this`sent, uploadBuffer, sink
      ensures Valid()
      ensures uploadBuffer.position == 0 && sent == []
      ensures uploadBuffer.limit == old(uploadBuffer.limit) && GetLength() == old(GetLength())
      ensures sink.events == old(sink.events) + [RewindSucceeded]
    {
      uploadBuffer.SetPosition(0);
      sent := [];
      sink.OnRewindSucceeded();
    }
  }

  /** `UploadDataProviders.create(data)`, with `data` already encoded as UTF-8 bytes. */
  method Create(data: seq<byte>) returns (p: ByteBufferUploadProvider)
    ensures p.Valid() && fresh(p) && fresh(p.uploadBuffer) && fresh(p.uploadBuffer.data)
    ensures p.bytes == data && p.sent == []
    ensures p.uploadBuffer.position == 0 && p.GetLength() == |data|
  {
    var buffer := new ByteBuffer.Wrap(data);
    p := new ByteBufferUploadProvider(buffer);
  }

  /**
   * The concatenation of what successive reads deliver, starting at `pos`, when
   * the destinations they are given have `rooms` bytes remaining; a read into a
   * destination with no room fails and delivers nothing.
   */
  function Deliveries(bytes: seq<byte>, pos: nat, rooms: seq<nat>): seq<byte>
    requires pos <= |bytes|
    decreases |rooms|
  {
    if rooms == [] then []
    else
      var c := Chunk(bytes, pos, rooms[0]);
      c + Deliveries(bytes, pos + |c|, rooms[1..])
  }

  function Sum(rooms: seq<nat>): nat
  {
    if rooms == [] then 0 else rooms[0] + Sum(rooms[1..])
  }

  /**
   * Successive reads from `pos` deliver the upload in order, with nothing skipped
   * or repeated: what they deliver is exactly the next bytes of the upload, as many
   * as the destinations had room for, up to the end.
   */
  lemma {:induction false} DeliveriesAreNextBytes(bytes: seq<byte>, pos: nat, rooms: seq<nat>)
    requires pos <= |bytes|
    decreases |rooms|
    ensures |Deliveries(bytes, pos, rooms)| == Min(Sum(rooms), |bytes| - pos)
    ensures Deliveries(bytes, pos, rooms) == bytes[pos..pos + |Deliveries(bytes, pos, rooms)|]
  {
    if rooms != [] {
      var c := Chunk(bytes, pos, rooms[0]);
      DeliveriesAreNextBytes(bytes, pos + |c|, rooms[1..]);
      var rest := Deliveries(bytes, pos + |c|, rooms[1..]);
      assert bytes[pos..pos + |c| + |rest|] == bytes[pos..pos + |c|] + bytes[pos + |c|..pos + |c| + |rest|];
    }
  }

  /** One `read` into a fresh destination with `room` bytes of room. */
  method ReadIntoFresh(p: ByteBufferUploadProvider, sink: UploadDataSink, room: nat)
    requires p.Valid()
    modifies p`sent, p.uploadBuffer, sink
    ensures p.Valid()
    ensures var chunk := Chunk(p.bytes, old(p.uploadBuffer.position), room);
      p.sent == old(p.sent) + chunk && p.uploadBuffer.position == old(p.uploadBuffer.position) + |chunk|
  {
    var dest := new ByteBuffer.Wrap(seq(room, _ => 0 as byte));
    var _ := p.Read(sink, dest);
  }

  /** Sending one more read's chunk keeps what is sent plus what is still to come fixed. */
  lemma DeliveriesInvariantStep(sent: seq<byte>, bytes: seq<byte>, pos: nat, rooms: seq<nat>, i: nat, goal: seq<byte>)
    requires pos <= |bytes| && i < |rooms|
    requires sent + Deliveries(bytes, pos, rooms[i..]) == goal
    ensures var chunk := Chunk(bytes, pos, rooms[i]);
      (sent + chunk) + Deliveries(bytes, pos + |chunk|, rooms[i + 1..]) == goal
  {
    var chunk := Chunk(bytes, pos, rooms[i]);
    assert rooms[i..][1..] == rooms[i + 1..];
    assert Deliveries(bytes, pos, rooms[i..]) == chunk + Deliveries(bytes, pos + |chunk|, rooms[i + 1..]);
  }

  /**
   * Reads into fresh destinations with `rooms` bytes of room each, in order:
   * what they send is `Deliveries` from the current position.
   */
  method ReadEach(p: ByteBufferUploadProvider, sink: UploadDataSink, rooms: seq<nat>)
    requires p.Valid()
    modifies p`sent, p.uploadBuffer, sink
    ensures p.Valid()
    ensures p.sent == old(p.sent) + Deliveries(p.bytes, old(p.uploadBuffer.position), rooms)
  {
    ghost var start, from := p.sent, p.uploadBuffer.position;
    assert rooms[0..] == rooms;
    for i := 0 to |rooms|
      invariant p.Valid()
      invariant p.sent + Deliveries(p.bytes, p.uploadBuffer.position, rooms[i..]) ==
        start + Deliveries(p.bytes, from, rooms)
    {
      DeliveriesInvariantStep(p.sent, p.bytes, p.uploadBuffer.position, rooms, i, start + Deliveries(p.bytes, from, rooms));
      ReadIntoFresh(p, sink, rooms[i]);
    }
    assert rooms[|rooms|..] == [];
  }

  /**
   * Rewinds `p` and then reads into fresh destinations with `rooms` bytes of
   * room each: what the reads send is `Deliveries(p.bytes, 0, rooms)`, and the
   * whole upload when the rooms add up to its length.
   */
  method ReadAllAfterRewind(p: ByteBufferUploadProvider, sink: UploadDataSink, rooms: seq<nat>)
    requires p.Valid()
    modifies p`sent, p.uploadBuffer, sink
    ensures p.Valid()
    ensures p.sent == Deliveries(p.bytes, 0, rooms)
    ensures Sum(rooms) >= |p.bytes| ==> p.sent == p.bytes
  {
    p.Rewind(sink);
    ReadEach(p, sink, rooms);
    if Sum(rooms) >= |p.bytes| {
      ReplayAfterRewind(p.bytes, rooms);
    }
  }

  /**
   * After a rewind, reads into destinations with room for the whole upload in
   * total re-deliver the upload exactly.
   */
  lemma ReplayAfterRewind(bytes: seq<byte>, rooms: seq<nat>)
    requires Sum(rooms) >= |bytes|
    ensures Deliveries(bytes, 0, rooms) == bytes
  {
    DeliveriesAreNextBytes(bytes, 0, rooms);
  }
}
