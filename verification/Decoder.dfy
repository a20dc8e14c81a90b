/** common/buffer.c, and the receive loop that child_process_remote and client_process_remote share. */
module Decoder {
  import opened Bytes
  import opened Message

  /** sizeof(buffer_t::buffer) */
  const CAPACITY := 65536

  datatype Reply<+S> = Reply(state: S, ok: bool)

  /** What a side does with one frame: child_execute or client_dispatch_remote. */
  type Dispatcher<!S> = (S, Frame) -> Reply<S>

  /** The dispatchers' own length checks refuse every frame below sizeof(message_t). */
  ghost predicate RefusesEmpty<S(!new)>(d: Dispatcher<S>) {
    forall s: S, f: Frame | f.body == [] :: !d(s, f).ok
  }

  datatype Drained<+S> = Drained(state: S, rest: bytes, ok: bool)

  /** The loop of child_process_remote / client_process_remote over all the bytes at hand: hand out
      frames while a whole one is at the front. A refused frame stays at the front. */
  ghost function Drain<S(!new)>(d: Dispatcher<S>, s: S, b: bytes): (r: Drained<S>)
    requires RefusesEmpty(d)
    decreases |b|
  {
    if !HasFrame(b) then
      Drained(s, b, true)
    else
      var reply := d(s, Front(b));
      if !reply.ok then
        Drained(reply.state, b, false)
      else
        Drain(d, reply.state, b[Length(b)..])
  }

  /** Progress and room: each dispatched frame takes at least SMALLEST bytes off the buffer, and what
      waits for more bytes leaves at least two free, so the next read never asks for zero bytes. */
  lemma {:induction false} DrainLeavesRoom<S(!new)>(d: Dispatcher<S>, s: S, b: bytes)
    requires RefusesEmpty(d)
    ensures var r := Drain(d, s, b);
            if r.ok then !HasFrame(r.rest) && |r.rest| <= CAPACITY - 2 else HasFrame(r.rest)
    ensures HasFrame(b) && d(s, Front(b)).ok ==> |Drain(d, s, b).rest| <= |b| - SMALLEST
    decreases |b|
  {
    if HasFrame(b) && d(s, Front(b)).ok {
      DrainLeavesRoom(d, d(s, Front(b)).state, b[Length(b)..]);
    }
  }

  /** Draining a longer stream is draining its start and then what is left together with the rest. */
  lemma {:induction false} DrainSplit<S(!new)>(d: Dispatcher<S>, s: S, a: bytes, b: bytes)
    requires RefusesEmpty(d)
    ensures Drain(d, s, a).ok ==>
              Drain(d, s, a + b) == Drain(d, Drain(d, s, a).state, Drain(d, s, a).rest + b)
    ensures !Drain(d, s, a).ok ==>
              Drain(d, s, a + b) == Drained(Drain(d, s, a).state, Drain(d, s, a).rest + b, false)
    decreases |a|
  {
    if HasFrame(a) {
      FrontStable(a, b);
      var reply := d(s, Front(a));
      if reply.ok {
        assert (a + b)[Length(a)..] == a[Length(a)..] + b;
        DrainSplit(d, reply.state, a[Length(a)..], b);
      }
    }
  }

  lemma FrontStable(a: bytes, b: bytes)
    requires HasFrame(a)
    ensures HasFrame(a + b) && Front(a + b) == Front(a) && Length(a + b) == Length(a)
  {
    assert Length(a) >= HEADER ==> (a + b)[HEADER..Length(a)] == a[HEADER..Length(a)];
  }

  function Concat(chunks: seq<bytes>): bytes {
    if chunks == [] then [] else chunks[0] + Concat(chunks[1..])
  }

  /** What a receiver does over its life: read a chunk behind the residue, drain, read again; after a
      refused frame it reads no more. */
  ghost function Receive<S(!new)>(d: Dispatcher<S>, s: S, residue: bytes, chunks: seq<bytes>)
    : (r: Drained<S>)
    requires RefusesEmpty(d)
    decreases |chunks|
  {
    if chunks == [] then
      Drained(s, residue, true)
    else
      var r := Drain(d, s, residue + chunks[0]);
      if r.ok then Receive(d, r.state, r.rest, chunks[1..])
      else r
  }

  /** Chunk independence: however a stream is cut into reads, the receiver dispatches what one pass
      over the whole stream dispatches, ends in the same state with the same verdict, and holds the
      same unparsed bytes (when refused: those read so far). */
  lemma {:induction false} ChunkIndependence<S(!new)>(
    d: Dispatcher<S>, s: S, residue: bytes, chunks: seq<bytes>)
    requires RefusesEmpty(d) && !HasFrame(residue)
    ensures var piecewise := Receive(d, s, residue, chunks);
            var whole := Drain(d, s, residue + Concat(chunks));
            && piecewise.state == whole.state
            && piecewise.ok == whole.ok
            && (if whole.ok then piecewise.rest == whole.rest else piecewise.rest <= whole.rest)
    decreases |chunks|
  {
    if chunks == [] {
      assert residue + Concat(chunks) == residue;
    } else {
      var a, b := residue + chunks[0], Concat(chunks[1..]);
      assert residue + Concat(chunks) == a + b;
      var first := Drain(d, s, a);
      DrainSplit(d, s, a, b);
      if first.ok {
        DrainLeavesRoom(d, s, a);
        ChunkIndependence(d, first.state, first.rest, chunks[1..]);
      }
    }
  }

  /** buffer_t: a fixed block whose first buflen bytes are unparsed input. */
  class FrameBuffer {
    const buffer: array<byte>
    var buflen: nat

    ghost predicate Valid()
      reads this
    {
      buffer.Length == CAPACITY && buflen <= CAPACITY
    }

    ghost function Contents(): bytes
      requires Valid()
      reads this, buffer
    {
      buffer[..buflen]
    }

    /** buffer_initialize */
    constructor ()
      ensures Valid() && fresh(buffer) && Contents() == []
    {
      buffer := new byte[CAPACITY];
      buflen := 0;
    }

    /** buffer_get_buffer_space. */
    method GetBufferSpace() returns (space: nat)
      requires Valid()
      ensures space + |Contents()| == CAPACITY
    {
      space := CAPACITY - buflen;
    }

    /** read(2) into buffer_get_buffer and then buffer_push_buffer: the bytes arrive behind the ones
        already held. */
    method PushBuffer(chunk: bytes)
      requires Valid() && |Contents()| + |chunk| <= CAPACITY
      modifies this, buffer
      ensures Valid() && Contents() == old(Contents()) + chunk
    {
      ghost var before := Contents();
      forall i | 0 <= i < |chunk| {
        buffer[buflen + i] := chunk[i];
      }
      assert buffer[..buflen] == before;
      assert buffer[buflen..buflen + |chunk|] == chunk;
      assert buffer[..buflen + |chunk|] == buffer[..buflen] + buffer[buflen..buflen + |chunk|];
      buflen := buflen + |chunk|;
    }

    /** m->length of the frame header at the front. */
    method FrontLength() returns (length: nat)
      requires Valid() && |Contents()| >= SMALLEST
      ensures length == Length(Contents())
    {
      length := buffer[2] as int + 256 * buffer[3] as int;
    }

    /** buffer_get_message: 0 with a frame at the front, 1 while it is not complete. */
    method GetMessage() returns (ret: int)
      requires Valid()
      ensures ret == if HasFrame(Contents()) then 0 else 1
    {
      if buflen < SMALLEST {
        return 1;
      }
      var length := FrontLength();
      if length > buflen {
        return 1;
      }
      return 0;
    }

    /** buffer_consume_message: memmove of the bytes behind the frame to the front. */
    method ConsumeMessage()
      requires Valid() && HasFrame(Contents())
      modifies this, buffer
      ensures Valid() && Contents() == old(Contents()[Length(Contents())..])
    {
      var length := FrontLength();
      if length == buflen {
        buflen := 0;
        return;
      }
      ghost var tail := buffer[length..buflen];
      forall i | 0 <= i < buflen - length {
        buffer[i] := buffer[length + i];
      }
      assert buffer[..buflen - length] == tail;
      buflen := buflen - length;
      assert old(Contents())[length..] == tail;
    }
  }
}
