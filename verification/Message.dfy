/** common/message.h: the packed frames both wires carry. */
module Message {
  import opened Bytes

  const FORK_SOCKET := 0
  const FORK_PIPE := 1
  const FORK_TTY := 2
  const WINSIZE := 3
  const STDIN := 4
  const STDOUT := 5
  const STDERR := 6
  const STATUS := 7

  /** Bytes of the type and length fields. */
  const HEADER := 4
  /** sizeof(message_t): the header and one byte of body. */
  const SMALLEST := 5
  /** sizeof(struct termios), sizeof(struct winsize) and sizeof(int) on LP64 Linux. */
  const TERMIOS_BYTES := 60
  const WINSIZE_BYTES := 8
  const STATUS_BYTES := 4

  /** sizeof the local buffer a relay assembles its frame in. */
  const RELAY_BUFFER := 8192

  /** Most a relay read asks for: sizeof(buffer) - sizeof(msg) + 1, where msg is an 8-byte pointer. */
  const RELAY_READ := 8185

  datatype RawFrame = Frame(kind: nat, body: bytes)

  /** A frame whose fields fit the two uint16_t of its header. */
  type Frame = f: RawFrame | f.kind < 0x1_0000 && HEADER + |f.body| < 0x1_0000
    witness Frame(0, [])

  function Encode(f: Frame): (b: bytes)
    ensures |b| == HEADER + |f.body|
  {
    U16(f.kind) + U16(HEADER + |f.body|) + f.body
  }

  /** A message assembled in a local buffer, as every sender does it: the two header fields, and the
      body behind them. */
  method Assemble(buffer: array<byte>, kind: byte, data: bytes)
    requires HEADER + |data| <= buffer.Length && HEADER + |data| < 0x1_0000
    modifies buffer
    ensures buffer[..HEADER + |data|] == Encode(Frame(kind, data))
  {
    var length := HEADER + |data|;
    forall i | 0 <= i < |data| {
      buffer[HEADER + i] := data[i];
    }
    buffer[0], buffer[1] := kind, 0;
    buffer[2], buffer[3] := length % 256, length / 256;
    assert buffer[..HEADER] == U16(kind) + U16(length);
    assert buffer[HEADER..length] == data;
    assert buffer[..length] == buffer[..HEADER] + buffer[HEADER..length];
  }

  function EncodeAll(fs: seq<Frame>): bytes {
    if fs == [] then [] else Encode(fs[0]) + EncodeAll(fs[1..])
  }

  function Kind(b: bytes): nat
    requires |b| >= SMALLEST
  {
    ReadU16(b, 0)
  }

  /** The length field, which counts the header too. */
  function Length(b: bytes): (n: nat)
    requires |b| >= SMALLEST
    ensures n < 0x1_0000
  {
    ReadU16(b, 2)
  }

  /** A whole frame lies at the front of b: what buffer_get_message tests. */
  predicate HasFrame(b: bytes) {
    |b| >= SMALLEST && Length(b) <= |b|
  }

  /** The frame at the front. A length field below the header size leaves no body; the dispatchers
      treat it like an empty body. */
  function Front(b: bytes): (f: Frame)
    requires HasFrame(b)
  {
    Frame(Kind(b), if Length(b) < HEADER then [] else b[HEADER..Length(b)])
  }

  lemma HeaderOf(f: Frame, rest: bytes)
    requires |f.body| >= 1
    ensures var b := Encode(f) + rest;
            |b| >= SMALLEST && Kind(b) == f.kind && Length(b) == HEADER + |f.body|
  {
    var b := Encode(f) + rest;
    ReadWritten16(f.kind, [], U16(HEADER + |f.body|) + f.body + rest);
    assert b == [] + U16(f.kind) + (U16(HEADER + |f.body|) + f.body + rest);
    ReadWritten16(HEADER + |f.body|, U16(f.kind), f.body + rest);
    assert b == U16(f.kind) + U16(HEADER + |f.body|) + (f.body + rest);
  }

  /** An encoded frame is read back whatever follows it. */
  lemma DecodeEncoded(f: Frame, rest: bytes)
    requires |f.body| >= 1
    ensures var b := Encode(f) + rest;
            HasFrame(b) && Front(b) == f && Length(b) == |Encode(f)| && b[Length(b)..] == rest
  {
    HeaderOf(f, rest);
    var b := Encode(f) + rest;
    assert b[HEADER..Length(b)] == f.body;
  }

  /** Re-encoding a frame read from the wire gives the bytes it was read from. */
  lemma EncodeDecoded(b: bytes)
    requires HasFrame(b) && Length(b) >= HEADER
    ensures Encode(Front(b)) == b[..Length(b)]
    ensures Encode(Front(b)) + b[Length(b)..] == b
  {
    var e := Encode(Front(b));
    assert e[0] == b[0] && e[1] == b[1] && e[2] == b[2] && e[3] == b[3];
    assert e[HEADER..] == b[HEADER..Length(b)];
    assert e == e[..HEADER] + e[HEADER..];
    assert b[..Length(b)] == b[..HEADER] + b[HEADER..Length(b)];
  }

  lemma {:induction false} EncodeAllAppend(fs: seq<Frame>, gs: seq<Frame>)
    ensures EncodeAll(fs + gs) == EncodeAll(fs) + EncodeAll(gs)
  {
    if fs == [] {
      assert fs + gs == gs;
    } else {
      EncodeAllAppend(fs[1..], gs);
      assert (fs + gs)[1..] == fs[1..] + gs;
    }
  }

  lemma EncodeAllSnoc(fs: seq<Frame>, f: Frame)
    ensures EncodeAll(fs + [f]) == EncodeAll(fs) + Encode(f)
  {
    EncodeAllAppend(fs, [f]);
    assert [f][1..] == [];
  }

  /** A piece of a frame that a broken-off write leaves on the wire. */
  predicate Fragment(p: bytes) {
    !HasFrame(p)
  }

  lemma CutFrameIsFragment(f: Frame, n: nat)
    requires |f.body| >= 1 && n < |Encode(f)|
    ensures Fragment(Encode(f)[..n])
  {
    if n >= SMALLEST {
      HeaderOf(f, []);
      assert Encode(f) + [] == Encode(f);
      assert ReadU16(Encode(f)[..n], 2) == ReadU16(Encode(f), 2);
    }
  }

  ghost predicate AllHaveBodies(fs: seq<Frame>) {
    forall i | 0 <= i < |fs| :: |fs[i].body| >= 1
  }

  /** Of a stream of frames gs, some of it cut off anywhere, a whole frame at the front is gs[0]. */
  lemma NextFrame(b: bytes, gs: seq<Frame>, cut: bytes)
    requires AllHaveBodies(gs) && Fragment(cut) && b <= EncodeAll(gs) + cut && HasFrame(b)
    ensures gs != [] && Front(b) == gs[0]
  {
    var more := (EncodeAll(gs) + cut)[|b|..];
    var all := b + more;
    assert all == EncodeAll(gs) + cut;
    assert Length(all) == Length(b) && HasFrame(all);
    assert EncodeAll([]) + cut == cut;
    assert gs != [];
    var rest := EncodeAll(gs[1..]) + cut;
    assert all == Encode(gs[0]) + rest;
    DecodeEncoded(gs[0], rest);
    assert b[HEADER..Length(b)] == all[HEADER..Length(b)];
  }

  /** Unique decoding over a wire in flight: if the bytes one side has taken (whole frames fs and a
      residue) are a prefix of the bytes the other side has put (whole frames gs and a fragment),
      the frames are a prefix of the frames. */
  lemma {:induction false} FramesPrefix(fs: seq<Frame>, residue: bytes, gs: seq<Frame>, cut: bytes)
    requires AllHaveBodies(fs) && AllHaveBodies(gs) && Fragment(cut)
    requires EncodeAll(fs) + residue <= EncodeAll(gs) + cut
    ensures fs <= gs
  {
    if fs != [] {
      var taken := EncodeAll(fs[1..]) + residue;
      assert EncodeAll(fs) + residue == Encode(fs[0]) + taken;
      DecodeEncoded(fs[0], taken);
      NextFrame(Encode(fs[0]) + taken, gs, cut);
      var left := EncodeAll(gs[1..]) + cut;
      assert EncodeAll(gs) + cut == Encode(gs[0]) + left;
      SameRest(Encode(fs[0]), taken, left);
      FramesPrefix(fs[1..], residue, gs[1..], cut);
      assert fs == [fs[0]] + fs[1..] && gs == [gs[0]] + gs[1..];
    }
  }

  lemma SameRest(a: bytes, x: bytes, y: bytes)
    requires a + x <= a + y
    ensures x <= y
  {
    assert (a + x)[|a|..] == x && (a + y)[|a|..] == y;
  }

  /** The whole frames at the front of a byte stream, up to the first one without a body. */
  function FramesIn(b: bytes): (fs: seq<Frame>)
    decreases |b|
  {
    if HasFrame(b) && Length(b) >= SMALLEST then [Front(b)] + FramesIn(b[Length(b)..]) else []
  }

  lemma {:induction false} FramesInEncoded(fs: seq<Frame>, cut: bytes)
    requires AllHaveBodies(fs) && Fragment(cut)
    ensures FramesIn(EncodeAll(fs) + cut) == fs
  {
    if fs == [] {
      assert EncodeAll(fs) + cut == cut;
    } else {
      var rest := EncodeAll(fs[1..]) + cut;
      assert EncodeAll(fs) + cut == Encode(fs[0]) + rest;
      DecodeEncoded(fs[0], rest);
      FramesInEncoded(fs[1..], cut);
    }
  }

  /** The bodies of the frames of one kind, in order. */
  function Payload(fs: seq<Frame>, kind: nat): bytes {
    if fs == [] then [] else Share(fs[0], kind) + Payload(fs[1..], kind)
  }

  function Share(f: Frame, kind: nat): bytes {
    if f.kind == kind then f.body else []
  }

  lemma Associates(a: bytes, b: bytes, c: bytes)
    ensures a + (b + c) == (a + b) + c
  {
  }

  lemma {:induction false} PayloadAppend(fs: seq<Frame>, gs: seq<Frame>, kind: nat)
    ensures Payload(fs + gs, kind) == Payload(fs, kind) + Payload(gs, kind)
  {
    if fs == [] {
      assert fs + gs == gs;
    } else {
      PayloadAppend(fs[1..], gs, kind);
      assert (fs + gs)[0] == fs[0] && (fs + gs)[1..] == fs[1..] + gs;
      Associates(Share(fs[0], kind), Payload(fs[1..], kind), Payload(gs, kind));
    }
  }

  lemma PayloadSnoc(fs: seq<Frame>, f: Frame, kind: nat)
    ensures Payload(fs + [f], kind) == Payload(fs, kind) + Share(f, kind)
  {
    PayloadAppend(fs, [f], kind);
    assert Payload([f][1..], kind) == [];
  }

  /** How a guest is connected. */
  datatype Mode = Socket | Pipe | Tty

  predicate IsFork(f: Frame) {
    f.kind in {FORK_SOCKET, FORK_PIPE, FORK_TTY}
  }

  function ModeOf(f: Frame): Mode
    requires IsFork(f)
  {
    if f.kind == FORK_SOCKET then Socket else if f.kind == FORK_PIPE then Pipe else Tty
  }

  /** Bytes between the header and the env field of a fork frame. */
  function Preamble(mode: Mode): nat {
    if mode == Tty then TERMIOS_BYTES + WINSIZE_BYTES else 0
  }

  /** The window size a terminal fork frame or a window-size frame sets. */
  function SizeIn(f: Frame): bytes
    requires f.kind == WINSIZE || (f.kind == FORK_TTY && |f.body| >= TERMIOS_BYTES + WINSIZE_BYTES)
  {
    if f.kind == WINSIZE then f.body else f.body[TERMIOS_BYTES..TERMIOS_BYTES + WINSIZE_BYTES]
  }

  /** What a terminal is opened with: its settings and its size. */
  datatype Terminal = Terminal(termios: bytes, size: bytes)

  /** The terminal a fork frame asks for; none without one. */
  function TerminalIn(f: Frame): Terminal
    requires IsFork(f) && |f.body| >= Preamble(ModeOf(f))
  {
    if ModeOf(f) == Tty then Terminal(f.body[..TERMIOS_BYTES], SizeIn(f)) else Terminal([], [])
  }

  /** The last window size among the frames. */
  function LastSize(log: seq<Frame>): bytes {
    if log == [] then
      []
    else
      var f := log[|log| - 1];
      if f.kind == WINSIZE || (f.kind == FORK_TTY && |f.body| >= TERMIOS_BYTES + WINSIZE_BYTES) then
        SizeIn(f)
      else
        LastSize(log[..|log| - 1])
  }

  /** The fork frames among the frames, in order. */
  function Forks(log: seq<Frame>): seq<Frame> {
    if log == [] then
      []
    else
      var f := log[|log| - 1];
      Forks(log[..|log| - 1]) + if IsFork(f) then [f] else []
  }

  lemma NoBytesNoFrames(fs: seq<Frame>)
    ensures EncodeAll(fs) == [] <==> fs == []
  {
    if fs != [] {
      assert |EncodeAll(fs)| >= |Encode(fs[0])|;
    }
  }

  /** One direction of a connection: sent is whole frames and a fragment, received a prefix of it that
      was taken apart into frames and a residue. Then the frames taken are the first ones sent, and
      residue and wire hold exactly the others. */
  lemma Direction(log: seq<Frame>, residue: bytes, received: bytes, all: seq<Frame>, cut: bytes, sent: bytes)
    requires received == EncodeAll(log) + residue && sent == EncodeAll(all) + cut && received <= sent
    requires AllHaveBodies(log) && AllHaveBodies(all) && Fragment(cut)
    ensures log <= all
    ensures residue + sent[|received|..] == EncodeAll(all[|log|..]) + cut
  {
    FramesPrefix(log, residue, all, cut);
    var rest := Behind(log, all);
    EncodeAllAppend(log, rest);
    Reassociate(EncodeAll(log), EncodeAll(rest), cut);
    WhatIsLeft(EncodeAll(log), residue, EncodeAll(rest) + cut, received, sent);
  }

  function Behind(done: seq<Frame>, all: seq<Frame>): (rest: seq<Frame>)
    requires done <= all
    ensures all == done + rest && rest == all[|done|..]
  {
    all[|done|..]
  }

  lemma Reassociate(a: bytes, b: bytes, c: bytes)
    ensures (a + b) + c == a + (b + c)
  {
  }

  lemma WhatIsLeft(taken: bytes, residue: bytes, rest: bytes, received: bytes, sent: bytes)
    requires received == taken + residue && sent == taken + rest && received <= sent
    ensures residue + sent[|received|..] == rest
  {
    assert sent[|taken|..] == rest;
    assert rest[..|residue|] == sent[|taken|..|received|] == residue;
    assert rest[|residue|..] == sent[|received|..];
  }

  /** Conservation over one direction: the payload of all frames is that of the ones done followed by
      that of the ones in flight. */
  lemma PayloadInFlight(done: seq<Frame>, all: seq<Frame>, cut: bytes, flight: bytes, kind: nat)
    requires done <= all && AllHaveBodies(all) && Fragment(cut)
    requires flight == EncodeAll(all[|done|..]) + cut
    ensures Payload(all, kind) == Payload(done, kind) + Payload(FramesIn(flight), kind)
  {
    FramesInEncoded(all[|done|..], cut);
    assert all == done + all[|done|..];
    PayloadAppend(done, all[|done|..], kind);
  }

  /** Part of the next frame's body is still within the payload of all frames. */
  lemma PayloadWithin(done: seq<Frame>, next: Frame, more: seq<Frame>, sink: bytes)
    requires sink <= Payload(done, next.kind) + next.body
    ensures sink <= Payload(done + [next] + more, next.kind)
  {
    PayloadSnoc(done, next, next.kind);
    PayloadAppend(done + [next], more, next.kind);
  }
}
