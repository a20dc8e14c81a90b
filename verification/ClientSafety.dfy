/** What every step of a client keeps, and so what holds in every state any run can reach. */
module ClientSafety {
  import opened Bytes
  import opened Message
  import opened Client
  import opened Kernel
  import Decoder
  import ForkPayload
  import Runs

  /** The bytes read are the accepted frames and then the buffer. */
  ghost predicate InStream(c: Client) {
    && c.received == EncodeAll(c.core.log) + c.buf
    && |c.buf| <= Decoder.CAPACITY
    && AllHaveBodies(c.core.log)
    && (c.pc != Handle && !c.pc.Exited? ==> !HasFrame(c.buf))
  }

  /** One of the client's outputs has been given the bodies of its kind in order; only a client that a
      short write ended has written part of one more. */
  ghost predicate SinkOk(c: Client, sink: bytes, kind: nat) {
    var whole := Payload(c.core.log, kind);
    sink == whole
    || (Broken(c) && HasFrame(c.buf) && Front(c.buf).kind == kind
        && whole <= sink <= whole + Front(c.buf).body)
  }

  ghost predicate Sinks(c: Client) {
    SinkOk(c, c.core.out, STDOUT) && SinkOk(c, c.core.err, STDERR)
  }

  /** f is the request this client builds for its command line and environment. */
  ghost predicate IsRequest(c: Client, f: Frame)
    requires |c.termios| == TERMIOS_BYTES
  {
    exists size: bytes | |size| == WINSIZE_BYTES :: ForkFrame(c, size) == Some(f)
  }

  /** The frames behind the request: input, and window sizes of a terminal. */
  predicate Follows(mode: Mode, f: Frame) {
    || (f.kind == STDIN && 1 <= |f.body| <= RELAY_READ)
    || (f.kind == WINSIZE && |f.body| == WINSIZE_BYTES && mode == Tty)
  }

  /** A client's conversation: one fork request first, then only input and window sizes. */
  ghost predicate Conversation(c: Client)
    requires |c.termios| == TERMIOS_BYTES
  {
    && (c.slog == [] ==> c.pc == Starting || c.pc.Started? || c.pc.Exited?)
    && (c.pc == Starting || c.pc.Started? ==> c.slog == [])
    && (c.slog != [] ==> IsRequest(c, c.slog[0]))
    && (forall i | 1 <= i < |c.slog| :: Follows(c.mode, c.slog[i]))
  }

  /** The bytes written are whole frames, and the StdIn bodies are what was read from stdin; only after a
      failed call there may be a fragment behind the frames, and less of stdin in them. */
  ghost predicate OutStream(c: Client) {
    var whole := EncodeAll(c.slog);
    && whole <= c.sent
    && Fragment(c.sent[|whole|..])
    && (!Broken(c) ==> c.sent == whole)
    && Payload(c.slog, STDIN) <= c.typed
    && (!Broken(c) ==> Payload(c.slog, STDIN) == c.typed)
  }

  /** No resize is lost: the last size sent is the terminal's, or the flag is up, or the signal is
      pending - however resizes fall between TIOCGWINSZ, the write and clearing the flag. */
  ghost predicate NoLostResize(c: Client) {
    && (c.pc.Sized? || c.pc == Wrote ==> c.mode == Tty && c.sigwinch)
    && (c.mode == Tty ==>
          match c.pc
          case Starting => true
          case Exited(_, _) => true
          case Started(size) => size == c.term || c.winchPending
          case Sized(size) => size == c.term || c.winchPending
          case Wrote => LastSize(c.slog) == c.term || c.winchPending
          case _ => LastSize(c.slog) == c.term || c.sigwinch || c.winchPending)
  }

  function LastStatus(log: seq<Frame>): Status {
    if log == [] then
      Known(NO_STATUS)
    else
      var f := log[|log| - 1];
      if f.kind != STATUS then LastStatus(log[..|log| - 1])
      else if |f.body| < STATUS_BYTES then PastTheFrame
      else Known(ReadU32(f.body, 0))
  }

  /** The exit code: 255 unless the loop ended by itself, and then from the last status frame. */
  ghost predicate ExitOk(c: Client) {
    && c.core.status == LastStatus(c.core.log)
    && (c.pc.Exited? ==>
          c.pc.code == if c.pc.cause == LoopDone then ExitCode(c.core.status) else 255)
  }

  predicate NoStatus(log: seq<Frame>) {
    forall i | 0 <= i < |log| :: log[i].kind != STATUS
  }

  /** A status frame raises the termination flag, which is never taken back, and with it up the client finishes
      what it is at and leaves: it does not go to sleep, nor read from the session again. */
  ghost predicate Heeding(c: Client) {
    && (NoStatus(c.core.log) || c.core.sigterm)
    && (c.core.sigterm ==>
          c.pc in {Top, Handle, Input}
          || (c.pc.Exited? && c.pc.cause in {LoopDone, OsError, InputGone, RefusedFrame}))
    && (c.pc.Exited? && c.pc.cause == LoopDone ==> c.core.sigterm)
  }

  ghost predicate Safe(c: Client) {
    && WellSized(c) && InStream(c) && Sinks(c) && Conversation(c) && OutStream(c)
    && NoLostResize(c) && ExitOk(c) && Heeding(c)
  }

  lemma SafeAtStart(mode: Mode, argv: seq<CString>, environ: seq<CString>, termios: bytes, term: bytes)
    requires |termios| == TERMIOS_BYTES && |term| == WINSIZE_BYTES
    ensures Safe(Start(mode, argv, environ, termios, term))
  {
  }

  lemma PutKept(c: Client, f: Frame, wrote: int)
    requires c.sent == EncodeAll(c.slog) && |f.body| >= 1
    ensures var d := Put(c, f, wrote);
            && d == c.(sent := d.sent, slog := d.slog, pc := d.pc)
            && EncodeAll(d.slog) <= d.sent && Fragment(d.sent[|EncodeAll(d.slog)|..])
            && (if d.slog == c.slog then d.pc == Exited(OsError, 255)
                else d.slog == c.slog + [f] && d.pc == c.pc && d.sent == EncodeAll(d.slog))
  {
    EncodeAllSnoc(c.slog, f);
    var n := Clamp(wrote, |Encode(f)|);
    if n < |Encode(f)| {
      CutFrameIsFragment(f, n);
      assert (c.sent + Encode(f)[..n])[|c.sent|..] == Encode(f)[..n];
    }
  }

  /** Which fields the writing steps touch. */
  lemma PutTouches(c: Client, f: Frame, wrote: int)
    ensures var d := Put(c, f, wrote);
            && d == c.(sent := d.sent, slog := d.slog, pc := d.pc)
            && d.pc == (if wrote >= |Encode(f)| then c.pc else Exited(OsError, 255))
            && d.sent == c.sent + Written(Encode(f), wrote)
  {
  }

  lemma ExecuteTouches(c: Client, wrote: int)
    requires c.pc.Started? && WellSized(c)
    ensures var d := StepExecute(c, wrote);
            && d == c.(sent := d.sent, slog := d.slog, pc := d.pc)
            && d.sent == c.sent + (match ForkFrame(c, c.pc.size)
                                   case None => []
                                   case Some(f) => Written(Encode(f), wrote))
            && (d.pc == Top || d.pc == Exited(TooLong, 255) || d.pc == Exited(OsError, 255))
  {
    match ForkFrame(c, c.pc.size)
    case None =>
    case Some(f) => PutTouches(c.(pc := Top), f, wrote);
  }

  lemma SettleTouches(c: Client, r: Dispatched)
    requires HasFrame(c.buf) && c.pc == Handle
    ensures var d := Settle(c, r);
            && d == c.(core := r.core, buf := d.buf, pc := d.pc)
            && (d.pc.Exited? && d.pc.cause == RefusedFrame <==> r.verdict == Refused)
  {
  }

  /** The wires of one step: what was sent stays sent, only Read receives, only a handled frame is ever
      refused. */
  lemma Wires(c: Client, e: Event)
    requires WellSized(c) && Enabled(c, e)
    ensures var d := Next(c, e);
            && c.sent <= d.sent
            && d.received == (if e.Read? then c.received + e.chunk else c.received)
            && (d.pc.Exited? && d.pc.cause == RefusedFrame ==>
                  (c.pc.Exited? && c.pc.cause == RefusedFrame)
                  || (e.HandleFrame? && Dispatch(c.core, Front(c.buf), e.wrote).verdict == Refused))
  {
    match e
    case Execute(wrote) => ExecuteTouches(c, wrote);
    case WriteSize(wrote) => PutTouches(c.(pc := Wrote), Frame(WINSIZE, c.pc.size), wrote);
    case Type(data, wrote) => PutTouches(c.(typed := c.typed + data, pc := Top), Frame(STDIN, data), wrote);
    case HandleFrame(wrote) => SettleTouches(c, Dispatch(c.core, Front(c.buf), wrote));
    case Loop(_) =>
    case _ => PlainWires(c, e);
  }

  lemma PlainWires(c: Client, e: Event)
    requires WellSized(c) && Enabled(c, e) && IsPlain(e)
    ensures var d := Plain(c, e);
            && c.sent == d.sent && d.received == (if e.Read? then c.received + e.chunk else c.received)
            && (d.pc.Exited? && d.pc.cause == RefusedFrame ==> c.pc.Exited? && c.pc.cause == RefusedFrame)
  {
  }

  lemma LastSizeSnoc(log: seq<Frame>, f: Frame)
    ensures LastSize(log + [f])
         == if f.kind == WINSIZE || (f.kind == FORK_TTY && |f.body| >= TERMIOS_BYTES + WINSIZE_BYTES)
            then SizeIn(f) else LastSize(log)
  {
    assert (log + [f])[..|log|] == log;
  }

  /** What the request frame of a client looks like. */
  lemma RequestShape(c: Client, size: bytes)
    requires |c.termios| == TERMIOS_BYTES && |size| == WINSIZE_BYTES && ForkFrame(c, size).Some?
    ensures var f := ForkFrame(c, size).value;
            && IsFork(f) && ModeOf(f) == c.mode && |f.body| >= Preamble(c.mode) + 2
            && ForkPayload.Prepare(c.argv, c.environ, Offset(c.mode)) == Some(f.body[Preamble(c.mode)..])
            && (c.mode == Tty ==> SizeIn(f) == size && TerminalIn(f).termios == c.termios)
  {
  }

  /** Safety after a write. */
  lemma WrittenKept(c: Client, d: Client)
    requires Safe(c) && d == c.(sent := d.sent, typed := d.typed, slog := d.slog, pc := d.pc)
    requires Conversation(d) && OutStream(d) && NoLostResize(d) && WellSized(d) && Heeding(d)
    requires c.pc != Handle && !c.pc.Exited? && d.pc != Handle
    requires d.pc.Exited? ==> d.pc.cause != LoopDone && d.pc.code == 255
    ensures Safe(d)
  {
  }

  lemma ExecuteKept(c: Client, wrote: int)
    requires c.pc.Started? && Safe(c)
    ensures Safe(StepExecute(c, wrote))
  {
    ExecuteTouches(c, wrote);
    ExecuteSent(c, wrote);
    WrittenKept(c, StepExecute(c, wrote));
  }

  /** The request goes out whole as the first frame, or the client ends. */
  lemma ExecuteSent(c: Client, wrote: int)
    requires c.pc.Started? && WellSized(c) && Conversation(c) && OutStream(c) && NoLostResize(c)
    ensures var d := StepExecute(c, wrote);
            Conversation(d) && OutStream(d) && NoLostResize(d) && WellSized(d)
  {
    match ForkFrame(c, c.pc.size)
    case None =>
    case Some(f) =>
      RequestShape(c, c.pc.size);
      PutKept(c.(pc := Top), f, wrote);
      FirstSent(c, f, Put(c.(pc := Top), f, wrote));
  }

  lemma FirstSent(c: Client, f: Frame, d: Client)
    requires c.pc.Started? && WellSized(c) && Conversation(c) && OutStream(c) && NoLostResize(c)
    requires IsRequest(c, f) && IsFork(f) && ModeOf(f) == c.mode
    requires c.mode == Tty ==> |f.body| >= Preamble(Tty) && SizeIn(f) == c.pc.size
    requires d == c.(sent := d.sent, slog := d.slog, pc := d.pc)
    requires EncodeAll(d.slog) <= d.sent && Fragment(d.sent[|EncodeAll(d.slog)|..])
    requires if d.slog == [] then d.pc == Exited(OsError, 255)
             else d.slog == [f] && d.pc == Top && d.sent == EncodeAll(d.slog)
    ensures Conversation(d) && OutStream(d) && NoLostResize(d) && WellSized(d)
  {
    SameRequest(c, d);
    PayloadSnoc([], f, STDIN);
    LastSizeSnoc([], f);
    assert [] + [f] == [f];
  }

  lemma WriteSizeKept(c: Client, wrote: int)
    requires c.pc.Sized? && Safe(c)
    ensures Safe(StepWriteSize(c, wrote))
  {
    var f := Frame(WINSIZE, c.pc.size);
    PutKept(c.(pc := Wrote), f, wrote);
    LaterSent(c, f, StepWriteSize(c, wrote));
    WrittenKept(c, StepWriteSize(c, wrote));
  }

  lemma TypeKept(c: Client, data: bytes, wrote: int)
    requires Enabled(c, Type(data, wrote)) && Safe(c)
    ensures Safe(StepType(c, data, wrote))
  {
    var f := Frame(STDIN, data);
    PutKept(c.(typed := c.typed + data, pc := Top), f, wrote);
    LaterSent(c, f, StepType(c, data, wrote));
    WrittenKept(c, StepType(c, data, wrote));
  }

  /** A frame behind the request goes out whole, or the client ends. */
  lemma LaterSent(c: Client, f: Frame, d: Client)
    requires c.slog != [] && WellSized(c) && Conversation(c) && OutStream(c) && !c.pc.Exited?
    requires Follows(c.mode, f)
    requires d == c.(sent := d.sent, typed := c.typed + Share(f, STDIN), slog := d.slog, pc := d.pc)
    requires EncodeAll(d.slog) <= d.sent && Fragment(d.sent[|EncodeAll(d.slog)|..])
    requires if d.slog == c.slog then d.pc == Exited(OsError, 255)
             else d.slog == c.slog + [f] && d.pc in {Top, Wrote} && d.sent == EncodeAll(d.slog)
    ensures Conversation(d) && OutStream(d)
    ensures d.slog == c.slog + [f] ==> LastSize(d.slog) == if f.kind == WINSIZE then f.body else LastSize(c.slog)
  {
    LaterFollows(c, f, d);
    PayloadSnoc(c.slog, f, STDIN);
    LastSizeSnoc(c.slog, f);
  }

  lemma LaterFollows(c: Client, f: Frame, d: Client)
    requires c.slog != [] && |c.termios| == TERMIOS_BYTES && Conversation(c) && Follows(c.mode, f)
    requires d == c.(sent := d.sent, typed := d.typed, slog := d.slog, pc := d.pc)
    requires d.slog == c.slog || d.slog == c.slog + [f]
    requires d.pc != Starting && !d.pc.Started?
    ensures Conversation(d)
  {
    SameRequest(c, d);
    assert d.slog[0] == c.slog[0];
  }

  /** The request depends on the command line, the environment and the saved terminal settings only. */
  lemma SameRequest(c: Client, d: Client)
    requires |c.termios| == TERMIOS_BYTES && d.mode == c.mode && d.argv == c.argv
    requires d.environ == c.environ && d.termios == c.termios
    ensures forall f: Frame :: IsRequest(c, f) <==> IsRequest(d, f)
  {
    assert forall size: bytes | |size| == WINSIZE_BYTES :: ForkFrame(c, size) == ForkFrame(d, size);
  }

  /** What handling a frame can change. */
  ghost predicate OutcomeOf(c: Core, f: Frame, r: Dispatched) {
    var d := r.core;
    && (if r.verdict == Fine then |f.body| >= 1 && d.log == c.log + [f] else d.log == c.log)
    && Grown(c.out, d.out, f, STDOUT, r.verdict)
    && Grown(c.err, d.err, f, STDERR, r.verdict)
    && (f.kind != STATUS || r.verdict != Fine ==> d.status == c.status)
    && (d.sigterm <==> c.sigterm || (f.kind == STATUS && r.verdict == Fine))
    && (f.kind == STATUS && r.verdict == Fine ==>
          d.status == if |f.body| < STATUS_BYTES then PastTheFrame else Known(ReadU32(f.body, 0)))
  }

  ghost predicate Grown(before: bytes, after: bytes, f: Frame, kind: nat, verdict: Verdict) {
    if f.kind != kind || verdict == Refused then after == before
    else if verdict == Fine then after == before + f.body
    else before <= after <= before + f.body
  }

  lemma OutcomeOfDispatch(c: Core, f: Frame, wrote: int)
    ensures OutcomeOf(c, f, Dispatch(c, f, wrote))
  {
  }

  lemma SettleKept(c: Client, r: Dispatched)
    requires c.pc == Handle && HasFrame(c.buf) && OutcomeOf(c.core, Front(c.buf), r) && Safe(c)
    ensures Safe(Settle(c, r))
  {
    SettleInStream(c, r);
    SettleSink(c, r, c.core.out, r.core.out, STDOUT);
    SettleSink(c, r, c.core.err, r.core.err, STDERR);
    SettleTouches(c, r);
    SettleExit(c, r);
    SettleHeeding(c, r);
    SameRequest(c, Settle(c, r));
  }

  lemma SettleInStream(c: Client, r: Dispatched)
    requires c.pc == Handle && HasFrame(c.buf) && OutcomeOf(c.core, Front(c.buf), r) && InStream(c)
    ensures InStream(Settle(c, r))
  {
    if r.verdict == Fine {
      EncodeDecoded(c.buf);
      EncodeAllSnoc(c.core.log, Front(c.buf));
    }
  }

  lemma SettleSink(c: Client, r: Dispatched, before: bytes, after: bytes, kind: nat)
    requires c.pc == Handle && HasFrame(c.buf) && OutcomeOf(c.core, Front(c.buf), r)
    requires SinkOk(c, before, kind) && Grown(before, after, Front(c.buf), kind, r.verdict)
    ensures SinkOk(Settle(c, r), after, kind)
  {
    PayloadSnoc(c.core.log, Front(c.buf), kind);
  }

  lemma SettleExit(c: Client, r: Dispatched)
    requires c.pc == Handle && HasFrame(c.buf) && OutcomeOf(c.core, Front(c.buf), r) && ExitOk(c)
    ensures ExitOk(Settle(c, r))
  {
    assert (c.core.log + [Front(c.buf)])[..|c.core.log|] == c.core.log;
  }

  lemma SettleHeeding(c: Client, r: Dispatched)
    requires c.pc == Handle && HasFrame(c.buf) && OutcomeOf(c.core, Front(c.buf), r) && Heeding(c)
    ensures Heeding(Settle(c, r))
  {
  }

  lemma HandleKept(c: Client, wrote: int)
    requires c.pc == Handle && HasFrame(c.buf) && Safe(c)
    ensures Safe(StepHandle(c, wrote))
  {
    OutcomeOfDispatch(c.core, Front(c.buf), wrote);
    SettleKept(c, Dispatch(c.core, Front(c.buf), wrote));
  }

  lemma ReadKept(c: Client, chunk: bytes)
    requires Enabled(c, Read(chunk)) && Safe(c)
    ensures Safe(Next(c, Read(chunk)))
  {
    ReadBehind(c, chunk, Next(c, Read(chunk)));
  }

  lemma ReadBehind(c: Client, chunk: bytes, d: Client)
    requires Safe(c) && c.pc == Remote && |c.buf| + |chunk| <= Decoder.CAPACITY
    requires d == c.(buf := c.buf + chunk, received := c.received + chunk, pc := Handle)
    ensures Safe(d)
  {
    assert d.received == EncodeAll(d.core.log) + d.buf;
    SameRequest(c, d);
  }

  /** The loop head, the flags, and the terminal's size. */
  lemma FlagKept(c: Client, e: Event)
    requires Enabled(c, e) && Safe(c)
    requires e.Prepare? || e.Loop? || e == ClearFlag || e.Interrupted? || e.Resize? || e == Terminate
    ensures Safe(Next(c, e))
  {
    FlagTouches(c, e);
    FlagsMoved(c, Next(c, e));
  }

  lemma FlagTouches(c: Client, e: Event)
    requires Enabled(c, e) && WellSized(c) && NoLostResize(c) && ExitOk(c) && Heeding(c)
    requires e.Prepare? || e.Loop? || e == ClearFlag || e.Interrupted? || e.Resize? || e == Terminate
    ensures var d := Next(c, e);
            && d == c.(pc := d.pc, sigwinch := d.sigwinch, winchPending := d.winchPending, term := d.term,
                       termPending := d.termPending, core := c.core.(sigterm := d.core.sigterm))
            && WellSized(d) && NoLostResize(d) && ExitOk(d) && Heeding(d) && Onward(c, d.pc)
  {
  }

  /** Where the client can go from c by a step that writes and handles nothing. */
  predicate Onward(c: Client, pc: Pc) {
    && !c.pc.Exited?
    && (pc == c.pc
        || match c.pc
           case Starting => pc.Started? || pc.Exited?
           case Started(_) => false
           case Handle => pc == Input && !HasFrame(c.buf)
           case _ => !pc.Started? && pc != Starting && pc != Handle)
  }

  lemma FlagsMoved(c: Client, d: Client)
    requires Safe(c) && WellSized(d) && NoLostResize(d) && ExitOk(d) && Heeding(d) && Onward(c, d.pc)
    requires d == c.(pc := d.pc, sigwinch := d.sigwinch, winchPending := d.winchPending, term := d.term,
                     termPending := d.termPending, core := c.core.(sigterm := d.core.sigterm))
    ensures Safe(d)
  {
    SameRequest(c, d);
  }

  /** The remaining events only move the control point. */
  lemma MoveKept(c: Client, e: Event)
    requires Enabled(c, e) && Safe(c)
    requires e in {Timeout, SelectFails, Ready, NotReady, ReadEnds, BufferDry, TypeEnds}
    ensures Safe(Next(c, e))
  {
    MoveTouches(c, e);
    FlagsMoved(c, Next(c, e));
  }

  lemma MoveTouches(c: Client, e: Event)
    requires Enabled(c, e) && WellSized(c) && NoLostResize(c) && ExitOk(c) && Heeding(c)
    requires e in {Timeout, SelectFails, Ready, NotReady, ReadEnds, BufferDry, TypeEnds}
    ensures var d := Next(c, e);
            && d == c.(pc := d.pc)
            && WellSized(d) && NoLostResize(d) && ExitOk(d) && Heeding(d) && Onward(c, d.pc)
  {
  }

  /** Safety of one step. */
  lemma SafeKept(c: Client, e: Event)
    requires Safe(c) && Enabled(c, e)
    ensures Safe(Next(c, e))
  {
    match e
    case Execute(wrote) => ExecuteKept(c, wrote);
    case WriteSize(wrote) => WriteSizeKept(c, wrote);
    case Read(chunk) => ReadKept(c, chunk);
    case HandleFrame(wrote) => HandleKept(c, wrote);
    case Type(data, wrote) => TypeKept(c, data, wrote);
    case Prepare(_) => FlagKept(c, e);
    case Loop(_) => FlagKept(c, e);
    case ClearFlag => FlagKept(c, e);
    case Interrupted(_, _) => FlagKept(c, e);
    case Resize(_) => FlagKept(c, e);
    case Terminate => FlagKept(c, e);
    case _ => MoveKept(c, e);
  }

  /** The command line, environment and saved terminal settings never change. */
  lemma Command(c: Client, e: Event)
    requires WellSized(c) && Enabled(c, e)
    ensures var d := Next(c, e);
            d.mode == c.mode && d.argv == c.argv && d.environ == c.environ && d.termios == c.termios
  {
    match e
    case Execute(wrote) => ExecuteTouches(c, wrote);
    case WriteSize(wrote) => PutTouches(c.(pc := Wrote), Frame(WINSIZE, c.pc.size), wrote);
    case Type(data, wrote) => PutTouches(c.(typed := c.typed + data, pc := Top), Frame(STDIN, data), wrote);
    case HandleFrame(wrote) => SettleTouches(c, Dispatch(c.core, Front(c.buf), wrote));
    case Loop(_) =>
    case _ => PlainCommand(c, e);
  }

  lemma PlainCommand(c: Client, e: Event)
    requires WellSized(c) && Enabled(c, e) && IsPlain(e)
    ensures var d := Plain(c, e);
            d.mode == c.mode && d.argv == c.argv && d.environ == c.environ && d.termios == c.termios
  {
  }

  /** Every reachable state of a client is safe, whatever the session, the terminal and the kernel do. */
  lemma SafeAlways(mode: Mode, argv: seq<CString>, environ: seq<CString>, termios: bytes, term: bytes,
                   es: seq<Event>, d: Client)
    requires |termios| == TERMIOS_BYTES && |term| == WINSIZE_BYTES
    requires Runs.Leads(Step, Start(mode, argv, environ, termios, term), es, d)
    ensures Safe(d)
  {
    SafeAtStart(mode, argv, environ, termios, term);
    forall c, e | Safe(c) && Step(c, e).Some?
      ensures Safe(Next(c, e))
    {
      SafeKept(c, e);
    }
    Runs.Kept(Step, c => Safe(c), Start(mode, argv, environ, termios, term), es, d);
  }

  /** What client_dispatch_remote takes. */
  predicate Acceptable(f: Frame) {
    f.kind in {STDOUT, STDERR, STATUS} && f.body != []
  }

  /** The verdict on a frame, exactly. */
  lemma VerdictExactly(c: Core, f: Frame, wrote: int)
    ensures var verdict := Dispatch(c, f, wrote).verdict;
            && (verdict == Refused <==> !Acceptable(f))
            && (verdict == Fine <==> Acceptable(f) && (f.kind == STATUS || wrote >= |f.body|))
  {
  }

  /** What ends a client: a request that does not fit or go out whole, the termination flag, a failed system
      call, a write that falls short, the end of the session or of stdin, a frame that is not acceptable. */
  ghost predicate ExitedBy(c: Client, e: Event)
    requires WellSized(c) && Enabled(c, e)
  {
    match e
    case Prepare(able) => !able
    case Execute(wrote) =>
      var size := Offset(c.mode) + ForkPayload.Needs(c.argv, c.environ);
      size > ForkPayload.FRAME_BUFFER || wrote < size
    case Loop(sized) => c.core.sigterm || (c.sigwinch && !(c.mode == Tty && sized))
    case WriteSize(wrote) => wrote < HEADER + WINSIZE_BYTES
    case SelectFails => true
    case ReadEnds => true
    case HandleFrame(wrote) =>
      !Acceptable(Front(c.buf)) || (Front(c.buf).kind != STATUS && wrote < |Front(c.buf).body|)
    case Type(data, wrote) => wrote < HEADER + |data|
    case TypeEnds => true
    case _ => false
  }

  lemma ExitsExactly(c: Client, e: Event)
    requires WellSized(c) && Enabled(c, e) && !c.pc.Exited?
    ensures Next(c, e).pc.Exited? <==> ExitedBy(c, e)
  {
    match e
    case Execute(wrote) => RequestExits(c, wrote);
    case WriteSize(wrote) => PutTouches(c.(pc := Wrote), Frame(WINSIZE, c.pc.size), wrote);
    case Type(data, wrote) => PutTouches(c.(typed := c.typed + data, pc := Top), Frame(STDIN, data), wrote);
    case HandleFrame(wrote) => FrameExits(c, wrote);
    case Loop(_) =>
    case _ => PlainExits(c, e);
  }

  lemma RequestExits(c: Client, wrote: int)
    requires WellSized(c) && c.pc.Started?
    ensures StepExecute(c, wrote).pc.Exited? <==> ExitedBy(c, Execute(wrote))
  {
    ForkPayload.PrepareFits(c.argv, c.environ, Offset(c.mode));
    ExecuteTouches(c, wrote);
  }

  lemma FrameExits(c: Client, wrote: int)
    requires WellSized(c) && c.pc == Handle && HasFrame(c.buf)
    ensures StepHandle(c, wrote).pc.Exited? <==> ExitedBy(c, HandleFrame(wrote))
  {
    VerdictExactly(c.core, Front(c.buf), wrote);
  }

  lemma PlainExits(c: Client, e: Event)
    requires WellSized(c) && Enabled(c, e) && !c.pc.Exited? && IsPlain(e)
    ensures Plain(c, e).pc.Exited? <==> ExitedBy(c, e)
  {
  }

  /** Where a client that goes on is after a step of its own. */
  predicate Turn(c: Client, e: Event, pc: Pc) {
    match c.pc
    case Starting => pc == Started(c.term)
    case Started(_) => pc == Top
    case Top => pc == if c.sigwinch then Sized(c.term) else Select
    case Sized(_) => pc == Wrote
    case Wrote => pc == Select
    case Select => pc == if e == Ready then Remote else Top
    case Remote => pc == if e.Read? then Handle else Input
    case Handle => pc == if HasFrame(c.buf) then Handle else Input
    case Input => pc == Top
    case Exited(_, _) => false
  }

  /** One round of a client that goes on sends the size if it is flagged, and looks at the session's descriptor
      and, after each read, at all whole frames, and then at stdin. */
  lemma InTurn(c: Client, e: Event)
    requires WellSized(c) && Enabled(c, e) && !FromOutside(e) && !Next(c, e).pc.Exited?
    ensures Turn(c, e, Next(c, e).pc)
  {
    match e
    case Execute(wrote) => ExecuteTouches(c, wrote);
    case WriteSize(wrote) => PutTouches(c.(pc := Wrote), Frame(WINSIZE, c.pc.size), wrote);
    case Type(data, wrote) => PutTouches(c.(typed := c.typed + data, pc := Top), Frame(STDIN, data), wrote);
    case HandleFrame(wrote) => SettleTouches(c, Dispatch(c.core, Front(c.buf), wrote));
    case Loop(_) =>
    case _ => PlainInTurn(c, e);
  }

  lemma PlainInTurn(c: Client, e: Event)
    requires WellSized(c) && Enabled(c, e) && IsPlain(e) && !FromOutside(e) && !Plain(c, e).pc.Exited?
    ensures Turn(c, e, Plain(c, e).pc)
  {
  }

  /** How many of the events the client makes itself. */
  function OwnSteps(es: seq<Event>): nat {
    if es == [] then 0 else (if FromOutside(es[0]) then 0 else 1) + OwnSteps(es[1..])
  }

  /** How many steps of its own a client has left at most once the flag is up: the frames in its buffer, stdin,
      and the head of the loop. */
  function Left(c: Client): nat {
    match c.pc
    case Handle => |c.buf| + 3
    case Input => 2
    case Top => 1
    case _ => 0
  }

  /** The termination flag as a bounded response: once it is up, by a status frame or a signal, every run ends
      the client within Left(c) steps of its own, and by the flag, unless a call fails, stdin ends or a frame
      is refused. */
  lemma {:induction false} FlagEndsClient(c: Client, es: seq<Event>, d: Client)
    requires Safe(c) && c.core.sigterm && Runs.Leads(Step, c, es, d)
    ensures Safe(d) && d.core.sigterm && OwnSteps(es) + Left(d) <= Left(c)
    ensures !d.pc.Exited? ==> Left(d) > 0 && exists e :: !FromOutside(e) && Enabled(d, e)
    ensures d.pc.Exited? ==> d.pc.cause in {LoopDone, OsError, InputGone, RefusedFrame}
    decreases |es|
  {
    if es == [] {
      Runs.Stays(Step, c, es, d);
      var e := match c.pc
               case Handle => if HasFrame(c.buf) then HandleFrame(|Front(c.buf).body|) else BufferDry
               case Input => NotReady
               case _ => Loop(true);
      assert !c.pc.Exited? ==> !FromOutside(e) && Enabled(c, e);
    } else {
      Runs.Uncons(Step, c, es, d);
      SafeKept(c, es[0]);
      HeedingStep(c, es[0]);
      FlagEndsClient(Next(c, es[0]), es[1..], d);
    }
  }

  lemma HeedingStep(c: Client, e: Event)
    requires Safe(c) && c.core.sigterm && Enabled(c, e)
    ensures Next(c, e).core.sigterm && Left(Next(c, e)) + (if FromOutside(e) then 0 else 1) <= Left(c)
  {
    match e
    case Type(data, wrote) => PutTouches(c.(typed := c.typed + data, pc := Top), Frame(STDIN, data), wrote);
    case HandleFrame(wrote) => HandledLeft(c, wrote);
    case Loop(_) =>
    case _ => PlainHeeding(c, e);
  }

  lemma PlainHeeding(c: Client, e: Event)
    requires WellSized(c) && Heeding(c) && c.core.sigterm && Enabled(c, e) && IsPlain(e)
    ensures var d := Plain(c, e);
            d.core.sigterm && Left(d) + (if FromOutside(e) then 0 else 1) <= Left(c)
  {
  }

  lemma HandledLeft(c: Client, wrote: int)
    requires c.pc == Handle && HasFrame(c.buf) && c.core.sigterm
    ensures var d := StepHandle(c, wrote);
            d.core.sigterm && Left(d) + 1 <= Left(c)
  {
    OutcomeOfDispatch(c.core, Front(c.buf), wrote);
    SettleTouches(c, Dispatch(c.core, Front(c.buf), wrote));
  }

  /** Frames accepted stay accepted. */
  lemma LogGrows(c: Client, es: seq<Event>, d: Client)
    requires Safe(c) && Runs.Leads(Step, c, es, d)
    ensures c.core.log <= d.core.log
  {
    forall u, e | Safe(u) && Step(u, e).Some?
      ensures Safe(Next(u, e)) && u.core.log <= Next(u, e).core.log
    {
      SafeKept(u, e);
      LogStep(u, e);
    }
    Runs.Related(Step, u => Safe(u), (u: Client, v: Client) => u.core.log <= v.core.log, c, es, d);
  }

  lemma LogStep(c: Client, e: Event)
    requires WellSized(c) && Enabled(c, e)
    ensures c.core.log <= Next(c, e).core.log
  {
    match e
    case Execute(wrote) => ExecuteTouches(c, wrote);
    case WriteSize(wrote) => PutTouches(c.(pc := Wrote), Frame(WINSIZE, c.pc.size), wrote);
    case Type(data, wrote) => PutTouches(c.(typed := c.typed + data, pc := Top), Frame(STDIN, data), wrote);
    case HandleFrame(wrote) =>
      OutcomeOfDispatch(c.core, Front(c.buf), wrote);
      SettleTouches(c, Dispatch(c.core, Front(c.buf), wrote));
    case _ =>
  }

  /** A termination signal stays pending or flagged until the client ends. */
  predicate Asked(c: Client) {
    c.termPending || c.core.sigterm || c.pc.Exited?
  }

  lemma {:induction false} TerminationKept(c: Client, es: seq<Event>, d: Client)
    requires Runs.Leads(Step, c, es, d)
    ensures Asked(c) || Terminate in es ==> Asked(d)
    decreases |es|
  {
    if es == [] {
      Runs.Stays(Step, c, es, d);
    } else {
      Runs.Uncons(Step, c, es, d);
      AskedStep(c, es[0]);
      TerminationKept(Next(c, es[0]), es[1..], d);
    }
  }

  lemma AskedStep(c: Client, e: Event)
    requires WellSized(c) && Enabled(c, e)
    ensures Asked(c) || e == Terminate ==> Asked(Next(c, e))
  {
    match e
    case Execute(wrote) => ExecuteTouches(c, wrote);
    case WriteSize(wrote) => PutTouches(c.(pc := Wrote), Frame(WINSIZE, c.pc.size), wrote);
    case Type(data, wrote) => PutTouches(c.(typed := c.typed + data, pc := Top), Frame(STDIN, data), wrote);
    case HandleFrame(wrote) =>
      OutcomeOfDispatch(c.core, Front(c.buf), wrote);
      SettleTouches(c, Dispatch(c.core, Front(c.buf), wrote));
    case _ =>
  }

  /** A pending termination signal interrupts pselect, and the client then leaves. */
  lemma TerminationHeard(c: Client, sized: bool)
    requires Safe(c) && c.pc == Select && c.termPending
    ensures Enabled(c, Interrupted(false, true))
    ensures var d := Next(Next(c, Interrupted(false, true)), Loop(sized));
            d.pc == Exited(LoopDone, ExitCode(c.core.status))
  {
  }

  /** The exit code of a client that leaves by the flag: what the guest passed to exit(3), or 255 if a signal
      ended it. */
  lemma CodeOf(c: Client, how: Ending)
    requires Safe(c) && c.pc.Exited? && c.pc.cause == LoopDone && c.core.status == Known(WaitStatus(how))
    ensures c.pc.code == match how case ByExit(code) => code case BySignal(_, _) => 255
  {
  }
}
