/** client/jail.c as it is written: the file's globals updated in place by client_execute,
    client_sigwinch, client_process_remote, client_process_input and client_loop. Every method is a run
    of the machine in Client, so all that ClientSafety proves of the machine's runs holds of it. */
module ClientProcess {
  import opened Bytes
  import opened Message
  import opened Kernel
  import Decoder
  import ForkPayload
  import Runs
  import C = Client
  import CS = ClientSafety

  /** What pselect may answer, with what a read of each ready descriptor then brings. */
  datatype Poll = Signals | TimesOut | Fails | Ready(remote: Look, input: Look)

  class JailClient {
    /** No system call fails or falls short. */
    const works: bool
    const buffer: Decoder.FrameBuffer
    const mode: Mode
    const argv: seq<CString>
    const environ: seq<CString>
    const termios: bytes
    /** The int g_client_status as it lies in memory. */
    var status: nat
    var sigterm: bool
    var sigwinch: bool
    /** Outside: the terminal's size and the signals pending while blocked. */
    var term: bytes
    var winchPending: bool
    var termPending: bool
    /** Outside: what write(2) has put on the wire, and on stdout and stderr. */
    var sent: bytes
    var out: bytes
    var err: bytes
    ghost const size: bytes
    ghost const start: C.Client
    ghost var history: seq<C.Event>
    /** The steps among them that are not from outside. */
    ghost var own: seq<C.Event>
    ghost var model: C.Client

    /** The machine has come from its first state to model, and the globals are the machine's. */
    ghost predicate Tracking()
      reads this, buffer
    {
      Followed() && sent == model.sent
    }

    ghost predicate Followed()
      reads this, buffer
    {
      && buffer.Valid() && |termios| == TERMIOS_BYTES && |size| == WINSIZE_BYTES
      && Running()
      && model.mode == mode && model.argv == argv && model.environ == environ
      && model.termios == termios
      && sigwinch == model.sigwinch && term == model.term
      && winchPending == model.winchPending && termPending == model.termPending
    }

    ghost predicate Valid()
      reads this, buffer, buffer.buffer
    {
      Tracking() && Delivered()
    }

    /** What the client has made of the frames it handled is what the machine has. */
    ghost predicate Delivered()
      reads this, buffer, buffer.buffer
    {
      && sigterm == model.core.sigterm
      && (model.core.status.Known? ==> status == model.core.status.bits)
      && out == model.core.out && err == model.core.err
      && buffer.Valid() && buffer.Contents() == model.buf
    }

    /** The machine has come from its first state to model by the steps in history. */
    ghost predicate Running()
      reads this`history, this`own, this`model
    {
      && |termios| == TERMIOS_BYTES && |size| == WINSIZE_BYTES
      && start == C.Start(mode, argv, environ, termios, size)
      && Runs.Leads(C.Step, start, history, model) && C.WellSized(model) && own == C.Own(history)
    }

    /** The machine makes one step. */
    ghost method Step(e: C.Event)
      requires Running() && C.Enabled(model, e)
      modifies this`model, this`history, this`own
      ensures Running() && model == C.Next(old(model), e) && history == old(history) + [e]
      ensures own == old(own) + if C.FromOutside(e) then [] else [e]
      ensures model.mode == old(model).mode && model.argv == old(model).argv
      ensures model.environ == old(model).environ && model.termios == old(model).termios
    {
      Runs.Snoc(C.Step, start, history, model, e, C.Next(model, e));
      CS.Command(model, e);
      assert (history + [e])[..|history|] == history;
      history := history + [e];
      own := own + if C.FromOutside(e) then [] else [e];
      model := C.Next(model, e);
      CS.SafeAlways(mode, argv, environ, termios, size, history, model);
    }

    ghost method Plain(e: C.Event)
      requires Running() && C.Enabled(model, e) && C.IsPlain(e)
      modifies this`model, this`history, this`own
      ensures Running() && model == C.Plain(old(model), e) && history == old(history) + [e]
      ensures own == old(own) + if C.FromOutside(e) then [] else [e]
    {
      Step(e);
    }

    ghost method LoopStep(sized: bool)
      requires Running() && C.Enabled(model, C.Loop(sized))
      modifies this`model, this`history, this`own
      ensures Running() && model == C.StepLoop(old(model), sized)
      ensures history == old(history) + [C.Loop(sized)] && own == old(own) + [C.Loop(sized)]
    {
      Step(C.Loop(sized));
    }

    /** A step that only moves the control point. */
    ghost method Move(e: C.Event)
      requires Valid() && C.Enabled(model, e)
      requires e in {C.Timeout, C.SelectFails, C.Ready, C.NotReady, C.ReadEnds, C.BufferDry, C.TypeEnds}
      modifies this`model, this`history, this`own
      ensures Valid() && history == old(history) + [e] && own == old(own) + [e]
      ensures model == old(model).(pc := model.pc)
      ensures match e
              case Timeout => model.pc == C.Top
              case Ready => model.pc == C.Remote
              case NotReady => model.pc == if old(model).pc == C.Remote then C.Input else C.Top
              case BufferDry => model.pc == C.Input
              case ReadEnds => model.pc == C.Exited(C.RemoteGone, 255)
              case TypeEnds => model.pc == C.Exited(C.InputGone, 255)
              case _ => C.Broken(model)
    {
      Plain(e);
    }

    /** client_sigwinch writes the size. */
    ghost method WriteSizeStep(wrote: int)
      requires Followed() && Delivered() && C.Enabled(model, C.WriteSize(wrote))
      requires sent == model.sent + Written(Encode(Frame(WINSIZE, model.pc.size)), wrote)
      modifies this`model, this`history, this`own
      ensures Valid() && history == old(history) + [C.WriteSize(wrote)] && own == old(own) + [C.WriteSize(wrote)]
      ensures model.pc == if wrote >= HEADER + WINSIZE_BYTES then C.Wrote else C.Exited(C.OsError, 255)
    {
      CS.PutTouches(model.(pc := C.Wrote), Frame(WINSIZE, model.pc.size), wrote);
      Step(C.WriteSize(wrote));
    }

    /** A read of stdin is relayed. */
    ghost method TypeStep(data: bytes, wrote: int)
      requires Followed() && Delivered() && C.Enabled(model, C.Type(data, wrote))
      requires sent == model.sent + Written(Encode(Frame(STDIN, data)), wrote)
      modifies this`model, this`history, this`own
      ensures Valid() && history == old(history) + [C.Type(data, wrote)] && own == old(own) + [C.Type(data, wrote)]
      ensures model.pc == if wrote >= HEADER + |data| then C.Top else C.Exited(C.OsError, 255)
    {
      CS.PutTouches(model.(typed := model.typed + data, pc := C.Top), Frame(STDIN, data), wrote);
      Step(C.Type(data, wrote));
    }

    /** The request is about to be written, unless memory or the terminal's answer is missing. */
    ghost method PrepareStep(able: bool)
      requires Valid() && model.pc == C.Starting
      modifies this`model, this`history, this`own
      ensures Valid() && history == old(history) + [C.Prepare(able)] && own == old(own) + [C.Prepare(able)]
      ensures model == old(model).(pc := model.pc)
      ensures model.pc == if able then C.Started(old(model).term) else C.Exited(C.OsError, 255)
    {
      Plain(C.Prepare(able));
    }

    /** Whatever the methods did so far, in any order their contracts allow, the state is safe. */
    lemma AlwaysSafe()
      requires Tracking()
      ensures CS.Safe(model)
    {
      CS.SafeAlways(mode, argv, environ, termios, size, history, model);
    }

    /** main up to client_start. */
    constructor (mode: Mode, argv: seq<CString>, environ: seq<CString>, termios: bytes, term: bytes, works: bool)
      requires |termios| == TERMIOS_BYTES && |term| == WINSIZE_BYTES
      ensures Valid() && history == [] && model == C.Start(mode, argv, environ, termios, term)
      ensures fresh(buffer) && fresh(buffer.buffer) && this.works == works
    {
      this.works := works;
      this.mode, this.argv, this.environ, this.termios, this.term := mode, argv, environ, termios, term;
      buffer := new Decoder.FrameBuffer();
      status := C.NO_STATUS;
      sigterm, sigwinch, winchPending, termPending := false, false, false, false;
      sent, out, err := [], [], [];
      size := term;
      start := C.Start(mode, argv, environ, termios, term);
      model := C.Start(mode, argv, environ, termios, term);
      history, own := [], [];
      new;
      Runs.Stay(C.Step, start);
    }

    /** write(2) to the session: any part of b may go, or none. */
    method WriteRemote(b: bytes) returns (n: int)
      modifies this`sent
      ensures -1 <= n <= |b| && sent == old(sent) + Written(b, n) && (works ==> n == |b|)
    {
      n := *;
      if n < 0 || n > |b| {
        n := -1;
      }
      n := if works then |b| else n;
      sent := sent + Written(b, n);
    }

    /** client_process_remote_stdio: write(2) to stdout (isOut) or stderr. */
    method WriteStdio(isOut: bool, b: bytes) returns (n: int)
      modifies this`out, this`err
      ensures -1 <= n <= |b| && (works ==> n == |b|)
      ensures out == old(out) + (if isOut then Written(b, n) else [])
      ensures err == old(err) + (if isOut then [] else Written(b, n))
    {
      n := *;
      if n < 0 || n > |b| {
        n := -1;
      }
      n := if works then |b| else n;
      if isOut {
        out := out + Written(b, n);
      } else {
        err := err + Written(b, n);
      }
    }

    /** Between any two system calls the terminal may change size and a termination signal arrive, any number
        of times. */
    method Outside()
      requires Valid() && !model.pc.Exited?
      modifies this`model, this`history, this`own, this`term, this`winchPending, this`termPending
      ensures Valid() && old(history) <= history && own == old(own)
      ensures model == old(model).(term := term, winchPending := winchPending, termPending := termPending)
      ensures (term == old(term) && winchPending == old(winchPending)) || winchPending
      ensures old(termPending) ==> termPending
    {
      var n: nat := *;
      while n > 0
        invariant Valid() && old(history) <= history && own == old(own)
        invariant model == old(model).(term := term, winchPending := winchPending, termPending := termPending)
        invariant (term == old(term) && winchPending == old(winchPending)) || winchPending
        invariant old(termPending) ==> termPending
      {
        n := n - 1;
        Resized();
        Signalled();
      }
    }

    method Resized()
      requires Valid() && !model.pc.Exited?
      modifies this`model, this`history, this`own, this`term, this`winchPending
      ensures Valid() && model == old(model).(term := term, winchPending := winchPending) && own == old(own)
      ensures history == old(history) || (history == old(history) + [C.Resize(term)])
      ensures (term == old(term) && winchPending == old(winchPending)) || winchPending
    {
      var resized: bool, newSize: bytes := *, *;
      if resized && |newSize| == WINSIZE_BYTES {
        winchPending := winchPending || newSize != term;
        term := newSize;
        Plain(C.Resize(newSize));
      }
    }

    method Signalled()
      requires Valid() && !model.pc.Exited?
      modifies this`model, this`history, this`own, this`termPending
      ensures Valid() && model == old(model).(termPending := termPending) && own == old(own)
      ensures history == old(history) || history == old(history) + [C.Terminate]
      ensures old(termPending) ==> termPending
    {
      var terminated: bool := *;
      if terminated {
        termPending := true;
        Plain(C.Terminate);
      }
    }

    /** client_sigwinch at the head of client_loop, with resizes falling between its steps: a raised flag
        goes down with one size sent, which still is the terminal's unless the signal is pending again. */
    method Sigwinch() returns (ret: int)
      requires Valid() && model.pc == C.Top && !sigterm
      modifies this`model, this`history, this`own, this`term, this`winchPending, this`termPending, this`sigwinch,
               this`sent
      ensures Valid() && old(history) <= history && (ret == 0 || ret == -1)
      ensures if ret == 0 then model.pc == C.Select && !sigwinch else C.Broken(model)
      ensures ret == 0 && !old(sigwinch) ==> sent == old(sent) && own == old(own) + [C.Loop(true)]
      ensures ret == 0 && old(sigwinch) ==> exists size: bytes ::
                |size| == WINSIZE_BYTES && sent == old(sent) + Encode(Frame(WINSIZE, size))
                && (size == term || winchPending)
      ensures ret == 0 && old(sigwinch) ==>
                exists sized, wrote :: own == old(own) + [C.Loop(sized)] + [C.WriteSize(wrote), C.ClearFlag]
      ensures old(own) < own
      ensures !old(sigwinch) || (works && mode == Tty) ==> ret == 0
    {
      var sized: bool := *;
      sized := sized || works;
      if !sigwinch {
        LoopStep(true);
        return 0;
      }
      Outside();
      ret := AskSize(sized);
      if ret == 0 {
        ret := WriteSize(term);
      }
    }

    /** TIOCGWINSZ, which only a terminal answers. */
    method AskSize(sized: bool) returns (ret: int)
      requires Valid() && model.pc == C.Top && !sigterm && sigwinch
      modifies this`model, this`history, this`own
      ensures Valid() && history == old(history) + [C.Loop(sized)] && own == old(own) + [C.Loop(sized)]
      ensures ret == if mode == Tty && sized then 0 else -1
      ensures if ret == 0 then model.pc == C.Sized(term) else C.Broken(model)
    {
      LoopStep(sized);
      ret := if mode == Tty && sized then 0 else -1;
    }

    /** client_sigwinch behind TIOCGWINSZ. */
    method WriteSize(winp: bytes) returns (ret: int)
      requires Valid() && model.pc.Sized? && winp == model.pc.size
      modifies this`model, this`history, this`own, this`term, this`winchPending, this`termPending, this`sigwinch,
               this`sent
      ensures Valid() && old(history) <= history && (ret == 0 || ret == -1)
      ensures ret == 0 ==> sent == old(sent) + Encode(Frame(WINSIZE, winp))
      ensures winp == old(term) ==> winp == term || winchPending
      ensures if ret == 0 then model.pc == C.Select && !sigwinch else C.Broken(model)
      ensures old(own) <= own
      ensures ret == 0 ==> exists wrote :: own == old(own) + [C.WriteSize(wrote), C.ClearFlag]
      ensures works ==> ret == 0
    {
      Outside();
      ret := SendSize(winp);
      if ret == 0 {
        LowerFlag();
      }
    }

    /** The end of client_sigwinch. */
    method LowerFlag()
      requires Valid() && model.pc == C.Wrote
      modifies this`model, this`history, this`own, this`term, this`winchPending, this`termPending, this`sigwinch
      ensures Valid() && old(history) <= history && own == old(own) + [C.ClearFlag]
      ensures model.pc == C.Select && !sigwinch
      ensures (term == old(term) && winchPending == old(winchPending)) || winchPending
    {
      Outside();
      sigwinch := false;
      Plain(C.ClearFlag);
    }

    /** The message_winsize_t of client_sigwinch. */
    method SendSize(winp: bytes) returns (ret: int)
      requires Valid() && model.pc.Sized? && winp == model.pc.size
      modifies this`model, this`history, this`own, this`sent
      ensures Valid() && old(history) <= history && exists wrote :: own == old(own) + [C.WriteSize(wrote)]
      ensures if ret == 0 then model.pc == C.Wrote && sent == old(sent) + Encode(Frame(WINSIZE, winp))
              else ret == -1 && C.Broken(model)
      ensures works ==> ret == 0
    {
      var msg := new byte[HEADER + WINSIZE_BYTES];
      Assemble(msg, WINSIZE, winp);
      var size := WriteRemote(msg[..HEADER + WINSIZE_BYTES]);
      WriteSizeStep(size);
      ret := if size != HEADER + WINSIZE_BYTES then -1 else 0;
    }

    /** The request with the size winp is at the front of out, or does not fit. */
    ghost predicate Built(out: array<byte>, length: int, winp: bytes)
      requires |model.termios| == TERMIOS_BYTES && |winp| == WINSIZE_BYTES
      reads this`model, out
    {
      match C.ForkFrame(model, winp)
      case None => length == -1
      case Some(f) => 0 <= length <= out.Length && out[..length] == Encode(f)
    }

    /** The frame client_execute_tty, _pipe or _socket leaves at the front of its 8192-byte buffer, or
        -1 when the lists do not fit or - then failed - memory runs out. */
    method BuildRequest(out: array<byte>, winp: bytes) returns (length: int, failed: bool)
      requires Tracking() && out.Length == ForkPayload.FRAME_BUFFER && |winp| == WINSIZE_BYTES
      modifies out
      ensures if failed then length == -1 && !works else Built(out, length, winp)
    {
      var offset := C.Offset(mode);
      length, failed := ForkPayload.ClientPrepare(argv, environ, out, offset, works);
      if length < 0 {
        return;
      }
      ghost var lists := out[offset..length];
      FillHead(out, offset, length, winp);
      RequestBytes(model, winp, lists, out[..length]);
    }

    /** Head and lists one behind the other are the encoding of the request. */
    static lemma RequestBytes(c: C.Client, winp: bytes, lists: bytes, b: bytes)
      requires |c.termios| == TERMIOS_BYTES && |winp| == WINSIZE_BYTES
      requires ForkPayload.Prepare(c.argv, c.environ, C.Offset(c.mode)) == Some(lists)
      requires b == U16(KindOf(c.mode)) + U16(C.Offset(c.mode) + |lists|)
                  + ((if c.mode == Tty then c.termios + winp else []) + lists)
      ensures C.ForkFrame(c, winp).Some? && b == Encode(C.ForkFrame(c, winp).value)
    {
    }

    static function KindOf(mode: Mode): byte {
      match mode case Socket => FORK_SOCKET case Pipe => FORK_PIPE case Tty => FORK_TTY
    }

    /** What message_fork_*_t has in front of the lists. */
    method FillHead(out: array<byte>, offset: nat, length: nat, winp: bytes)
      requires |termios| == TERMIOS_BYTES && |winp| == WINSIZE_BYTES
      requires offset == C.Offset(mode) && offset <= length <= out.Length < 65536
      modifies out
      ensures out[..length] == U16(KindOf(mode)) + U16(length)
                             + ((if mode == Tty then termios + winp else []) + old(out[offset..length]))
    {
      ghost var lists := out[offset..length];
      var kind := KindOf(mode);
      out[0], out[1] := kind, 0;
      out[2], out[3] := length % 256, length / 256;
      if mode == Tty {
        CopyIn(out, HEADER, termios);
        CopyIn(out, HEADER + TERMIOS_BYTES, winp);
        assert out[HEADER..offset] == termios + winp;
      }
      assert out[offset..length] == lists;
      assert out[..HEADER] == U16(kind) + U16(length);
      ThreeParts(out[..length], HEADER, offset);
    }

    /** A structure assignment into the message. */
    static method CopyIn(out: array<byte>, at: nat, b: bytes)
      requires at + |b| <= out.Length
      modifies out
      ensures out[at..at + |b|] == b
      ensures forall i | 0 <= i < out.Length && (i < at || i >= at + |b|) :: out[i] == old(out[i])
    {
      forall i | 0 <= i < |b| {
        out[at + i] := b[i];
      }
    }

    static lemma ThreeParts(b: bytes, m: nat, n: nat)
      requires m <= n <= |b|
      ensures b == b[..m] + (b[m..n] + b[n..])
    {
    }

    /** client_execute: build the request and write it. */
    method Execute() returns (ret: int)
      requires Valid() && model.pc == C.Starting
      modifies this`model, this`history, this`own, this`term, this`winchPending, this`termPending, this`sent
      ensures Valid() && old(history) <= history && (ret == 0 || ret == -1)
      ensures if ret == 0 then model.pc == C.Top && |model.slog| == 1 else model.pc.Exited?
      ensures ret == 0 ==> exists wrote :: own == old(own) + [C.Prepare(true)] + [C.Execute(wrote)]
      ensures works ==>
                (ret == 0 <==> C.Offset(mode) + ForkPayload.Needs(argv, environ) <= ForkPayload.FRAME_BUFFER)
    {
      var sized: bool := *;
      sized := sized || works;
      Outside();
      ret := Request(sized);
    }

    method Request(sized: bool) returns (ret: int)
      requires Valid() && model.pc == C.Starting && (works ==> sized)
      modifies this`model, this`history, this`own, this`term, this`winchPending, this`termPending, this`sent
      ensures Valid() && old(history) <= history && (ret == 0 || ret == -1)
      ensures if ret == 0 then model.pc == C.Top && |model.slog| == 1 else model.pc.Exited?
      ensures ret == 0 ==> exists wrote :: own == old(own) + [C.Prepare(true)] + [C.Execute(wrote)]
      ensures works ==>
                (ret == 0 <==> C.Offset(mode) + ForkPayload.Needs(argv, environ) <= ForkPayload.FRAME_BUFFER)
    {
      var out := new byte[ForkPayload.FRAME_BUFFER];
      NothingSentYet();
      var length, failed := BuildRequest(out, term);
      if failed || (length >= 0 && mode == Tty && !sized) {
        PrepareStep(false);
        return -1;
      }
      Announce(out, length);
      ret := Submit(out, length);
    }

    /** The request is written, after resizes perhaps. */
    method Submit(out: array<byte>, length: int) returns (ret: int)
      requires Valid() && Ready(out, length)
      modifies this`model, this`history, this`own, this`term, this`winchPending, this`termPending, this`sent
      ensures Valid() && old(history) <= history && (ret == 0 || ret == -1)
      ensures if ret == 0 then model.pc == C.Top && |model.slog| == 1 else model.pc.Exited?
      ensures exists wrote :: own == old(own) + [C.Execute(wrote)]
      ensures works ==> (ret == 0 <==> length >= 0)
    {
      ghost var before := model;
      Outside();
      SameRequest(before, model, before.pc.size);
      ret := WriteRequest(out, length);
    }

    /** The request for the size asked for can be written, or does not fit. */
    ghost predicate Ready(out: array<byte>, length: int)
      reads this`model, out
    {
      model.pc.Started? && model.slog == [] && C.WellSized(model) && Built(out, length, model.pc.size)
    }

    /** The request is about to be written. */
    ghost method Announce(out: array<byte>, length: int)
      requires Valid() && model.pc == C.Starting && model.slog == [] && Built(out, length, term)
      modifies this`model, this`history, this`own
      ensures Valid() && Ready(out, length) && old(history) <= history && own == old(own) + [C.Prepare(true)]
      ensures length >= 0 <==> C.Offset(mode) + ForkPayload.Needs(argv, environ) <= ForkPayload.FRAME_BUFFER
    {
      ForkPayload.PrepareFits(argv, environ, C.Offset(mode));
      SameRequest(model, model.(pc := C.Started(term)), term);
      PrepareStep(true);
    }

    lemma NothingSentYet()
      requires Valid() && model.pc == C.Starting
      ensures model.slog == []
    {
      AlwaysSafe();
    }

    static lemma SameRequest(a: C.Client, b: C.Client, winp: bytes)
      requires |a.termios| == TERMIOS_BYTES && b.termios == a.termios && b.mode == a.mode
      requires b.argv == a.argv && b.environ == a.environ && |winp| == WINSIZE_BYTES
      ensures C.ForkFrame(a, winp) == C.ForkFrame(b, winp)
    {
    }

    /** The write(2) of a request of length bytes, or the failure to build one. */
    method WriteRequest(out: array<byte>, length: int) returns (ret: int)
      requires Valid() && Ready(out, length)
      modifies this`model, this`history, this`own, this`sent
      ensures Valid() && old(history) <= history && (ret == 0 || ret == -1)
      ensures if ret == 0 then model.pc == C.Top && |model.slog| == 1 else model.pc.Exited?
      ensures exists wrote :: own == old(own) + [C.Execute(wrote)]
      ensures works ==> (ret == 0 <==> length >= 0)
    {
      var wrote := -1;
      if length >= 0 {
        wrote := WriteRemote(out[..length]);
      }
      CS.ExecuteTouches(model, wrote);
      Step(C.Execute(wrote));
      ret := if length < 0 || wrote != length then -1 else 0;
    }

    /** client_process_input: input is what read(2) brought, or None for an error or end of file. */
    method ProcessInput(input: Option<bytes>) returns (ret: int, ghost wrote: int)
      requires Valid() && model.pc == C.Input
      requires input.Some? ==> 1 <= |input.value| <= RELAY_READ
      modifies this`model, this`history, this`own, this`sent
      ensures Valid()
      ensures ret == 0 ==> input.Some? && sent == old(sent) + Encode(Frame(STDIN, input.value))
      ensures history == old(history) + [if input.Some? then C.Type(input.value, wrote) else C.TypeEnds]
      ensures own == old(own) + [if input.Some? then C.Type(input.value, wrote) else C.TypeEnds]
      ensures works ==> (ret == 0 <==> input.Some?) && !C.Broken(model)
      ensures ret == if input.None? || wrote < HEADER + |input.value| then -1 else 0
      ensures if ret == 0 then model.pc == C.Top else model.pc.Exited?
    {
      wrote := 0;
      if input.None? {
        Move(C.TypeEnds);
        return -1, wrote;
      }
      var msg := new byte[RELAY_BUFFER];
      var length := HEADER + |input.value|;
      Assemble(msg, STDIN, input.value);
      var size := WriteRemote(msg[..length]);
      wrote := size;
      TypeStep(input.value, wrote);
      ret := if size != length then -1 else 0;
    }

    /** client_dispatch_remote on the message at the front of the buffer. */
    method Dispatch(kind: nat, length: nat, ghost f: Frame) returns (ret: int, ghost wrote: int)
      requires Valid() && HasFrame(model.buf) && f == Front(model.buf)
      requires kind == f.kind && length == Length(model.buf)
      modifies this`status, this`sigterm, this`out, this`err
      ensures Handled(model.core, f, wrote, ret)
      ensures kind == STATUS && ret == 0 ==> sigterm
    {
      ret, wrote := -1, 0;
      if length < SMALLEST {
        return;
      }
      if kind == STDOUT || kind == STDERR {
        var body := buffer.buffer[HEADER..length];
        SameBody(length, f, body);
        var n := WriteStdio(kind == STDOUT, body);
        wrote := n;
        ret := if n == length - HEADER then 0 else -1;
      } else if kind == STATUS {
        var memory := buffer.buffer[HEADER..HEADER + STATUS_BYTES];
        status := ReadU32(memory, 0);
        sigterm := true;
        ret := 0;
        if |f.body| >= STATUS_BYTES {
          SameBody(HEADER + STATUS_BYTES, f, memory);
        }
      }
    }

    /** What lies in the buffer from the header on is the front frame's body. */
    lemma SameBody(to: nat, f: Frame, b: bytes)
      requires buffer.Valid() && buffer.Contents() == model.buf
      requires HasFrame(model.buf) && f == Front(model.buf) && HEADER <= to <= Length(model.buf)
      requires b == buffer.buffer[HEADER..to]
      ensures b == f.body[..to - HEADER]
    {
      assert buffer.Contents()[HEADER..to] == b;
      assert model.buf[HEADER..Length(model.buf)][..to - HEADER] == model.buf[HEADER..to];
    }

    /** One round of the loop in client_process_remote: 1 when no whole frame is left. */
    method ProcessFrame() returns (ret: int)
      requires Valid() && model.pc == C.Handle
      modifies this`model, this`history, this`own, this`status, this`sigterm, this`out, this`err, buffer,
               buffer.buffer
      ensures Valid() && -1 <= ret <= 1 && old(history) <= history
      ensures ret == 1 ==> !HasFrame(model.buf) && model == old(model) && own == old(own)
      ensures ret == 0 ==> model.pc == C.Handle && |model.buf| < |old(model).buf|
      ensures ret == -1 ==> model.pc.Exited? && (works ==> !C.Broken(model))
      ensures ret != 1 ==> exists wrote :: own == old(own) + [C.HandleFrame(wrote)]
    {
      var more := buffer.GetMessage();
      if more > 0 {
        return 1;
      }
      var length := buffer.FrontLength();
      var kind := buffer.buffer[0] as int + 256 * buffer.buffer[1] as int;
      ghost var f, wrote := Front(model.buf), 0;
      ret, wrote := Dispatch(kind, length, f);
      FinishFrame(ret, wrote);
    }

    /** The frame was handled: consume it, or stop. */
    method FinishFrame(ret: int, ghost wrote: int)
      requires Tracking() && model.pc == C.Handle && HasFrame(model.buf) && buffer.Contents() == model.buf
      requires Handled(model.core, Front(model.buf), wrote, ret)
      modifies this`model, this`history, this`own, buffer, buffer.buffer
      ensures Valid() && history == old(history) + [C.HandleFrame(wrote)] && own == old(own) + [C.HandleFrame(wrote)]
      ensures if ret == 0 then model.pc == C.Handle && |model.buf| < |old(model).buf|
              else model.pc.Exited? && (works ==> !C.Broken(model))
    {
      ghost var f := Front(model.buf);
      CS.SettleTouches(model, C.Dispatch(model.core, f, wrote));
      CS.OutcomeOfDispatch(model.core, f, wrote);
      if ret == 0 {
        buffer.ConsumeMessage();
      }
      Step(C.HandleFrame(wrote));
    }

    /** client_dispatch_remote has returned ret after starting from the core c. */
    ghost predicate Handled(c: C.Core, f: Frame, wrote: int, ret: int)
      reads this`status, this`sigterm, this`out, this`err
    {
      var r := C.Dispatch(c, f, wrote);
      && out == r.core.out && err == r.core.err
      && (ret == 0 || ret == -1) && (ret == 0 <==> r.verdict == C.Fine) && (works ==> r.verdict != C.OsFailed)
      && sigterm == r.core.sigterm
      && (r.core.status.Known? ==> status == r.core.status.bits)
    }

    /** The client's own steps in one client_process_remote, from the given one on: a read, then frames, then
        - unless one of them or the read ended the client - the end of the whole frames. */
    static ghost predicate RemoteSteps(h: seq<C.Event>, from: nat, input: Option<bytes>, ret: int) {
      match input
      case None => |h| == from + 1 && h[from] == C.ReadEnds && ret == -1
      case Some(chunk) =>
        && |h| > from && h[from] == C.Read(chunk)
        && (ret == 0 ==> |h| > from + 1 && h[|h| - 1] == C.BufferDry)
        && forall i | from < i < (if ret == 0 then |h| - 1 else |h|) :: h[i].HandleFrame?
    }

    /** client_process_remote: one read, then every whole frame in the buffer. */
    method ProcessRemote(input: Option<bytes>) returns (ret: int)
      requires Valid() && model.pc == C.Remote
      requires input.Some? ==> C.Enabled(model, C.Read(input.value))
      modifies this, buffer, buffer.buffer
      ensures Valid() && old(history) <= history
      ensures RemoteSteps(own, |old(own)|, input, ret) && (ret == 0 || ret == -1)
      ensures old(own) <= own && (works ==> !C.Broken(model))
      ensures if ret == 0 then model.pc == C.Input else model.pc.Exited?
    {
      if input.None? {
        Move(C.ReadEnds);
        return -1;
      }
      Receive(input.value);
      ret := DrainBuffer();
    }

    /** What read(2) brought is behind what the buffer held. */
    method Receive(chunk: bytes)
      requires Valid() && C.Enabled(model, C.Read(chunk))
      modifies this`model, this`history, this`own, buffer, buffer.buffer
      ensures Valid() && history == old(history) + [C.Read(chunk)] && model.pc == C.Handle
      ensures own == old(own) + [C.Read(chunk)]
    {
      buffer.PushBuffer(chunk);
      Plain(C.Read(chunk));
    }

    /** Every whole frame in the buffer, and out of the loop. */
    method DrainBuffer() returns (ret: int)
      requires Valid() && model.pc == C.Handle
      modifies this, buffer, buffer.buffer
      ensures Valid() && old(history) <= history && (ret == 0 || ret == -1)
      ensures old(own) <= own && (works ==> !C.Broken(model))
      ensures ret == 0 ==> |own| > |old(own)| && own[|own| - 1] == C.BufferDry
      ensures forall i | |old(own)| <= i < (if ret == 0 then |own| - 1 else |own|) :: own[i].HandleFrame?
      ensures if ret == 0 then model.pc == C.Input else model.pc.Exited?
    {
      ret := ProcessFrames();
      if ret == 0 {
        Move(C.BufferDry);
      }
    }

    /** The loop of client_process_remote. */
    method ProcessFrames() returns (ret: int)
      requires Valid() && model.pc == C.Handle
      modifies this, buffer, buffer.buffer
      ensures Valid() && old(history) <= history && (ret == 0 || ret == -1)
      ensures old(own) <= own && forall i | |old(own)| <= i < |own| :: own[i].HandleFrame?
      ensures if ret == 0 then model.pc == C.Handle && !HasFrame(model.buf) else model.pc.Exited?
      ensures works ==> !C.Broken(model)
    {
      ret := 0;
      while ret == 0
        invariant Valid() && -1 <= ret <= 1 && old(history) <= history
        invariant old(own) <= own && forall i | |old(own)| <= i < |own| :: own[i].HandleFrame?
        invariant if ret < 0 then model.pc.Exited? else model.pc == C.Handle
        invariant ret == 1 ==> !HasFrame(model.buf)
        invariant works ==> !C.Broken(model)
        decreases ret == 0, |model.buf|
      {
        Outside();
        ret := ProcessFrame();
      }
      ret := if ret < 0 then -1 else 0;
    }

    /** pselect and what follows it in client_loop, for what pselect answers. Signals are delivered if there are
        any; everything that is ready is served. */
    method SelectAndServe(poll: Poll) returns (ret: int)
      requires Valid() && model.pc == C.Select && (works ==> poll != Fails)
      modifies this, buffer, buffer.buffer
      ensures Valid() && old(history) <= history && (ret == 0 || ret == -1)
      ensures if ret == 0 then model.pc == C.Top else model.pc.Exited?
      ensures exists winch, term ::
                && (old(winchPending) ==> winch) && (old(termPending) ==> term)
                && Answered(own, |old(own)|, poll, winch, term, ret)
      ensures old(own) < own && (works ==> !C.Broken(model))
    {
      Outside();
      if poll.Ready? {
        Move(C.Ready);
        ret := Serve(poll);
        assert Answered(own, |old(own)|, poll, true, true, ret);
      } else {
        ret := AnswerOther(poll);
      }
    }

    method AnswerOther(poll: Poll) returns (ret: int)
      requires Valid() && model.pc == C.Select && (works ==> poll != Fails) && !poll.Ready?
      modifies this`sigwinch, this`sigterm, this`winchPending, this`termPending, this`model, this`history,
               this`own
      ensures Valid() && old(history) <= history && (ret == 0 || ret == -1)
      ensures if ret == 0 then model.pc == C.Top else C.Broken(model)
      ensures Answered(own, |old(own)|, poll, old(winchPending), old(termPending), ret)
      ensures old(own) < own && (works ==> ret == 0)
    {
      ret := 0;
      match poll {
        case Signals => Deliver();
        case Fails =>
          Move(C.SelectFails);
          ret := -1;
        case TimesOut => Move(C.Timeout);
      }
    }

    /** The client's own steps from pselect on, which are the given ones from from on. */
    static ghost predicate Answered(h: seq<C.Event>, from: nat, poll: Poll, winch: bool, term: bool, ret: int) {
      match poll
      case Fails => |h| == from + 1 && h[from] == C.SelectFails && ret == -1
      case TimesOut => |h| == from + 1 && h[from] == C.Timeout && ret == 0
      case Signals =>
        |h| == from + 1 && h[from] == (if winch || term then C.Interrupted(winch, term) else C.Timeout) && ret == 0
      case Ready(_, _) =>
        |h| > from && h[from] == C.Ready && (ret == 0 ==> BothServed(h, from + 1, poll))
    }

    /** The client's own steps for descriptors that are ready, from the given one on: those of the session's, then
        one for stdin. */
    static ghost predicate BothServed(h: seq<C.Event>, from: nat, poll: Poll)
      requires poll.Ready?
    {
      var n := |h| - 1;
      n > from && RemoteServed(h[..n], from, poll.remote) && InputServed(h[n], poll.input)
    }

    /** The client's own steps for the session's descriptor: those of one client_process_remote with what the read
        brings, if it is ready. */
    static ghost predicate RemoteServed(h: seq<C.Event>, from: nat, look: Look) {
      if look == Idle then |h| == from + 1 && h[from] == C.NotReady
      else exists room: nat :: 2 <= room <= Decoder.CAPACITY && RemoteSteps(h, from, ReadUpTo(look, room), 0)
    }

    /** The step made for stdin: what a read of it brings is passed on, and at its end the client ends. */
    static predicate InputServed(e: C.Event, look: Look) {
      if look == Idle then e == C.NotReady
      else
        match ReadUpTo(look, RELAY_READ)
        case Some(data) => e.Type? && e.data == data
        case None => e == C.TypeEnds
    }

    /** The descriptors in client_loop, one after the other. */
    method Serve(poll: Poll) returns (ret: int)
      requires Valid() && model.pc == C.Remote && poll.Ready?
      modifies this, buffer, buffer.buffer
      ensures Valid() && old(history) <= history && (ret == 0 || ret == -1)
      ensures if ret == 0 then model.pc == C.Top else model.pc.Exited?
      ensures old(own) <= own && (ret == 0 ==> BothServed(own, |old(own)|, poll))
      ensures works ==> !C.Broken(model)
    {
      ret := ServeRemote(poll.remote);
      if ret != 0 {
        return -1;
      }
      ghost var soFar := own;
      ret := ServeInput(poll.input);
      assert own[..|own| - 1] == soFar;
    }

    /** pselect with its signal mask: what is pending is delivered. */
    method Deliver()
      requires Valid() && model.pc == C.Select
      modifies this`sigwinch, this`sigterm, this`winchPending, this`termPending, this`model, this`history,
               this`own
      ensures Valid() && old(history) <= history && model.pc == C.Top
      ensures var winch, term := old(winchPending), old(termPending);
              own == old(own) + [if winch || term then C.Interrupted(winch, term) else C.Timeout]
    {
      if winchPending || termPending {
        Interrupt();
      } else {
        Move(C.Timeout);
      }
    }

    /** The handlers of what is pending raise their flags. */
    method Interrupt()
      requires Valid() && model.pc == C.Select && (winchPending || termPending)
      modifies this`sigwinch, this`sigterm, this`winchPending, this`termPending, this`model, this`history,
               this`own
      ensures Valid() && old(history) <= history && model.pc == C.Top
      ensures own == old(own) + [C.Interrupted(old(winchPending), old(termPending))]
    {
      Plain(C.Interrupted(winchPending, termPending));
      sigwinch := sigwinch || winchPending;
      sigterm := sigterm || termPending;
      winchPending, termPending := false, false;
    }

    /** The session's descriptor in client_loop. The buffer always has room here, so the read cannot mistake a
        full buffer for the end of the stream. */
    method ServeRemote(look: Look) returns (ret: int)
      requires Valid() && model.pc == C.Remote
      modifies this, buffer, buffer.buffer
      ensures Valid() && old(history) <= history && (ret == 0 || ret == -1)
      ensures if ret == 0 then model.pc == C.Input else model.pc.Exited?
      ensures |old(model).buf| + 2 <= Decoder.CAPACITY
      ensures old(own) < own && (ret == 0 ==> RemoteServed(own, |old(own)|, look))
      ensures works ==> !C.Broken(model)
    {
      RoomToRead();
      Outside();
      if look == Idle {
        Move(C.NotReady);
        return 0;
      }
      var space := buffer.GetBufferSpace();
      ret := ProcessRemote(ReadUpTo(look, space));
    }

    /** The buffer has room at every read, so a read never mistakes a full buffer for the end. */
    lemma RoomToRead()
      requires Valid() && model.pc == C.Remote
      ensures |model.buf| <= Decoder.CAPACITY - 2
    {
      AlwaysSafe();
    }

    method ServeInput(look: Look) returns (ret: int)
      requires Valid() && model.pc == C.Input
      modifies this
      ensures Valid() && old(history) <= history && (ret == 0 || ret == -1)
      ensures if ret == 0 then model.pc == C.Top else model.pc.Exited?
      ensures exists e :: InputServed(e, look) && own == old(own) + [e]
      ensures works ==> !C.Broken(model)
    {
      Outside();
      if look == Idle {
        Move(C.NotReady);
        ret := 0;
      } else {
        ghost var wrote;
        ret, wrote := ProcessInput(ReadUpTo(look, RELAY_READ));
      }
      assert InputServed(own[|own| - 1], look);
    }

    /** client_loop, for what pselect answers in its rounds: 0 or -1 once it returns, 1 while it is still
        running. */
    method Loop(polls: seq<Poll>) returns (ret: int)
      requires Valid() && model.pc == C.Top && (works ==> Fails !in polls)
      modifies this, buffer, buffer.buffer
      ensures Valid() && old(history) <= history && -1 <= ret <= 1
      ensures if ret == 1 then model.pc == C.Top else model.pc.Exited?
      ensures ret == 0 ==> model.pc.cause == C.LoopDone && sigterm
      ensures ret == 1 ==> |own| >= |old(own)| + 2 * |polls|
      ensures works && mode == Tty ==> !C.Broken(model)
    {
      for n := 0 to |polls|
        invariant Valid() && old(history) <= history && model.pc == C.Top
        invariant |own| >= |old(own)| + 2 * n
      {
        if sigterm {
          LoopStep(true);
          return 0;
        }
        ret := Sigwinch();
        if ret != 0 {
          return -1;
        }
        ret := SelectAndServe(polls[n]);
        if ret != 0 {
          return -1;
        }
      }
      ret := 1;
    }

    /** main after client_loop returned 0: the process's exit code is the machine's. */
    method ExitCode() returns (code: nat)
      requires Valid() && model.pc.Exited? && model.pc.cause == C.LoopDone
      ensures model.core.status.Known? ==> code == model.pc.code
      ensures forall how: Ending | model.core.status == C.Known(WaitStatus(how)) ::
                code == match how case ByExit(n) => n case BySignal(_, _) => 255
    {
      AlwaysSafe();
      forall how: Ending | model.core.status == C.Known(WaitStatus(how))
        ensures model.pc.code == match how case ByExit(n) => n case BySignal(_, _) => 255
      {
        CS.CodeOf(model, how);
      }
      if !C.WIfExited(status) {
        return 255;
      }
      code := C.WExitStatus(status);
    }
  }
}
