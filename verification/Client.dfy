/** client/jail.c: the jail program as a machine that makes one system call, or handles one frame, at
    a time. */
module Client {
  import opened Bytes
  import opened Message
  import Decoder
  import ForkPayload

  /** g_client_status starts as the int -1. */
  const NO_STATUS := 0xFFFF_FFFF

  /** What g_client_status holds. client_process_remote_status checks sizeof(message_t), not
      sizeof(message_status_t): a status frame of 5 to 7 bytes is accepted, and the int is then read
      past the frame's end. */
  datatype Status = Known(bits: nat) | PastTheFrame

  /** The state client_dispatch_remote works on, with what the terminal side has seen. */
  datatype Core = Core(
    status: Status,
    sigterm: bool,
    out: bytes,              // written to stdout
    err: bytes,              // written to stderr
    log: seq<Frame>)         // the frames accepted so far

  datatype Verdict = Fine | Refused | OsFailed

  datatype Dispatched = Dispatched(core: Core, verdict: Verdict)

  /** client_dispatch_remote; wrote is what write(2) returns. */
  function Dispatch(c: Core, f: Frame, wrote: int): Dispatched {
    var r :=
      if f.kind == STDOUT || f.kind == STDERR then
        if |f.body| < 1 then
          Dispatched(c, Refused)
        else
          var n := Clamp(wrote, |f.body|);
          var verdict := if n == |f.body| then Fine else OsFailed;
          Dispatched(
            if f.kind == STDOUT then c.(out := c.out + f.body[..n]) else c.(err := c.err + f.body[..n]),
            verdict)
      else if f.kind == STATUS then
        if |f.body| < 1 then Dispatched(c, Refused)
        else
          Dispatched(
            c.(status := if |f.body| < STATUS_BYTES then PastTheFrame else Known(ReadU32(f.body, 0)),
               sigterm := true),
            Fine)
      else
        Dispatched(c, Refused);
    if r.verdict == Fine then Dispatched(r.core.(log := c.log + [f]), Fine) else r
  }

  /** Why the client stopped. */
  datatype Cause = LoopDone | RefusedFrame | RemoteGone | InputGone | TooLong | OsError

  /** Where the client is: in client_execute, in client_loop, or gone. */
  datatype Pc =
    | Starting                // before client_execute
    | Started(size: bytes)    // fork frame built; size is what TIOCGWINSZ said
    | Top                     // at the head of client_loop
    | Sized(size: bytes)      // in client_sigwinch after TIOCGWINSZ
    | Wrote                   // in client_sigwinch before the flag is cleared
    | Select                  // about to call, or inside, pselect
    | Remote                  // before the session's descriptor is looked at
    | Handle                  // in client_process_remote's frame loop
    | Input                   // before stdin is looked at
    | Exited(cause: Cause, code: nat)

  datatype Client = Client(
    mode: Mode,
    argv: seq<CString>,
    environ: seq<CString>,
    termios: bytes,
    term: bytes,             // the terminal's current window size
    winchPending: bool,
    termPending: bool,
    sigwinch: bool,
    core: Core,
    buf: bytes,
    received: bytes,         // everything read from the session
    typed: bytes,            // everything read from stdin
    sent: bytes,             // everything written to the session
    slog: seq<Frame>,        // the whole frames among it
    pc: Pc)

  function Start(mode: Mode, argv: seq<CString>, environ: seq<CString>, termios: bytes, term: bytes)
    : Client
  {
    Client(mode, argv, environ, termios, term, false, false, false,
           Core(Known(NO_STATUS), false, [], [], []), [], [], [], [], [], Starting)
  }

  /** Header bytes before the lists of a fork frame. */
  function Offset(mode: Mode): nat {
    HEADER + Preamble(mode)
  }

  /** The fork request client_execute_* builds, if the lists fit. */
  function ForkFrame(c: Client, size: bytes): (r: Option<Frame>)
    requires |c.termios| == TERMIOS_BYTES && |size| == WINSIZE_BYTES
  {
    match ForkPayload.Prepare(c.argv, c.environ, Offset(c.mode))
    case None => None
    case Some(lists) =>
      Some(match c.mode
           case Socket => Frame(FORK_SOCKET, lists)
           case Pipe => Frame(FORK_PIPE, lists)
           case Tty => Frame(FORK_TTY, c.termios + size + lists))
  }

  datatype Event =
    | Prepare(able: bool)              // build the fork frame; was there memory, and did TIOCGWINSZ work
    | Execute(wrote: int)              // write it
    | Loop(sized: bool)                // head of client_loop; did TIOCGWINSZ work if it was needed
    | WriteSize(wrote: int)
    | ClearFlag
    | Interrupted(winch: bool, term: bool)  // pselect delivers pending signals: EINTR
    | Timeout
    | SelectFails
    | Ready
    | NotReady
    | Read(chunk: bytes)
    | ReadEnds
    | HandleFrame(wrote: int)
    | BufferDry
    | Type(data: bytes, wrote: int)    // client_process_input
    | TypeEnds
    | Resize(size: bytes)              // outside: the terminal changes size
    | Terminate                        // outside: HUP, INT, QUIT or TERM

  predicate Enabled(c: Client, e: Event) {
    match e
    case Prepare(_) => c.pc == Starting
    case Execute(_) => c.pc.Started?
    case Loop(_) => c.pc == Top
    case WriteSize(_) => c.pc.Sized?
    case ClearFlag => c.pc == Wrote
    case Interrupted(winch, term) =>
      c.pc == Select && (winch || term) && (winch ==> c.winchPending) && (term ==> c.termPending)
    case Timeout => c.pc == Select
    case SelectFails => c.pc == Select
    case Ready => c.pc == Select
    case NotReady => c.pc == Remote || c.pc == Input
    case Read(chunk) => c.pc == Remote && 1 <= |chunk| <= Decoder.CAPACITY - |c.buf|
    case ReadEnds => c.pc == Remote
    case HandleFrame(_) => c.pc == Handle && HasFrame(c.buf)
    case BufferDry => c.pc == Handle && !HasFrame(c.buf)
    case Type(data, _) => c.pc == Input && 1 <= |data| <= RELAY_READ
    case TypeEnds => c.pc == Input
    case Resize(size) => !c.pc.Exited? && |size| == WINSIZE_BYTES
    case Terminate => !c.pc.Exited?
  }

  /** The events that happen to the client; the others it makes itself. */
  predicate FromOutside(e: Event) {
    e.Resize? || e == Terminate
  }

  /** Those the client makes itself. */
  function Own(es: seq<Event>): seq<Event> {
    if es == [] then []
    else Own(es[..|es| - 1]) + if FromOutside(es[|es| - 1]) then [] else [es[|es| - 1]]
  }

  /** The client has ended because a system call failed or fell short. */
  predicate Broken(c: Client) {
    c.pc.Exited? && c.pc.cause == OsError
  }

  function Exit(c: Client, cause: Cause): Client {
    c.(pc := Exited(cause, 255))
  }

  /** write(2) of a whole frame; anything short of it ends the client. */
  function Put(c: Client, f: Frame, wrote: int): Client {
    var b := Encode(f);
    var n := Clamp(wrote, |b|);
    if n == |b| then c.(sent := c.sent + b, slog := c.slog + [f])
    else Exit(c.(sent := c.sent + b[..n]), OsError)
  }

  predicate WIfExited(bits: nat) {
    bits % 128 == 0
  }

  function WExitStatus(bits: nat): nat {
    (bits / 256) % 256
  }

  /** main after client_loop: the guest's exit status, or 255. An indeterminate status gives an
      indeterminate code, written here as 256. */
  function ExitCode(status: Status): nat {
    match status
    case Known(bits) => if WIfExited(bits) then WExitStatus(bits) else 255
    case PastTheFrame => 256
  }

  function StepExecute(c: Client, wrote: int): Client
    requires c.pc.Started? && |c.termios| == TERMIOS_BYTES && |c.pc.size| == WINSIZE_BYTES
  {
    match ForkFrame(c, c.pc.size)
    case None => Exit(c, TooLong)
    case Some(f) => Put(c.(pc := Top), f, wrote)
  }

  /** The head of client_loop and the first half of client_sigwinch. Only a terminal answers
      TIOCGWINSZ. */
  function StepLoop(c: Client, sized: bool): Client {
    if c.core.sigterm then c.(pc := Exited(LoopDone, ExitCode(c.core.status)))
    else if !c.sigwinch then c.(pc := Select)
    else if c.mode == Tty && sized then c.(pc := Sized(c.term))
    else Exit(c, OsError)
  }

  function StepWriteSize(c: Client, wrote: int): Client
    requires c.pc.Sized? && |c.pc.size| == WINSIZE_BYTES
  {
    Put(c.(pc := Wrote), Frame(WINSIZE, c.pc.size), wrote)
  }

  function Settle(c: Client, r: Dispatched): Client
    requires HasFrame(c.buf)
  {
    match r.verdict
    case Fine => c.(core := r.core, buf := c.buf[Length(c.buf)..])
    case Refused => Exit(c.(core := r.core), RefusedFrame)
    case OsFailed => Exit(c.(core := r.core), OsError)
  }

  function StepHandle(c: Client, wrote: int): Client
    requires HasFrame(c.buf)
  {
    Settle(c, Dispatch(c.core, Front(c.buf), wrote))
  }

  function StepType(c: Client, data: bytes, wrote: int): Client
    requires 1 <= |data| <= RELAY_READ
  {
    Put(c.(typed := c.typed + data, pc := Top), Frame(STDIN, data), wrote)
  }

  /** The terminal's size changes; the kernel raises SIGWINCH if it really differs. */
  function StepResize(c: Client, size: bytes): Client {
    c.(term := size, winchPending := c.winchPending || size != c.term)
  }

  /** Sizes have their C sizes. */
  predicate WellSized(c: Client) {
    && |c.termios| == TERMIOS_BYTES && |c.term| == WINSIZE_BYTES
    && (c.pc.Started? ==> |c.pc.size| == WINSIZE_BYTES)
    && (c.pc.Sized? ==> |c.pc.size| == WINSIZE_BYTES)
  }

  /** The events whose effect is written out in Plain. */
  predicate IsPlain(e: Event) {
    !e.Execute? && !e.Loop? && !e.WriteSize? && !e.HandleFrame? && !e.Type?
  }

  function Plain(c: Client, e: Event): Client
    requires WellSized(c) && Enabled(c, e) && IsPlain(e)
  {
    match e
    case Prepare(able) => if able then c.(pc := Started(c.term)) else Exit(c, OsError)
    case ClearFlag => c.(sigwinch := false, pc := Select)
    case Interrupted(winch, term) =>
      c.(pc := Top,
         sigwinch := c.sigwinch || winch,
         winchPending := c.winchPending && !winch,
         core := c.core.(sigterm := c.core.sigterm || term),
         termPending := c.termPending && !term)
    case Timeout => c.(pc := Top)
    case SelectFails => Exit(c, OsError)
    case Ready => c.(pc := Remote)
    case NotReady => c.(pc := if c.pc == Remote then Input else Top)
    case Read(chunk) => c.(buf := c.buf + chunk, received := c.received + chunk, pc := Handle)
    case ReadEnds => Exit(c, RemoteGone)
    case BufferDry => c.(pc := Input)
    case TypeEnds => Exit(c, InputGone)
    case Resize(size) => StepResize(c, size)
    case Terminate => c.(termPending := true)
  }

  function Next(c: Client, e: Event): Client
    requires WellSized(c) && Enabled(c, e)
  {
    match e
    case Execute(wrote) => StepExecute(c, wrote)
    case Loop(sized) => StepLoop(c, sized)
    case WriteSize(wrote) => StepWriteSize(c, wrote)
    case HandleFrame(wrote) => StepHandle(c, wrote)
    case Type(data, wrote) => StepType(c, data, wrote)
    case _ => Plain(c, e)
  }

  /** The client as a machine. */
  function Step(c: Client, e: Event): Option<Client> {
    if WellSized(c) && Enabled(c, e) then Some(Next(c, e)) else None
  }
}
