/** The per-connection session process of server/child.c as a machine that makes one system call, or
    runs one frame, at a time. */
module Session {
  import opened Bytes
  import opened Message
  import opened Kernel
  import opened Descriptors
  import Decoder
  import ForkPayload

  /** The guest a session started, and its terminal's first settings. */
  datatype Spawn = Spawn(mode: Mode, pid: int, argv: seq<CString>, env: seq<CString>, termios: bytes)

  /** The state child_execute works on, with what the outside world has seen of it: the guest's
      stdin, the terminal's window size, and the frames accepted so far. */
  datatype Core = Core(
    remote: int,
    pid: int,
    pty: bool,
    fin: int,
    fout: int,
    ferr: int,
    fds: Table,
    kids: Children,
    guest: Option<Spawn>,
    guestIn: bytes,
    ptySize: bytes,
    log: seq<Frame>)

  /** What the kernel answers while one frame is executed. */
  datatype Answer = Answer(written: int, resized: bool, fork: Forked)

  datatype Verdict = Fine | Refused | OsFailed

  datatype Executed = Executed(core: Core, verdict: Verdict)

  /** The lists of a fork frame that passes the length check and parses. */
  function ListsOf(f: Frame): Option<ForkPayload.Lists>
    requires IsFork(f)
  {
    var skip := Preamble(ModeOf(f));
    if |f.body| < skip + 1 then None else ForkPayload.Unpack(f.body[skip..])
  }

  /** A successful fork as the kernel can answer it. */
  predicate Possible(c: Core, mode: Mode, r: Forked) {
    && r.Guest? && r.pid > 0
    && r.pid !in c.kids.alive && r.pid !in c.kids.zombies
    && FreshFor(c.fds, mode, r.fin, r.fout, r.ferr)
  }

  /** child_execute_fork_* and child_fork. */
  function ExecuteFork(c: Core, f: Frame, answer: Answer): Executed
    requires IsFork(f)
  {
    var mode := ModeOf(f);
    match ListsOf(f)
    case None => Executed(c, Refused)
    case Some(lists) =>
      var r := answer.fork;
      if c.pid >= 0 then
        Executed(c, Refused)
      else if !Possible(c, mode, r) then
        Executed(c.(pty := mode == Tty), OsFailed)
      else
        Executed(
          c.(pid := r.pid, pty := mode == Tty, fin := r.fin, fout := r.fout, ferr := r.ferr,
             fds := Attached(c.fds, mode, r.fin, r.fout, r.ferr),
             kids := WithChild(c.kids, r.pid),
             guest := Some(Spawn(mode, r.pid, lists.argv, lists.env, TerminalIn(f).termios)),
             ptySize := if mode == Tty then TerminalIn(f).size else c.ptySize),
          Fine)
  }

  /** child_execute_winsize: ignored without a terminal. */
  function ExecuteWinsize(c: Core, f: Frame, answer: Answer): Executed {
    if |f.body| != WINSIZE_BYTES then Executed(c, Refused)
    else if !c.pty then Executed(c, Fine)
    else if !answer.resized then Executed(c, OsFailed)
    else Executed(c.(ptySize := f.body), Fine)
  }

  /** child_execute_stdin: a short write ends the session. Before the guest exists there is no
      descriptor to write to. */
  function ExecuteStdin(c: Core, f: Frame, answer: Answer): Executed {
    if |f.body| < 1 || c.fin < 0 then
      Executed(c, Refused)
    else
      var n := Clamp(answer.written, |f.body|);
      Executed(c.(guestIn := c.guestIn + f.body[..n]), if n == |f.body| then Fine else OsFailed)
  }

  /** child_execute; an accepted frame joins the log. */
  function Execute(c: Core, f: Frame, answer: Answer): Executed {
    var r :=
      if IsFork(f) then ExecuteFork(c, f, answer)
      else if f.kind == WINSIZE then ExecuteWinsize(c, f, answer)
      else if f.kind == STDIN then ExecuteStdin(c, f, answer)
      else Executed(c, Refused);
    if r.verdict == Fine then Executed(r.core.(log := c.log + [f]), Fine) else r
  }

  /** Why a session stopped. */
  datatype Cause =
    | AlarmStop       // child_run said stop because of the alarm
    | Finished        // child_run said stop because guest and outputs are gone
    | GuestExited     // child_sigchld reaped the guest
    | RefusedFrame    // child_execute refused a frame
    | ClientGone      // read from the client failed or hit end of file
    | OsError         // some other system call failed or fell short

  /** Where child_loop is. */
  datatype Pc =
    | Top                 // about to call child_run
    | Reap(found: bool)   // in child_sigchld before waitpid; found is its ret
    | Clear(found: bool)  // in child_sigchld before it clears the flag
    | Select              // about to call, or inside, pselect
    | Remote              // before the client's descriptor is looked at
    | Dispatch            // in child_process_remote's frame loop
    | Out                 // before the guest's stdout is looked at
    | Err                 // before the guest's stderr is looked at
    | Ended(cause: Cause)

  datatype Session = Session(
    core: Core,
    buf: bytes,
    handshaking: bool,
    sigalrm: bool,
    sigchld: bool,
    alrmPending: bool,
    received: bytes,         // everything read from the client
    gout: bytes,             // everything read from the guest's stdout
    gerr: bytes,             // everything read from the guest's stderr
    sent: bytes,             // everything written to the client
    slog: seq<Frame>,        // the whole frames among it
    exits: map<int, Ending>, // how every child that has exited ended
    pc: Pc)

  /** child_main before child_loop. Any children it may have are not its guest. */
  function Start(remote: int, others: set<int>): Session {
    Session(
      Core(remote, -1, false, -1, -1, -1,
           map[0 := Inherited, 1 := Inherited, 2 := Inherited, remote := Connection],
           Children(others, map[], false), None, [], [], []),
      [], true, false, false, false, [], [], [], [], [], map[], Top)
  }

  datatype Event =
    | Run(canceled: bool)                     // child_run; did set_alarm_timer(0) work
    | WaitChild(child: int, written: int)     // waitpid returns a child
    | WaitNone                                // waitpid returns 0 or ECHILD
    | WaitFails
    | ClearFlag
    | Interrupted(chld: bool, alrm: bool)     // pselect delivers pending signals: EINTR
    | Timeout
    | SelectFails
    | Ready                                   // pselect reports descriptors
    | NotReady                                // this descriptor is not among them
    | Read(chunk: bytes)
    | ReadEnds
    | RunFrame(answer: Answer)                    // execute the frame at the front
    | BufferDry                               // no whole frame left
    | Output(data: bytes, wrote: int)         // relay one read of guest output
    | OutputEnds                              // end of guest output: close it
    | ChildExits(pid: int, how: Ending)       // outside: a child ends
    | ChildStops                              // outside: a child stops or is continued
    | AlarmRings                              // outside: the timer expires

  predicate Enabled(s: Session, e: Event) {
    match e
    case Run(_) => s.pc == Top
    case WaitChild(p, _) => s.pc.Reap? && p in s.core.kids.zombies
    case WaitNone => s.pc.Reap? && s.core.kids.zombies == map[]
    case WaitFails => s.pc.Reap?
    case ClearFlag => s.pc.Clear?
    case Interrupted(chld, alrm) =>
      s.pc == Select && (chld || alrm) && (chld ==> s.core.kids.pending) && (alrm ==> s.alrmPending)
    case Timeout => s.pc == Select
    case SelectFails => s.pc == Select
    case Ready => s.pc == Select
    case NotReady => s.pc in {Remote, Out, Err}
    case Read(chunk) => s.pc == Remote && 1 <= |chunk| <= Decoder.CAPACITY - |s.buf|
    case ReadEnds => s.pc == Remote
    case RunFrame(_) => s.pc == Dispatch && HasFrame(s.buf)
    case BufferDry => s.pc == Dispatch && !HasFrame(s.buf)
    case Output(data, _) => 1 <= |data| <= RELAY_READ && HasOutput(s)
    case OutputEnds => HasOutput(s)
    case ChildExits(p, _) => !s.pc.Ended? && p in s.core.kids.alive
    case ChildStops => !s.pc.Ended? && s.core.kids.alive != {}
    case AlarmRings => !s.pc.Ended?
  }

  /** The events that happen to the session; the others it makes itself. */
  predicate FromOutside(e: Event) {
    e.ChildExits? || e == ChildStops || e == AlarmRings
  }

  /** The session has ended because a system call failed or fell short. */
  predicate Broken(s: Session) {
    s.pc == Ended(OsError)
  }

  /** The descriptor of the output whose turn it is, or -1. */
  function Source(s: Session): int {
    if s.pc == Out then s.core.fout else if s.pc == Err then s.core.ferr else -1
  }

  /** child_process_output is called: that descriptor is open. */
  predicate HasOutput(s: Session) {
    Source(s) >= 0
  }

  /** Those the session makes itself. */
  function Own(es: seq<Event>): seq<Event> {
    if es == [] then []
    else Own(es[..|es| - 1]) + if FromOutside(es[|es| - 1]) then [] else [es[|es| - 1]]
  }

  function End(s: Session, cause: Cause): Session {
    s.(pc := Ended(cause))
  }

  /** write(2) of a whole frame; anything short of it ends the session. */
  function Put(s: Session, f: Frame, wrote: int): Session {
    var b := Encode(f);
    var n := Clamp(wrote, |b|);
    if n == |b| then s.(sent := s.sent + b, slog := s.slog + [f])
    else End(s.(sent := s.sent + b[..n]), OsError)
  }

  /** child_run, then into child_sigchld. */
  function StepRun(s: Session, canceled: bool): Session {
    var t := if s.sigalrm then s.(handshaking := false) else s;
    if s.sigalrm && s.handshaking && !canceled then
      End(t, OsError)
    else if s.sigalrm && s.core.pid < 0 then
      End(t, AlarmStop)
    else if s.core.fout >= 0 || s.core.ferr >= 0 || s.core.pid != 0 then
      t.(pc := if s.sigchld then Reap(false) else Select)
    else
      End(t, Finished)
  }

  /** One child reaped in child_sigchld; for the guest, its status goes to the client. */
  function StepWait(s: Session, p: int, wrote: int): Session
    requires s.pc.Reap? && p in s.core.kids.zombies
  {
    var t := s.(core := s.core.(kids := WithoutZombie(s.core.kids, p)));
    if p != s.core.pid then
      t
    else
      Put(t.(core := t.core.(pid := 0), pc := Reap(true)), StatusFrame(s.core.kids.zombies[p]), wrote)
  }

  function StatusFrame(status: nat): Frame {
    Frame(STATUS, U32(status % 0x1_0000_0000))
  }

  /** After child_execute: consume the frame, or stop with it still at the front. */
  function Settle(s: Session, r: Executed): Session
    requires HasFrame(s.buf)
  {
    match r.verdict
    case Fine => s.(core := r.core, buf := s.buf[Length(s.buf)..])
    case Refused => s.(core := r.core, pc := Ended(RefusedFrame))
    case OsFailed => s.(core := r.core, pc := Ended(OsError))
  }

  function StepExecute(s: Session, answer: Answer): Session
    requires HasFrame(s.buf)
  {
    Settle(s, Execute(s.core, Front(s.buf), answer))
  }

  /** child_process_output with data. */
  function StepOutput(s: Session, data: bytes, wrote: int): Session
    requires 1 <= |data| <= RELAY_READ
  {
    if s.pc == Out then
      var t := Put(s.(gout := s.gout + data), Frame(STDOUT, data), wrote);
      if t.pc.Ended? then t else t.(pc := Err)
    else
      var t := Put(s.(gerr := s.gerr + data), Frame(STDERR, data), wrote);
      if t.pc.Ended? then t else t.(pc := Top)
  }

  /** child_process_output at end of file. */
  function StepOutputEnds(s: Session): Session {
    var c := s.core;
    if s.pc == Out then s.(core := c.(fds := c.fds - {c.fout}, fout := -1), pc := Err)
    else s.(core := c.(fds := c.fds - {c.ferr}, ferr := -1), pc := Top)
  }

  /** The events whose effect is written out in Plain. */
  predicate IsPlain(e: Event) {
    !e.Run? && !e.WaitChild? && !e.RunFrame? && !e.Output? && e != OutputEnds
  }

  function Plain(s: Session, e: Event): Session
    requires Enabled(s, e) && IsPlain(e)
  {
    match e
    case WaitNone => s.(pc := Clear(s.pc.found))
    case WaitFails => End(s, OsError)
    case ClearFlag =>
      s.(sigchld := false, pc := if s.pc.found then Ended(GuestExited) else Select)
    case Interrupted(chld, alrm) =>
      s.(pc := Top,
         sigchld := s.sigchld || chld,
         core := if chld then s.core.(kids := WithoutPending(s.core.kids)) else s.core,
         sigalrm := s.sigalrm || alrm,
         alrmPending := s.alrmPending && !alrm)
    case Timeout => s.(pc := Top)
    case SelectFails => End(s, OsError)
    case Ready => s.(pc := Remote)
    case NotReady => s.(pc := if s.pc == Remote then Out else if s.pc == Out then Err else Top)
    case Read(chunk) => s.(buf := s.buf + chunk, received := s.received + chunk, pc := Dispatch)
    case ReadEnds => End(s, ClientGone)
    case BufferDry => s.(pc := Out)
    case ChildExits(p, how) =>
      s.(core := s.core.(kids := WithExit(s.core.kids, p, how)), exits := s.exits[p := how])
    case ChildStops => s.(core := s.core.(kids := WithSignal(s.core.kids)))
    case AlarmRings => s.(alrmPending := true)
  }

  function Next(s: Session, e: Event): Session
    requires Enabled(s, e)
  {
    match e
    case Run(canceled) => StepRun(s, canceled)
    case WaitChild(p, wrote) => StepWait(s, p, wrote)
    case RunFrame(answer) => StepExecute(s, answer)
    case Output(data, wrote) => StepOutput(s, data, wrote)
    case OutputEnds => StepOutputEnds(s)
    case _ => Plain(s, e)
  }

  /** The session as a machine. */
  function Step(s: Session, e: Event): Option<Session> {
    if Enabled(s, e) then Some(Next(s, e)) else None
  }
}
