/** A client and its session over the two directions of one connection: what holds end to end in every
    run, however their steps interleave and however the wires cut the streams into reads. */
module Relay {
  import opened Bytes
  import opened Message
  import opened StringList
  import opened Kernel
  import ForkPayload
  import GuestEnv
  import Runs
  import C = Client
  import CS = ClientSafety
  import S = Session
  import SS = SessionSafety

  /** The wires need no state of their own: what one side has sent and the other not read is in flight. */
  datatype System = System(c: C.Client, s: S.Session)

  datatype Event = ByClient(ce: C.Event) | BySession(se: S.Event)

  /** Reads return the next bytes in flight; everything else is the two machines' own business. */
  predicate Enabled(y: System, e: Event) {
    match e
    case ByClient(ce) =>
      C.Enabled(y.c, ce) && (ce.Read? ==> y.c.received + ce.chunk <= y.s.sent)
    case BySession(se) =>
      S.Enabled(y.s, se) && (se.Read? ==> y.s.received + se.chunk <= y.c.sent)
  }

  function Next(y: System, e: Event): System
    requires C.WellSized(y.c) && Enabled(y, e)
  {
    match e
    case ByClient(ce) => y.(c := C.Next(y.c, ce))
    case BySession(se) => y.(s := S.Next(y.s, se))
  }

  /** Client and session together as a machine. */
  function Step(y: System, e: Event): Option<System> {
    if C.WellSized(y.c) && Enabled(y, e) then Some(Next(y, e)) else None
  }

  /** What the session has been given and not executed: its buffer and the wire. */
  function Upward(y: System): bytes
    requires |y.s.received| <= |y.c.sent|
  {
    y.s.buf + y.c.sent[|y.s.received|..]
  }

  /** What the client has been given and not handled. */
  function Downward(y: System): bytes
    requires |y.c.received| <= |y.s.sent|
  {
    y.c.buf + y.s.sent[|y.c.received|..]
  }

  /** Neither side refuses a frame the other sends. */
  ghost predicate Compatible(y: System) {
    && y.s.pc != S.Ended(S.RefusedFrame)
    && !(y.c.pc.Exited? && y.c.pc.cause == C.RefusedFrame)
  }

  ghost predicate Safe(y: System) {
    && CS.Safe(y.c) && SS.Safe(y.s)
    && y.s.received <= y.c.sent && y.c.received <= y.s.sent
    && Compatible(y)
  }

  /** The frames the session has accepted are the first ones the client sent, and what follows is in
      flight. */
  lemma UpFrames(c: C.Client, s: S.Session)
    requires CS.Safe(c) && SS.InStream(s) && s.received <= c.sent
    ensures s.core.log <= c.slog
    ensures var cut := c.sent[|EncodeAll(c.slog)|..];
            Upward(System(c, s)) == EncodeAll(c.slog[|s.core.log|..]) + cut
            && AllHaveBodies(c.slog) && Fragment(cut)
  {
    var cut := c.sent[|EncodeAll(c.slog)|..];
    ClientBodies(c);
    Direction(s.core.log, s.buf, s.received, c.slog, cut, c.sent);
  }

  lemma ClientBodies(c: C.Client)
    requires CS.Safe(c)
    ensures AllHaveBodies(c.slog)
  {
    if c.slog != [] {
      var size: bytes :| |size| == WINSIZE_BYTES && C.ForkFrame(c, size) == Some(c.slog[0]);
      CS.RequestShape(c, size);
    }
  }

  lemma DownFrames(c: C.Client, s: S.Session)
    requires SS.Safe(s) && CS.InStream(c) && c.received <= s.sent
    ensures c.core.log <= s.slog
    ensures var cut := s.sent[|EncodeAll(s.slog)|..];
            Downward(System(c, s)) == EncodeAll(s.slog[|c.core.log|..]) + cut
            && AllHaveBodies(s.slog) && Fragment(cut)
  {
    var cut := s.sent[|EncodeAll(s.slog)|..];
    assert AllHaveBodies(s.slog);
    Direction(c.core.log, c.buf, c.received, s.slog, cut, s.sent);
  }

  /** The frame a session is about to execute is the client's next one. */
  lemma SessionFront(c: C.Client, s: S.Session)
    requires CS.Safe(c) && SS.InStream(s) && s.received <= c.sent && HasFrame(s.buf)
    ensures s.core.log <= c.slog && |s.core.log| < |c.slog|
    ensures Front(s.buf) == c.slog[|s.core.log|]
  {
    UpFrames(c, s);
    NextFrame(s.buf, c.slog[|s.core.log|..], c.sent[|EncodeAll(c.slog)|..]);
  }

  lemma ClientFront(c: C.Client, s: S.Session)
    requires SS.Safe(s) && CS.InStream(c) && c.received <= s.sent && HasFrame(c.buf)
    ensures c.core.log <= s.slog && |c.core.log| < |s.slog|
    ensures Front(c.buf) == s.slog[|c.core.log|]
  {
    DownFrames(c, s);
    NextFrame(c.buf, s.slog[|c.core.log|..], s.sent[|EncodeAll(s.slog)|..]);
  }

  /** Only the first of a client's frames is a fork. */
  lemma {:induction false} ForksOfPrefix(c: C.Client, log: seq<Frame>)
    requires CS.Safe(c) && log <= c.slog
    ensures Forks(log) == if log == [] then [] else [c.slog[0]]
  {
    if log != [] {
      var n := |log| - 1;
      ForksOfPrefix(c, log[..n]);
      if n == 0 {
        var size: bytes :| |size| == WINSIZE_BYTES && C.ForkFrame(c, size) == Some(c.slog[0]);
        CS.RequestShape(c, size);
      } else {
        assert CS.Follows(c.mode, c.slog[n]);
      }
    }
  }

  /** The client's request parses on the other side, to the lists of ForkPayload.Received. */
  lemma RequestAccepted(c: C.Client, f: Frame)
    requires CS.Safe(c) && CS.IsRequest(c, f)
    ensures IsFork(f) && ModeOf(f) == c.mode && |f.body| >= Preamble(c.mode)
    ensures c.mode == Tty ==> TerminalIn(f).termios == c.termios
    ensures S.ListsOf(f) == Some(ForkPayload.Received(c.argv, c.environ))
  {
    var size: bytes :| |size| == WINSIZE_BYTES && C.ForkFrame(c, size) == Some(f);
    CS.RequestShape(c, size);
    ForkPayload.PrepareFits(c.argv, c.environ, C.Offset(c.mode));
    ForkPayload.RoundTrip(c.argv, c.environ, C.Offset(c.mode));
  }

  /** Protocol compatibility upward: in any reachable state, whatever the kernel answers, executing the
      next frame is never refused - not by a length check, not by the list parser, not as a second
      fork, and input never comes before the guest. */
  lemma SessionAccepts(y: System, answer: S.Answer)
    requires Safe(y) && y.s.pc == S.Dispatch && HasFrame(y.s.buf)
    ensures S.Execute(y.s.core, Front(y.s.buf), answer).verdict != S.Refused
  {
    var c, s := y.c, y.s;
    SessionFront(c, s);
    ForksOfPrefix(c, s.core.log);
    var f := Front(s.buf);
    if |s.core.log| == 0 {
      RequestAccepted(c, f);
      FirstAccepted(s.core, f, answer);
    } else {
      LaterAccepted(c.mode, s.core, f, answer);
    }
  }

  lemma FirstAccepted(core: S.Core, f: Frame, answer: S.Answer)
    requires SS.CoreLifecycle(core) && core.log == [] && IsFork(f) && S.ListsOf(f).Some?
    ensures S.Execute(core, f, answer).verdict != S.Refused
  {
  }

  lemma LaterAccepted(mode: Mode, core: S.Core, f: Frame, answer: S.Answer)
    requires SS.CoreLifecycle(core) && SS.DescriptorsOwned(core) && Forks(core.log) != [] && CS.Follows(mode, f)
    ensures S.Execute(core, f, answer).verdict != S.Refused
  {
  }

  /** Protocol compatibility downward. */
  lemma ClientAccepts(y: System, wrote: int)
    requires Safe(y) && y.c.pc == C.Handle && HasFrame(y.c.buf)
    ensures C.Dispatch(y.c.core, Front(y.c.buf), wrote).verdict != C.Refused
  {
    ClientFront(y.c, y.s);
    assert SS.SessionFrame(Front(y.c.buf));
  }

  /** One step of the system, by either side. */
  lemma SafeKept(y: System, e: Event)
    requires Safe(y) && Enabled(y, e)
    ensures Safe(Next(y, e))
  {
    match e
    case ByClient(ce) => ByClientKept(y, ce);
    case BySession(se) => BySessionKept(y, se);
  }

  lemma ByClientKept(y: System, ce: C.Event)
    requires Safe(y) && Enabled(y, ByClient(ce))
    ensures Safe(y.(c := C.Next(y.c, ce)))
  {
    CS.SafeKept(y.c, ce);
    CS.Wires(y.c, ce);
    if ce.HandleFrame? {
      ClientAccepts(y, ce.wrote);
    }
    ClientMoved(y, C.Next(y.c, ce));
  }

  lemma BySessionKept(y: System, se: S.Event)
    requires Safe(y) && Enabled(y, BySession(se))
    ensures Safe(y.(s := S.Next(y.s, se)))
  {
    SS.SafeKept(y.s, se);
    SS.Wires(y.s, se);
    if se.RunFrame? {
      SessionAccepts(y, se.answer);
    }
    SessionMoved(y, S.Next(y.s, se));
  }

  lemma ClientMoved(y: System, c: C.Client)
    requires Safe(y) && CS.Safe(c) && y.c.sent <= c.sent && c.received <= y.s.sent
    requires !(c.pc.Exited? && c.pc.cause == C.RefusedFrame)
    ensures Safe(y.(c := c))
  {
  }

  lemma SessionMoved(y: System, s: S.Session)
    requires Safe(y) && SS.Safe(s) && y.s.sent <= s.sent && s.received <= y.c.sent
    requires s.pc != S.Ended(S.RefusedFrame)
    ensures Safe(y.(s := s))
  {
  }

  predicate SameCommand(c: C.Client, d: C.Client) {
    c.mode == d.mode && c.argv == d.argv && c.environ == d.environ && c.termios == d.termios
  }

  /** A connection: any command line, environment and terminal on one side, a fresh session on the
      other. */
  datatype Connection = Connection(
    mode: Mode, argv: seq<CString>, environ: seq<CString>, termios: bytes, term: bytes,
    remote: int, others: set<int>)
  {
    predicate Ok() {
      && |termios| == TERMIOS_BYTES && |term| == WINSIZE_BYTES
      && remote > 2 && forall p | p in others :: p > 0
    }

    function Begin(): System {
      System(C.Start(mode, argv, environ, termios, term), S.Start(remote, others))
    }
  }

  /** y can be reached over the connection k: some interleaving of the two sides' events leads there, each
      possible where it happens. */
  ghost predicate Reached(k: Connection, es: seq<Event>, y: System) {
    k.Ok() && Runs.Leads(Step, k.Begin(), es, y)
  }

  /** Every reachable state of a connection is safe, and in particular compatible: no frame either
      side sends is ever refused by the other. */
  lemma SafeAlways(k: Connection, es: seq<Event>, y: System)
    requires Reached(k, es, y)
    ensures Safe(y) && Compatible(y) && SameCommand(y.c, k.Begin().c)
  {
    CS.SafeAtStart(k.mode, k.argv, k.environ, k.termios, k.term);
    SS.SafeAtStart(k.remote, k.others);
    forall u, e | Safe(u) && Step(u, e).Some?
      ensures Safe(Next(u, e)) && SameCommand(Next(u, e).c, u.c)
    {
      SafeKept(u, e);
      if e.ByClient? {
        CS.Command(u.c, e.ce);
      }
    }
    Runs.Related(Step, u => Safe(u), (u: System, v: System) => SameCommand(v.c, u.c), k.Begin(), es, y);
  }

  lemma NextOf(done: seq<Frame>, all: seq<Frame>)
    requires done <= all && |done| < |all|
    ensures all == done + [all[|done|]] + all[|done| + 1..]
  {
  }

  /** Relay conservation, upward. Unless a call failed on either side, running or ended, what was read
      from the client's stdin is exactly what the guest's stdin was given followed by the StdIn payload
      still in the session's buffer and on the wire; whatever happens, the guest's stdin only ever sees a
      prefix of it. */
  lemma InputConserved(k: Connection, es: seq<Event>, y: System)
    requires Reached(k, es, y)
    ensures && |y.s.received| <= |y.c.sent|
            && y.s.core.guestIn <= y.c.typed
            && (!C.Broken(y.c) && !S.Broken(y.s) ==>
                  y.c.typed == y.s.core.guestIn + Payload(FramesIn(Upward(y)), STDIN))
  {
    SafeAlways(k, es, y);
    var c, s := y.c, y.s;
    UpFrames(c, s);
    PayloadInFlight(s.core.log, c.slog, c.sent[|EncodeAll(c.slog)|..], Upward(y), STDIN);
    if s.core.guestIn != Payload(s.core.log, STDIN) {
      SessionFront(c, s);
      NextOf(s.core.log, c.slog);
      PayloadWithin(s.core.log, c.slog[|s.core.log|], c.slog[|s.core.log| + 1..], s.core.guestIn);
    }
  }

  /** Relay conservation, downward, for either output: kind is STDOUT with sink stdout and source the
      guest's stdout, or STDERR with the others. */
  lemma OutputConserved(k: Connection, es: seq<Event>, y: System, kind: nat)
    requires Reached(k, es, y) && (kind == STDOUT || kind == STDERR)
    ensures var sink := if kind == STDOUT then y.c.core.out else y.c.core.err;
            var source := if kind == STDOUT then y.s.gout else y.s.gerr;
            && |y.c.received| <= |y.s.sent|
            && sink <= source
            && (!C.Broken(y.c) && !S.Broken(y.s) ==>
                  source == sink + Payload(FramesIn(Downward(y)), kind))
  {
    SafeAlways(k, es, y);
    var c, s := y.c, y.s;
    DownFrames(c, s);
    PayloadInFlight(c.core.log, s.slog, s.sent[|EncodeAll(s.slog)|..], Downward(y), kind);
    SinkWithin(c, s, if kind == STDOUT then c.core.out else c.core.err, kind);
  }

  /** An output of the client is within the session's frames. */
  lemma SinkWithin(c: C.Client, s: S.Session, sink: bytes, kind: nat)
    requires SS.Safe(s) && CS.InStream(c) && c.received <= s.sent && CS.SinkOk(c, sink, kind)
    ensures c.core.log <= s.slog && sink <= Payload(s.slog, kind)
    ensures !C.Broken(c) ==> sink == Payload(c.core.log, kind)
  {
    DownFrames(c, s);
    PayloadInFlight(c.core.log, s.slog, s.sent[|EncodeAll(s.slog)|..], Downward(System(c, s)), kind);
    if sink != Payload(c.core.log, kind) {
      ClientFront(c, s);
      NextOf(c.core.log, s.slog);
      PayloadWithin(c.core.log, s.slog[|c.core.log|], s.slog[|c.core.log| + 1..], sink);
    }
  }

  /** The guest is started with what the client asked for: its connection kind, its terminal's settings, and
      its lists as they
      survive the wire - unchanged exactly when no argument is empty. */
  lemma GuestAsRequested(k: Connection, es: seq<Event>, y: System)
    requires Reached(k, es, y) && y.s.core.guest.Some?
    ensures var g := y.s.core.guest.value;
            && g.mode == k.mode && (k.mode == Tty ==> g.termios == k.termios)
            && ForkPayload.Lists(g.argv, g.env) == ForkPayload.Received(k.argv, k.environ)
            && (g.argv == k.argv && g.env == ForkPayload.PermittedOnly(k.environ)
                <==> AllNonEmpty(k.argv))
  {
    SafeAlways(k, es, y);
    UpFrames(y.c, y.s);
    ForksOfPrefix(y.c, y.s.core.log);
    RequestAccepted(y.c, y.c.slog[0]);
  }

  /** Where the guest's environment list comes from. */
  function ListBehind(k: Connection): seq<CString> {
    var n := FirstEmpty(k.argv);
    if n == |k.argv| then k.environ else Cut(k.argv[n + 1..])
  }

  /** The guest's environment, end to end: for every account, directory, terminal and name, the variable
      a started guest would be executed with is decided by the last admitted entry for it in the client's
      own environment - or, if some argument is empty, among the arguments behind it. */
  lemma GuestVariables(k: Connection, es: seq<Event>, y: System,
                       a: GuestEnv.Account, cwd: bytes, tty: Option<bytes>, name: bytes)
    requires Reached(k, es, y) && y.s.core.guest.Some?
    ensures GuestEnv.Lookup(GuestEnv.AtExec(a, cwd, tty, y.s.core.guest.value.env), name)
         == GuestEnv.Decided(a, cwd, tty, name, GuestEnv.LastFor(ListBehind(k), name))
  {
    GuestAsRequested(k, es, y);
    GuestEnv.GuestEnvironment(a, cwd, tty, y.s.core.guest.value.env, name);
    GuestEnv.LastOfPermitted(k.environ, name);
  }

  /** Window sizes converge: in a terminal session whose guest runs, once no resize is flagged or
      pending at the client and nothing is in flight upward, the guest's terminal has the size of the
      client's. */
  lemma SizesConverge(k: Connection, es: seq<Event>, y: System)
    requires Reached(k, es, y) && k.mode == Tty
    requires y.s.core.guest.Some? && !y.c.pc.Exited? && !y.c.sigwinch && !y.c.winchPending
    ensures |y.s.received| <= |y.c.sent| && (Upward(y) == [] ==> y.s.core.ptySize == y.c.term)
  {
    SafeAlways(k, es, y);
    var c, s := y.c, y.s;
    UpFrames(c, s);
    if Upward(y) == [] {
      NoBytesNoFrames(c.slog[|s.core.log|..]);
      assert c.slog == s.core.log;
      ForksOfPrefix(c, s.core.log);
    }
  }

  /** The exit code: unless it is 255, it is what the one guest, which has been reaped, passed to exit(3). */
  lemma ExitCodeIsGuests(k: Connection, es: seq<Event>, y: System)
    requires Reached(k, es, y) && y.c.pc.Exited? && y.c.pc.code != 255
    ensures && y.s.core.guest.Some? && y.s.core.pid == 0
            && y.s.core.guest.value.pid in y.s.exits
            && y.s.exits[y.s.core.guest.value.pid] == ByExit(y.c.pc.code)
  {
    SafeAlways(k, es, y);
    ExitCodeOf(y);
  }

  /** Nothing is missing: with an exit code other than 255 the client has written, to its stdout and stderr,
      all the session ever read from the guest's. */
  lemma NothingMissing(k: Connection, es: seq<Event>, y: System)
    requires Reached(k, es, y) && y.c.pc.Exited? && y.c.pc.code != 255
    ensures y.c.core.out == y.s.gout && y.c.core.err == y.s.gerr
  {
    SafeAlways(k, es, y);
    DownFrames(y.c, y.s);
    ExitCodeKnown(y.c);
    StatusIsLast(y.s, y.c.core.log);
    assert CS.SinkOk(y.c, y.c.core.out, STDOUT) && CS.SinkOk(y.c, y.c.core.err, STDERR);
  }

  /** Full delivery: once the session has ended because its guest did, and nothing is in flight downward, a
      client of which no call failed has written all that was read from the guest's outputs and knows the
      guest's wait status. */
  lemma AllDelivered(k: Connection, es: seq<Event>, y: System)
    requires Reached(k, es, y) && y.s.pc == S.Ended(S.GuestExited) && !C.Broken(y.c)
    ensures && |y.c.received| <= |y.s.sent|
            && y.s.core.guest.Some? && y.s.core.guest.value.pid in y.s.exits
            && (Downward(y) == [] ==>
                  && y.c.core.out == y.s.gout && y.c.core.err == y.s.gerr
                  && y.c.core.status == C.Known(WaitStatus(y.s.exits[y.s.core.guest.value.pid])))
  {
    SafeAlways(k, es, y);
    var c, s := y.c, y.s;
    DownFrames(c, s);
    if Downward(y) == [] {
      NoBytesNoFrames(s.slog[|c.core.log|..]);
      assert c.core.log == s.slog;
      AllHandled(c, s);
    }
  }

  lemma AllHandled(c: C.Client, s: S.Session)
    requires CS.Sinks(c) && CS.ExitOk(c) && SS.OutStream(s) && SS.StatusFinal(s)
    requires c.core.log == s.slog && s.pc == S.Ended(S.GuestExited) && !C.Broken(c)
    ensures c.core.out == s.gout && c.core.err == s.gerr
    ensures s.core.guest.Some? && s.core.guest.value.pid in s.exits
    ensures c.core.status == C.Known(WaitStatus(s.exits[s.core.guest.value.pid]))
  {
    StatusReads(WaitStatus(s.exits[s.core.guest.value.pid]));
    assert CS.SinkOk(c, c.core.out, STDOUT) && CS.SinkOk(c, c.core.err, STDERR);
  }

  lemma ExitCodeOf(y: System)
    requires Safe(y) && y.c.pc.Exited? && y.c.pc.code != 255
    ensures && y.s.core.guest.Some? && y.s.core.pid == 0
            && y.s.core.guest.value.pid in y.s.exits
            && y.s.exits[y.s.core.guest.value.pid] == ByExit(y.c.pc.code)
  {
    DownFrames(y.c, y.s);
    StatusIsGuests(y.s, y.c.core.log);
    ExitCodeKnown(y.c);
    CS.CodeOf(y.c, y.s.exits[y.s.core.guest.value.pid]);
  }

  lemma ExitCodeKnown(c: C.Client)
    requires CS.ExitOk(c) && c.pc.Exited? && c.pc.code != 255
    ensures CS.LastStatus(c.core.log) != C.Known(C.NO_STATUS)
    ensures c.pc.cause == C.LoopDone && c.core.status == CS.LastStatus(c.core.log)
  {
  }

  /** What the client does in a run of the system. */
  function ClientEvents(es: seq<Event>): seq<C.Event> {
    if es == [] then [] else (if es[0].ByClient? then [es[0].ce] else []) + ClientEvents(es[1..])
  }

  lemma {:induction false} ClientRuns(y: System, es: seq<Event>, z: System)
    requires Runs.Leads(Step, y, es, z)
    ensures Runs.Leads(C.Step, y.c, ClientEvents(es), z.c)
    decreases |es|
  {
    if es == [] {
      Runs.Stays(Step, y, es, z);
      Runs.Stay(C.Step, y.c);
    } else {
      Runs.Uncons(Step, y, es, z);
      var u := Next(y, es[0]);
      ClientRuns(u, es[1..], z);
      if es[0].ByClient? {
        Runs.Cons(C.Step, y.c, es[0].ce, u.c, ClientEvents(es[1..]), z.c);
      } else {
        assert [] + ClientEvents(es[1..]) == ClientEvents(es[1..]);
      }
    }
  }

  /** How the client's exit code tells how the guest ended. */
  function CodeFor(how: Ending): nat {
    match how case ByExit(code) => code case BySignal(_, _) => 255
  }

  /** The end of a client that has been told the guest's status: whatever the two sides, the guest and the kernel
      do from there, it takes a bounded number of steps of its own and leaves - unless a call of its own fails
      or stdin ends first - with the guest's exit code, or 255 for a signal. */
  lemma StatusEndsClient(k: Connection, es: seq<Event>, y: System, more: seq<Event>, z: System)
    requires Reached(k, es, y) && !CS.NoStatus(y.c.core.log) && Runs.Leads(Step, y, more, z)
    ensures CS.OwnSteps(ClientEvents(more)) + CS.Left(z.c) <= CS.Left(y.c)
    ensures !z.c.pc.Exited? ==> CS.Left(z.c) > 0
    ensures z.c.pc.Exited? ==>
              && z.c.pc.cause in {C.LoopDone, C.OsError, C.InputGone}
              && (z.c.pc.cause == C.LoopDone ==>
                    && z.s.core.guest.Some? && z.s.core.guest.value.pid in z.s.exits
                    && z.c.pc.code == CodeFor(z.s.exits[z.s.core.guest.value.pid]))
  {
    SafeAlways(k, es, y);
    ClientRuns(y, more, z);
    CS.FlagEndsClient(y.c, ClientEvents(more), z.c);
    Runs.Append(Step, k.Begin(), es, y, more, z);
    SafeAlways(k, es + more, z);
    CS.LogGrows(y.c, ClientEvents(more), z.c);
    if z.c.pc.Exited? && z.c.pc.cause == C.LoopDone {
      CodeReturned(z);
    }
  }

  lemma CodeReturned(y: System)
    requires Safe(y) && y.c.pc.Exited? && y.c.pc.cause == C.LoopDone && !CS.NoStatus(y.c.core.log)
    ensures && y.s.core.guest.Some? && y.s.core.guest.value.pid in y.s.exits
            && y.c.pc.code == CodeFor(y.s.exits[y.s.core.guest.value.pid])
  {
    DownFrames(y.c, y.s);
    StatusKnown(y.s, y.c.core.log);
    CS.CodeOf(y.c, y.s.exits[y.s.core.guest.value.pid]);
  }

  /** With a status frame among them, a session's frames tell the guest's status. */
  lemma StatusKnown(s: S.Session, log: seq<Frame>)
    requires SS.StatusFinal(s) && log <= s.slog && !CS.NoStatus(log)
    ensures s.core.guest.Some? && s.core.guest.value.pid in s.exits
    ensures CS.LastStatus(log) == C.Known(WaitStatus(s.exits[s.core.guest.value.pid]))
  {
    var i :| 0 <= i < |log| && log[i].kind == STATUS;
    assert s.slog[i] == log[i];
    assert !SS.NoStatus(s.slog) && i == |log| - 1 == |s.slog| - 1;
    StatusReads(WaitStatus(s.exits[s.core.guest.value.pid]));
  }

  /** What a client can know of the guest's status from a prefix of a session's frames. */
  lemma {:induction false} StatusIsGuests(s: S.Session, log: seq<Frame>)
    requires SS.StatusFinal(s) && log <= s.slog
    ensures var status := CS.LastStatus(log);
            status == C.Known(C.NO_STATUS)
            || (&& s.core.guest.Some? && s.core.pid == 0
                && s.core.guest.value.pid in s.exits
                && status == C.Known(WaitStatus(s.exits[s.core.guest.value.pid])))
  {
    if log != [] {
      var n := |log| - 1;
      assert s.slog[n] == log[n];
      if log[n].kind == STATUS {
        assert !SS.NoStatus(s.slog);
        assert n == |s.slog| - 1;
        StatusReads(WaitStatus(s.exits[s.core.guest.value.pid]));
      } else {
        StatusIsGuests(s, log[..n]);
      }
    }
  }

  /** A client that knows a status has handled all of the session's frames. */
  lemma {:induction false} StatusIsLast(s: S.Session, log: seq<Frame>)
    requires SS.StatusFinal(s) && log <= s.slog && CS.LastStatus(log) != C.Known(C.NO_STATUS)
    ensures log == s.slog && !SS.NoStatus(s.slog)
  {
    var n := |log| - 1;
    assert s.slog[n] == log[n];
    if log[n].kind != STATUS {
      StatusIsLast(s, log[..n]);
    }
  }

  lemma StatusReads(status: nat)
    requires status < 0x1_0000_0000
    ensures ReadU32(S.StatusFrame(status).body, 0) == status
  {
    ReadWritten32(status);
  }
}
