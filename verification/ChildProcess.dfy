/** server/child.c as it is written: the file's globals updated in place by child_run, child_sigchld,
    child_execute, child_process_remote, child_process_output and child_loop. Every method is a run of
    the machine in Session, so all that SessionSafety proves of the machine's runs holds of it. */
module ChildProcess {
  import opened Bytes
  import opened Message
  import opened Kernel
  import opened Descriptors
  import Decoder
  import ForkPayload
  import GuestEnv
  import Runs
  import S = Session
  import SS = SessionSafety

  /** A guest at execve: its descriptors, whether all its dup2 calls worked, its arguments as received,
      its directory, its terminal's name and its variables. */
  datatype Exec = Exec(table: Table, wired: bool, argv: seq<CString>, cwd: bytes, tty: Option<bytes>,
                       vars: GuestEnv.Vars)

  /** What pselect may answer, with what a read of each ready descriptor then brings. */
  datatype Poll = Signals | TimesOut | Fails | Ready(remote: Look, out: Look, err: Look)

  class ChildSession {
    const process: Process
    const forker: Forker
    const buffer: Decoder.FrameBuffer
    const remote: int
    /** The container user. */
    const account: GuestEnv.Account
    var pid: int
    var pty: bool
    var fin: int
    var fout: int
    var ferr: int
    var handshaking: bool
    var sigalrm: bool
    var sigchld: bool
    /** Outside: the kernel's pending SIGALRM, what write(2) has put on the wire and into the guest's
        stdin, and the size of the guest's terminal. */
    var alrmPending: bool
    var sent: bytes
    var guestIn: bytes
    var ptySize: bytes
    /** What the guest was forked with. */
    var guest: Option<S.Spawn>
    /** The process has called _exit. */
    var gone: bool
    /** The machine's first state, its steps so far, and where they lead. */
    ghost const others: set<int>
    ghost const start: S.Session
    ghost var history: seq<S.Event>
    /** The steps among them that are not from outside. */
    ghost var own: seq<S.Event>
    ghost var model: S.Session

    /** The globals, the descriptor table and the children are those of a machine core. */
    ghost predicate Holds(c: S.Core)
      reads this, process
    {
      HoldsButKids(c) && process.kids == c.kids
    }

    ghost predicate HoldsButKids(c: S.Core)
      reads this, process`table
    {
      && remote == c.remote && pid == c.pid && pty == c.pty
      && fin == c.fin && fout == c.fout && ferr == c.ferr
      && guest == c.guest && guestIn == c.guestIn && ptySize == c.ptySize && process.table == c.fds
    }

    ghost predicate Wired()
      reads this, forker, buffer
    {
      && forker.process == process && forker.remote == remote
      && buffer.Valid()
    }

    /** The machine has come from its first state to model, and the flags are the machine's. */
    ghost predicate Tracking()
      reads this, forker, buffer
    {
      Followed() && sent == model.sent
    }

    ghost predicate Followed()
      reads this, forker, buffer
    {
      && Wired()
      && remote > 2 && (forall p | p in others :: p > 0) && start == S.Start(remote, others)
      && Runs.Leads(S.Step, start, history, model) && own == S.Own(history)
      && handshaking == model.handshaking && sigalrm == model.sigalrm && sigchld == model.sigchld
      && alrmPending == model.alrmPending
    }

    ghost predicate Valid()
      reads this, process, forker, buffer, buffer.buffer
    {
      && Tracking()
      && (if gone then model.pc.Ended? else Holds(model.core) && buffer.Contents() == model.buf)
    }

    /** The machine has come to model by the steps in history. */
    ghost predicate Running()
      reads this`history, this`own, this`model
    {
      Runs.Leads(S.Step, start, history, model) && own == S.Own(history)
    }

    /** The machine makes one step. */
    ghost method Step(e: S.Event)
      requires Running() && S.Enabled(model, e)
      modifies this`model, this`history, this`own
      ensures Running() && model == S.Next(old(model), e) && history == old(history) + [e]
      ensures own == old(own) + if S.FromOutside(e) then [] else [e]
    {
      Runs.Snoc(S.Step, start, history, model, e, S.Next(model, e));
      assert (history + [e])[..|history|] == history;
      history := history + [e];
      own := own + if S.FromOutside(e) then [] else [e];
      model := S.Next(model, e);
    }

    ghost method Plain(e: S.Event)
      requires Running() && S.Enabled(model, e) && S.IsPlain(e)
      modifies this`model, this`history, this`own
      ensures Running() && model == S.Plain(old(model), e) && history == old(history) + [e]
      ensures own == old(own) + if S.FromOutside(e) then [] else [e]
    {
      Step(e);
    }

    ghost method RunStep(canceled: bool)
      requires Running() && model.pc == S.Top
      modifies this`model, this`history, this`own
      ensures Running() && model == S.StepRun(old(model), canceled)
      ensures history == old(history) + [S.Run(canceled)] && own == old(own) + [S.Run(canceled)]
    {
      Step(S.Run(canceled));
    }

    ghost method ExecuteStep(answer: S.Answer)
      requires Running() && model.pc == S.Dispatch && HasFrame(model.buf)
      modifies this`model, this`history, this`own
      ensures Running() && history == old(history) + [S.RunFrame(answer)]
      ensures own == old(own) + [S.RunFrame(answer)]
      ensures var s, r := old(model), S.Execute(old(model).core, Front(old(model).buf), answer);
              if r.verdict == S.Fine then
                Length(s.buf) >= SMALLEST && model == s.(core := r.core, buf := s.buf[Length(s.buf)..])
              else
                && model == s.(core := r.core, pc := model.pc)
                && model.pc == S.Ended(if r.verdict == S.Refused then S.RefusedFrame else S.OsError)
    {
      SS.OutcomeOfExecute(model.core, Front(model.buf), answer);
      Step(S.RunFrame(answer));
    }

    ghost method OutputEndsStep(isOut: bool)
      requires Running() && S.HasOutput(model) && (isOut <==> model.pc == S.Out)
      modifies this`model, this`history, this`own
      ensures Running() && history == old(history) + [S.OutputEnds] && own == old(own) + [S.OutputEnds]
      ensures model == old(model).(core := model.core, pc := if isOut then S.Err else S.Top)
      ensures var c := old(model).core;
              model.core == c.(fds := c.fds - {if isOut then c.fout else c.ferr},
                               fout := if isOut then -1 else c.fout, ferr := if isOut then c.ferr else -1)
    {
      Step(S.OutputEnds);
    }

    ghost method InterruptStep(chld: bool, alrm: bool)
      requires Running() && S.Enabled(model, S.Interrupted(chld, alrm))
      modifies this`model, this`history, this`own
      ensures Running() && history == old(history) + [S.Interrupted(chld, alrm)]
      ensures own == old(own) + [S.Interrupted(chld, alrm)]
      ensures var s := old(model);
              model == s.(pc := S.Top,
                          sigchld := s.sigchld || chld,
                          core := if chld then s.core.(kids := WithoutPending(s.core.kids)) else s.core,
                          sigalrm := s.sigalrm || alrm,
                          alrmPending := s.alrmPending && !alrm)
    {
      Step(S.Interrupted(chld, alrm));
    }

    /** A step that only moves the control point on. */
    ghost method Move(e: S.Event)
      requires Valid() && !gone && S.Enabled(model, e)
      requires e in {S.WaitNone, S.Timeout, S.Ready, S.NotReady, S.BufferDry}
      modifies this`model, this`history, this`own
      ensures Valid() && history == old(history) + [e] && own == old(own) + [e]
      ensures model == old(model).(pc := model.pc)
      ensures match e
              case WaitNone => model.pc == S.Clear(old(model).pc.found)
              case Timeout => model.pc == S.Top
              case Ready => model.pc == S.Remote
              case NotReady =>
                model.pc == (match old(model).pc case Remote => S.Out case Out => S.Err case _ => S.Top)
              case _ => model.pc == S.Out
    {
      Plain(e);
    }

    /** A step that only ends the session. */
    ghost method Stop(e: S.Event)
      requires Valid() && !gone && S.Enabled(model, e) && e in {S.WaitFails, S.SelectFails, S.ReadEnds}
      modifies this`model, this`history, this`own
      ensures Valid() && history == old(history) + [e] && own == old(own) + [e]
      ensures model == old(model).(pc := S.Ended(if e == S.ReadEnds then S.ClientGone else S.OsError))
    {
      Plain(e);
    }

    /** waitpid returns a child, and the guest's status goes out. */
    ghost method WaitStep(p: int, wrote: int)
      requires Followed() && S.Enabled(model, S.WaitChild(p, wrote))
      requires sent == if p != model.core.pid then model.sent
                       else model.sent + Written(Encode(S.StatusFrame(model.core.kids.zombies[p])), wrote)
      modifies this`model, this`history, this`own
      ensures Tracking() && history == old(history) + [S.WaitChild(p, wrote)]
      ensures own == old(own) + [S.WaitChild(p, wrote)]
      ensures var s := old(model);
              && model == s.(core := s.core.(kids := WithoutZombie(s.core.kids, p), pid := model.core.pid),
                             sent := model.sent, slog := model.slog, pc := model.pc)
              && model.core.pid == (if p == s.core.pid then 0 else s.core.pid)
              && model.pc == (if p != s.core.pid then s.pc
                              else if wrote >= HEADER + STATUS_BYTES then S.Reap(true)
                              else S.Ended(S.OsError))
    {
      SS.WaitTouches(model, p, wrote);
      Step(S.WaitChild(p, wrote));
    }

    /** A read of guest output is relayed. */
    ghost method OutputStep(data: bytes, wrote: int)
      requires Followed() && S.Enabled(model, S.Output(data, wrote))
      requires sent == model.sent
                     + Written(Encode(Frame(if model.pc == S.Out then STDOUT else STDERR, data)), wrote)
      modifies this`model, this`history, this`own
      ensures Tracking() && history == old(history) + [S.Output(data, wrote)]
      ensures own == old(own) + [S.Output(data, wrote)]
      ensures model.core == old(model).core && model.buf == old(model).buf
      ensures model.pc == if wrote < HEADER + |data| then S.Ended(S.OsError)
                          else if old(model).pc == S.Out then S.Err else S.Top
    {
      SS.OutputTouches(model, data, wrote);
      Step(S.Output(data, wrote));
    }

    /** Whatever the methods did so far, in any order their contracts allow, the state is safe. */
    lemma AlwaysSafe()
      requires Valid()
      ensures SS.Safe(model)
    {
      SS.SafeAlways(remote, others, history, model);
    }

    /** child_main up to child_loop. */
    constructor (remote: int, process: Process, account: GuestEnv.Account)
      requires remote > 2 && forall p | p in process.kids.alive :: p > 0
      requires process.kids == Children(process.kids.alive, map[], false)
      requires process.table == S.Start(remote, {}).core.fds
      ensures Valid() && !gone && history == [] && model == start == S.Start(remote, process.kids.alive)
      ensures this.remote == remote && this.process == process
    {
      this.process, this.account := process, account;
      this.forker := new Forker(process, remote);
      this.buffer := new Decoder.FrameBuffer();
      this.remote := remote;
      pid := -1;
      pty := false;
      fin, fout, ferr := -1, -1, -1;
      handshaking := true;
      sigalrm, sigchld, alrmPending, gone := false, false, false, false;
      sent, guestIn, ptySize, guest := [], [], [], None;
      others := process.kids.alive;
      start := S.Start(remote, process.kids.alive);
      model := S.Start(remote, process.kids.alive);
      history, own := [], [];
      new;
      Runs.Stay(S.Step, start);
    }

    /** write(2) to the client: any part of b may go, or none. */
    method WriteRemote(b: bytes) returns (n: int)
      modifies this`sent
      ensures -1 <= n <= |b| && sent == old(sent) + Written(b, n)
      ensures process.works ==> n == |b|
    {
      n := *;
      if n < 0 || n > |b| {
        n := -1;
      }
      n := if process.works then |b| else n;
      sent := sent + Written(b, n);
    }

    /** write(2) to the guest's stdin, which may not be open. */
    method WriteGuest(b: bytes) returns (n: int)
      modifies this`guestIn
      ensures -1 <= n <= |b| && guestIn == old(guestIn) + Written(b, n)
      ensures if fin < 0 then n == -1 else process.works ==> n == |b|
    {
      n := *;
      if n < 0 || n > |b| {
        n := -1;
      }
      n := if fin < 0 then -1 else if process.works then |b| else n;
      guestIn := guestIn + Written(b, n);
    }

    /** child_run; canceled says whether set_alarm_timer(0) worked. */
    method Run(canceled: bool) returns (go: bool)
      requires Valid() && model.pc == S.Top
      modifies this`model, this`history, this`own, this`handshaking
      ensures Valid() && model == S.StepRun(old(model), canceled)
      ensures history == old(history) + [S.Run(canceled)] && own == old(own) + [S.Run(canceled)]
      ensures go <==> !model.pc.Ended?
    {
      SS.RunTouches(model, canceled);
      RunStep(canceled);
      if sigalrm {
        if handshaking {
          handshaking := false;
          if !canceled {
            return false;
          }
        }
        if pid < 0 {
          return false;
        }
      }
      if fout >= 0 || ferr >= 0 {
        return true;
      }
      if pid != 0 {
        return true;
      }
      return false;
    }

    /** child_execute_* has returned ret after starting from the core c: it did what S.Execute says for
        some answer of the kernel. */
    ghost predicate Executed(c: S.Core, f: Frame, answer: S.Answer, ret: int)
      reads this, process
    {
      Did(S.Execute(c, f, answer), ret)
    }

    ghost predicate Did(r: S.Executed, ret: int)
      reads this, process
    {
      && (ret == 0 || ret == -1)
      && (ret == 0 <==> r.verdict == S.Fine)
      && (process.works ==> r.verdict != S.OsFailed)
      && (if gone then ret == -1 else Holds(r.core))
    }

    /** child_execute_fork_* with child_parse; field is the frame's env field, and terminal what
        it says of a terminal. */
    method ExecuteFork(mode: Mode, field: bytes, terminal: Terminal, ghost c: S.Core, ghost f: Frame)
      returns (ret: int, ghost answer: S.Answer)
      requires Wired() && Holds(c) && !gone && forker.Ready() && Untouched()
      requires IsFork(f) && ModeOf(f) == mode && |f.body| >= Preamble(mode) + 1
      requires field == f.body[Preamble(mode)..] && (mode == Tty ==> terminal == TerminalIn(f))
      modifies this`pid, this`pty, this`fin, this`fout, this`ferr, this`gone, this`ptySize, this`guest, process
      ensures Executed(c, f, answer, ret)
    {
      answer := S.Answer(0, false, Failed);
      var argv, env;
      ret, argv, env := ForkPayload.ChildParse(field);
      if ret != 0 {
        return -1, answer;
      }
      ghost var lists := S.ListsOf(f).value;
      ForkPayload.DenotedTexts(field, argv, lists.argv);
      ForkPayload.DenotedTexts(field, env, lists.env);
      var exec;
      ret, exec, answer := Fork(mode, terminal, Texts(field, argv), Texts(field, env), c, f);
    }

    /** Before there is a guest, its session holds the connection and the standard descriptors only. */
    ghost predicate Untouched()
      reads this`pid, process`table
    {
      pid < 0 ==> process.table.Keys == {0, 1, 2, remote}
    }

    /** child_fork with the lists of a request that parsed. exec is the guest if it reaches execve. */
    method Fork(mode: Mode, terminal: Terminal, argv: seq<CString>, env: seq<CString>, ghost c: S.Core, ghost f: Frame)
      returns (ret: int, exec: Option<Exec>, ghost answer: S.Answer)
      requires Wired() && Holds(c) && !gone && forker.Ready() && Untouched()
      requires IsFork(f) && ModeOf(f) == mode && S.ListsOf(f) == Some(ForkPayload.Lists(argv, env))
      requires mode == Tty ==> terminal == TerminalIn(f)
      modifies this`pid, this`pty, this`fin, this`fout, this`ferr, this`gone, this`ptySize, this`guest, process
      ensures Executed(c, f, answer, ret)
      ensures exec.Some? ==> ret == 0 && guest.Some? && AsAsked(exec.value, guest.value)
      ensures process.works && c.pid < 0 ==> exec.Some? && exec.value.wired
    {
      answer, exec := S.Answer(0, false, Failed), None;
      if pid >= 0 {
        return -1, exec, answer;
      }
      var table, wired;
      ret, table, wired, answer := ForkAttached(mode, terminal, argv, env, c, f);
      if ret == 0 && (wired || mode != Tty) {
        exec := GuestExec(guest.value, table, wired);
      }
    }

    /** child_fork behind its test of the pid, up to the guest's own half. */
    method ForkAttached(mode: Mode, terminal: Terminal, argv: seq<CString>, env: seq<CString>, ghost c: S.Core,
                        ghost f: Frame)
      returns (ret: int, table: Table, wired: bool, ghost answer: S.Answer)
      requires Wired() && Holds(c) && !gone && forker.Ready() && Untouched() && pid < 0
      requires IsFork(f) && ModeOf(f) == mode && S.ListsOf(f) == Some(ForkPayload.Lists(argv, env))
      requires mode == Tty ==> terminal == TerminalIn(f)
      modifies this`pid, this`pty, this`fin, this`fout, this`ferr, this`gone, this`ptySize, this`guest, process
      ensures Executed(c, f, answer, ret) && (process.works ==> ret == 0 && wired)
      ensures ret == 0 ==> guest.Some? && guest.value.mode == mode
      ensures ret == 0 && (wired || mode != Tty) ==> table.Keys == {0, 1, 2}
      ensures ret == 0 && wired ==>
                StandardStreams(mode, table) && Connected(process.table, fin, fout, ferr, table)
    {
      pty := mode == Tty;
      var r;
      r, table, wired := ForkGuest(mode);
      answer := S.Answer(0, false, r);
      ForkResult(c, f, r);
      ret := AfterFork(mode, terminal, argv, env, r, c, f);
    }

    /** The globals after the fork. */
    method AfterFork(mode: Mode, terminal: Terminal, argv: seq<CString>, env: seq<CString>, r: Forked,
                     ghost c: S.Core, ghost f: Frame)
      returns (ret: int)
      requires remote == c.remote && pid == c.pid < 0 && fin == c.fin && fout == c.fout && ferr == c.ferr
      requires guest == c.guest && guestIn == c.guestIn && ptySize == c.ptySize && pty == (mode == Tty) && !gone
      requires Outcome(mode, c.fds, c.kids, r, process.table, process.kids) && (process.works ==> r.Guest?)
      modifies this`pid, this`fin, this`fout, this`ferr, this`gone, this`ptySize, this`guest
      ensures Did(ForkedTo(c, f, mode, terminal, argv, env, r), ret)
      ensures ret == 0 <==> r.Guest?
      ensures ret == 0 ==> guest == Some(S.Spawn(mode, r.pid, argv, env, if mode == Tty then terminal.termios else []))
      ensures ret == 0 ==> fin == r.fin && fout == r.fout && ferr == r.ferr
    {
      match r {
        case Failed => ret := -1;
        case Dies =>
          gone := true;
          ret := -1;
        case Guest(p, i, o, e) =>
          pid, fin, fout, ferr := p, i, o, e;
          guest := Some(S.Spawn(mode, p, argv, env, if mode == Tty then terminal.termios else []));
          ptySize := if mode == Tty then terminal.size else ptySize;
          ret := 0;
      }
    }

    /** What a fork makes of the core c. */
    static ghost function ForkedTo(c: S.Core, f: Frame, mode: Mode, terminal: Terminal, argv: seq<CString>,
                                   env: seq<CString>, r: Forked): S.Executed
    {
      match r
      case Guest(p, i, o, e) =>
        S.Executed(
          c.(pid := p, pty := mode == Tty, fin := i, fout := o, ferr := e,
             fds := Attached(c.fds, mode, i, o, e), kids := WithChild(c.kids, p), log := c.log + [f],
             guest := Some(S.Spawn(mode, p, argv, env, if mode == Tty then terminal.termios else [])),
             ptySize := if mode == Tty then terminal.size else c.ptySize),
          S.Fine)
      case _ => S.Executed(c.(pty := mode == Tty), S.OsFailed)
    }

    /** The guest at execve is what was asked for: it has the descriptors 0, 1 and 2 and no others, each
        connected to the session's end of its stream unless a dup2 failed unnoticed, and the variables its
        list decides. */
    ghost predicate AsAsked(x: Exec, g: S.Spawn)
      reads this`fin, this`fout, this`ferr, process`table
    {
      && x.table.Keys == {0, 1, 2} && (g.mode == Tty ==> x.wired)
      && (x.wired ==>
            StandardStreams(g.mode, x.table) && Connected(process.table, fin, fout, ferr, x.table))
      && x.argv == g.argv && x.cwd in {account.dir, GuestEnv.ROOT} && (x.tty.Some? <==> g.mode == Tty)
      && x.vars == GuestEnv.AtExec(account, x.cwd, x.tty, g.env)
    }

    /** The guest from child_exec_child on, where any call may still fail. */
    method GuestExec(g: S.Spawn, table: Table, wired: bool) returns (exec: Option<Exec>)
      requires table.Keys == {0, 1, 2} && (g.mode == Tty ==> wired)
      requires wired ==> StandardStreams(g.mode, table) && Connected(process.table, fin, fout, ferr, table)
      ensures exec.Some? ==> AsAsked(exec.value, g) && exec.value.wired == wired
      ensures process.works ==> exec.Some?
    {
      var name: bytes, home: bool, root: bool := *, *, *;
      root := root || process.works;
      var tty := if g.mode == Tty then Some(name) else None;
      var environ := new GuestEnv.ChildEnvironment(process.works);
      var reached, cwd := environ.ExecChild(account, home, root, tty, g.env);
      exec := if reached then Some(Exec(table, wired, g.argv, cwd, tty, environ.vars)) else None;
    }

    /** The three ways of child_fork. */
    method ForkGuest(mode: Mode) returns (r: Forked, table: Table, wired: bool)
      requires Wired() && forker.Ready()
      modifies process
      ensures Outcome(mode, old(process.table), old(process.kids), r, process.table, process.kids)
      ensures r.Guest? && (wired || mode != Tty) ==> GuestTable(old(process.table), remote, table)
      ensures r.Guest? && wired ==>
                StandardStreams(mode, table) && Connected(process.table, r.fin, r.fout, r.ferr, table)
      ensures process.works ==> r.Guest? && wired
    {
      match mode {
        case Tty => r, table, wired := forker.ForkPty();
        case Socket => r, table, wired := forker.ForkSocket();
        case Pipe => r, table, wired := forker.ForkPipe();
      }
    }

    /** It is what S.Execute makes of the kernel's answer. */
    static lemma ForkResult(c: S.Core, f: Frame, r: Forked)
      requires IsFork(f) && S.ListsOf(f).Some? && c.pid < 0
      requires r.Guest? ==> S.Possible(c, ModeOf(f), r)
      ensures S.Execute(c, f, S.Answer(0, false, r))
           == ForkedTo(c, f, ModeOf(f), TerminalIn(f),
                       S.ListsOf(f).value.argv, S.ListsOf(f).value.env, r)
    {
    }

    /** child_execute: the message at the front of the buffer. */
    method Execute(kind: nat, length: nat, body: bytes, ghost c: S.Core, ghost f: Frame)
      returns (ret: int, ghost answer: S.Answer)
      requires Wired() && Holds(c) && !gone && forker.Ready() && Untouched()
      requires f == Frame(kind, body)
      requires if length < HEADER then body == [] else |body| == length - HEADER
      modifies this`pid, this`pty, this`fin, this`fout, this`ferr, this`gone, this`guestIn,
               this`ptySize, this`guest, process
      ensures Executed(c, f, answer, ret)
    {
      answer := S.Answer(0, false, Failed);
      ret := -1;
      if kind == FORK_SOCKET {
        if length >= HEADER + 1 {
          ret, answer := ExecuteFork(Socket, body, Terminal([], []), c, f);
        }
      } else if kind == FORK_PIPE {
        if length >= HEADER + 1 {
          ret, answer := ExecuteFork(Pipe, body, Terminal([], []), c, f);
        }
      } else if kind == FORK_TTY {
        var env := TERMIOS_BYTES + WINSIZE_BYTES;
        if length >= HEADER + env + 1 {
          var terminal := Terminal(body[..TERMIOS_BYTES], body[TERMIOS_BYTES..env]);
          ret, answer := ExecuteFork(Tty, body[env..], terminal, c, f);
        }
      } else if kind == WINSIZE {
        if length == HEADER + WINSIZE_BYTES {
          if !pty {
            ret := 0;
          } else {
            var fails := process.Try();
            var resized := !fails;
            answer := S.Answer(0, resized, Failed);
            ptySize := if resized then body else ptySize;
            ret := if resized then 0 else -1;
          }
        }
      } else if kind == STDIN {
        if length >= SMALLEST {
          var size := WriteGuest(body);
          answer := S.Answer(size, false, Failed);
          ret := if size == |body| then 0 else -1;
        }
      }
    }

    /** The session's own steps in one child_process_remote, from the given one on: a read, then frames,
        then - unless one of them or the read ended the session - the end of the whole frames. */
    static ghost predicate RemoteSteps(h: seq<S.Event>, from: nat, input: Option<bytes>, ret: int) {
      match input
      case None => |h| == from + 1 && h[from] == S.ReadEnds && ret == -1
      case Some(chunk) =>
        && |h| > from && h[from] == S.Read(chunk)
        && (ret == 0 ==> |h| > from + 1 && h[|h| - 1] == S.BufferDry)
        && forall i | from < i < (if ret == 0 then |h| - 1 else |h|) :: h[i].RunFrame?
    }

    /** The message_t at the front of the buffer. */
    method FrontMessage() returns (kind: nat, length: nat, body: bytes)
      requires Wired() && buffer.Contents() == model.buf && HasFrame(model.buf)
      ensures Front(model.buf) == Frame(kind, body)
      ensures if length < HEADER then body == [] else |body| == length - HEADER
    {
      length := buffer.FrontLength();
      kind := buffer.buffer[0] as int + 256 * buffer.buffer[1] as int;
      body := if length < HEADER then [] else buffer.buffer[HEADER..length];
      ghost var b := model.buf;
      assert b[0] == buffer.buffer[0] && b[1] == buffer.buffer[1];
      assert length >= HEADER ==> b[HEADER..length] == body;
    }

    /** One round of the loop in child_process_remote: 1 when no whole frame is left. */
    method ProcessFrame() returns (ret: int)
      requires Valid() && model.pc == S.Dispatch && !gone
      modifies this, process, buffer, buffer.buffer
      ensures Valid()
      ensures ret == 1 ==> !HasFrame(model.buf) && model == old(model) && history == old(history) && !gone
      ensures ret == 1 ==> own == old(own)
      ensures ret == 0 ==> model.pc == S.Dispatch && !gone && |model.buf| < |old(model).buf|
      ensures ret == -1 ==> model.pc.Ended?
      ensures ret == 0 || ret == -1 ==>
                exists answer ::
                  history == old(history) + [S.RunFrame(answer)] && own == old(own) + [S.RunFrame(answer)]
      ensures -1 <= ret <= 1 && (process.works ==> !S.Broken(model))
    {
      var more := buffer.GetMessage();
      if more > 0 {
        return 1;
      }
      ret := ExecuteFront();
    }

    /** The message at the front is executed, and consumed unless that fails. */
    method ExecuteFront() returns (ret: int)
      requires Valid() && model.pc == S.Dispatch && !gone && HasFrame(model.buf)
      modifies this, process, buffer, buffer.buffer
      ensures Valid() && (process.works ==> !S.Broken(model))
      ensures exists answer :: history == old(history) + [S.RunFrame(answer)] && own == old(own) + [S.RunFrame(answer)]
      ensures if ret == 0 then model.pc == S.Dispatch && !gone && |model.buf| < |old(model).buf|
              else ret == -1 && model.pc.Ended?
    {
      ghost var before := model.buf;
      ghost var answer;
      ret, answer := ExecuteMessage();
      FrameDone(ret, answer);
      if ret == 0 {
        Consume(before);
      }
    }

    method ExecuteMessage() returns (ret: int, ghost answer: S.Answer)
      requires Valid() && model.pc == S.Dispatch && !gone && HasFrame(model.buf)
      modifies this`pid, this`pty, this`fin, this`fout, this`ferr, this`gone, this`guestIn,
               this`ptySize, this`guest, process
      ensures Tracking() && Executed(model.core, Front(model.buf), answer, ret)
    {
      var kind, length, body := FrontMessage();
      OpenDescriptors();
      ret, answer := Execute(kind, length, body, model.core, Front(model.buf));
    }

    /** The frame was executed: the machine makes its step. */
    ghost method FrameDone(ret: int, answer: S.Answer)
      requires Tracking()
      requires model.pc == S.Dispatch && HasFrame(model.buf) && buffer.Contents() == model.buf
      requires Executed(model.core, Front(model.buf), answer, ret)
      modifies this`model, this`history, this`own
      ensures Tracking() && history == old(history) + [S.RunFrame(answer)] && own == old(own) + [S.RunFrame(answer)]
      ensures process.works ==> !S.Broken(model)
      ensures if ret == 0 then
                && !gone && model.pc == S.Dispatch && Holds(model.core)
                && Length(old(model).buf) >= SMALLEST && model.buf == old(model).buf[Length(old(model).buf)..]
              else Valid() && model.pc.Ended?
    {
      ExecuteStep(answer);
    }

    method Consume(ghost before: bytes)
      requires Tracking() && !gone && Holds(model.core)
      requires HasFrame(before) && buffer.Contents() == before && model.buf == before[Length(before)..]
      modifies buffer, buffer.buffer
      ensures Valid()
    {
      buffer.ConsumeMessage();
    }

    /** The connection and the standard descriptors are open. */
    lemma OpenDescriptors()
      requires Valid() && !gone
      ensures forker.Ready() && Untouched()
    {
      AlwaysSafe();
    }

    lemma OpenOutput(fd: int)
      requires Valid() && !gone && 0 <= fd && (fd == fout || fd == ferr)
      ensures fd in process.table
    {
      AlwaysSafe();
    }

    lemma SoundChildren()
      requires Valid() && !gone
      ensures ChildrenOk(process.kids)
    {
      AlwaysSafe();
    }

    /** child_process_remote: one read, then every whole frame in the buffer. input is what read(2)
        brought, or None for an error or end of file. */
    method ProcessRemote(input: Option<bytes>) returns (ret: int)
      requires Valid() && model.pc == S.Remote && !gone
      requires input.Some? ==> S.Enabled(model, S.Read(input.value))
      modifies this, process, buffer, buffer.buffer
      ensures Valid() && old(history) <= history
      ensures RemoteSteps(own, |old(own)|, input, ret) && (ret == 0 || ret == -1)
      ensures old(own) <= own && (process.works ==> !S.Broken(model))
      ensures if ret == 0 then !gone && model.pc == S.Out else model.pc.Ended?
    {
      if input.None? {
        Stop(S.ReadEnds);
        return -1;
      }
      Receive(input.value);
      ret := DrainBuffer();
    }

    /** Every whole frame in the buffer, and out of the loop. */
    method DrainBuffer() returns (ret: int)
      requires Valid() && model.pc == S.Dispatch && !gone
      modifies this, process, buffer, buffer.buffer
      ensures Valid() && old(history) <= history && (ret == 0 || ret == -1)
      ensures old(own) <= own && (process.works ==> !S.Broken(model))
      ensures ret == 0 ==> |own| > |old(own)| && own[|own| - 1] == S.BufferDry
      ensures forall i | |old(own)| <= i < (if ret == 0 then |own| - 1 else |own|) :: own[i].RunFrame?
      ensures if ret == 0 then !gone && model.pc == S.Out else model.pc.Ended?
    {
      ret := ProcessFrames();
      if ret == 0 {
        Move(S.BufferDry);
      }
    }

    /** What read(2) brought is behind what the buffer held. */
    method Receive(chunk: bytes)
      requires Valid() && !gone && S.Enabled(model, S.Read(chunk))
      modifies this`model, this`history, this`own, buffer, buffer.buffer
      ensures Valid() && history == old(history) + [S.Read(chunk)] && model.pc == S.Dispatch
      ensures own == old(own) + [S.Read(chunk)]
    {
      buffer.PushBuffer(chunk);
      Plain(S.Read(chunk));
    }

    /** The loop of child_process_remote. */
    method ProcessFrames() returns (ret: int)
      requires Valid() && model.pc == S.Dispatch && !gone
      modifies this, process, buffer, buffer.buffer
      ensures Valid() && old(history) <= history && (ret == 0 || ret == -1)
      ensures old(own) <= own && forall i | |old(own)| <= i < |own| :: own[i].RunFrame?
      ensures process.works ==> !S.Broken(model)
      ensures if ret == 0 then !gone && model.pc == S.Dispatch && !HasFrame(model.buf) else model.pc.Ended?
    {
      ret := 0;
      while ret == 0
        invariant Valid() && -1 <= ret <= 1 && old(history) <= history
        invariant old(own) <= own && forall i | |old(own)| <= i < |own| :: own[i].RunFrame?
        invariant process.works ==> !S.Broken(model)
        invariant if ret < 0 then model.pc.Ended? else model.pc == S.Dispatch && !gone
        invariant ret == 1 ==> !HasFrame(model.buf)
        decreases ret == 0, |model.buf|
      {
        Outside();
        ret := ProcessFrame();
      }
      ret := if ret < 0 then -1 else 0;
    }

    /** child_process_output for the guest's stdout (isOut) or stderr; data is what read(2) brought, or
        None for an error or end of file. */
    method ProcessOutput(isOut: bool, data: Option<bytes>) returns (ret: int, ghost wrote: int)
      requires Valid() && !gone && S.HasOutput(model) && (isOut <==> model.pc == S.Out)
      requires data.Some? ==> 1 <= |data.value| <= RELAY_READ
      modifies this`sent, this`fout, this`ferr, this`model, this`history, this`own, process`table
      ensures Valid() && !gone
      ensures history == old(history) + [if data.Some? then S.Output(data.value, wrote) else S.OutputEnds]
      ensures own == old(own) + [if data.Some? then S.Output(data.value, wrote) else S.OutputEnds]
      ensures process.works ==> ret == 0
      ensures ret < 0 ==> S.Broken(model)
      ensures if isOut then ferr == old(ferr) else fout == old(fout)
      ensures data.Some? ==> fout == old(fout) && ferr == old(ferr)
      ensures ret == if data.Some? && wrote < HEADER + |data.value| then -1 else 0
      ensures if ret == 0 then model.pc == if isOut then S.Err else S.Top else model.pc.Ended?
      ensures ret == 0 ==>
                sent == old(sent)
                      + if data.Some? then Encode(Frame(if isOut then STDOUT else STDERR, data.value)) else []
    {
      wrote := 0;
      if data.None? {
        CloseOutput(isOut);
        return 0, wrote;
      }
      ret, wrote := SendOutput(isOut, data.value);
    }

    /** The message_t of child_process_output. */
    method SendOutput(isOut: bool, data: bytes) returns (ret: int, ghost wrote: int)
      requires Valid() && !gone && S.HasOutput(model) && (isOut <==> model.pc == S.Out)
      requires 1 <= |data| <= RELAY_READ
      modifies this`sent, this`model, this`history, this`own
      ensures Valid() && history == old(history) + [S.Output(data, wrote)] && own == old(own) + [S.Output(data, wrote)]
      ensures ret == (if wrote < HEADER + |data| then -1 else 0) && (process.works ==> ret == 0)
      ensures if ret == 0 then model.pc == if isOut then S.Err else S.Top else S.Broken(model)
      ensures ret == 0 ==> sent == old(sent) + Encode(Frame(if isOut then STDOUT else STDERR, data))
    {
      var msg := new byte[RELAY_BUFFER];
      var length := HEADER + |data|;
      Assemble(msg, if isOut then STDOUT else STDERR, data);
      var size := WriteRemote(msg[..length]);
      wrote := size;
      OutputStep(data, wrote);
      ret := if size != length then -1 else 0;
    }

    method CloseOutput(isOut: bool)
      requires Valid() && !gone && S.HasOutput(model) && (isOut <==> model.pc == S.Out)
      modifies this`fout, this`ferr, this`model, this`history, this`own, process`table
      ensures Valid() && !gone && history == old(history) + [S.OutputEnds] && own == old(own) + [S.OutputEnds]
      ensures model.pc == if isOut then S.Err else S.Top
      ensures if isOut then fout == -1 && ferr == old(ferr) else ferr == -1 && fout == old(fout)
    {
      var fd := if isOut then fout else ferr;
      OpenOutput(fd);
      process.Close(fd);
      fout, ferr := if isOut then -1 else fout, if isOut then ferr else -1;
      OutputEndsStep(isOut);
    }

    /** Between any two system calls, any number of children may exit or stop, and the timer expire. */
    method Outside()
      requires Valid() && !gone && !model.pc.Ended?
      modifies this`model, this`history, this`own, this`alrmPending, process`kids
      ensures Valid() && Around(old(model), model) && old(history) <= history && own == old(own)
      ensures Fewer(process.kids, old(process.kids)) && (old(alrmPending) ==> alrmPending)
    {
      var n: nat := *;
      while n > 0
        invariant Valid() && Around(old(model), model) && old(history) <= history && own == old(own)
        invariant Fewer(process.kids, old(process.kids)) && (old(alrmPending) ==> alrmPending)
      {
        n := n - 1;
        OneOutside();
      }
    }

    method OneOutside()
      requires Valid() && !gone && !model.pc.Ended?
      modifies this`model, this`history, this`own, this`alrmPending, process`kids
      ensures Valid() && Around(old(model), model) && old(history) <= history && own == old(own)
      ensures Fewer(process.kids, old(process.kids)) && (old(alrmPending) ==> alrmPending)
    {
      var p: int, how: Ending, rings: bool, stops: bool := *, *, *, *;
      if rings {
        alrmPending := true;
        Plain(S.AlarmRings);
      } else if stops && process.kids.alive != {} {
        OneStops();
      } else if p in process.kids.alive {
        OneExits(p, how);
      }
    }

    method OneStops()
      requires Valid() && !gone && !model.pc.Ended? && process.kids.alive != {}
      modifies this`model, this`history, this`own, process`kids
      ensures Valid() && Around(old(model), model) && history == old(history) + [S.ChildStops] && own == old(own)
      ensures Fewer(process.kids, old(process.kids))
    {
      process.ChildStops();
      Plain(S.ChildStops);
    }

    method OneExits(p: int, how: Ending)
      requires Valid() && !gone && !model.pc.Ended? && p in process.kids.alive
      modifies this`model, this`history, this`own, process`kids
      ensures Valid() && Around(old(model), model) && own == old(own)
      ensures history == old(history) + [S.ChildExits(p, how)]
      ensures Fewer(process.kids, old(process.kids))
    {
      process.ChildEnds(p, how);
      Plain(S.ChildExits(p, how));
    }

    /** All that such events change. */
    static ghost predicate Around(s: S.Session, t: S.Session) {
      t == s.(core := s.core.(kids := t.core.kids), exits := t.exits, alrmPending := t.alrmPending)
    }

    /** The children are the same, some of them perhaps exited since. */
    static ghost predicate Fewer(k: Kernel.Children, before: Kernel.Children) {
      Unreaped(k) == Unreaped(before) && k.alive <= before.alive && (before.pending ==> k.pending)
    }

    /** The children that have not been reaped. */
    static ghost function Unreaped(k: Kernel.Children): set<int> {
      k.alive + k.zombies.Keys
    }

    static lemma UnreapedShrinks(k: Kernel.Children, p: int)
      requires ChildrenOk(k) && p in k.zombies
      ensures Unreaped(WithoutZombie(k, p)) < Unreaped(k)
    {
      assert p in Unreaped(k) && p !in Unreaped(WithoutZombie(k, p));
    }

    /** One waitpid of child_sigchld: 1 to go round, 0 to leave the loop, -1 to fail; found is the ret
        collected so far. */
    method ReapOne(found: bool) returns (next: int, found': bool)
      requires Valid() && !gone && model.pc == S.Reap(found)
      modifies this`pid, this`sent, this`model, this`history, this`own, this`alrmPending, process`kids
      ensures Valid() && old(history) <= history && process.kids.alive <= old(process.kids.alive)
      ensures exists e :: Waited(e, next) && own == old(own) + [e]
      ensures -1 <= next <= 1 && (process.works ==> next >= 0)
      ensures next == 1 ==>
                model.pc == S.Reap(found') && Unreaped(process.kids) < old(Unreaped(process.kids))
      ensures next == 0 ==> model.pc == S.Clear(found') && process.kids.zombies == map[]
      ensures next == -1 ==> S.Broken(model)
    {
      Outside();
      next, found' := WaitOnce(found);
    }

    /** The step of a waitpid that came to next. */
    static predicate Waited(e: S.Event, next: int) {
      if next == 0 then e == S.WaitNone else e.WaitChild? || (next < 0 && e == S.WaitFails)
    }

    method WaitOnce(found: bool) returns (next: int, found': bool)
      requires Valid() && !gone && model.pc == S.Reap(found)
      modifies this`pid, this`sent, this`model, this`history, this`own, process`kids
      ensures Valid() && old(history) <= history && exists e :: Waited(e, next) && own == old(own) + [e]
      ensures -1 <= next <= 1 && process.kids.alive == old(process.kids.alive)
      ensures process.works ==> next >= 0
      ensures next == 1 ==>
                model.pc == S.Reap(found') && Unreaped(process.kids) < old(Unreaped(process.kids))
      ensures next == 0 ==> model.pc == S.Clear(found') && process.kids.zombies == map[]
      ensures next == -1 ==> S.Broken(model)
    {
      found' := found;
      SoundChildren();
      ghost var before := process.kids;
      var p, status, echild := process.WaitPid();
      if p > 0 {
        next, found' := Reaped(p, status, found, before);
      } else if p < 0 && !echild {
        Stop(S.WaitFails);
        next := -1;
      } else {
        Move(S.WaitNone);
        next := 0;
      }
      assert Waited(own[|own| - 1], next);
    }

    /** waitpid has returned a child: if it is the guest, its status goes to the client. */
    method Reaped(p: int, status: nat, found: bool, ghost before: Kernel.Children)
      returns (next: int, found': bool)
      requires JustReaped(p, status, before) && model.pc == S.Reap(found)
      modifies this`pid, this`sent, this`model, this`history, this`own
      ensures Valid() && old(history) <= history
      ensures exists wrote :: own == old(own) + [S.WaitChild(p, wrote)]
      ensures Unreaped(process.kids) < Unreaped(before)
      ensures next == 1 || next == -1
      ensures found' == (found || p == old(pid)) && (process.works ==> next == 1)
      ensures if next == 1 then model.pc == S.Reap(found') else S.Broken(model)
    {
      UnreapedShrinks(before, p);
      if p == pid {
        next := GuestReaped(status, before);
        return next, true;
      }
      WaitStep(p, 0);
      next, found' := 1, found;
    }

    /** The child p is off the table, and the globals are as they were. */
    ghost predicate JustReaped(p: int, status: nat, before: Kernel.Children)
      reads this, process, forker, buffer, buffer.buffer
    {
      && Tracking() && !gone && model.pc.Reap? && buffer.Contents() == model.buf && HoldsButKids(model.core)
      && before == model.core.kids && ChildrenOk(before) && p in before.zombies && status == before.zombies[p]
      && process.kids == WithoutZombie(before, p)
    }

    method GuestReaped(status: nat, ghost before: Kernel.Children) returns (next: int)
      requires JustReaped(pid, status, before)
      modifies this`pid, this`sent, this`model, this`history, this`own
      ensures Valid() && old(history) <= history
      ensures exists wrote :: own == old(own) + [S.WaitChild(old(pid), wrote)]
      ensures process.works ==> next == 1
      ensures if next == 1 then model.pc == S.Reap(true) else next == -1 && S.Broken(model)
    {
      ghost var guest := pid;
      pid := 0;
      var size := SendStatus(status);
      WaitStep(guest, size);
      next := if size != HEADER + STATUS_BYTES then -1 else 1;
    }

    /** The message_status_t of child_sigchld. */
    method SendStatus(status: nat) returns (size: int)
      modifies this`sent
      ensures -1 <= size <= HEADER + STATUS_BYTES && (process.works ==> size == HEADER + STATUS_BYTES)
      ensures sent == old(sent) + Written(Encode(S.StatusFrame(status)), size)
    {
      var msg := new byte[HEADER + STATUS_BYTES];
      Assemble(msg, STATUS, U32(status % 0x1_0000_0000));
      size := WriteRemote(msg[..HEADER + STATUS_BYTES]);
    }

    /** child_sigchld, with children exiting before and after every waitpid and before the flag is
        cleared: with the flag up it reaps every child that had exited when it was called. */
    method Sigchld() returns (ret: int)
      requires Valid() && !gone && model.pc == if sigchld then S.Reap(false) else S.Select
      modifies this, process`kids
      ensures Valid() && !gone && old(history) <= history
      ensures -1 <= ret <= 1 && (ret == 1 <==> model.pc == S.Ended(S.GuestExited))
      ensures if ret == 0 then model.pc == S.Select else model.pc.Ended?
      ensures ret >= 0 && old(sigchld) ==> Unreaped(process.kids) <= old(process.kids.alive)
      ensures if old(sigchld) then ReapSteps(own, |old(own)|, ret) && old(own) <= own
              else own == old(own) && history == old(history) && ret == 0
      ensures process.works ==> ret >= 0
    {
      if !sigchld {
        return 0;
      }
      ret := ReapAndClear();
    }

    method ReapAndClear() returns (ret: int)
      requires Valid() && !gone && model.pc == S.Reap(false)
      modifies this`pid, this`sent, this`sigchld, this`model, this`history, this`own, this`alrmPending, process`kids
      ensures Valid() && old(history) <= history
      ensures -1 <= ret <= 1 && (ret == 1 <==> model.pc == S.Ended(S.GuestExited))
      ensures if ret == 0 then model.pc == S.Select else model.pc.Ended?
      ensures ret >= 0 ==> Unreaped(process.kids) <= old(process.kids.alive)
      ensures ReapSteps(own, |old(own)|, ret) && old(own) <= own
      ensures process.works ==> ret >= 0
    {
      var next, found := ReapAll();
      if next < 0 {
        return -1;
      }
      ThenCleared(own, |old(own)|, 0);
      ThenCleared(own, |old(own)|, 1);
      ret := Finish(found);
    }

    /** The session's own steps in child_sigchld, from the given one on: waitpid until no child is left, and the
        flag is cleared. */
    static ghost predicate ReapSteps(h: seq<S.Event>, from: nat, ret: int) {
      ret >= 0 ==>
        && |h| >= from + 2 && h[|h| - 2] == S.WaitNone && h[|h| - 1] == S.ClearFlag
        && forall i | from <= i < |h| - 2 :: h[i].WaitChild?
    }

    method Finish(found: bool) returns (ret: int)
      requires Valid() && !gone && model.pc == S.Clear(found)
      modifies this`sigchld, this`model, this`history, this`own, this`alrmPending, process`kids
      ensures Valid() && old(history) <= history && Fewer(process.kids, old(process.kids))
      ensures own == old(own) + [S.ClearFlag]
      ensures ret == if found then 1 else 0
      ensures model.pc == if found then S.Ended(S.GuestExited) else S.Select
    {
      Outside();
      ret := ClearFlag(found);
    }

    /** The session's own steps in the waitpid loop, from the given one on. */
    static ghost predicate NoneLeft(h: seq<S.Event>, from: nat) {
      && |h| > from && h[|h| - 1] == S.WaitNone
      && forall i | from <= i < |h| - 1 :: h[i].WaitChild?
    }

    static lemma ThenCleared(h: seq<S.Event>, from: nat, ret: int)
      requires NoneLeft(h, from)
      ensures ReapSteps(h + [S.ClearFlag], from, ret)
    {
    }

    /** The waitpid loop of child_sigchld: 0 when no exited child is left, -1 to fail. */
    method ReapAll() returns (next: int, found: bool)
      requires Valid() && !gone && model.pc == S.Reap(false)
      modifies this`pid, this`sent, this`model, this`history, this`own, this`alrmPending, process`kids
      ensures Valid() && old(history) <= history && process.kids.alive <= old(process.kids.alive)
      ensures old(own) <= own && (next == 0 ==> NoneLeft(own, |old(own)|))
      ensures if next == 0 then model.pc == S.Clear(found) && process.kids.zombies == map[]
              else next == -1 && S.Broken(model)
      ensures process.works ==> next == 0
    {
      found, next := false, 1;
      while next == 1
        invariant Valid() && !gone && old(history) <= history
        invariant -1 <= next <= 1 && process.kids.alive <= old(process.kids.alive)
        invariant old(own) <= own && (next == 0 ==> |own| > |old(own)| && own[|own| - 1] == S.WaitNone)
        invariant forall i | |old(own)| <= i < (if next == 1 then |own| else |own| - 1) :: own[i].WaitChild?
        invariant next == 1 ==> model.pc == S.Reap(found)
        invariant next == 0 ==> model.pc == S.Clear(found) && process.kids.zombies == map[]
        invariant next == -1 ==> S.Broken(model)
        invariant process.works ==> next >= 0
        decreases next == 1, Unreaped(process.kids)
      {
        next, found := ReapOne(found);
      }
    }

    /** The end of child_sigchld. */
    method ClearFlag(found: bool) returns (ret: int)
      requires Valid() && !gone && model.pc == S.Clear(found)
      modifies this`sigchld, this`model, this`history, this`own
      ensures Valid() && history == old(history) + [S.ClearFlag] && own == old(own) + [S.ClearFlag]
      ensures ret == if found then 1 else 0
      ensures model.pc == if found then S.Ended(S.GuestExited) else S.Select
    {
      sigchld := false;
      Plain(S.ClearFlag);
      ret := if found then 1 else 0;
    }

    /** pselect delivers what is pending of SIGCHLD and SIGALRM: the handlers raise their flags. */
    method Interrupt(chld: bool, alrm: bool)
      requires Valid() && !gone && model.pc == S.Select && (chld || alrm)
      requires (chld ==> process.kids.pending) && (alrm ==> alrmPending)
      modifies this`sigchld, this`sigalrm, this`alrmPending, this`model, this`history, this`own, process`kids
      ensures Valid() && !gone && history == old(history) + [S.Interrupted(chld, alrm)]
      ensures own == old(own) + [S.Interrupted(chld, alrm)] && model.pc == S.Top
    {
      if chld {
        process.TakeSigchld();
        sigchld := true;
      }
      if alrm {
        alrmPending := false;
        sigalrm := true;
      }
      InterruptStep(chld, alrm);
    }

    /** The step made for an output: what a read of it brings is relayed, at its end it is closed, and it is left
        alone if it is not ready or, as fd says, not open. */
    static predicate OutputServed(e: S.Event, look: Look, fd: int) {
      if e == S.NotReady then look == Idle || fd < 0
      else
        look != Idle
        && match ReadUpTo(look, RELAY_READ)
           case Some(data) => e.Output? && e.data == data
           case None => e == S.OutputEnds
    }

    /** One of the guest's outputs in child_loop: relayed if it is open and ready. */
    method RelayOutput(isOut: bool, look: Look) returns (ret: int)
      requires Valid() && !gone && model.pc == if isOut then S.Out else S.Err
      modifies this`sent, this`fout, this`ferr, this`alrmPending, this`model, this`history, this`own, process
      ensures Valid() && !gone && old(history) <= history && (ret == 0 || ret == -1)
      ensures if ret == 0 then model.pc == if isOut then S.Err else S.Top else S.Broken(model)
      ensures exists e :: OutputServed(e, look, if isOut then fout else ferr) && own == old(own) + [e]
      ensures if isOut then ferr == old(ferr) else fout == old(fout)
      ensures process.works ==> ret == 0
    {
      Outside();
      if look != Idle && (if isOut then fout else ferr) >= 0 {
        ghost var wrote;
        ret, wrote := ProcessOutput(isOut, ReadUpTo(look, RELAY_READ));
      } else {
        Move(S.NotReady);
        ret := 0;
      }
      assert OutputServed(own[|own| - 1], look, if isOut then fout else ferr);
    }

    /** child_loop from pselect to the head of the loop, for what pselect answers. Signals are delivered if there
        are any; everything that is ready is served. */
    method SelectAndServe(poll: Poll) returns (ret: int)
      requires Valid() && !gone && model.pc == S.Select && (process.works ==> poll != Fails)
      modifies this, process, buffer, buffer.buffer
      ensures Valid() && old(history) <= history && (ret == 0 || ret == -1)
      ensures if ret == 0 then !gone && model.pc == S.Top else model.pc.Ended?
      ensures process.works ==> !S.Broken(model)
      ensures exists chld, alrm ::
                && (old(process.kids).pending ==> chld) && (old(alrmPending) ==> alrm)
                && Answered(own, |old(own)|, poll, chld, alrm, ret, fout, ferr)
      ensures old(own) < own
    {
      Outside();
      ret := Answer(poll);
    }

    method Answer(poll: Poll) returns (ret: int)
      requires Valid() && !gone && model.pc == S.Select && (process.works ==> poll != Fails)
      modifies this, process, buffer, buffer.buffer
      ensures Valid() && old(history) <= history && (ret == 0 || ret == -1)
      ensures if ret == 0 then !gone && model.pc == S.Top else model.pc.Ended?
      ensures process.works ==> !S.Broken(model)
      ensures Answered(own, |old(own)|, poll, old(process.kids).pending, old(alrmPending), ret, fout, ferr)
      ensures old(own) < own
    {
      if poll.Ready? {
        Move(S.Ready);
        ret := Serve(poll);
      } else {
        ret := AnswerOther(poll);
      }
    }

    method AnswerOther(poll: Poll) returns (ret: int)
      requires Valid() && !gone && model.pc == S.Select && (process.works ==> poll != Fails) && !poll.Ready?
      modifies this`sigchld, this`sigalrm, this`alrmPending, this`model, this`history, this`own, process`kids
      ensures Valid() && old(history) <= history && (ret == 0 || ret == -1)
      ensures if ret == 0 then model.pc == S.Top else model.pc.Ended?
      ensures process.works ==> !S.Broken(model)
      ensures Answered(own, |old(own)|, poll, old(process.kids).pending, old(alrmPending), ret, fout, ferr)
      ensures old(own) < own
    {
      ret := 0;
      match poll {
        case Signals => Deliver();
        case Fails =>
          Stop(S.SelectFails);
          ret := -1;
        case TimesOut => Move(S.Timeout);
      }
    }

    /** The session's own steps from pselect on, which are the given ones from from on. */
    static ghost predicate Answered(h: seq<S.Event>, from: nat, poll: Poll, chld: bool, alrm: bool, ret: int,
                                    fout: int, ferr: int)
    {
      match poll
      case Fails => |h| == from + 1 && h[from] == S.SelectFails && ret == -1
      case TimesOut => |h| == from + 1 && h[from] == S.Timeout && ret == 0
      case Signals =>
        |h| == from + 1 && h[from] == (if chld || alrm then S.Interrupted(chld, alrm) else S.Timeout) && ret == 0
      case Ready(_, _, _) =>
        |h| > from && h[from] == S.Ready && (ret == 0 ==> AllServed(h, from + 1, poll, fout, ferr))
    }

    /** pselect with its signal mask: what is pending is delivered. */
    method Deliver()
      requires Valid() && !gone && model.pc == S.Select
      modifies this`sigchld, this`sigalrm, this`alrmPending, this`model, this`history, this`own, process`kids
      ensures Valid() && !gone && old(history) <= history && model.pc == S.Top
      ensures var chld, alrm := old(process.kids).pending, old(alrmPending);
              own == old(own) + [if chld || alrm then S.Interrupted(chld, alrm) else S.Timeout]
    {
      var chld, alrm := process.kids.pending, alrmPending;
      if chld || alrm {
        Interrupt(chld, alrm);
      } else {
        Move(S.Timeout);
      }
    }

    /** The session's own steps for descriptors that are ready, from the given one on: those of the client's, then
        one for each output. */
    static ghost predicate AllServed(h: seq<S.Event>, from: nat, poll: Poll, fout: int, ferr: int)
      requires poll.Ready?
    {
      var n := |h| - 2;
      && n > from && RemoteServed(h[..n], from, poll.remote)
      && OutputServed(h[n], poll.out, fout) && OutputServed(h[n + 1], poll.err, ferr)
    }

    /** The session's own steps for the client's descriptor: those of one child_process_remote with what the read
        brings, if it is ready. */
    static ghost predicate RemoteServed(h: seq<S.Event>, from: nat, look: Look) {
      if look == Idle then |h| == from + 1 && h[from] == S.NotReady
      else exists room: nat :: 2 <= room <= Decoder.CAPACITY && RemoteSteps(h, from, ReadUpTo(look, room), 0)
    }

    /** The descriptors in child_loop, one after the other. */
    method Serve(poll: Poll) returns (ret: int)
      requires Valid() && !gone && model.pc == S.Remote && poll.Ready?
      modifies this, process, buffer, buffer.buffer
      ensures Valid() && old(history) <= history && (ret == 0 || ret == -1)
      ensures if ret == 0 then !gone && model.pc == S.Top else model.pc.Ended?
      ensures old(own) <= own && (ret == 0 ==> AllServed(own, |old(own)|, poll, fout, ferr))
      ensures process.works ==> !S.Broken(model)
    {
      ret := ServeRemote(poll.remote);
      if ret != 0 {
        return -1;
      }
      ret := ServeRest(poll, |old(own)|);
    }

    method ServeRest(poll: Poll, ghost from: nat) returns (ret: int)
      requires Valid() && !gone && model.pc == S.Out && poll.Ready?
      requires |own| > from && RemoteServed(own, from, poll.remote)
      modifies this`sent, this`fout, this`ferr, this`alrmPending, this`model, this`history, this`own, process
      ensures Valid() && old(history) <= history && (ret == 0 || ret == -1)
      ensures if ret == 0 then model.pc == S.Top else S.Broken(model)
      ensures old(own) <= own && (ret == 0 ==> AllServed(own, from, poll, fout, ferr))
      ensures process.works ==> ret == 0
    {
      ret := ServeOutputs(poll.out, poll.err);
      if ret == 0 {
        Together(old(own), own, from, poll, fout, ferr);
      }
    }

    static lemma Together(soFar: seq<S.Event>, h: seq<S.Event>, from: nat, poll: Poll, fout: int, ferr: int)
      requires poll.Ready? && RemoteServed(soFar, from, poll.remote) && |soFar| > from
      requires soFar <= h && |h| == |soFar| + 2
      requires OutputServed(h[|soFar|], poll.out, fout) && OutputServed(h[|soFar| + 1], poll.err, ferr)
      ensures AllServed(h, from, poll, fout, ferr)
    {
      assert h[..|h| - 2] == soFar;
    }

    method ServeOutputs(out: Look, err: Look) returns (ret: int)
      requires Valid() && !gone && model.pc == S.Out
      modifies this`sent, this`fout, this`ferr, this`alrmPending, this`model, this`history, this`own, process
      ensures Valid() && old(history) <= history && (ret == 0 || ret == -1)
      ensures if ret == 0 then model.pc == S.Top else S.Broken(model)
      ensures old(own) <= own
      ensures ret == 0 ==>
                && |own| == |old(own)| + 2
                && OutputServed(own[|old(own)|], out, fout) && OutputServed(own[|old(own)| + 1], err, ferr)
      ensures process.works ==> ret == 0
    {
      ret := RelayOutput(true, out);
      if ret != 0 {
        return -1;
      }
      ret := RelayOutput(false, err);
    }

    /** The client's descriptor in child_loop. The buffer always has room here, so the read cannot
        mistake a full buffer for the end of the stream. */
    method ServeRemote(look: Look) returns (ret: int)
      requires Valid() && !gone && model.pc == S.Remote
      modifies this, process, buffer, buffer.buffer
      ensures Valid() && old(history) <= history && (ret == 0 || ret == -1)
      ensures if ret == 0 then !gone && model.pc == S.Out else model.pc.Ended?
      ensures old(own) < own && (ret == 0 ==> RemoteServed(own, |old(own)|, look))
      ensures |old(model).buf| + 2 <= Decoder.CAPACITY
      ensures process.works ==> !S.Broken(model)
    {
      RoomToRead();
      Outside();
      if look == Idle {
        Move(S.NotReady);
        return 0;
      }
      var space := buffer.GetBufferSpace();
      ret := ProcessRemote(ReadUpTo(look, space));
    }

    lemma RoomToRead()
      requires Valid() && model.pc == S.Remote
      ensures |model.buf| <= Decoder.CAPACITY - 2
    {
      AlwaysSafe();
    }

    /** child_loop, for what pselect answers in its rounds: ret is its result once it returns, running until
        then. */
    method Loop(polls: seq<Poll>) returns (running: bool, ret: int)
      requires Valid() && !gone && model.pc == S.Top && (process.works ==> Fails !in polls)
      modifies this, process, buffer, buffer.buffer
      ensures Valid() && old(history) <= history
      ensures if running then !gone && model.pc == S.Top else model.pc.Ended?
      ensures !running && ret == 0 ==> model.pc == S.Ended(S.AlarmStop) || model.pc == S.Ended(S.OsError)
      ensures running ==> |own| >= |old(own)| + 2 * |polls|
      ensures process.works ==> !S.Broken(model)
    {
      running, ret := true, 0;
      for n := 0 to |polls|
        invariant Valid() && old(history) <= history && !gone && model.pc == S.Top && running
        invariant |own| >= |old(own)| + 2 * n && (process.works ==> !S.Broken(model))
      {
        running, ret := Round(polls[n]);
        if !running {
          return;
        }
      }
    }

    /** One round of child_loop. */
    method Round(poll: Poll) returns (running: bool, ret: int)
      requires Valid() && !gone && model.pc == S.Top && (process.works ==> poll != Fails)
      modifies this, process, buffer, buffer.buffer
      ensures Valid() && old(history) <= history
      ensures if running then !gone && model.pc == S.Top else model.pc.Ended?
      ensures !running && ret == 0 ==> model.pc == S.Ended(S.AlarmStop) || model.pc == S.Ended(S.OsError)
      ensures running ==> |own| >= |old(own)| + 2
      ensures process.works ==> !S.Broken(model)
    {
      var go := RunOnce();
      if !go {
        return false, 0;
      }
      ret := Sigchld();
      if ret != 0 {
        return false, -1;
      }
      ret := SelectAndServe(poll);
      running := ret == 0;
    }

    /** The head of child_loop. */
    method RunOnce() returns (go: bool)
      requires Valid() && !gone && model.pc == S.Top
      modifies this`model, this`history, this`own, this`handshaking, this`alrmPending, process`kids
      ensures Valid() && old(history) <= history && exists canceled :: own == old(own) + [S.Run(canceled)]
      ensures if go then model.pc == (if sigchld then S.Reap(false) else S.Select)
              else model.pc == S.Ended(S.AlarmStop) || S.Broken(model)
      ensures process.works ==> !S.Broken(model)
    {
      var fails := process.Try();
      Outside();
      go := Run(!fails);
      NeverFinished();
    }

    lemma NeverFinished()
      requires Tracking()
      ensures model.pc != S.Ended(S.Finished)
    {
      SS.SafeAlways(remote, others, history, model);
    }
  }
}
