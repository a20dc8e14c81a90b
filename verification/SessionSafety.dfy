/** What every step of a session keeps, and so what holds in every state any run can reach. */
module SessionSafety {
  import opened Bytes
  import opened Message
  import opened Kernel
  import opened Descriptors
  import opened Session
  import Decoder
  import ForkPayload
  import Runs

  /** The bytes read are the accepted frames and then the buffer; outside the frame loop no whole
      frame waits in it. */
  ghost predicate InStream(s: Session) {
    && s.received == EncodeAll(s.core.log) + s.buf
    && |s.buf| <= Decoder.CAPACITY
    && AllHaveBodies(s.core.log)
    && (s.pc != Dispatch && !s.pc.Ended? ==> !HasFrame(s.buf))
  }

  /** The guest's stdin has been given the StdIn bodies in order; only a session that a short write
      ended has given part of one more. */
  ghost predicate GuestInput(s: Session) {
    var whole := Payload(s.core.log, STDIN);
    s.core.guestIn == whole
    || (Broken(s) && HasFrame(s.buf) && Front(s.buf).kind == STDIN
        && whole <= s.core.guestIn <= whole + Front(s.buf).body)
  }

  /** g_child_pid: -1 before the one guest, its pid while unreaped, 0 ever after; and the guest is
      what the one accepted fork frame asked for. */
  ghost predicate CoreLifecycle(c: Core) {
    && (c.pid == -1 <==> c.guest.None?)
    && (c.guest.Some? ==> c.guest.value.pid > 0 && (c.pid == c.guest.value.pid || c.pid == 0))
    && (c.pid == -1 ==> c.fin == c.fout == c.ferr == -1)
    && |Forks(c.log)| == (if c.guest.Some? then 1 else 0)
    && (c.guest.Some? ==>
          var f := Forks(c.log)[0];
          && IsFork(f) && ListsOf(f) == Some(ForkPayload.Lists(c.guest.value.argv, c.guest.value.env))
          && c.guest.value.mode == ModeOf(f)
          && |f.body| >= Preamble(ModeOf(f)) && c.guest.value.termios == TerminalIn(f).termios
          && c.pty == (c.guest.value.mode == Tty)
          && (c.pty ==> c.ptySize == LastSize(c.log)))
  }

  ghost predicate Lifecycle(s: Session) {
    && CoreLifecycle(s.core)
    && (s.core.guest.None? && !s.pc.Ended? ==> !s.core.pty)
    && (s.pc == Ended(AlarmStop) ==> s.core.guest.None?)
    && (!s.handshaking ==> s.sigalrm)
  }

  /** The open descriptors are the inherited ones, the connection and what the session holds for its
      guest; the held ones are distinct and none of the former, so none is closed twice or leaked; and they
      are the session's ends of the guest's streams. */
  ghost predicate DescriptorsOwned(c: Core) {
    && c.remote > 2
    && c.fin >= -1 && c.fout >= -1 && c.ferr >= -1
    && (c.fin == c.fout ==> c.fin == -1) && (c.fin == c.ferr ==> c.fin == -1)
    && (c.fout == c.ferr ==> c.fout == -1)
    && Held(c.fin, c.fout, c.ferr) !! {0, 1, 2, c.remote}
    && c.fds.Keys == {0, 1, 2, c.remote} + Held(c.fin, c.fout, c.ferr)
    && NoGuestEndKept(c.fds)
    && (c.pid != -1 ==> c.fin >= 0)
    && (c.guest.Some? ==> Holding(c.fds, c.guest.value.mode, c.fin, c.fout, c.ferr))
  }

  /** No child exit is lost: an exited child that is not reaped yet has left the flag set or the
      signal pending, also between the last waitpid and clearing the flag; and the flag is down when
      pselect is entered, so pselect cannot sleep past an exit. */
  ghost predicate NoLostExit(s: Session) {
    var k := s.core.kids;
    && ChildrenOk(k)
    && (s.core.pid > 0 && !s.pc.Ended? ==> s.core.pid in k.alive || s.core.pid in k.zombies)
    && (forall p | p in k.zombies :: p in s.exits && k.zombies[p] == WaitStatus(s.exits[p]))
    && (s.pc.Reap? || s.pc.Clear? ==> s.sigchld)
    && (s.pc == Select ==> !s.sigchld)
    && (k.zombies != map[] ==>
          s.pc.Ended? || k.pending || (s.sigchld && !s.pc.Clear?))
  }

  /** The bytes written are whole frames, and each guest stream is carried completely and in order up to
      the last read; only after a failed call there may be a fragment behind the frames, and less of a
      stream in them. */
  ghost predicate OutStream(s: Session) {
    var whole := EncodeAll(s.slog);
    && whole <= s.sent
    && Fragment(s.sent[|whole|..])
    && (Complete(s) ==> s.sent == whole)
    && (forall i | 0 <= i < |s.slog| :: SessionFrame(s.slog[i]))
    && Payload(s.slog, STDOUT) <= s.gout && Payload(s.slog, STDERR) <= s.gerr
    && (Complete(s) ==> Payload(s.slog, STDOUT) == s.gout && Payload(s.slog, STDERR) == s.gerr)
  }

  /** No write to the client has failed: no call has, or the status, which is the last, is out. */
  predicate Complete(s: Session) {
    !Broken(s) || !NoStatus(s.slog)
  }

  /** The frames a session emits. */
  predicate SessionFrame(f: Frame) {
    if f.kind == STATUS then |f.body| == STATUS_BYTES
    else f.kind in {STDOUT, STDERR} && 1 <= |f.body| <= RELAY_READ
  }

  predicate NoStatus(fs: seq<Frame>) {
    forall i | 0 <= i < |fs| :: fs[i].kind != STATUS
  }

  /** At most one status frame, last on the wire, with the wait status of the one guest; it has gone out
      once the guest is reaped, unless its write failed. From then on the session only finishes
      child_sigchld, so child_run never sees a reaped guest and never ends the session for having drained the
      guest's output. */
  ghost predicate StatusFinal(s: Session) {
    && (s.pc in {Reap(true), Clear(true), Ended(GuestExited)} ==> s.core.pid == 0)
    && s.pc != Ended(Finished)
    && (s.core.pid == 0 ==> s.pc in {Reap(true), Clear(true)} || s.pc.Ended?)
    && (s.core.pid == 0 ==>
          && s.core.guest.Some? && s.core.guest.value.pid in s.exits
          && s.core.guest.value.pid !in s.core.kids.alive)
    && (s.pc in {Reap(true), Clear(true), Ended(GuestExited)} ==> !NoStatus(s.slog))
    && (NoStatus(s.slog)
        || (&& s.core.pid == 0
            && (forall i | 0 <= i < |s.slog| - 1 :: s.slog[i].kind != STATUS)
            && s.slog[|s.slog| - 1] == StatusFrame(WaitStatus(s.exits[s.core.guest.value.pid]))))
  }

  ghost predicate Safe(s: Session) {
    && InStream(s) && GuestInput(s) && Lifecycle(s) && DescriptorsOwned(s.core)
    && NoLostExit(s) && OutStream(s) && StatusFinal(s)
  }

  lemma SafeAtStart(remote: int, others: set<int>)
    requires remote > 2 && forall p | p in others :: p > 0
    ensures Safe(Start(remote, others))
  {
    NothingSaid(Start(remote, others));
  }

  lemma NothingSaid(s: Session)
    requires s.core.log == s.slog == [] && s.buf == s.received == s.sent == []
    requires s.core.guestIn == s.gout == s.gerr == [] && s.pc == Top
    ensures InStream(s) && GuestInput(s) && OutStream(s)
  {
  }

  /** What executing a frame can change: the log and the guest's input grow by this frame, and a
      fork adds the guest as a new child. Nothing below sizeof(message_t) is accepted. */
  ghost predicate OutcomeOf(c: Core, f: Frame, r: Executed) {
    var d := r.core;
    && (if r.verdict == Fine then |f.body| >= 1 && d.log == c.log + [f] else d.log == c.log)
    && (if f.kind != STDIN || r.verdict == Refused then d.guestIn == c.guestIn
        else if r.verdict == Fine then d.guestIn == c.guestIn + f.body
        else c.guestIn <= d.guestIn <= c.guestIn + f.body)
    && (if d.pid == c.pid then d.kids == c.kids && d.guest == c.guest
        else
          && c.pid < 0 < d.pid && d.kids == WithChild(c.kids, d.pid)
          && d.pid !in c.kids.alive && d.pid !in c.kids.zombies)
    && (c.guest.None? && r.verdict == Fine && d.guest.None? ==> d.pty == c.pty)
  }

  lemma OutcomeOfExecute(c: Core, f: Frame, answer: Answer)
    ensures OutcomeOf(c, f, Execute(c, f, answer))
  {
  }

  /** child_run changes only the handshake flag. */
  lemma RunKept(s: Session, canceled: bool)
    requires s.pc == Top && Safe(s)
    ensures Safe(StepRun(s, canceled))
  {
    RunTouches(s, canceled);
  }

  lemma PutKept(s: Session, f: Frame, wrote: int)
    requires s.sent == EncodeAll(s.slog) && SessionFrame(f)
    requires forall i | 0 <= i < |s.slog| :: SessionFrame(s.slog[i])
    ensures var t := Put(s, f, wrote);
            && EncodeAll(t.slog) <= t.sent && Fragment(t.sent[|EncodeAll(t.slog)|..])
            && (t.slog == s.slog || t.slog == s.slog + [f])
            && (t.pc.Ended? || t.slog == s.slog + [f])
            && (t.slog == s.slog + [f] ==> t.sent == EncodeAll(t.slog))
            && (t.slog == s.slog ==> t.pc.Ended?)
            && (forall i | 0 <= i < |t.slog| :: SessionFrame(t.slog[i]))
  {
    EncodeAllSnoc(s.slog, f);
    var n := Clamp(wrote, |Encode(f)|);
    if n < |Encode(f)| {
      CutFrameIsFragment(f, n);
      assert (s.sent + Encode(f)[..n])[|s.sent|..] == Encode(f)[..n];
    }
  }

  lemma PutTouches(s: Session, f: Frame, wrote: int)
    ensures var t := Put(s, f, wrote);
            && t == s.(sent := t.sent, slog := t.slog, pc := t.pc)
            && t.pc == (if wrote >= |Encode(f)| then s.pc else Ended(OsError))
            && t.sent == s.sent + Written(Encode(f), wrote)
  {
  }

  /** Which fields the larger steps touch. */
  lemma RunTouches(s: Session, canceled: bool)
    ensures var t := StepRun(s, canceled);
            t == s.(handshaking := t.handshaking, pc := t.pc)
            && t.pc != Ended(RefusedFrame)
  {
  }

  lemma WaitTouches(s: Session, p: int, wrote: int)
    requires s.pc.Reap? && p in s.core.kids.zombies
    ensures var t := StepWait(s, p, wrote);
            && t == s.(core := s.core.(kids := WithoutZombie(s.core.kids, p), pid := t.core.pid),
                       sent := t.sent, slog := t.slog, pc := t.pc)
            && t.core.pid == (if p == s.core.pid then 0 else s.core.pid)
            && t.pc == (if p != s.core.pid then s.pc
                        else if wrote >= HEADER + STATUS_BYTES then Reap(true) else Ended(OsError))
            && t.sent == if p != s.core.pid then s.sent
                         else s.sent + Written(Encode(StatusFrame(s.core.kids.zombies[p])), wrote)
  {
    var u := s.(core := s.core.(kids := WithoutZombie(s.core.kids, p), pid := 0), pc := Reap(true));
    PutTouches(u, StatusFrame(s.core.kids.zombies[p]), wrote);
  }

  lemma ExecuteTouches(s: Session, answer: Answer)
    requires HasFrame(s.buf) && s.pc == Dispatch
    ensures var t := StepExecute(s, answer);
            t == s.(core := Execute(s.core, Front(s.buf), answer).core, buf := t.buf, pc := t.pc)
    ensures StepExecute(s, answer).pc == Ended(RefusedFrame) <==>
              Execute(s.core, Front(s.buf), answer).verdict == Refused
  {
    SettleTouches(s, Execute(s.core, Front(s.buf), answer));
  }

  lemma SettleTouches(s: Session, r: Executed)
    requires HasFrame(s.buf) && s.pc == Dispatch
    ensures var t := Settle(s, r);
            && t == s.(core := r.core, buf := t.buf, pc := t.pc)
            && (t.pc == Ended(RefusedFrame) <==> r.verdict == Refused)
  {
  }

  lemma OutputTouches(s: Session, data: bytes, wrote: int)
    requires 1 <= |data| <= RELAY_READ && HasOutput(s)
    ensures var t := StepOutput(s, data, wrote);
            && t == s.(gout := t.gout, gerr := t.gerr, sent := t.sent, slog := t.slog, pc := t.pc)
            && t.pc == (if wrote < HEADER + |data| then Ended(OsError) else if s.pc == Out then Err else Top)
            && t.sent == s.sent + Written(Encode(Frame(if s.pc == Out then STDOUT else STDERR, data)), wrote)
  {
    if s.pc == Out {
      PutTouches(s.(gout := s.gout + data), Frame(STDOUT, data), wrote);
    } else {
      PutTouches(s.(gerr := s.gerr + data), Frame(STDERR, data), wrote);
    }
  }

  /** The wires of one step: what was sent stays sent, only Read receives, only an executed frame is
      ever refused. */
  lemma Wires(s: Session, e: Event)
    requires Enabled(s, e)
    ensures var t := Next(s, e);
            && s.sent <= t.sent
            && t.received == (if e.Read? then s.received + e.chunk else s.received)
            && (t.pc == Ended(RefusedFrame) ==>
                  e.RunFrame? && Execute(s.core, Front(s.buf), e.answer).verdict == Refused)
  {
    match e
    case Run(canceled) => RunTouches(s, canceled);
    case WaitChild(p, wrote) => WaitTouches(s, p, wrote);
    case RunFrame(answer) => ExecuteTouches(s, answer);
    case Output(data, wrote) => OutputTouches(s, data, wrote);
    case OutputEnds =>
    case _ => PlainWires(s, e);
  }

  lemma PlainWires(s: Session, e: Event)
    requires Enabled(s, e) && IsPlain(e)
    ensures var t := Plain(s, e);
            && t.sent == s.sent && t.received == (if e.Read? then s.received + e.chunk else s.received)
            && (t.pc == Ended(RefusedFrame) ==> s.pc == Ended(RefusedFrame))
            && !s.pc.Ended?
  {
  }

  lemma SettleInStream(s: Session, r: Executed)
    requires s.pc == Dispatch && HasFrame(s.buf) && OutcomeOf(s.core, Front(s.buf), r) && InStream(s)
    ensures InStream(Settle(s, r))
  {
    if r.verdict == Fine {
      EncodeDecoded(s.buf);
      EncodeAllSnoc(s.core.log, Front(s.buf));
    }
  }

  lemma SettleGuestInput(s: Session, r: Executed)
    requires s.pc == Dispatch && HasFrame(s.buf) && OutcomeOf(s.core, Front(s.buf), r) && GuestInput(s)
    ensures GuestInput(Settle(s, r))
  {
    PayloadSnoc(s.core.log, Front(s.buf), STDIN);
  }

  lemma SettleChildren(s: Session, r: Executed)
    requires s.pc == Dispatch && HasFrame(s.buf) && OutcomeOf(s.core, Front(s.buf), r) && NoLostExit(s)
    ensures NoLostExit(Settle(s, r))
  {
    SettleTouches(s, r);
    var k := s.core.kids;
    if r.core.pid != s.core.pid {
      assert r.core.kids.zombies == k.zombies && r.core.kids.alive == k.alive + {r.core.pid};
    }
  }

  lemma ForkLifecycle(c: Core, f: Frame, answer: Answer)
    requires CoreLifecycle(c) && IsFork(f) && Execute(c, f, answer).verdict == Fine
    ensures CoreLifecycle(Execute(c, f, answer).core)
  {
    GuestStarted(c, f, Execute(c, f, answer).core);
  }

  lemma GuestStarted(c: Core, f: Frame, d: Core)
    requires CoreLifecycle(c) && c.pid < 0 && IsFork(f) && d.log == c.log + [f]
    requires d.guest.Some? && 0 < d.pid == d.guest.value.pid && d.guest.value.mode == ModeOf(f)
    requires ListsOf(f) == Some(ForkPayload.Lists(d.guest.value.argv, d.guest.value.env))
    requires d.pty == (ModeOf(f) == Tty)
    requires |f.body| >= Preamble(ModeOf(f)) && d.guest.value.termios == TerminalIn(f).termios
    requires d.pty ==> d.ptySize == SizeIn(f)
    ensures CoreLifecycle(d)
  {
    assert d.log[..|c.log|] == c.log && d.log[|c.log|] == f;
    assert Forks(d.log) == [f];
  }

  lemma OtherLifecycle(c: Core, f: Frame, answer: Answer)
    requires CoreLifecycle(c) && !IsFork(f)
    ensures CoreLifecycle(Execute(c, f, answer).core)
  {
    assert (c.log + [f])[..|c.log|] == c.log;
  }

  lemma FailedForkLifecycle(c: Core, f: Frame, answer: Answer)
    requires CoreLifecycle(c) && IsFork(f) && Execute(c, f, answer).verdict != Fine
    ensures CoreLifecycle(Execute(c, f, answer).core)
  {
  }

  lemma ExecuteLifecycle(c: Core, f: Frame, answer: Answer)
    requires CoreLifecycle(c)
    ensures CoreLifecycle(Execute(c, f, answer).core)
  {
    if !IsFork(f) {
      OtherLifecycle(c, f, answer);
    } else if Execute(c, f, answer).verdict == Fine {
      ForkLifecycle(c, f, answer);
    } else {
      FailedForkLifecycle(c, f, answer);
    }
  }

  lemma ExecuteDescriptors(c: Core, f: Frame, answer: Answer)
    requires CoreLifecycle(c) && DescriptorsOwned(c)
    ensures DescriptorsOwned(Execute(c, f, answer).core)
  {
    if IsFork(f) && Execute(c, f, answer).verdict == Fine {
      AttachedOwned(c, ModeOf(f), answer.fork, Execute(c, f, answer).core);
    }
  }

  lemma AttachedOwned(c: Core, mode: Mode, r: Forked, d: Core)
    requires DescriptorsOwned(c) && c.fin == c.fout == c.ferr == -1 && r.Guest?
    requires FreshFor(c.fds, mode, r.fin, r.fout, r.ferr)
    requires d.remote == c.remote && d.fds == Attached(c.fds, mode, r.fin, r.fout, r.ferr)
    requires d.fin == r.fin && d.fout == r.fout && d.ferr == r.ferr
    requires d.guest.Some? && d.guest.value.mode == mode
    ensures DescriptorsOwned(d)
  {
    AttachedKeys(c.fds, mode, r.fin, r.fout, r.ferr);
    AttachedKeepsNoGuestEnd(c.fds, mode, r.fin, r.fout, r.ferr);
    AttachedHolds(c.fds, mode, r.fin, r.fout, r.ferr);
  }

  lemma SettleKept(s: Session, r: Executed)
    requires s.pc == Dispatch && HasFrame(s.buf) && OutcomeOf(s.core, Front(s.buf), r) && Safe(s)
    requires CoreLifecycle(r.core) && DescriptorsOwned(r.core)
    ensures Safe(Settle(s, r))
  {
    SettleTouches(s, r);
    SettleInStream(s, r);
    SettleGuestInput(s, r);
    SettleChildren(s, r);
    ServedKept(s, Settle(s, r));
  }

  /** Safety after a frame was handled. */
  lemma ServedKept(s: Session, t: Session)
    requires Safe(s) && s.pc == Dispatch && t == s.(core := t.core, buf := t.buf, pc := t.pc)
    requires InStream(t) && GuestInput(t) && CoreLifecycle(t.core) && DescriptorsOwned(t.core) && NoLostExit(t)
    requires t.pc in {Dispatch, Ended(RefusedFrame), Ended(OsError)}
    requires t.core.pid == s.core.pid || t.core.pid > 0
    requires t.core.guest.None? && !t.pc.Ended? ==> !t.core.pty
    ensures Safe(t)
  {
  }

  lemma ExecuteKept(s: Session, answer: Answer)
    requires s.pc == Dispatch && HasFrame(s.buf) && Safe(s)
    ensures Safe(StepExecute(s, answer))
  {
    var f := Front(s.buf);
    OutcomeOfExecute(s.core, f, answer);
    ExecuteLifecycle(s.core, f, answer);
    ExecuteDescriptors(s.core, f, answer);
    SettleKept(s, Execute(s.core, f, answer));
  }

  lemma OutputKept(s: Session, data: bytes, wrote: int)
    requires HasOutput(s) && 1 <= |data| <= RELAY_READ && Safe(s)
    ensures Safe(StepOutput(s, data, wrote))
  {
    OutputTouches(s, data, wrote);
    OutputStream(s, data, wrote);
  }

  lemma OutputStream(s: Session, data: bytes, wrote: int)
    requires HasOutput(s) && 1 <= |data| <= RELAY_READ && OutStream(s) && NoStatus(s.slog)
    ensures OutStream(StepOutput(s, data, wrote)) && NoStatus(StepOutput(s, data, wrote).slog)
    ensures var t := StepOutput(s, data, wrote);
            if s.pc == Out then t.pc == Err || t.pc == Ended(OsError)
            else t.pc == Top || t.pc == Ended(OsError)
  {
    var f := Frame(if s.pc == Out then STDOUT else STDERR, data);
    var u := if s.pc == Out then s.(gout := s.gout + data) else s.(gerr := s.gerr + data);
    PutKept(u, f, wrote);
    PutTouches(u, f, wrote);
    OutputSent(s, f, StepOutput(s, data, wrote));
  }

  /** A frame of output goes out whole, or the session ends. */
  lemma OutputSent(s: Session, f: Frame, t: Session)
    requires HasOutput(s) && OutStream(s) && NoStatus(s.slog)
    requires f.kind == (if s.pc == Out then STDOUT else STDERR) && SessionFrame(f)
    requires t.gout == s.gout + Share(f, STDOUT) && t.gerr == s.gerr + Share(f, STDERR)
    requires EncodeAll(t.slog) <= t.sent && Fragment(t.sent[|EncodeAll(t.slog)|..])
    requires if t.slog == s.slog then Broken(t)
             else t.slog == s.slog + [f] && t.sent == EncodeAll(t.slog)
    ensures OutStream(t) && NoStatus(t.slog)
  {
    PayloadSnoc(s.slog, f, STDOUT);
    PayloadSnoc(s.slog, f, STDERR);
  }

  lemma CloseDescriptors(c: Core)
    requires DescriptorsOwned(c)
    ensures c.fout >= 0 ==> DescriptorsOwned(c.(fds := c.fds - {c.fout}, fout := -1))
    ensures c.ferr >= 0 ==> DescriptorsOwned(c.(fds := c.fds - {c.ferr}, ferr := -1))
  {
    assert c.fout >= 0 ==> Held(c.fin, -1, c.ferr) == Held(c.fin, c.fout, c.ferr) - {c.fout};
    assert c.ferr >= 0 ==> Held(c.fin, c.fout, -1) == Held(c.fin, c.fout, c.ferr) - {c.ferr};
  }

  lemma OutputEndsKept(s: Session)
    requires HasOutput(s) && Safe(s)
    ensures Safe(StepOutputEnds(s))
  {
    CloseDescriptors(s.core);
    ClosedSafely(s, StepOutputEnds(s));
  }

  lemma ClosedSafely(s: Session, t: Session)
    requires HasOutput(s) && Safe(s) && DescriptorsOwned(t.core)
    requires t == s.(core := s.core.(fds := t.core.fds, fout := t.core.fout, ferr := t.core.ferr), pc := t.pc)
    requires t.pc == if s.pc == Out then Err else Top
    ensures Safe(t)
  {
  }

  /** Reaping a child that is not the guest. */
  lemma WaitOtherKept(s: Session, p: int, wrote: int)
    requires s.pc.Reap? && p in s.core.kids.zombies && p != s.core.pid && Safe(s)
    ensures Safe(StepWait(s, p, wrote))
  {
    var t := StepWait(s, p, wrote);
    assert t == s.(core := s.core.(kids := WithoutZombie(s.core.kids, p)));
  }

  lemma WaitGuestKept(s: Session, wrote: int)
    requires s.pc.Reap? && s.core.pid in s.core.kids.zombies && Safe(s)
    ensures Safe(StepWait(s, s.core.pid, wrote))
  {
    var p := s.core.pid;
    var f := StatusFrame(s.core.kids.zombies[p]);
    var u := s.(core := s.core.(kids := WithoutZombie(s.core.kids, p), pid := 0), pc := Reap(true));
    StatusSent(u, f, wrote);
  }

  /** The guest is reaped and its status goes out. */
  lemma StatusSent(u: Session, f: Frame, wrote: int)
    requires u.pc == Reap(true) && InStream(u) && GuestInput(u) && Lifecycle(u)
    requires DescriptorsOwned(u.core) && NoLostExit(u) && OutStream(u)
    requires u.core.pid == 0 && u.core.guest.Some? && NoStatus(u.slog)
    requires var p := u.core.guest.value.pid;
             p in u.exits && f == StatusFrame(WaitStatus(u.exits[p])) && p !in u.core.kids.alive
    ensures Safe(Put(u, f, wrote))
  {
    PutKept(u, f, wrote);
    PutTouches(u, f, wrote);
    StatusWritten(u, f, Put(u, f, wrote));
  }

  lemma StatusWritten(u: Session, f: Frame, t: Session)
    requires u.pc == Reap(true) && InStream(u) && GuestInput(u) && Lifecycle(u)
    requires DescriptorsOwned(u.core) && NoLostExit(u) && OutStream(u)
    requires u.core.pid == 0 && u.core.guest.Some? && NoStatus(u.slog)
    requires var p := u.core.guest.value.pid;
             p in u.exits && f == StatusFrame(WaitStatus(u.exits[p])) && p !in u.core.kids.alive
    requires t == u.(sent := t.sent, slog := t.slog, pc := t.pc)
    requires EncodeAll(t.slog) <= t.sent && Fragment(t.sent[|EncodeAll(t.slog)|..])
    requires if t.slog == u.slog then t.pc == Ended(OsError)
             else t.slog == u.slog + [f] && t.pc == u.pc && t.sent == EncodeAll(t.slog)
    ensures Safe(t)
  {
    StatusStream(u, f, t);
  }

  lemma StatusStream(u: Session, f: Frame, t: Session)
    requires OutStream(u) && !Broken(u) && NoStatus(u.slog) && f.kind == STATUS && |f.body| == STATUS_BYTES
    requires t == u.(sent := t.sent, slog := t.slog, pc := t.pc)
    requires EncodeAll(t.slog) <= t.sent && Fragment(t.sent[|EncodeAll(t.slog)|..])
    requires if t.slog == u.slog then t.pc == Ended(OsError)
             else t.slog == u.slog + [f] && t.pc == u.pc && t.sent == EncodeAll(t.slog)
    ensures OutStream(t) && (t.slog != u.slog ==> !NoStatus(t.slog))
  {
    PayloadSnoc(u.slog, f, STDOUT);
    PayloadSnoc(u.slog, f, STDERR);
    assert t.slog != u.slog ==> t.slog[|u.slog|].kind == STATUS;
  }

  lemma ChildExitsKept(s: Session, p: int, how: Ending)
    requires Enabled(s, ChildExits(p, how)) && Safe(s)
    ensures Safe(Next(s, ChildExits(p, how)))
  {
    ExitedSafely(s, p, how, Next(s, ChildExits(p, how)));
  }

  lemma ExitedSafely(s: Session, p: int, how: Ending, t: Session)
    requires Safe(s) && !s.pc.Ended? && p in s.core.kids.alive
    requires t == s.(core := s.core.(kids := WithExit(s.core.kids, p, how)), exits := s.exits[p := how])
    ensures Safe(t)
  {
    ExitRecorded(s, p, how, t);
  }

  lemma ExitRecorded(s: Session, p: int, how: Ending, t: Session)
    requires NoLostExit(s) && !s.pc.Ended? && p in s.core.kids.alive
    requires t == s.(core := s.core.(kids := WithExit(s.core.kids, p, how)), exits := s.exits[p := how])
    ensures NoLostExit(t)
  {
  }

  lemma ChildStopsKept(s: Session)
    requires Enabled(s, ChildStops) && Safe(s)
    ensures Safe(Next(s, ChildStops))
  {
    SignalledSafely(s, Next(s, ChildStops));
  }

  lemma SignalledSafely(s: Session, t: Session)
    requires Safe(s) && t == s.(core := s.core.(kids := WithSignal(s.core.kids)))
    ensures Safe(t)
  {
  }

  lemma ReadKept(s: Session, chunk: bytes)
    requires Enabled(s, Read(chunk)) && Safe(s)
    ensures Safe(Next(s, Read(chunk)))
  {
    var t := Next(s, Read(chunk));
    assert t == s.(buf := t.buf, received := t.received, pc := Dispatch);
    ReadStream(s, chunk);
  }

  lemma ReadStream(s: Session, chunk: bytes)
    requires Enabled(s, Read(chunk)) && InStream(s)
    ensures InStream(Next(s, Read(chunk)))
  {
    assert EncodeAll(s.core.log) + s.buf + chunk == EncodeAll(s.core.log) + (s.buf + chunk);
  }

  lemma InterruptedKept(s: Session, chld: bool, alrm: bool)
    requires Enabled(s, Interrupted(chld, alrm)) && Safe(s)
    ensures Safe(Next(s, Interrupted(chld, alrm)))
  {
  }

  lemma ClearFlagKept(s: Session)
    requires Enabled(s, ClearFlag) && Safe(s)
    ensures Safe(Next(s, ClearFlag))
  {
    Cleared(s, Next(s, ClearFlag));
  }

  lemma Cleared(s: Session, t: Session)
    requires Safe(s) && s.pc.Clear?
    requires t == s.(sigchld := false, pc := if s.pc.found then Ended(GuestExited) else Select)
    ensures Safe(t)
  {
  }

  /** The remaining events only move the control point. */
  lemma MoveKept(s: Session, e: Event)
    requires Enabled(s, e) && Safe(s)
    requires e in {WaitNone, WaitFails, Timeout, SelectFails, Ready, NotReady, ReadEnds, BufferDry,
                   AlarmRings}
    ensures Safe(Next(s, e))
  {
    MoveTouches(s, e);
    MovedSafely(s, Next(s, e));
  }

  lemma MoveTouches(s: Session, e: Event)
    requires Enabled(s, e) && (s.pc == Dispatch ==> !HasFrame(s.buf) || e == AlarmRings)
    requires e in {WaitNone, WaitFails, Timeout, SelectFails, Ready, NotReady, ReadEnds, BufferDry,
                   AlarmRings}
    ensures var t := Next(s, e);
            t == s.(pc := t.pc, alrmPending := t.alrmPending) && (t.pc == s.pc || Forward(s, t.pc))
  {
  }

  /** Where child_loop can go from s by a step that does nothing else. */
  predicate Forward(s: Session, pc: Pc) {
    match s.pc
    case Reap(found) => pc == Ended(OsError) || (pc == Clear(found) && s.core.kids.zombies == map[])
    case Select => pc in {Top, Remote, Ended(OsError)}
    case Remote => pc in {Out, Ended(ClientGone)}
    case Dispatch => pc == Out && !HasFrame(s.buf)
    case Out => pc == Err
    case Err => pc == Top
    case _ => false
  }

  lemma MovedSafely(s: Session, t: Session)
    requires Safe(s) && t == s.(pc := t.pc, alrmPending := t.alrmPending)
    requires t.pc == s.pc || Forward(s, t.pc)
    ensures Safe(t)
  {
    MovedStreams(s, t);
    MovedExits(s, t);
  }

  lemma MovedExits(s: Session, t: Session)
    requires NoLostExit(s) && StatusFinal(s) && t == s.(pc := t.pc, alrmPending := t.alrmPending)
    requires t.pc == s.pc || Forward(s, t.pc)
    ensures NoLostExit(t) && StatusFinal(t)
  {
  }

  lemma MovedStreams(s: Session, t: Session)
    requires InStream(s) && GuestInput(s) && OutStream(s) && t == s.(pc := t.pc, alrmPending := t.alrmPending)
    requires t.pc == s.pc || Forward(s, t.pc)
    ensures InStream(t) && GuestInput(t) && OutStream(t)
  {
  }

  /** Safety of one step. */
  lemma SafeKept(s: Session, e: Event)
    requires Enabled(s, e) && Safe(s)
    ensures Safe(Next(s, e))
  {
    match e
    case Run(canceled) => RunKept(s, canceled);
    case WaitChild(p, wrote) =>
      if p == s.core.pid { WaitGuestKept(s, wrote); } else { WaitOtherKept(s, p, wrote); }
    case RunFrame(answer) => ExecuteKept(s, answer);
    case Output(data, wrote) => OutputKept(s, data, wrote);
    case OutputEnds => OutputEndsKept(s);
    case ChildExits(p, how) => ChildExitsKept(s, p, how);
    case ChildStops => ChildStopsKept(s);
    case Read(chunk) => ReadKept(s, chunk);
    case Interrupted(chld, alrm) => InterruptedKept(s, chld, alrm);
    case ClearFlag => ClearFlagKept(s);
    case _ => MoveKept(s, e);
  }

  /** Every reachable state of a session is safe, whatever the client, the guest and the kernel do. */
  lemma SafeAlways(remote: int, others: set<int>, es: seq<Event>, t: Session)
    requires remote > 2 && forall p | p in others :: p > 0
    requires Runs.Leads(Step, Start(remote, others), es, t)
    ensures Safe(t)
  {
    SafeAtStart(remote, others);
    forall u, e | Safe(u) && Step(u, e).Some?
      ensures Safe(Next(u, e))
    {
      SafeKept(u, e);
    }
    Runs.Kept(Step, u => Safe(u), Start(remote, others), es, t);
  }

  /** How g_child_pid may move: from -1 to the guest's pid to 0, and never back. */
  predicate PidMoves(before: int, after: int) {
    before == after || (before == -1 && after >= 0) || (before > 0 && after == 0)
  }

  /** What holds between two states of a run, about the guest. */
  predicate GuestMoves(s: Session, t: Session) {
    PidMoves(s.core.pid, t.core.pid) && (s.core.guest.Some? ==> t.core.guest == s.core.guest)
  }

  lemma OneGuest(s: Session, es: seq<Event>, t: Session)
    requires Safe(s) && Runs.Leads(Step, s, es, t)
    ensures GuestMoves(s, t)
  {
    forall u, e | Safe(u) && Step(u, e).Some?
      ensures Safe(Next(u, e)) && GuestMoves(u, Next(u, e))
    {
      SafeKept(u, e);
      GuestKept(u, e);
    }
    Runs.Related(Step, u => Safe(u), (u, v) => GuestMoves(u, v), s, es, t);
  }

  lemma GuestKept(s: Session, e: Event)
    requires Safe(s) && Enabled(s, e)
    ensures GuestMoves(s, Next(s, e))
  {
    match e
    case Run(canceled) => RunTouches(s, canceled);
    case RunFrame(answer) =>
      ExecuteTouches(s, answer);
      OutcomeOfExecute(s.core, Front(s.buf), answer);
    case WaitChild(p, wrote) => WaitTouches(s, p, wrote);
    case Output(data, wrote) => OutputTouches(s, data, wrote);
    case OutputEnds =>
    case _ => PlainTouches(s, e);
  }

  lemma PlainTouches(s: Session, e: Event)
    requires Enabled(s, e) && IsPlain(e)
    ensures var c := Plain(s, e).core;
            c == s.core.(kids := c.kids)
  {
  }

  /** What child_execute takes: the first request whose lists can be read, a window size of the right length,
      and input once there is a guest to take it. */
  ghost predicate Acceptable(c: Core, f: Frame) {
    if IsFork(f) then
      && c.pid < 0 && |f.body| > Preamble(ModeOf(f)) && ForkPayload.TwoLists(f.body[Preamble(ModeOf(f))..])
    else if f.kind == WINSIZE then |f.body| == WINSIZE_BYTES
    else f.kind == STDIN && f.body != [] && c.fin >= 0
  }

  /** The kernel does what the frame needs: the fork, the terminal's new size, the whole write. */
  ghost predicate Served(c: Core, f: Frame, answer: Answer)
    requires Acceptable(c, f)
  {
    if IsFork(f) then Possible(c, ModeOf(f), answer.fork)
    else if f.kind == WINSIZE then !c.pty || answer.resized
    else answer.written >= |f.body|
  }

  /** The verdict on a frame, exactly. */
  lemma VerdictExactly(c: Core, f: Frame, answer: Answer)
    ensures var verdict := Execute(c, f, answer).verdict;
            && (verdict == Refused <==> !Acceptable(c, f))
            && (verdict == Fine <==> Acceptable(c, f) && Served(c, f, answer))
  {
    if IsFork(f) && |f.body| > Preamble(ModeOf(f)) {
      ForkPayload.UnpackLanguage(f.body[Preamble(ModeOf(f))..]);
    }
  }

  /** What ends a session: the alarm as AlarmPolicy says, a failed waitpid or pselect, the end of the client, a
      frame that is not served, a write to the client that falls short, and at last the guest's own end. In
      particular neither the end of an output nor another child does. */
  ghost predicate EndedBy(s: Session, e: Event)
    requires Enabled(s, e)
  {
    match e
    case Run(canceled) => s.sigalrm && (s.core.guest.None? || (s.handshaking && !canceled))
    case WaitFails => true
    case SelectFails => true
    case ReadEnds => true
    case WaitChild(p, wrote) => p == s.core.pid && wrote < HEADER + STATUS_BYTES
    case RunFrame(answer) => !(Acceptable(s.core, Front(s.buf)) && Served(s.core, Front(s.buf), answer))
    case Output(data, wrote) => wrote < HEADER + |data|
    case ClearFlag => s.pc.found
    case _ => false
  }

  lemma EndsExactly(s: Session, e: Event)
    requires Safe(s) && Enabled(s, e)
    ensures Next(s, e).pc.Ended? <==> EndedBy(s, e)
  {
    if e.Run? {
      AlarmPolicy(s, e.canceled);
    } else {
      LaterEnds(s, e);
    }
  }

  lemma LaterEnds(s: Session, e: Event)
    requires Enabled(s, e) && !e.Run?
    ensures Next(s, e).pc.Ended? <==> EndedBy(s, e)
  {
    match e
    case WaitChild(p, wrote) => WaitTouches(s, p, wrote);
    case RunFrame(answer) => FrameEnds(s, answer);
    case Output(data, wrote) => OutputTouches(s, data, wrote);
    case OutputEnds =>
    case _ => PlainEnds(s, e);
  }

  lemma FrameEnds(s: Session, answer: Answer)
    requires s.pc == Dispatch && HasFrame(s.buf)
    ensures StepExecute(s, answer).pc.Ended?
       <==> !(Acceptable(s.core, Front(s.buf)) && Served(s.core, Front(s.buf), answer))
  {
    VerdictExactly(s.core, Front(s.buf), answer);
  }

  lemma PlainEnds(s: Session, e: Event)
    requires Enabled(s, e) && IsPlain(e)
    ensures Plain(s, e).pc.Ended? <==> EndedBy(s, e)
  {
  }

  /** Where a session that goes on is after a step of its own. */
  predicate Turn(s: Session, e: Event, pc: Pc) {
    match s.pc
    case Top => pc == if s.sigchld then Reap(false) else Select
    case Reap(found) =>
      if e.WaitChild? then pc == Reap(found || e.child == s.core.pid)
      else pc == Clear(found) && s.core.kids.zombies == map[]
    case Clear(found) => pc == Select
    case Select => pc == if e == Ready then Remote else Top
    case Remote => pc == if e.Read? then Dispatch else Out
    case Dispatch => pc == if HasFrame(s.buf) then Dispatch else Out
    case Out => pc == Err
    case Err => pc == Top
    case Ended(_) => false
  }

  /** One round of a session that goes on looks at every descriptor in its turn: the client's and, after each
      read, all whole frames; then the guest's stdout; then its stderr; and back to the head. */
  lemma InTurn(s: Session, e: Event)
    requires Enabled(s, e) && !FromOutside(e) && !Next(s, e).pc.Ended?
    ensures Turn(s, e, Next(s, e).pc)
  {
    match e
    case Run(canceled) => RunTouches(s, canceled);
    case WaitChild(p, wrote) => WaitTouches(s, p, wrote);
    case RunFrame(answer) => FrameInTurn(s, answer);
    case Output(data, wrote) => OutputTouches(s, data, wrote);
    case OutputEnds =>
    case _ => PlainInTurn(s, e);
  }

  lemma FrameInTurn(s: Session, answer: Answer)
    requires s.pc == Dispatch && HasFrame(s.buf)
    ensures var pc := StepExecute(s, answer).pc;
            pc.Ended? || pc == Dispatch
  {
  }

  lemma PlainInTurn(s: Session, e: Event)
    requires Enabled(s, e) && IsPlain(e) && !FromOutside(e) && !Plain(s, e).pc.Ended?
    ensures Turn(s, e, Plain(s, e).pc)
  {
  }

  /** What is relayed comes from where the guest writes: for a guest that has its ends on its standard
      descriptors, stdout is read from what its 1 is written to, stderr from what its 2 is, and its 0 is fed
      from fin. */
  lemma SourceIsGuests(s: Session, guest: Table)
    requires Safe(s) && s.core.guest.Some? && StandardStreams(s.core.guest.value.mode, guest)
    ensures Connected(s.core.fds, s.core.fin, s.core.fout, s.core.ferr, guest)
    ensures HasOutput(s) ==>
              && Source(s) in s.core.fds
              && Carries(guest[if s.pc == Out then STDOUT_FILENO else STDERR_FILENO], s.core.fds[Source(s)])
  {
    EndsMeet(s.core.fds, s.core.guest.value.mode, s.core.fin, s.core.fout, s.core.ferr, guest);
  }

  /** An alarm that rang stays pending or flagged until the session ends. */
  predicate Rung(s: Session) {
    s.alrmPending || s.sigalrm || s.pc.Ended?
  }

  lemma AlarmKept(s: Session, es: seq<Event>, t: Session)
    requires Safe(s) && Runs.Leads(Step, s, es, t)
    ensures Rung(s) || AlarmRings in es ==> Rung(t)
  {
    if AlarmRings in es {
      RungBy(s, es, t);
    } else {
      RungStays(s, es, t);
    }
  }

  lemma RungStays(s: Session, es: seq<Event>, t: Session)
    requires Safe(s) && Runs.Leads(Step, s, es, t)
    ensures Rung(s) ==> Rung(t)
  {
    forall u, e | Safe(u) && Step(u, e).Some?
      ensures Safe(Next(u, e)) && (Rung(u) ==> Rung(Next(u, e)))
    {
      SafeKept(u, e);
      RungStep(u, e);
    }
    Runs.Related(Step, u => Safe(u), (u, v) => Rung(u) ==> Rung(v), s, es, t);
  }

  lemma RungStep(s: Session, e: Event)
    requires Safe(s) && Enabled(s, e)
    ensures Rung(s) || e == AlarmRings ==> Rung(Next(s, e))
  {
    match e
    case Run(canceled) => RunTouches(s, canceled);
    case WaitChild(p, wrote) => WaitTouches(s, p, wrote);
    case RunFrame(answer) => ExecuteTouches(s, answer);
    case Output(data, wrote) => OutputTouches(s, data, wrote);
    case OutputEnds =>
    case _ => PlainRung(s, e);
  }

  lemma PlainRung(s: Session, e: Event)
    requires Enabled(s, e) && IsPlain(e)
    ensures Rung(s) || e == AlarmRings ==> Rung(Plain(s, e))
  {
  }

  lemma {:induction false} RungBy(s: Session, es: seq<Event>, t: Session)
    requires Safe(s) && Runs.Leads(Step, s, es, t) && AlarmRings in es
    ensures Rung(t)
    decreases |es|
  {
    Runs.Uncons(Step, s, es, t);
    SafeKept(s, es[0]);
    if es[0] == AlarmRings {
      RungStep(s, es[0]);
      RungStays(Next(s, es[0]), es[1..], t);
    } else {
      RungBy(Next(s, es[0]), es[1..], t);
    }
  }

  /** A pending alarm interrupts pselect, and a session without a guest then ends, but one with a guest goes
      on. */
  lemma AlarmHeard(s: Session, canceled: bool)
    requires Safe(s) && s.pc == Select && s.alrmPending
    ensures Enabled(s, Interrupted(false, true))
    ensures var t := Next(Next(s, Interrupted(false, true)), Run(canceled));
            if s.core.guest.None? then t.pc.Ended? else t.pc.Ended? ==> s.handshaking && !canceled
  {
    InterruptedKept(s, false, true);
    AlarmPolicy(Next(s, Interrupted(false, true)), canceled);
  }

  /** The handshake alarm, exactly: a pass through child_run ends the session if and only if the alarm
      has gone off and either no guest was started or cancelling the timer fails the one time it is
      tried. */
  lemma AlarmPolicy(s: Session, canceled: bool)
    requires Safe(s) && s.pc == Top
    ensures var t := Next(s, Run(canceled));
            t.pc.Ended? <==>
              s.sigalrm && (s.core.guest.None? || (s.handshaking && !canceled))
    ensures Next(s, Run(canceled)).handshaking <==> s.handshaking && !s.sigalrm
  {
  }

  /** pselect does not sleep past a child's exit: with an unreaped child the signal is pending, its
      delivery sends the loop round, and child_sigchld stands before a waitpid that can return it. */
  lemma ExitIsReaped(s: Session, p: int, canceled: bool)
    requires Safe(s) && s.pc == Select && p in s.core.kids.zombies
    ensures Enabled(s, Interrupted(true, false))
    ensures var t := Next(Next(s, Interrupted(true, false)), Run(canceled));
            t.pc.Ended? || Enabled(t, WaitChild(p, 0))
  {
  }

  /** How many of the events the session makes itself. */
  function OwnSteps(es: seq<Event>): nat {
    if es == [] then 0 else (if FromOutside(es[0]) then 0 else 1) + OwnSteps(es[1..])
  }

  /** A step of the session whose system call fails or falls short. */
  predicate Fails(e: Event) {
    e in {WaitFails, SelectFails, Run(false)} || (e.WaitChild? && e.written < HEADER + STATUS_BYTES)
  }

  /** The signal of the guest's exit has been delivered, and the guest is about to be reaped or has just
      been. */
  predicate Draining(s: Session) {
    s.sigchld
    && match s.pc
       case Top => s.core.pid in s.core.kids.zombies
       case Reap(found) => found || s.core.pid in s.core.kids.zombies
       case Clear(found) => found
       case _ => false
  }

  /** How many steps of its own such a session has left at most: child_run, one waitpid for every child
      there is and one more, and clearing the flag. */
  function Left(s: Session): nat {
    var children := |s.core.kids.alive| + |s.core.kids.zombies.Keys|;
    match s.pc
    case Top => children + 3
    case Reap(_) => children + 2
    case Clear(_) => 1
    case _ => 0
  }

  /** No lost exit as a bounded response: once the signal of the guest's exit is delivered, every run ends
      the session within Left(s) steps of the session's own, whatever its children do meanwhile; until
      then there always is such a step that is no failure; and if none fails, the session ends as it should,
      its guest's status sent. */
  lemma {:induction false} GuestEndsSession(s: Session, es: seq<Event>, t: Session)
    requires Safe(s) && Draining(s) && Runs.Leads(Step, s, es, t)
    ensures OwnSteps(es) <= Left(s)
    ensures !t.pc.Ended? ==>
              Draining(t) && OwnSteps(es) < Left(s) && exists e :: !FromOutside(e) && !Fails(e) && Enabled(t, e)
    ensures t.pc.Ended? && (forall e | e in es :: !Fails(e)) ==> t.pc == Ended(GuestExited) && !NoStatus(t.slog)
    decreases |es|
  {
    if es == [] {
      Runs.Stays(Step, s, es, t);
      var e := StepForward(s);
    } else {
      Runs.Uncons(Step, s, es, t);
      var u := Next(s, es[0]);
      SafeKept(s, es[0]);
      DrainingStep(s, es[0]);
      assert forall e | e in es[1..] :: e in es;
      if u.pc.Ended? {
        OverIsOver(u, es[1..], t);
      } else {
        GuestEndsSession(u, es[1..], t);
      }
    }
  }

  /** Such a session always has a step of its own that is no failure. */
  lemma StepForward(s: Session) returns (e: Event)
    requires Draining(s)
    ensures !FromOutside(e) && !Fails(e) && Enabled(s, e)
  {
    match s.pc
    case Top => e := Run(true);
    case Clear(_) => e := ClearFlag;
    case Reap(_) =>
      if s.core.kids.zombies == map[] {
        e := WaitNone;
      } else {
        Inhabited(s.core.kids.zombies.Keys);
        var p :| p in s.core.kids.zombies;
        e := WaitChild(p, HEADER + STATUS_BYTES);
      }
  }

  lemma DrainingStep(s: Session, e: Event)
    requires ChildrenOk(s.core.kids) && Draining(s) && Enabled(s, e)
    ensures var t := Next(s, e);
            if t.pc.Ended? then !FromOutside(e) && Left(s) >= 1 && (Fails(e) || t.pc == Ended(GuestExited))
            else Draining(t) && Left(t) + (if FromOutside(e) then 0 else 1) <= Left(s)
  {
    match e
    case WaitChild(p, wrote) =>
      WaitTouches(s, p, wrote);
      ReapedLeft(s, p, Next(s, e));
    case Run(canceled) => RunTouches(s, canceled);
    case ChildExits(p, how) => ExitedLeft(s, p, how);
    case _ => PlainLeft(s, e);
  }

  lemma ExitedLeft(s: Session, p: int, how: Ending)
    requires ChildrenOk(s.core.kids) && Draining(s) && Enabled(s, ChildExits(p, how))
    ensures var t := Next(s, ChildExits(p, how));
            Draining(t) && Left(t) <= Left(s)
  {
    assert s.core.kids.zombies[p := WaitStatus(how)].Keys == s.core.kids.zombies.Keys + {p};
  }

  lemma PlainLeft(s: Session, e: Event)
    requires Draining(s) && Enabled(s, e) && IsPlain(e) && !e.ChildExits?
    ensures var t := Plain(s, e);
            if t.pc.Ended? then !FromOutside(e) && Left(s) >= 1 && (Fails(e) || t.pc == Ended(GuestExited))
            else Draining(t) && Left(t) + (if FromOutside(e) then 0 else 1) <= Left(s)
  {
  }

  lemma ReapedLeft(s: Session, p: int, t: Session)
    requires Draining(s) && s.pc.Reap? && p in s.core.kids.zombies && ChildrenOk(s.core.kids)
    requires t.sigchld == s.sigchld && t.core.kids == WithoutZombie(s.core.kids, p)
    requires if p != s.core.pid then t.core.pid == s.core.pid && t.pc == s.pc
             else t.pc == Reap(true) || t.pc.Ended?
    ensures t.pc.Ended? || (Draining(t) && Left(t) + 1 == Left(s))
    ensures Left(s) >= 1
  {
    assert t.core.kids.zombies.Keys == s.core.kids.zombies.Keys - {p};
  }

  /** An ended session makes no more steps. */
  lemma {:induction false} OverIsOver(s: Session, es: seq<Event>, t: Session)
    requires s.pc.Ended? && Runs.Leads(Step, s, es, t)
    ensures es == [] && t == s
  {
    if es == [] {
      Runs.Stays(Step, s, es, t);
    } else {
      Runs.Uncons(Step, s, es, t);
    }
  }
}
