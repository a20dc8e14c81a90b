/** Descriptor ownership over the three ways server/child.c forks a guest. */
module Descriptors {
  import opened Bytes
  import opened Kernel
  import opened Message

  const STDIN_FILENO := 0
  const STDOUT_FILENO := 1
  const STDERR_FILENO := 2

  /** What a fork leaves the session with: nothing, a session that must exit, or a running guest and
      the three descriptors kept for it (-1 for none). */
  datatype Forked = Failed | Dies | Guest(pid: int, fin: int, fout: int, ferr: int)

  /** The parent's end of each stream. */
  function HeldFile(mode: Mode, stream: int): File
    requires 0 <= stream <= 2
  {
    match mode
    case Tty => PtyMaster
    case Socket => Side(if stream == 2 then ErrPair else StdPair, false)
    case Pipe =>
      if stream == 0 then WriteEnd(ToStdin)
      else if stream == 1 then ReadEnd(FromStdout) else ReadEnd(FromStderr)
  }

  /** The guest's end of each stream. */
  function GuestFile(mode: Mode, stream: int): File
    requires 0 <= stream <= 2
  {
    match mode
    case Tty => PtySlave
    case Socket => Side(if stream == 2 then ErrPair else StdPair, true)
    case Pipe =>
      if stream == 0 then ReadEnd(ToStdin)
      else if stream == 1 then WriteEnd(FromStdout) else WriteEnd(FromStderr)
  }

  function With(t: Table, fd: int, file: File): Table {
    if fd < 0 then t else t[fd := file]
  }

  /** The session's table once it holds the three descriptors. */
  function Attached(t: Table, mode: Mode, fin: int, fout: int, ferr: int): Table {
    With(With(With(t, fin, HeldFile(mode, 0)), fout, HeldFile(mode, 1)), ferr, HeldFile(mode, 2))
  }

  /** Which descriptors a successful fork may come back with. Only a failed dup(2) leaves the output
      descriptor of a terminal or socket session at -1; a terminal session has no error stream. */
  predicate FreshFor(t: Table, mode: Mode, fin: int, fout: int, ferr: int) {
    && fin >= 0 && fin !in t
    && (fout == -1 || (fout >= 0 && fout !in t && fout != fin))
    && (if mode == Tty then ferr == -1 else ferr >= 0 && ferr !in t && ferr != fin && ferr != fout)
    && (mode == Pipe ==> fout >= 0)
  }

  /** What a parent must not keep open if end of file is ever to show on its output descriptors. */
  predicate NoGuestEndKept(t: Table) {
    forall fd | fd in t ::
      t[fd] != PtySlave && !(t[fd].Side? && t[fd].guestSide)
      && t[fd] !in {WriteEnd(FromStdout), WriteEnd(FromStderr), ReadEnd(ToStdin)}
  }

  lemma AttachedKeepsNoGuestEnd(t: Table, mode: Mode, fin: int, fout: int, ferr: int)
    requires NoGuestEndKept(t)
    ensures NoGuestEndKept(Attached(t, mode, fin, fout, ferr))
  {
  }

  /** The descriptors in use among the three: -1 stands for none. */
  function Held(fin: int, fout: int, ferr: int): set<int> {
    {fin, fout, ferr} - {-1}
  }

  lemma AttachedKeys(t: Table, mode: Mode, fin: int, fout: int, ferr: int)
    requires fin >= -1 && fout >= -1 && ferr >= -1
    ensures Attached(t, mode, fin, fout, ferr).Keys == t.Keys + Held(fin, fout, ferr)
  {
  }

  /** What the guest has at exec: the session's table without the connection, its three standard
      descriptors replaced by the guest's ends. */
  ghost predicate GuestTable(t: Table, remote: int, guest: Table) {
    && guest.Keys == t.Keys - {remote}
    && (forall fd | fd in guest && fd > 2 :: guest[fd] == t[fd])
  }

  ghost predicate StandardStreams(mode: Mode, guest: Table) {
    forall stream | 0 <= stream <= 2 :: stream in guest && guest[stream] == GuestFile(mode, stream)
  }

  /** The session's ends, where it has them, belong to the guest's standard descriptors, each to its own: what
      goes into fin comes out of the guest's 0, what the guest writes to 1 comes out of fout, what it writes
      to 2 comes out of ferr, and neither output out of the other's. */
  ghost predicate Connected(t: Table, fin: int, fout: int, ferr: int, guest: Table) {
    && {0, 1, 2} <= guest.Keys
    && (fin >= 0 ==> fin in t && Carries(t[fin], guest[STDIN_FILENO]))
    && (fout >= 0 ==> fout in t && Carries(guest[STDOUT_FILENO], t[fout]))
    && (ferr >= 0 ==>
          && ferr in t && Carries(guest[STDERR_FILENO], t[ferr])
          && !Carries(guest[STDOUT_FILENO], t[ferr])
          && (fout >= 0 ==> !Carries(guest[STDERR_FILENO], t[fout])))
  }

  /** The session's table has its end of each stream at the descriptors it holds. */
  ghost predicate Holding(t: Table, mode: Mode, fin: int, fout: int, ferr: int) {
    && (fin >= 0 ==> fin in t && t[fin] == HeldFile(mode, STDIN_FILENO))
    && (fout >= 0 ==> fout in t && t[fout] == HeldFile(mode, STDOUT_FILENO))
    && (ferr >= 0 ==> ferr in t && t[ferr] == HeldFile(mode, STDERR_FILENO))
    && (mode == Tty ==> ferr < 0)
  }

  /** A guest with its ends on the standard descriptors is connected to a session that holds the others. */
  lemma EndsMeet(t: Table, mode: Mode, fin: int, fout: int, ferr: int, guest: Table)
    requires Holding(t, mode, fin, fout, ferr) && StandardStreams(mode, guest)
    ensures Connected(t, fin, fout, ferr, guest)
    ensures mode == Tty && fout >= 0 ==> Carries(guest[STDERR_FILENO], t[fout])
  {
    assert forall stream | 0 <= stream <= 2 :: guest[stream] == GuestFile(mode, stream);
  }

  lemma AttachedHolds(t: Table, mode: Mode, fin: int, fout: int, ferr: int)
    requires FreshFor(t, mode, fin, fout, ferr)
    ensures Holding(Attached(t, mode, fin, fout, ferr), mode, fin, fout, ferr)
  {
  }

  /** A descriptor the kernel has just handed out, none of the others. */
  ghost predicate New(t: Table, fd: int, others: set<int>) {
    fd >= 0 && fd !in t && fd !in others
  }

  ghost predicate NewPipes(
    t: Table, pin0: int, pin1: int, pout0: int, pout1: int, perr0: int, perr1: int)
  {
    && New(t, pin0, {pin1, pout0, pout1, perr0, perr1}) && New(t, pin1, {pout0, pout1, perr0, perr1})
    && New(t, pout0, {pout1, perr0, perr1}) && New(t, pout1, {perr0, perr1})
    && New(t, perr0, {perr1}) && New(t, perr1, {})
  }

  ghost predicate NewSockets(t: Table, sio0: int, sio1: int, eio0: int, eio1: int) {
    && New(t, sio0, {sio1, eio0, eio1}) && New(t, sio1, {eio0, eio1})
    && New(t, eio0, {eio1}) && New(t, eio1, {})
  }

  ghost function WithPipes(
    t: Table, pin0: int, pin1: int, pout0: int, pout1: int, perr0: int, perr1: int): Table
  {
    t[pin0 := ReadEnd(ToStdin)][pin1 := WriteEnd(ToStdin)]
     [pout0 := ReadEnd(FromStdout)][pout1 := WriteEnd(FromStdout)]
     [perr0 := ReadEnd(FromStderr)][perr1 := WriteEnd(FromStderr)]
  }

  ghost function WithSockets(t: Table, sio0: int, sio1: int, eio0: int, eio1: int): Table {
    t[sio0 := Side(StdPair, true)][sio1 := Side(StdPair, false)]
     [eio0 := Side(ErrPair, true)][eio1 := Side(ErrPair, false)]
  }

  lemma PipesOpened(t: Table, pin0: int, pin1: int, pout0: int, pout1: int, perr0: int, perr1: int)
    requires NewPipes(t, pin0, pin1, pout0, pout1, perr0, perr1)
    ensures var w := WithPipes(t, pin0, pin1, pout0, pout1, perr0, perr1);
            var news := {pin0, pin1, pout0, pout1, perr0, perr1};
            && t.Keys !! news && w.Keys == t.Keys + news && (forall fd | fd in t :: w[fd] == t[fd])
            && w[pin0] == ReadEnd(ToStdin) && w[pout1] == WriteEnd(FromStdout)
            && w[perr1] == WriteEnd(FromStderr)
  {
  }

  /** Closing the guest's ends leaves exactly the three kept descriptors. */
  lemma PipeParent(t: Table, pin0: int, pin1: int, pout0: int, pout1: int, perr0: int, perr1: int)
    requires NewPipes(t, pin0, pin1, pout0, pout1, perr0, perr1)
    ensures FreshFor(t, Pipe, pin1, pout0, perr0)
    ensures WithPipes(t, pin0, pin1, pout0, pout1, perr0, perr1) - {perr1} - {pout1} - {pin0}
         == Attached(t, Pipe, pin1, pout0, perr0)
  {
  }

  lemma SocketParent(t: Table, sio0: int, sio1: int, eio0: int, eio1: int, fout: int)
    requires NewSockets(t, sio0, sio1, eio0, eio1)
    requires fout == -1 || (fout >= 0 && fout !in WithSockets(t, sio0, sio1, eio0, eio1))
    ensures FreshFor(t, Socket, sio1, fout, eio1)
    ensures With(WithSockets(t, sio0, sio1, eio0, eio1), fout, Side(StdPair, false)) - {sio0} - {eio0}
         == Attached(t, Socket, sio1, fout, eio1)
  {
  }

  /** A guest that closes the connection and every new descriptor keeps what GuestTable says. */
  lemma GuestTableFrom(t: Table, news: set<int>, full: Table, remote: int, guest: Table)
    requires t.Keys !! news && full.Keys == t.Keys + news && forall fd | fd in t :: full[fd] == t[fd]
    requires guest.Keys == full.Keys - {remote} - news
    requires forall fd | fd in guest && fd > 2 :: guest[fd] == full[fd]
    ensures GuestTable(t, remote, guest)
  {
    assert full.Keys - {remote} - news == t.Keys - {remote};
  }

  /** What a fork does to the session's descriptors and children: nothing when it fails; on success
      exactly the held descriptors and the guest are added. */
  ghost predicate Outcome(mode: Mode, t: Table, k: Children, r: Forked, t': Table, k': Children) {
    match r
    case Failed => t' == t && k' == k
    case Dies => k' == k
    case Guest(pid, fin, fout, ferr) =>
      && FreshFor(t, mode, fin, fout, ferr) && t' == Attached(t, mode, fin, fout, ferr)
      && pid > 0 && pid !in k.alive && pid !in k.zombies && k' == WithChild(k, pid)
  }

  const NO_CHILDREN := Children({}, map[], false)

  /** The session process while it forks. remote is its connection to the client. */
  class Forker {
    const process: Process
    const remote: int

    ghost predicate Ready()
      reads this, process
    {
      && {STDIN_FILENO, STDOUT_FILENO, STDERR_FILENO, remote} <= process.table.Keys
      && remote > STDERR_FILENO
    }

    constructor (process: Process, remote: int)
      ensures this.process == process && this.remote == remote
    {
      this.process := process;
      this.remote := remote;
    }

    /** child_drop_privileges */
    method DropPrivileges() returns (ret: int)
      ensures ret == 0 || ret == -1
      ensures process.works ==> ret == 0
    {
      var fails := process.Try();
      ret := if fails then -1 else 0;
    }

    /** Closing both ends of a pair undoes opening it. */
    method ClosePair(a: int, b: int, ghost before: Table, ghost first: File, ghost second: File)
      requires a !in before && b !in before && a != b
      requires process.table == before[a := first][b := second]
      modifies process`table
      ensures process.table == before
    {
      process.Close(a);
      process.Close(b);
    }

    /** The three pipes of child_fork_pipe: all of them, or the table as it was. */
    method OpenPipes()
      returns (ret: int, pin0: int, pin1: int, pout0: int, pout1: int, perr0: int, perr1: int)
      modifies process`table
      ensures ret == 0 || ret == -1
      ensures process.works ==> ret == 0
      ensures ret == -1 ==> process.table == old(process.table)
      ensures ret == 0 ==>
                && NewPipes(old(process.table), pin0, pin1, pout0, pout1, perr0, perr1)
                && process.table == WithPipes(old(process.table), pin0, pin1, pout0, pout1, perr0, perr1)
    {
      pout0, pout1, perr0, perr1 := -1, -1, -1, -1;
      ret, pin0, pin1 := process.OpenPair(ReadEnd(ToStdin), WriteEnd(ToStdin));
      if ret != 0 {
        return;
      }
      ghost var one := process.table;
      ret, pout0, pout1 := process.OpenPair(ReadEnd(FromStdout), WriteEnd(FromStdout));
      if ret != 0 {
        ClosePair(pin0, pin1, old(process.table), ReadEnd(ToStdin), WriteEnd(ToStdin));
        return;
      }
      ret, perr0, perr1 := process.OpenPair(ReadEnd(FromStderr), WriteEnd(FromStderr));
      if ret != 0 {
        ClosePair(pout0, pout1, one, ReadEnd(FromStdout), WriteEnd(FromStdout));
        ClosePair(pin0, pin1, old(process.table), ReadEnd(ToStdin), WriteEnd(ToStdin));
      }
    }

    /** Closing all pipes undoes opening them. */
    method ClosePipes(ghost t: Table,
                      pin0: int, pin1: int, pout0: int, pout1: int, perr0: int, perr1: int)
      requires NewPipes(t, pin0, pin1, pout0, pout1, perr0, perr1)
      requires process.table == WithPipes(t, pin0, pin1, pout0, pout1, perr0, perr1)
      modifies process`table
      ensures process.table == t
    {
      ghost var one := t[pin0 := ReadEnd(ToStdin)][pin1 := WriteEnd(ToStdin)];
      ghost var two := one[pout0 := ReadEnd(FromStdout)][pout1 := WriteEnd(FromStdout)];
      ClosePair(perr0, perr1, two, ReadEnd(FromStderr), WriteEnd(FromStderr));
      ClosePair(pout0, pout1, one, ReadEnd(FromStdout), WriteEnd(FromStdout));
      ClosePair(pin0, pin1, t, ReadEnd(ToStdin), WriteEnd(ToStdin));
    }

    method CloseBoth(child: Process, a: int, b: int)
      requires a in child.table && b in child.table && a != b
      modifies child`table
      ensures child.table == old(child.table) - {a, b}
    {
      child.Close(a);
      child.Close(b);
    }

    /** The three unchecked dup2 calls of a guest. */
    method Redirect(child: Process, fin: int, fout: int, ferr: int) returns (duped: bool)
      requires {0, 1, 2, fin, fout, ferr} <= child.table.Keys && fin > 2 && fout > 2 && ferr > 2
      modifies child`table
      ensures child.works ==> duped
      ensures child.table.Keys == old(child.table.Keys)
      ensures forall fd | fd in child.table && fd > 2 :: child.table[fd] == old(child.table)[fd]
      ensures duped ==>
                && child.table[0] == old(child.table)[fin]
                && child.table[1] == old(child.table)[fout]
                && child.table[2] == old(child.table)[ferr]
    {
      var a := child.Dup2(fin, STDIN_FILENO);
      var b := child.Dup2(fout, STDOUT_FILENO);
      var c := child.Dup2(ferr, STDERR_FILENO);
      duped := a >= 0 && b >= 0 && c >= 0;
    }

    /** The guest's half of child_fork_pipe. */
    method PipeGuest(ghost t: Table,
                     pin0: int, pin1: int, pout0: int, pout1: int, perr0: int, perr1: int)
      returns (atExec: Table, duped: bool)
      requires {0, 1, 2, remote} <= t.Keys && remote > 2
      requires NewPipes(t, pin0, pin1, pout0, pout1, perr0, perr1)
      requires process.table == WithPipes(t, pin0, pin1, pout0, pout1, perr0, perr1)
      ensures GuestTable(t, remote, atExec)
      ensures duped ==> StandardStreams(Pipe, atExec)
      ensures process.works ==> duped
    {
      PipesOpened(t, pin0, pin1, pout0, pout1, perr0, perr1);
      var child := new Process(process.table, NO_CHILDREN, process.works);
      duped := SwitchToPipes(child, pin0, pin1, pout0, pout1, perr0, perr1);
      atExec := child.table;
      GuestTableFrom(t, {pin0, pin1, pout0, pout1, perr0, perr1}, process.table, remote, atExec);
    }

    /** The guest's dup2 and close calls. */
    method SwitchToPipes(child: Process,
                         pin0: int, pin1: int, pout0: int, pout1: int, perr0: int, perr1: int)
      returns (duped: bool)
      requires {0, 1, 2, remote, pin0, pin1, pout0, pout1, perr0, perr1} <= child.table.Keys
      requires remote > 2 && pin0 > 2 && pin1 > 2 && pout0 > 2 && pout1 > 2 && perr0 > 2 && perr1 > 2
      requires pin0 != pin1 && pout0 != pout1 && perr0 != perr1
      requires remote !in {pin0, pin1, pout0, pout1, perr0, perr1}
      requires {pin0, pin1} !! {pout0, pout1} !! {perr0, perr1}
      modifies child
      ensures child.works ==> duped
      ensures child.table.Keys
           == old(child.table.Keys) - {remote} - {pin0, pin1, pout0, pout1, perr0, perr1}
      ensures forall fd | fd in child.table && fd > 2 :: child.table[fd] == old(child.table)[fd]
      ensures duped ==>
                && child.table[0] == old(child.table)[pin0]
                && child.table[1] == old(child.table)[pout1]
                && child.table[2] == old(child.table)[perr1]
    {
      duped := Redirect(child, pin0, pout1, perr1);
      CloseAll(child, pin0, pin1, pout0, pout1, perr0, perr1);
    }

    /** The guest's close calls. */
    method CloseAll(child: Process, pin0: int, pin1: int, pout0: int, pout1: int, perr0: int, perr1: int)
      requires {remote, pin0, pin1, pout0, pout1, perr0, perr1} <= child.table.Keys
      requires pin0 != pin1 && pout0 != pout1 && perr0 != perr1
      requires remote !in {pin0, pin1, pout0, pout1, perr0, perr1}
      requires {pin0, pin1} !! {pout0, pout1} !! {perr0, perr1}
      modifies child`table
      ensures child.table
           == old(child.table) - {remote} - {perr0, perr1} - {pout0, pout1} - {pin0, pin1}
    {
      child.Close(remote);
      CloseBoth(child, perr0, perr1);
      CloseBoth(child, pout0, pout1);
      CloseBoth(child, pin0, pin1);
    }

    /** child_fork_pipe. atExec is the guest's table when it reaches exec; duped says whether the
        unchecked dup2 calls worked. */
    method ForkPipe() returns (r: Forked, atExec: Table, duped: bool)
      requires Ready()
      modifies process
      ensures Outcome(Pipe, old(process.table), old(process.kids), r, process.table, process.kids)
      ensures r.Guest? ==> GuestTable(old(process.table), remote, atExec)
      ensures r.Guest? && duped ==>
                StandardStreams(Pipe, atExec) && Connected(process.table, r.fin, r.fout, r.ferr, atExec)
      ensures process.works ==> r.Guest? && duped
    {
      atExec, duped := map[], false;
      ghost var before := process.table;
      var ret, pin0, pin1, pout0, pout1, perr0, perr1 := OpenPipes();
      if ret != 0 {
        return Failed, atExec, duped;
      }
      ret := DropPrivileges();
      if ret != 0 {
        return Dies, atExec, duped;
      }
      var pid := process.Fork();
      if pid < 0 {
        ClosePipes(before, pin0, pin1, pout0, pout1, perr0, perr1);
        return Failed, atExec, duped;
      }
      atExec, duped := PipeGuest(before, pin0, pin1, pout0, pout1, perr0, perr1);
      r := Guest(pid, pin1, pout0, perr0);
      process.Close(perr1);
      process.Close(pout1);
      process.Close(pin0);
      PipeParent(before, pin0, pin1, pout0, pout1, perr0, perr1);
      Meeting(before, Pipe, r, atExec, duped);
    }

    /** The new guest is connected to what its session holds. */
    lemma Meeting(before: Table, mode: Mode, r: Forked, guest: Table, wired: bool)
      requires r.Guest? && FreshFor(before, mode, r.fin, r.fout, r.ferr)
      requires process.table == Attached(before, mode, r.fin, r.fout, r.ferr)
      requires wired ==> StandardStreams(mode, guest)
      ensures wired ==> Connected(process.table, r.fin, r.fout, r.ferr, guest)
      ensures wired && mode == Tty && r.fout >= 0 ==> Carries(guest[STDERR_FILENO], process.table[r.fout])
    {
      AttachedHolds(before, mode, r.fin, r.fout, r.ferr);
      if wired {
        EndsMeet(process.table, mode, r.fin, r.fout, r.ferr, guest);
      }
    }

    /** The socket pairs of child_fork_socket: both, or the table as it was. */
    method OpenSockets() returns (ret: int, sio0: int, sio1: int, eio0: int, eio1: int)
      modifies process`table
      ensures ret == 0 || ret == -1
      ensures process.works ==> ret == 0
      ensures ret == -1 ==> process.table == old(process.table)
      ensures ret == 0 ==>
                && NewSockets(old(process.table), sio0, sio1, eio0, eio1)
                && process.table == WithSockets(old(process.table), sio0, sio1, eio0, eio1)
    {
      eio0, eio1 := -1, -1;
      ret, sio0, sio1 := process.OpenPair(Side(StdPair, true), Side(StdPair, false));
      if ret != 0 {
        return;
      }
      ret, eio0, eio1 := process.OpenPair(Side(ErrPair, true), Side(ErrPair, false));
      if ret != 0 {
        ClosePair(sio0, sio1, old(process.table), Side(StdPair, true), Side(StdPair, false));
      }
    }

    /** The guest's half of child_fork_socket. */
    method SocketGuest(child: Process, ghost t: Table, sio0: int, sio1: int, eio0: int, eio1: int)
      returns (duped: bool)
      requires {0, 1, 2, remote} <= t.Keys && remote > 2
      requires NewSockets(t, sio0, sio1, eio0, eio1)
      requires child.table == WithSockets(t, sio0, sio1, eio0, eio1)
      modifies child`table
      ensures GuestTable(t, remote, child.table)
      ensures duped ==> StandardStreams(Socket, child.table)
      ensures child.works ==> duped
    {
      ghost var full := child.table;
      assert full.Keys == t.Keys + {sio0, sio1, eio0, eio1};
      assert full[sio0] == Side(StdPair, true) && full[eio0] == Side(ErrPair, true);
      duped := SwitchToSockets(child, sio0, sio1, eio0, eio1);
      GuestTableFrom(t, {sio0, sio1, eio0, eio1}, full, remote, child.table);
    }

    /** The guest's dup2 and close calls. */
    method SwitchToSockets(child: Process, sio0: int, sio1: int, eio0: int, eio1: int) returns (duped: bool)
      requires {0, 1, 2, remote, sio0, sio1, eio0, eio1} <= child.table.Keys
      requires remote > 2 && sio0 > 2 && sio1 > 2 && eio0 > 2 && eio1 > 2
      requires sio0 != sio1 && eio0 != eio1 && {sio0, sio1} !! {eio0, eio1}
      requires remote !in {sio0, sio1, eio0, eio1}
      modifies child`table
      ensures child.works ==> duped
      ensures child.table.Keys == old(child.table.Keys) - {remote} - {sio0, sio1, eio0, eio1}
      ensures forall fd | fd in child.table && fd > 2 :: child.table[fd] == old(child.table)[fd]
      ensures duped ==>
                && child.table[0] == child.table[1] == old(child.table)[sio0]
                && child.table[2] == old(child.table)[eio0]
    {
      duped := Redirect(child, sio0, sio0, eio0);
      child.Close(remote);
      CloseBoth(child, sio0, sio1);
      CloseBoth(child, eio0, eio1);
    }

    /** child_fork_socket */
    method ForkSocket() returns (r: Forked, atExec: Table, duped: bool)
      requires Ready()
      modifies process
      ensures Outcome(Socket, old(process.table), old(process.kids), r, process.table, process.kids)
      ensures r.Guest? ==> GuestTable(old(process.table), remote, atExec)
      ensures r.Guest? && duped ==>
                StandardStreams(Socket, atExec) && Connected(process.table, r.fin, r.fout, r.ferr, atExec)
      ensures process.works ==> r.Guest? && duped && r.fout >= 0
    {
      atExec, duped := map[], false;
      ghost var before := process.table;
      var ret, sio0, sio1, eio0, eio1 := OpenSockets();
      if ret != 0 {
        return Failed, atExec, duped;
      }
      ret := DropPrivileges();
      if ret != 0 {
        return Dies, atExec, duped;
      }
      var pid := process.Fork();
      if pid < 0 {
        ghost var one := before[sio0 := Side(StdPair, true)][sio1 := Side(StdPair, false)];
        ClosePair(eio0, eio1, one, Side(ErrPair, true), Side(ErrPair, false));
        ClosePair(sio0, sio1, before, Side(StdPair, true), Side(StdPair, false));
        return Failed, atExec, duped;
      }
      var child := new Process(process.table, NO_CHILDREN, process.works);
      duped := SocketGuest(child, before, sio0, sio1, eio0, eio1);
      atExec := child.table;

      var fout := process.Open(process.table[sio1]);
      r := Guest(pid, sio1, fout, eio1);
      process.Close(sio0);
      process.Close(eio0);
      SocketParent(before, sio0, sio1, eio0, eio1, fout);
      Meeting(before, Socket, r, atExec, duped);
    }

    /** child_openpty */
    method OpenPty() returns (ret: int, amaster: int, aslave: int)
      modifies process`table
      ensures ret == 0 || ret == -1
      ensures process.works ==> ret == 0
      ensures ret == 0 ==>
                && amaster >= 0 && aslave >= 0 && amaster != aslave
                && amaster !in old(process.table) && aslave !in old(process.table)
                && process.table == old(process.table)[amaster := PtyMaster][aslave := PtySlave]
      ensures ret == -1 ==> process.table == old(process.table)
    {
      aslave := -1;
      amaster := process.Open(PtyMaster);
      if amaster < 0 {
        return -1, amaster, aslave;
      }
      var fails := process.Try();
      if fails {
        process.Close(amaster);
        return -1, amaster, aslave;
      }
      aslave := process.Open(PtySlave);
      if aslave < 0 {
        process.Close(amaster);
        return -1, amaster, aslave;
      }
      fails := process.Try();
      if fails {
        process.Close(aslave);
        process.Close(amaster);
        return -1, amaster, aslave;
      }
      ret := 0;
    }

    /** child_login_tty, in the guest. */
    method LoginTty(child: Process, aslave: int) returns (ret: int)
      requires aslave in child.table && child.table[aslave] == PtySlave && aslave > STDERR_FILENO
      modifies child`table
      ensures ret == 0 || ret == -1
      ensures child.works ==> ret == 0
      ensures ret == 0 ==>
                child.table == old(child.table)[0 := PtySlave][1 := PtySlave][2 := PtySlave] - {aslave}
    {
      var fails := child.Try();
      if fails {
        return -1;
      }
      ret := child.Dup2(aslave, STDIN_FILENO);
      if ret < 0 {
        return -1;
      }
      ret := child.Dup2(aslave, STDOUT_FILENO);
      if ret < 0 {
        return -1;
      }
      ret := child.Dup2(aslave, STDERR_FILENO);
      if ret < 0 {
        return -1;
      }
      if aslave != STDIN_FILENO && aslave != STDOUT_FILENO && aslave != STDERR_FILENO {
        child.Close(aslave);
        fails := child.Try();
        if fails {
          return -1;
        }
      }
      ret := 0;
    }

    /** The guest's half of child_fork_pty. */
    method TtyGuest(ghost t: Table, amaster: int, aslave: int) returns (atExec: Table, reached: bool)
      requires {0, 1, 2, remote} <= t.Keys && remote > 2
      requires New(t, amaster, {aslave}) && New(t, aslave, {})
      requires process.table == t[amaster := PtyMaster][aslave := PtySlave]
      ensures reached ==> GuestTable(t, remote, atExec) && StandardStreams(Tty, atExec)
      ensures process.works ==> reached
    {
      var child := new Process(process.table, NO_CHILDREN, process.works);
      child.Close(amaster);
      child.Close(remote);
      var login := LoginTty(child, aslave);
      reached := login == 0;
      atExec := child.table;
    }

    /** child_fork_pty. reached says whether the guest gets past child_login_tty. */
    method ForkPty() returns (r: Forked, atExec: Table, reached: bool)
      requires Ready()
      modifies process
      ensures Outcome(Tty, old(process.table), old(process.kids), r, process.table, process.kids)
      ensures r.Guest? && reached ==>
                GuestTable(old(process.table), remote, atExec) && StandardStreams(Tty, atExec)
                && Connected(process.table, r.fin, r.fout, r.ferr, atExec)
                && (r.fout >= 0 ==> Carries(atExec[STDERR_FILENO], process.table[r.fout]))
      ensures process.works ==> r.Guest? && reached && r.fout >= 0
    {
      atExec, reached := map[], false;
      ghost var before := process.table;
      var ret, amaster, aslave := OpenPty();
      if ret != 0 {
        return Failed, atExec, reached;
      }
      var fails := process.Try();
      if fails {
        process.Close(amaster);
        process.Close(aslave);
        return Failed, atExec, reached;
      }
      ret := DropPrivileges();
      if ret != 0 {
        return Dies, atExec, reached;
      }
      var pid := process.Fork();
      if pid < 0 {
        process.Close(amaster);
        process.Close(aslave);
        return Failed, atExec, reached;
      }

      atExec, reached := TtyGuest(before, amaster, aslave);
      var fout := process.Open(process.table[amaster]);
      r := Guest(pid, amaster, fout, -1);
      process.Close(aslave);
      Meeting(before, Tty, r, atExec, reached);
    }
  }
}
