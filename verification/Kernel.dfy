/** The kernel as the modelled processes see it: descriptor tables and child processes. */
module Kernel {
  import opened Bytes

  /** The pipes and socket pairs between a session and its guest. */
  datatype Channel = ToStdin | FromStdout | FromStderr | StdPair | ErrPair

  /** What a descriptor refers to. For a socket pair, guestSide is the end the guest is given. */
  datatype File =
    | Inherited
    | Listener
    | Connection
    | PtyMaster
    | PtySlave
    | ReadEnd(channel: Channel)
    | WriteEnd(channel: Channel)
    | Side(channel: Channel, guestSide: bool)

  type Table = map<int, File>

  /** What is written to the first file can be read from the second. */
  predicate Carries(from: File, to: File) {
    match from
    case WriteEnd(c) => to == ReadEnd(c)
    case Side(c, guestSide) => to == Side(c, !guestSide)
    case PtyMaster => to == PtySlave
    case PtySlave => to == PtyMaster
    case _ => false
  }

  /** How a process ended: by exit(3) or by a signal, perhaps with a core dump. */
  datatype RawEnding = ByExit(code: nat) | BySignal(signal: nat, dumped: bool)

  type Ending = e: RawEnding |
    match e
    case ByExit(code) => code < 256
    case BySignal(signal, _) => 1 <= signal <= 64
    witness ByExit(0)

  /** The status wait(2) gives for it. */
  function WaitStatus(how: Ending): (status: nat)
    ensures status < 0x1_0000
  {
    match how
    case ByExit(code) => code * 256
    case BySignal(signal, dumped) => if dumped then signal + 128 else signal
  }

  /** The children of one process and its SIGCHLD: alive ones, exited but unreaped ones with their
      wait status, and whether the blocked signal is pending. */
  datatype Children = Children(alive: set<int>, zombies: map<int, nat>, pending: bool)

  predicate ChildrenOk(k: Children) {
    && (forall p | p in k.alive :: p > 0 && p !in k.zombies)
    && (forall p | p in k.zombies :: p > 0)
  }

  /** fork(2) in the parent. */
  function WithChild(k: Children, pid: int): Children {
    k.(alive := k.alive + {pid})
  }

  /** A child ends, at any moment: it becomes a zombie and SIGCHLD is raised. */
  function WithExit(k: Children, pid: int, how: Ending): Children {
    k.(alive := k.alive - {pid}, zombies := k.zombies[pid := WaitStatus(how)], pending := true)
  }

  /** A child stops or is continued, which raises SIGCHLD as well. */
  function WithSignal(k: Children): Children {
    k.(pending := true)
  }

  /** A process that has exited already gets this one for its parent, which is told so. */
  function WithZombie(k: Children, pid: int, how: Ending): Children {
    k.(zombies := k.zombies[pid := WaitStatus(how)], pending := true)
  }

  /** waitpid(-1, WNOHANG) returning pid. */
  function WithoutZombie(k: Children, pid: int): Children {
    k.(zombies := k.zombies - {pid})
  }

  /** SIGCHLD runs its handler. */
  function WithoutPending(k: Children): Children {
    k.(pending := false)
  }

  /** What pselect and the next read say of a descriptor: it is not among the ready ones, it has these bytes to
      give, or it is at its end or in error. */
  datatype Look = Idle | Gives(data: bytes) | Ends

  /** read(2) of at most room bytes: what it brings, or None at the end of file and on errors. */
  function ReadUpTo(look: Look, room: nat): (chunk: Option<bytes>)
    requires room > 0
    ensures chunk.Some? ==>
              && look.Gives? && chunk.value <= look.data && 1 <= |chunk.value| <= room
              && (|chunk.value| == room || chunk.value == look.data)
    ensures look.Gives? && look.data != [] ==> chunk.Some?
  {
    match look
    case Gives(data) => if data == [] then None else Some(if |data| <= room then data else data[..room])
    case _ => None
  }

  lemma Inhabited(s: set<int>)
    ensures s == {} || exists x :: x in s
  {
    if !exists x :: x in s {
      assert s == {};
    }
  }

  /** One process as its kernel keeps it: descriptor table and children. works says that no system call of
      it fails or falls short; otherwise any may. */
  class Process {
    const works: bool
    var table: Table
    var kids: Children

    constructor (table: Table, kids: Children, works: bool)
      ensures this.table == table && this.kids == kids && this.works == works
    {
      this.table, this.kids, this.works := table, kids, works;
    }

    /** The result of a system call that has nothing else to say. */
    method Try() returns (fails: bool)
      ensures works ==> !fails
    {
      fails := *;
      fails := fails && !works;
    }

    /** The lowest descriptor from n on that is not open. */
    method Free(n: nat) returns (fd: nat)
      ensures fd >= n && fd !in table
    {
      fd := n;
      ghost var used := set k | k in table.Keys && k >= n;
      while fd in table
        invariant n <= fd
        invariant used == set k | k in table.Keys && k >= fd
        decreases used
      {
        assert fd in used;
        used := used - {fd};
        fd := fd + 1;
      }
    }

    /** open(2), posix_openpt(3), dup(2): a descriptor not in use, or -1. */
    method Open(file: File) returns (fd: int)
      modifies this`table
      ensures fd == -1 || fd >= 0
      ensures works ==> fd >= 0
      ensures fd >= 0 ==> fd !in old(table) && table == old(table)[fd := file]
      ensures fd == -1 ==> table == old(table)
    {
      var fails := Try();
      if fails {
        return -1;
      }
      fd := Free(0);
      table := table[fd := file];
    }

    /** pipe(2) and socketpair(2): both descriptors or none. */
    method OpenPair(first: File, second: File) returns (ret: int, a: int, b: int)
      modifies this`table
      ensures ret == 0 || ret == -1
      ensures works ==> ret == 0
      ensures ret == 0 ==>
                a >= 0 && b >= 0 && a != b && a !in old(table) && b !in old(table)
                && table == old(table)[a := first][b := second]
      ensures ret == -1 ==> table == old(table)
    {
      var fails := Try();
      if fails {
        return -1, -1, -1;
      }
      a := Free(0);
      b := Free(a + 1);
      table := table[a := first][b := second];
      ret := 0;
    }

    /** close(2). Asking that fd is open makes every call site a proof that nothing is closed twice. */
    method Close(fd: int)
      requires fd in table
      modifies this`table
      ensures table == old(table) - {fd}
    {
      table := table - {fd};
    }

    /** dup2(2) onto a descriptor. */
    method Dup2(fd: int, onto: int) returns (ret: int)
      requires fd in table && onto >= 0
      modifies this`table
      ensures ret == onto || ret == -1
      ensures works ==> ret == onto
      ensures table == if ret == onto then old(table)[onto := old(table)[fd]] else old(table)
    {
      var fails := Try();
      if fails {
        return -1;
      }
      table := table[onto := table[fd]];
      ret := onto;
    }

    /** fork(2) in the parent: -1, or a pid no child has. */
    method Fork() returns (pid: int)
      modifies this`kids
      ensures pid == -1 || pid > 0
      ensures works ==> pid > 0
      ensures pid == -1 ==> kids == old(kids)
      ensures pid > 0 ==>
                pid !in old(kids).alive && pid !in old(kids).zombies && kids == WithChild(old(kids), pid)
    {
      var fails := Try();
      if fails {
        return -1;
      }
      pid := *;
      if pid <= 0 || pid in kids.alive || pid in kids.zombies {
        pid := FreePid();
      }
      kids := WithChild(kids, pid);
    }

    /** A pid no child has. */
    method FreePid() returns (pid: int)
      ensures pid > 0 && pid !in kids.alive && pid !in kids.zombies
    {
      pid := 1;
      ghost var used := set k | k in kids.alive + kids.zombies.Keys && k >= 1;
      while pid in kids.alive || pid in kids.zombies
        invariant 1 <= pid
        invariant used == set k | k in kids.alive + kids.zombies.Keys && k >= pid
        decreases used
      {
        assert pid in used;
        used := used - {pid};
        pid := pid + 1;
      }
    }

    /** waitpid(-1, &status, WNOHANG): some zombie, else 0 or -1 with ECHILD; or -1 with another error. */
    method WaitPid() returns (pid: int, status: nat, echild: bool)
      requires ChildrenOk(kids)
      modifies this`kids
      ensures pid > 0 ==>
                pid in old(kids).zombies && status == old(kids).zombies[pid]
                && kids == WithoutZombie(old(kids), pid)
      ensures pid <= 0 ==> kids == old(kids)
      ensures pid == 0 || (pid < 0 && echild) ==> kids.zombies == map[]
      ensures pid == 0 ==> kids.alive != {}
      ensures pid < 0 && echild ==> kids.alive == {}
      ensures works ==> pid >= 0 || echild
    {
      status, echild := 0, false;
      var fails := Try();
      if fails {
        return -1, status, echild;
      }
      var exited := kids.zombies.Keys;
      if exited == {} {
        assert kids.zombies == map[];
        echild := kids.alive == {};
        return if echild then -1 else 0, status, echild;
      }
      Inhabited(exited);
      pid :| pid in exited;
      status := kids.zombies[pid];
      kids := WithoutZombie(kids, pid);
    }

    /** A child ends. */
    method ChildEnds(pid: int, how: Ending)
      requires pid in kids.alive
      modifies this`kids
      ensures kids == WithExit(old(kids), pid, how)
    {
      kids := WithExit(kids, pid, how);
    }

    /** A child stops or is continued. */
    method ChildStops()
      modifies this`kids
      ensures kids == WithSignal(old(kids))
    {
      kids := WithSignal(kids);
    }

    /** An orphan becomes a child, alive or exited already. */
    method Adopt(pid: int, exited: Option<Ending>)
      modifies this`kids
      ensures kids == match exited
                      case None => WithChild(old(kids), pid)
                      case Some(how) => WithZombie(old(kids), pid, how)
    {
      match exited {
        case None => kids := WithChild(kids, pid);
        case Some(how) => kids := WithZombie(kids, pid, how);
      }
    }

    /** The pending SIGCHLD is taken off by its handler. */
    method TakeSigchld()
      modifies this`kids
      ensures kids == WithoutPending(old(kids))
    {
      kids := WithoutPending(kids);
    }
  }
}
