/** server_loop and server_sigchld in server/jaild.c: the container's init, which accepts connections,
    forks a session for each and reaps whatever exits - its sessions, and the orphans it is given as the
    first process of its namespace, such as a guest whose session ended before it. SIGCHLD and the
    termination signals are blocked except inside pselect. */
module Master {
  import opened Bytes
  import opened Kernel
  import Runs
  import S = Session

  datatype Pc =
    | Head               // before the termination flag is looked at
    | Reap               // in server_sigchld before waitpid
    | Clear              // in server_sigchld before it clears the flag
    | Select             // about to call, or inside, pselect
    | Accept
    | Fork(c: int)       // c is the accepted connection
    | Shut(c: int)       // before close(c)
    | Ended

  /** started, adopted and reaped count children over the whole run; asked says that a termination signal
      came. */
  datatype State = State(
    listener: int, table: Table, kids: Children, sigchld: bool, sigterm: bool, termPending: bool,
    asked: bool, started: nat, adopted: nat, reaped: nat, pc: Pc)

  /** The descriptors the master keeps. */
  function Kept(listener: int): Table {
    map[0 := Inherited, 1 := Inherited, 2 := Inherited, listener := Listener]
  }

  function Start(listener: int): State {
    State(listener, Kept(listener), Children({}, map[], false), false, false, false, false, 0, 0, 0, Head)
  }

  datatype Event =
    | Test
    | WaitChild(p: int)               // waitpid returns p
    | WaitNone                        // waitpid returns 0 or ECHILD
    | WaitFails
    | ClearFlag
    | Interrupted(chld: bool, term: bool)  // pselect delivers pending signals: EINTR
    | Timeout
    | SelectFails
    | Ready
    | Accepts(c: int)
    | AcceptFails
    | Forks(pid: int)
    | ForkFails
    | Closes
    | ChildExits(p: int, how: Ending) // outside
    | ChildStops                      // outside: a child stops or is continued
    | Adopts(p: int, exited: Option<Ending>)  // outside: an orphan arrives, perhaps exited already
    | Terminate                       // outside: HUP or INT

  predicate Enabled(m: State, e: Event) {
    match e
    case Test => m.pc == Head
    case WaitChild(p) => m.pc == Reap && p in m.kids.zombies
    case WaitNone => m.pc == Reap && m.kids.zombies == map[]
    case WaitFails => m.pc == Reap
    case ClearFlag => m.pc == Clear
    case Interrupted(chld, term) =>
      m.pc == Select && (chld || term) && (chld ==> m.kids.pending) && (term ==> m.termPending)
    case Timeout => m.pc == Select
    case SelectFails => m.pc == Select
    case Ready => m.pc == Select
    case Accepts(c) => m.pc == Accept && c >= 0 && c !in m.table
    case AcceptFails => m.pc == Accept
    case Forks(pid) => m.pc.Fork? && pid > 0 && pid !in m.kids.alive && pid !in m.kids.zombies
    case ForkFails => m.pc.Fork?
    case Closes => m.pc.Shut?
    case ChildExits(p, _) => m.pc != Ended && p in m.kids.alive
    case ChildStops => m.pc != Ended && m.kids.alive != {}
    case Adopts(p, _) => m.pc != Ended && p > 0 && p !in m.kids.alive && p !in m.kids.zombies
    case Terminate => m.pc != Ended
  }

  function Adopted(k: Children, p: int, exited: Option<Ending>): Children {
    match exited
    case None => WithChild(k, p)
    case Some(how) => WithZombie(k, p, how)
  }

  /** The events that happen to the master; the others it makes itself. */
  predicate FromOutside(e: Event) {
    e.ChildExits? || e == ChildStops || e.Adopts? || e == Terminate
  }

  function Next(m: State, e: Event): State
    requires Enabled(m, e)
  {
    match e
    case Test => m.(pc := if m.sigterm then Ended else if m.sigchld then Reap else Select)
    case WaitChild(p) => m.(kids := WithoutZombie(m.kids, p), reaped := m.reaped + 1)
    case WaitNone => m.(pc := Clear)
    case WaitFails => m.(pc := Ended)
    case ClearFlag => m.(sigchld := false, pc := Select)
    case Interrupted(chld, term) =>
      m.(pc := Head,
         kids := if chld then WithoutPending(m.kids) else m.kids,
         sigchld := m.sigchld || chld, sigterm := m.sigterm || term,
         termPending := m.termPending && !term)
    case Timeout => m.(pc := Head)
    case SelectFails => m.(pc := Ended)
    case Ready => m.(pc := Accept)
    case Accepts(c) => m.(table := m.table[c := Connection], pc := Fork(c))
    case AcceptFails => m.(pc := Head)
    case Forks(pid) => m.(kids := WithChild(m.kids, pid), started := m.started + 1, pc := Shut(m.pc.c))
    case ForkFails => m.(pc := Shut(m.pc.c))
    case Closes => m.(table := m.table - {m.pc.c}, pc := Head)
    case ChildExits(p, how) => m.(kids := WithExit(m.kids, p, how))
    case ChildStops => m.(kids := WithSignal(m.kids))
    case Adopts(p, exited) => m.(kids := Adopted(m.kids, p, exited), adopted := m.adopted + 1)
    case Terminate => m.(termPending := true, asked := true)
  }

  /** The master as a machine. */
  function Transition(m: State, e: Event): Option<State> {
    if Enabled(m, e) then Some(Next(m, e)) else None
  }

  /** What a forked session has: the master's descriptors without the listening socket. */
  function Child(m: State): Table {
    m.table - {m.listener}
  }

  /** The master holds its own descriptors and, from accept to close, one connection. */
  ghost predicate Tidy(m: State) {
    && m.listener > 2
    && (if m.pc.Fork? || m.pc.Shut? then
          m.pc.c > 2 && m.pc.c != m.listener && m.table == Kept(m.listener)[m.pc.c := Connection]
        else m.table == Kept(m.listener))
  }

  /** No exit is lost: with a child to reap the signal is pending or the flag is up, and stays up until no
      child is left; and the flag is down when pselect is entered. */
  ghost predicate NoLostExit(m: State) {
    && ChildrenOk(m.kids)
    && (m.pc == Reap || m.pc == Clear ==> m.sigchld)
    && (m.pc == Select ==> !m.sigchld)
    && (m.kids.zombies != map[] ==> m.pc == Ended || m.kids.pending || (m.sigchld && m.pc != Clear))
  }

  /** Every child ever started or adopted is alive, waiting to be reaped, or reaped. */
  ghost predicate Accounted(m: State) {
    m.started + m.adopted == m.reaped + Unreaped(m.kids)
  }

  /** The children a waitpid may still return. */
  function Unreaped(k: Children): nat {
    |k.alive| + |k.zombies.Keys|
  }

  /** A termination signal stays pending or flagged, and once flagged nothing more is accepted. */
  ghost predicate Obeys(m: State) {
    && (m.asked ==> m.termPending || m.sigterm)
    && (m.sigterm ==> m.pc == Head || m.pc == Ended)
  }

  ghost predicate Safe(m: State) {
    Tidy(m) && NoLostExit(m) && Accounted(m) && Obeys(m)
  }

  lemma SafeKept(m: State, e: Event)
    requires Safe(m) && Enabled(m, e)
    ensures Safe(Next(m, e))
  {
    NoLostExitKept(m, e);
    AccountedKept(m, e);
    TidyKept(m, e);
    ObeysKept(m, e);
  }

  lemma TidyKept(m: State, e: Event)
    requires Tidy(m) && Enabled(m, e)
    ensures Tidy(Next(m, e))
  {
    match e
    case Accepts(c) => assert {0, 1, 2, m.listener} <= m.table.Keys;
    case Closes => assert Kept(m.listener)[m.pc.c := Connection] - {m.pc.c} == Kept(m.listener);
    case _ => assert Next(m, e).table == m.table;
  }

  lemma NoLostExitKept(m: State, e: Event)
    requires NoLostExit(m) && Enabled(m, e)
    ensures NoLostExit(Next(m, e))
  {
  }

  lemma ObeysKept(m: State, e: Event)
    requires Obeys(m) && Enabled(m, e)
    ensures Obeys(Next(m, e))
  {
  }

  lemma AccountedKept(m: State, e: Event)
    requires ChildrenOk(m.kids) && Accounted(m) && Enabled(m, e)
    ensures Accounted(Next(m, e))
  {
    match e
    case WaitChild(p) => Counts(m.kids, p, ByExit(0));
    case ChildExits(p, how) => Counts(m.kids, p, how);
    case Forks(pid) => Joined(m.kids, pid, None);
    case Adopts(p, exited) => Joined(m.kids, p, exited);
    case _ =>
  }

  lemma Joined(k: Children, p: int, exited: Option<Ending>)
    requires ChildrenOk(k) && p > 0 && p !in k.alive && p !in k.zombies
    ensures var j := Adopted(k, p, exited);
            ChildrenOk(j) && Unreaped(j) == Unreaped(k) + 1 && |j.zombies.Keys| >= |k.zombies.Keys|
  {
    if exited.Some? {
      assert Adopted(k, p, exited).zombies.Keys == k.zombies.Keys + {p};
    }
  }

  lemma Counts(k: Children, p: int, how: Ending)
    ensures p in k.zombies ==>
              && Unreaped(WithoutZombie(k, p)) == Unreaped(k) - 1
              && |WithoutZombie(k, p).zombies.Keys| == |k.zombies.Keys| - 1
    ensures p in k.alive && p !in k.zombies ==>
              && Unreaped(WithExit(k, p, how)) == Unreaped(k)
              && |WithExit(k, p, how).zombies.Keys| == |k.zombies.Keys| + 1
  {
    assert (k.zombies - {p}).Keys == k.zombies.Keys - {p};
    assert k.zombies[p := WaitStatus(how)].Keys == k.zombies.Keys + {p};
  }

  /** What ends the master, exactly: the termination flag at the head of the loop, or a failed waitpid or
      pselect. A connection that cannot be accepted or a session that cannot be forked does not. */
  lemma EndsExactly(m: State, e: Event)
    requires Enabled(m, e) && m.pc != Ended
    ensures Next(m, e).pc == Ended <==> (e == Test && m.sigterm) || e in {WaitFails, SelectFails}
  {
  }

  /** Where a master that goes on is after a step of its own. */
  predicate Turn(m: State, e: Event, pc: Pc) {
    match m.pc
    case Head => pc == if m.sigchld then Reap else Select
    case Reap => pc == if e.WaitChild? then Reap else Clear
    case Clear => pc == Select
    case Select => pc == if e == Ready then Accept else Head
    case Accept => pc == if e.Accepts? then Fork(e.c) else Head
    case Fork(c) => pc == Shut(c)
    case Shut(_) => pc == Head
    case Ended => false
  }

  /** One round of a master that goes on: it reaps while the flag is up, and a connection that is ready is
      accepted, given to a session and closed. */
  lemma InTurn(m: State, e: Event)
    requires Enabled(m, e) && !FromOutside(e) && Next(m, e).pc != Ended
    ensures Turn(m, e, Next(m, e).pc)
  {
  }

  /** A waiting connection gets a session of its own: whatever descriptor and pid the kernel gives, the next
      steps are possible, and lead back to the head of the loop with one more child and no more descriptor. */
  lemma ServesConnection(m: State, c: int, pid: int) returns (t: State)
    requires m.pc == Select && c >= 0 && c !in m.table
    requires pid > 0 && pid !in m.kids.alive && pid !in m.kids.zombies
    ensures Runs.Leads(Transition, m, [Ready, Accepts(c), Forks(pid), Closes], t)
    ensures t == m.(kids := WithChild(m.kids, pid), started := m.started + 1, pc := Head)
  {
    Runs.Stay(Transition, m);
    var es;
    es, t := Then(m, [], m, Ready);
    es, t := Then(m, es, t, Accepts(c));
    es, t := Then(m, es, t, Forks(pid));
    es, t := Then(m, es, t, Closes);
    assert es == [Ready, Accepts(c), Forks(pid), Closes];
    assert m.table[c := Connection] - {c} == m.table;
  }

  lemma Then(m: State, es: seq<Event>, t: State, e: Event) returns (fs: seq<Event>, u: State)
    requires Runs.Leads(Transition, m, es, t) && Enabled(t, e)
    ensures Runs.Leads(Transition, m, fs, u) && fs == es + [e] && u == Next(t, e)
  {
    fs, u := es + [e], Next(t, e);
    Runs.Snoc(Transition, m, es, t, e, u);
  }

  /** A pending termination signal interrupts pselect, and the master then ends. */
  lemma TerminationHeard(m: State)
    requires Safe(m) && m.pc == Select && m.termPending
    ensures Enabled(m, Interrupted(false, true))
    ensures Next(Next(m, Interrupted(false, true)), Test).pc == Ended
  {
  }

  /** In every state any run reaches, no exit is lost, no child unaccounted for, no connection kept. */
  lemma SafeAlways(listener: int, es: seq<Event>, m: State)
    requires listener > 2 && Runs.Leads(Transition, Start(listener), es, m)
    ensures Safe(m)
  {
    forall u, e | Safe(u) && Transition(u, e).Some?
      ensures Safe(Next(u, e))
    {
      SafeKept(u, e);
    }
    Runs.Kept(Transition, u => Safe(u), Start(listener), es, m);
  }

  /** A session is forked into exactly the state Session's runs begin in. */
  lemma StartsSession(m: State)
    requires Safe(m) && m.pc.Fork?
    ensures m.pc.c > 2 && Child(m) == S.Start(m.pc.c, {}).core.fds
  {
  }

  /** pselect does not sleep past an exit: the signal is pending, and its delivery leads to a waitpid that
      can return the child. */
  lemma ExitWakes(m: State, p: int)
    requires Safe(m) && m.pc == Select && p in m.kids.zombies
    ensures Enabled(m, Interrupted(true, false))
    ensures var t := Next(Next(m, Interrupted(true, false)), Test);
            t.pc != Ended && Enabled(t, WaitChild(p))
  {
  }

  /** What pselect may answer. */
  datatype Poll = PollSignals | PollTimesOut | PollFails | PollReady

  /** server_loop and server_sigchld as they are written. */
  class Server {
    const process: Process
    const listener: int
    var sigchld: bool
    var sigterm: bool
    /** Outside: a blocked HUP or INT is pending. */
    var termPending: bool
    ghost const start: State
    ghost var history: seq<Event>
    ghost var model: State

    ghost predicate Valid()
      reads this, process
    {
      && listener > 2 && start == Start(listener)
      && Runs.Leads(Transition, start, history, model)
      && listener == model.listener && sigchld == model.sigchld && sigterm == model.sigterm
      && termPending == model.termPending
      && process.kids == model.kids && process.table == model.table
    }

    ghost method Step(e: Event)
      requires Runs.Leads(Transition, start, history, model) && Enabled(model, e)
      modifies this`model, this`history
      ensures model == Next(old(model), e) && history == old(history) + [e]
      ensures Runs.Leads(Transition, start, history, model)
    {
      Runs.Snoc(Transition, start, history, model, e, Next(model, e));
      history := history + [e];
      model := Next(model, e);
    }

    /** Whatever the methods did so far, in any order their contracts allow, the state is safe. */
    lemma AlwaysSafe()
      requires Valid()
      ensures Safe(model) && ChildrenOk(process.kids)
      ensures model.pc.Shut? ==> model.pc.c in process.table
      ensures !model.pc.Fork? && !model.pc.Shut? ==> process.table == Kept(listener)
    {
      SafeAlways(listener, history, model);
    }

    constructor (listener: int, process: Process)
      requires listener > 2
      requires process.table == Kept(listener) && process.kids == Children({}, map[], false)
      ensures Valid() && model == Start(listener) && history == [] && this.process == process
    {
      this.process, this.listener := process, listener;
      sigchld, sigterm, termPending := false, false, false;
      start, model, history := Start(listener), Start(listener), [];
      new;
      Runs.Stay(Transition, start);
    }

    /** What outside events leave alone, out of those orphans still to come. */
    twostate predicate Undisturbed(orphans: nat, left: nat)
      reads this, process
    {
      && model.pc == old(model).pc && model.reaped == old(model).reaped && model.started == old(model).started
      && sigterm == old(sigterm)
      && Unreaped(process.kids) + left == old(Unreaped(process.kids)) + orphans
      && |process.kids.zombies.Keys| >= old(|process.kids.zombies.Keys|)
    }

    /** Between any two system calls any number of children may exit or stop, of orphans arrive - out of
        those still to come, orphans - and of termination signals. */
    method Outside(orphans: nat) returns (left: nat)
      requires Valid() && model.pc != Ended
      modifies this`model, this`history, this`termPending, process`kids
      ensures Valid() && old(history) <= history && Undisturbed(orphans, left)
    {
      left := orphans;
      var n: nat := *;
      while n > 0
        invariant Valid() && old(history) <= history && Undisturbed(orphans, left)
      {
        n := n - 1;
        left := OneOutside(left);
      }
    }

    method OneOutside(orphans: nat) returns (left: nat)
      requires Valid() && model.pc != Ended
      modifies this`model, this`history, this`termPending, process`kids
      ensures Valid() && old(history) <= history && Undisturbed(orphans, left)
    {
      left := orphans;
      var p: int, exited: Option<Ending>, asked: bool := *, *, *;
      AlwaysSafe();
      if asked {
        termPending := true;
        Step(Terminate);
      } else if p > 0 && p !in process.kids.alive && p !in process.kids.zombies && orphans > 0 {
        AdoptOne(p, exited);
        left := orphans - 1;
      } else {
        OneMoves();
      }
    }

    /** A child exits, stops or is continued. */
    method OneMoves()
      requires Valid() && model.pc != Ended
      modifies this`model, this`history, process`kids
      ensures Valid() && old(history) <= history && Undisturbed(0, 0)
    {
      var p: int, how: Ending, stops: bool := *, *, *;
      if stops && process.kids.alive != {} {
        process.ChildStops();
        Step(ChildStops);
      } else if p in process.kids.alive {
        AlwaysSafe();
        Counts(process.kids, p, how);
        process.ChildEnds(p, how);
        Step(ChildExits(p, how));
      }
    }

    method AdoptOne(p: int, exited: Option<Ending>)
      requires Valid() && model.pc != Ended
      requires p > 0 && p !in process.kids.alive && p !in process.kids.zombies && ChildrenOk(process.kids)
      modifies this`model, this`history, process`kids
      ensures Valid() && history == old(history) + [Adopts(p, exited)] && Undisturbed(1, 0)
    {
      Joined(process.kids, p, exited);
      process.Adopt(p, exited);
      Step(Adopts(p, exited));
    }

    /** One waitpid of server_sigchld: 1 when a child was reaped, 0 when there is none, -1 on failure. */
    method ReapOne(orphans: nat) returns (next: int, left: nat)
      requires Valid() && model.pc == Reap
      modifies this`model, this`history, this`termPending, process`kids
      ensures Valid() && old(history) <= history && -1 <= next <= 1 && (process.works ==> next >= 0)
      ensures model.pc == if next == 1 then Reap else if next == 0 then Clear else Ended
      ensures next >= 0 ==> model.reaped == old(model).reaped + next && model.started == old(model).started
      ensures next >= 0 ==> Unreaped(process.kids) + left + next == old(Unreaped(process.kids)) + orphans
      ensures next >= 0 ==> |process.kids.zombies.Keys| + next >= old(|process.kids.zombies.Keys|)
      ensures next == 0 ==> process.kids.zombies == map[]
    {
      left := Outside(orphans);
      AlwaysSafe();
      ghost var before := process.kids;
      var pid, status, echild := process.WaitPid();
      if pid > 0 {
        Counts(before, pid, ByExit(0));
        Step(WaitChild(pid));
        return 1, left;
      }
      if pid < 0 && !echild {
        Step(WaitFails);
        return -1, left;
      }
      Step(WaitNone);
      next := 0;
    }

    /** server_sigchld behind its test of the flag: how many children were reaped, or -1; at least all that had
        exited when it was called. It ends because only so many orphans arrive meanwhile. */
    method Sigchld(orphans: nat) returns (ret: int, left: nat)
      requires Valid() && model.pc == Reap
      modifies this, process`kids
      ensures Valid() && old(history) <= history && ret >= -1 && (process.works ==> ret >= 0)
      ensures ret >= 0 ==> model.pc == Select && model.reaped == old(model).reaped + ret
      ensures ret >= 0 ==> ret >= old(|process.kids.zombies.Keys|) && model.started == old(model).started
      ensures ret < 0 ==> model.pc == Ended
    {
      ret, left := 0, orphans;
      var next := 1;
      while next == 1
        invariant Valid() && old(history) <= history && -1 <= next <= 1 && (process.works ==> next >= 0)
        invariant model.pc == if next == 1 then Reap else if next == 0 then Clear else Ended
        invariant next >= 0 ==> ret >= 0 && model.reaped == old(model).reaped + ret
        invariant next >= 0 ==> model.started == old(model).started
        invariant next >= 0 ==> |process.kids.zombies.Keys| + ret >= old(|process.kids.zombies.Keys|)
        invariant next == 0 ==> process.kids.zombies == map[]
        decreases next == 1, Unreaped(process.kids) + left
      {
        next, left := ReapOne(left);
        ret := if next == 1 then ret + 1 else ret;
      }
      if next < 0 {
        return -1, left;
      }
      left := Outside(left);
      sigchld := false;
      Step(ClearFlag);
    }

    /** One round of server_loop, for what pselect answers: 0 to go round, 1 when it is over and returns 0, -1
        on failure. */
    method Round(poll: Poll, orphans: nat) returns (ret: int, left: nat)
      requires Valid() && model.pc == Head && (process.works ==> poll != PollFails)
      modifies this, process
      ensures Valid() && old(history) <= history && -1 <= ret <= 1
      ensures if ret == 0 then model.pc == Head && process.table == Kept(listener) else model.pc == Ended
      ensures ret == 1 <==> old(sigterm)
      ensures process.works ==> ret >= 0
      ensures process.works && ret == 0 && poll == PollReady ==> model.started == old(model).started + 1
      ensures ret == 0 && poll != PollReady ==> model.started == old(model).started
    {
      left := orphans;
      Step(Test);
      if sigterm {
        return 1, left;
      }
      if sigchld {
        ret, left := Sigchld(left);
        if ret < 0 {
          return -1, left;
        }
      }
      left := Outside(left);
      ret := Wait(poll);
      if ret > 0 {
        left := Serve(left);
        ret := 0;
      }
      AlwaysSafe();
    }

    /** pselect, for what it answers: 1 when a connection is there. Signals are delivered if there are any. */
    method Wait(poll: Poll) returns (ret: int)
      requires Valid() && model.pc == Select
      modifies this, process`kids
      ensures Valid() && -1 <= ret <= 1
      ensures model.pc == if ret == 0 then Head else if ret == 1 then Accept else Ended
      ensures var chld, term := old(process.kids).pending, old(termPending);
              history == old(history) + [match poll
                                         case PollFails => SelectFails
                                         case PollReady => Ready
                                         case PollSignals => if chld || term then Interrupted(chld, term) else Timeout
                                         case PollTimesOut => Timeout]
      ensures ret == match poll case PollFails => -1 case PollReady => 1 case _ => 0
      ensures model.started == old(model).started && process.table == old(process.table)
    {
      var chld, term := process.kids.pending, termPending;
      if poll == PollSignals && (chld || term) {
        Step(Interrupted(chld, term));
        if chld {
          process.TakeSigchld();
          sigchld := true;
        }
        if term {
          termPending := false;
          sigterm := true;
        }
        return 0;
      }
      if poll == PollFails {
        Step(SelectFails);
        return -1;
      }
      if poll != PollReady {
        Step(Timeout);
        return 0;
      }
      Step(Ready);
      ret := 1;
    }

    /** accept, fork and close. */
    method Serve(orphans: nat) returns (left: nat)
      requires Valid() && model.pc == Accept
      modifies this, process
      ensures Valid() && old(history) <= history && model.pc == Head
      ensures process.works ==> model.started == old(model).started + 1
    {
      left := Outside(orphans);
      var c := AcceptOne();
      if c < 0 {
        return;
      }
      left := Outside(left);
      Launch(c);
      left := Outside(left);
      Close(c);
    }

    /** accept, which may fail. */
    method AcceptOne() returns (c: int)
      requires Valid() && model.pc == Accept
      modifies this`model, this`history, process`table
      ensures Valid() && old(history) <= history && (c >= 0 || c == -1) && (process.works ==> c >= 0)
      ensures model.pc == (if c < 0 then Head else Fork(c)) && model.started == old(model).started
    {
      c := process.Open(Connection);
      Step(if c < 0 then AcceptFails else Accepts(c));
    }

    /** fork of a session, which may fail. */
    method Launch(c: int)
      requires Valid() && model.pc == Fork(c)
      modifies this`model, this`history, process`kids
      ensures Valid() && old(history) <= history && model.pc == Shut(c)
      ensures process.works ==> model.started == old(model).started + 1
    {
      var pid := process.Fork();
      if pid > 0 {
        Step(Forks(pid));
      } else {
        Step(ForkFails);
      }
    }

    /** close(c) in the master. */
    method Close(c: int)
      requires Valid() && model.pc == Shut(c)
      modifies this`model, this`history, process`table
      ensures Valid() && old(history) <= history && model.pc == Head && model.started == old(model).started
    {
      AlwaysSafe();
      process.Close(c);
      Step(Closes);
    }
  }
}
