/** server_wait_for_child in server/jaild.c: the process that outlives the container's init, passes
    termination requests on to it and waits for its death. All its signals are blocked except inside
    sigsuspend. */
module Babysitter {
  import opened Bytes
  import opened Kernel
  import Runs

  datatype Pc =
    | Check              // before the termination flag is looked at
    | Forward            // flag cleared, before kill
    | Wait               // before waitpid
    | Suspend            // about to call, or inside, sigsuspend
    | Done(status: nat)
    | Failed

  /** owed: a termination request has arrived since the last one was passed on. exits: how every child that
      has exited ended. */
  datatype State = State(
    pid: int, kids: Children, exits: map<int, Ending>, sigterm: bool, termPending: bool, owed: bool, pc: Pc)

  function Start(pid: int, kids: set<int>): State {
    State(pid, Children(kids, map[], false), map[], false, false, false, Check)
  }

  datatype Event =
    | Test                            // if (g_server_sigterm) clear it
    | Kill                            // kill SIGINT, SIGCONT
    | WaitChild(p: int)               // waitpid returns p
    | WaitNone                        // waitpid returns 0
    | WaitFails                       // waitpid returns -1
    | Wake(chld: bool, term: bool)    // sigsuspend delivers pending signals
    | SuspendFails
    | ChildExits(p: int, how: Ending) // outside
    | ChildStops                      // outside: a child stops or is continued
    | Terminate                       // outside: HUP, INT, QUIT or TERM

  predicate Enabled(b: State, e: Event) {
    match e
    case Test => b.pc == Check
    case Kill => b.pc == Forward
    case WaitChild(p) => b.pc == Wait && p in b.kids.zombies
    case WaitNone => b.pc == Wait && b.kids.zombies == map[] && b.kids.alive != {}
    case WaitFails => b.pc == Wait
    case Wake(chld, term) =>
      b.pc == Suspend && (chld || term) && (chld ==> b.kids.pending) && (term ==> b.termPending)
    case SuspendFails => b.pc == Suspend
    case ChildExits(p, _) => p in b.kids.alive
    case ChildStops => b.kids.alive != {}
    case Terminate => true
  }

  function Next(b: State, e: Event): State
    requires Enabled(b, e)
  {
    match e
    case Test => if b.sigterm then b.(sigterm := false, pc := Forward) else b.(pc := Wait)
    case Kill => b.(owed := false, pc := Wait)
    case WaitChild(p) =>
      b.(kids := WithoutZombie(b.kids, p), pc := if p == b.pid then Done(b.kids.zombies[p]) else Suspend)
    case WaitNone => b.(pc := Suspend)
    case WaitFails => b.(pc := Failed)
    case Wake(chld, term) =>
      b.(pc := Check,
         kids := if chld then WithoutPending(b.kids) else b.kids,
         sigterm := b.sigterm || term,
         termPending := b.termPending && !term)
    case SuspendFails => b.(pc := Failed)
    case ChildExits(p, how) => b.(kids := WithExit(b.kids, p, how), exits := b.exits[p := how])
    case ChildStops => b.(kids := WithSignal(b.kids))
    case Terminate => b.(owed := true, termPending := true)
  }

  /** The babysitter as a machine. */
  function Transition(b: State, e: Event): Option<State> {
    if Enabled(b, e) then Some(Next(b, e)) else None
  }

  /** The events that happen to the babysitter; the others it makes itself. */
  predicate FromOutside(e: Event) {
    e.ChildExits? || e == ChildStops || e == Terminate
  }

  /** The status returned is that of the child waited for. */
  predicate ItsStatus(b: State) {
    && (forall p | p in b.kids.zombies ::
          p !in b.kids.alive && p in b.exits && b.kids.zombies[p] == WaitStatus(b.exits[p]))
    && (b.pc.Done? ==>
          b.pid !in b.kids.alive && b.pid in b.exits && b.pc.status == WaitStatus(b.exits[b.pid]))
  }

  /** Whatever other children there are, what the wait returns is how the child waited for ended. */
  lemma StatusIsChilds(pid: int, kids: set<int>, es: seq<Event>, b: State)
    requires Runs.Leads(Transition, Start(pid, kids), es, b) && b.pc.Done?
    ensures b.pid == pid && pid in b.exits && b.pc.status == WaitStatus(b.exits[pid])
  {
    forall c, e | ItsStatus(c) && Transition(c, e).Some?
      ensures ItsStatus(Next(c, e)) && Next(c, e).pid == c.pid
    {
      ItsStatusKept(c, e);
    }
    Runs.Related(Transition, ItsStatus, (c: State, d: State) => d.pid == c.pid, Start(pid, kids), es, b);
  }

  lemma ItsStatusKept(b: State, e: Event)
    requires ItsStatus(b) && Enabled(b, e)
    ensures ItsStatus(Next(b, e)) && Next(b, e).pid == b.pid
  {
  }

  /** What ends the wait, exactly: the child itself, or a failed waitpid or sigsuspend. */
  lemma EndsExactly(b: State, e: Event)
    requires Enabled(b, e) && !b.pc.Done? && b.pc != Failed
    ensures Next(b, e).pc.Done? <==> e.WaitChild? && e.p == b.pid
    ensures Next(b, e).pc == Failed <==> e in {WaitFails, SuspendFails}
  {
  }

  /** One round of a wait that goes on passes a flagged request on, asks for a child, and sleeps. */
  lemma InTurn(b: State, e: Event)
    requires Enabled(b, e) && !FromOutside(e) && !Next(b, e).pc.Done? && Next(b, e).pc != Failed
    ensures var pc := Next(b, e).pc;
            match b.pc
            case Check => pc == if b.sigterm then Forward else Wait
            case Forward => pc == Wait
            case Wait => pc == Suspend
            case Suspend => pc == Check
            case _ => false
  {
  }

  /** A pending request interrupts the sleep and is passed on before the next one. */
  lemma RequestHeard(b: State)
    requires b.pc == Suspend && b.termPending
    ensures Enabled(b, Wake(false, true))
    ensures var c := Next(Next(b, Wake(false, true)), Test);
            Enabled(c, Kill) && !c.termPending && !c.sigterm && !Next(c, Kill).owed
  {
  }

  /** The child is dead and unreaped, and nothing of it will ever wake the sleeper. */
  predicate SleepsPastDeath(b: State) {
    b.pc == Suspend && b.pid in b.kids.zombies && !b.kids.pending
  }

  /** No request is dropped: one not passed on yet is pending, flagged, or about to be passed on. */
  predicate NoLostRequest(b: State) {
    && (b.owed ==> b.termPending || b.sigterm || b.pc == Forward)
    && (b.pc in {Forward, Wait, Suspend} ==> !b.sigterm)
  }

  /** What one child of its own keeps. */
  predicate OneChild(b: State) {
    && (forall p | p in b.kids.alive :: p == b.pid)
    && (forall p | p in b.kids.zombies :: p == b.pid)
    && (b.pid in b.kids.alive ==> b.pid !in b.kids.zombies)
    && !SleepsPastDeath(b)
    && (b.pc in {Check, Forward, Wait, Suspend} ==> b.pid in b.kids.alive || b.pid in b.kids.zombies)
  }

  /** Whatever its children, the babysitter never drops a termination request. */
  lemma RequestsForwarded(pid: int, kids: set<int>, es: seq<Event>, b: State)
    requires Runs.Leads(Transition, Start(pid, kids), es, b)
    ensures NoLostRequest(b)
  {
    Runs.Kept(Transition, NoLostRequest, Start(pid, kids), es, b);
  }

  /** In no run does the babysitter sleep past its child's death. */
  ghost predicate AlwaysWakes(pid: int, kids: set<int>) {
    forall es, b | Runs.Leads(Transition, Start(pid, kids), es, b) :: !SleepsPastDeath(b)
  }

  /** The babysitter never sleeps past its child's death exactly when that child is the only one: after
      reaping another child it suspends without asking waitpid again. As a daemon it has been forked just
      before and has no other; in the foreground it may keep children from before its exec. */
  lemma NeverSleepsPastDeath(pid: int, kids: set<int>)
    requires pid in kids
    ensures AlwaysWakes(pid, kids) <==> kids == {pid}
  {
    if kids == {pid} {
      forall es, b | Runs.Leads(Transition, Start(pid, kids), es, b)
        ensures !SleepsPastDeath(b)
      {
        OneChildKept();
        Runs.Kept(Transition, OneChild, Start(pid, kids), es, b);
      }
    } else {
      Inhabited(kids - {pid});
      assert kids - {pid} != {};
      var other :| other in kids - {pid};
      var es, b := LosingRun(pid, kids, other);
    }
  }

  lemma OneChildKept()
    ensures forall b, e :: OneChild(b) && Transition(b, e).Some? ==> OneChild(Transition(b, e).value)
  {
    forall b, e | OneChild(b) && Transition(b, e).Some?
      ensures OneChild(Transition(b, e).value)
    {
      OneChildStep(b, e);
    }
  }

  lemma OneChildStep(b: State, e: Event)
    requires OneChild(b) && Enabled(b, e)
    ensures OneChild(Next(b, e))
  {
    if e.WaitChild? {
      assert e.p == b.pid;
    }
  }

  /** Both children exit before the first waitpid, which returns the other one after the signal of both
      has been taken. */
  lemma LosingRun(pid: int, kids: set<int>, other: int) returns (es: seq<Event>, b: State)
    requires pid in kids && other in kids && other != pid
    ensures Runs.Leads(Transition, Start(pid, kids), es, b) && SleepsPastDeath(b)
  {
    es, b := [], Start(pid, kids);
    Runs.Stay(Transition, b);
    es, b := Then(pid, kids, es, b, Test);
    es, b := Then(pid, kids, es, b, WaitNone);
    es, b := Then(pid, kids, es, b, ChildExits(other, ByExit(0)));
    es, b := Then(pid, kids, es, b, ChildExits(pid, ByExit(0)));
    es, b := Then(pid, kids, es, b, Wake(true, false));
    es, b := Then(pid, kids, es, b, Test);
    es, b := Then(pid, kids, es, b, WaitChild(other));
  }

  lemma Then(pid: int, kids: set<int>, es: seq<Event>, b: State, e: Event) returns (fs: seq<Event>, c: State)
    requires Runs.Leads(Transition, Start(pid, kids), es, b) && Enabled(b, e)
    ensures Runs.Leads(Transition, Start(pid, kids), fs, c) && c == Next(b, e)
  {
    fs, c := es + [e], Next(b, e);
    Runs.Snoc(Transition, Start(pid, kids), es, b, e, c);
  }

  /** server_wait_for_child as it is written. */
  class Sitter {
    const process: Process
    const pid: int
    var sigterm: bool
    /** Outside: a blocked HUP, INT, QUIT or TERM is pending. */
    var termPending: bool
    ghost const start: State
    ghost var history: seq<Event>
    ghost var model: State

    ghost predicate Valid()
      reads this, process
    {
      && Runs.Leads(Transition, start, history, model)
      && ChildrenOk(model.kids)
      && pid == model.pid && sigterm == model.sigterm && termPending == model.termPending
      && process.kids == model.kids
    }

    ghost method Step(e: Event)
      requires Runs.Leads(Transition, start, history, model) && Enabled(model, e)
      modifies this`model, this`history
      ensures model == Next(old(model), e) && history == old(history) + [e]
      ensures Runs.Leads(Transition, start, history, model)
    {
      Runs.Snoc(Transition, start, history, model, e, Next(model, e));
      history := history + [e];
      model := Next(model, e);
    }

    constructor (pid: int, process: Process)
      requires process.kids == Children(process.kids.alive, map[], false) && ChildrenOk(process.kids)
      ensures Valid() && model == start == Start(pid, process.kids.alive) && history == []
      ensures this.process == process && this.pid == pid
    {
      this.process, this.pid := process, pid;
      sigterm, termPending := false, false;
      start := Start(pid, process.kids.alive);
      model := Start(pid, process.kids.alive);
      history := [];
      new;
      Runs.Stay(Transition, start);
    }

    /** The children a waitpid may still return. */
    static ghost function Unreaped(k: Children): set<int> {
      k.alive + k.zombies.Keys
    }

    /** Between any two system calls any number of children may exit or stop, and of requests arrive. */
    method Outside()
      requires Valid()
      modifies this`model, this`history, this`termPending, process`kids
      ensures Valid() && model.pc == old(model).pc && old(history) <= history
      ensures Unreaped(process.kids) == old(Unreaped(process.kids)) && (old(termPending) ==> termPending)
    {
      var n: nat := *;
      while n > 0
        invariant Valid() && model.pc == old(model).pc && old(history) <= history
        invariant Unreaped(process.kids) == old(Unreaped(process.kids)) && (old(termPending) ==> termPending)
      {
        n := n - 1;
        OneOutside();
      }
    }

    method OneOutside()
      requires Valid()
      modifies this`model, this`history, this`termPending, process`kids
      ensures Valid() && model.pc == old(model).pc && old(history) <= history
      ensures Unreaped(process.kids) == old(Unreaped(process.kids)) && (old(termPending) ==> termPending)
    {
      var p: int, how: Ending, stops: bool, terminated: bool := *, *, *, *;
      if terminated {
        termPending := true;
        Step(Terminate);
      } else if stops && process.kids.alive != {} {
        process.ChildStops();
        Step(ChildStops);
      } else if p in process.kids.alive {
        process.ChildEnds(p, how);
        Step(ChildExits(p, how));
      }
    }

    /** One round of the loop: 0 to go round, 1 when the child is reaped, -1 on failure. */
    method Round() returns (ret: int, status: nat)
      requires Valid() && model.pc == Check
      modifies this, process`kids
      ensures Valid() && old(history) <= history && -1 <= ret <= 1
      ensures ret == 0 ==> model.pc == Check
      ensures ret == 1 ==> model.pc == Done(status)
      ensures ret == -1 ==> model.pc == Failed
      ensures process.works && pid in old(Unreaped(process.kids)) ==> ret >= 0
    {
      PassOn();
      Outside();
      var p, echild;
      p, status, echild := process.WaitPid();
      if p < 0 {
        Step(WaitFails);
        return -1, status;
      }
      if p > 0 {
        Step(WaitChild(p));
        if p == pid {
          return 1, status;
        }
      } else {
        Step(WaitNone);
      }
      ret := Sigsuspend();
    }

    /** A flagged termination request goes to the child. */
    method PassOn()
      requires Valid() && model.pc == Check
      modifies this, process`kids
      ensures Valid() && old(history) < history && model.pc == Wait && !sigterm
      ensures Unreaped(process.kids) == old(Unreaped(process.kids))
      ensures old(sigterm) ==> history[|history| - 1] == Kill
    {
      Step(Test);
      if sigterm {
        sigterm := false;
        Outside();
        Step(Kill);
      }
    }

    /** The process sleeps until some signal arrives. */
    method AwaitSignal()
      requires Valid() && model.pc == Suspend
      modifies this`model, this`history, this`termPending, process`kids
      ensures Valid() && old(history) <= history && model.pc == Suspend
      ensures process.kids.pending || termPending
    {
      Outside();
      if !process.kids.pending && !termPending {
        termPending := true;
        Step(Terminate);
      }
    }

    /** sigsuspend until some signal is delivered; it fails only for other reasons than EINTR. */
    method Sigsuspend() returns (ret: int)
      requires Valid() && model.pc == Suspend
      modifies this, process`kids
      ensures Valid() && old(history) <= history && (ret == 0 || ret == -1)
      ensures model.pc == if ret == 0 then Check else Failed
      ensures process.works ==> ret == 0
    {
      AwaitSignal();
      var fails := process.Try();
      var chld, term := process.kids.pending, termPending;
      if fails {
        Step(SuspendFails);
        return -1;
      }
      Step(Wake(chld, term));
      if chld {
        process.TakeSigchld();
      }
      if term {
        termPending := false;
        sigterm := true;
      }
      ret := 0;
    }
  }
}
