/** The environment a guest is exec'ed with: child_exec_child, child_chdir_to_home and
    child_setup_envvars in server/child.c. */
module GuestEnv {
  import opened Bytes
  import opened Environ
  import ForkPayload

  type Vars = map<bytes, bytes>

  const SLASH: byte := 47
  const ROOT := Ascii("/")
  const DEFAULT_SHELL := Ascii("/bin/sh")

  /** The struct passwd of the container user, and the -n and -s overrides. */
  datatype Account = Account(
    dir: bytes, pwName: bytes, pwShell: Option<bytes>, argName: Option<bytes>, argShell: Option<bytes>)
  {
    /** child_get_name: the override, if there is one. */
    function Name(): (name: bytes)
      ensures argName.Some? ==> argName == Some(name)
      ensures argName.None? ==> name == pwName
    {
      match argName case Some(n) => n case None => pwName
    }

    /** child_get_shell: a login shell that is not an absolute path is not trusted. */
    function Shell(): (shell: bytes)
      ensures argShell.Some? ==> argShell == Some(shell)
      ensures argShell.None? ==> [SLASH] <= shell && (shell == DEFAULT_SHELL || pwShell == Some(shell))
      ensures argShell.None? && pwShell.Some? && [SLASH] <= pwShell.value ==> pwShell == Some(shell)
    {
      match argShell
      case Some(s) => s
      case None =>
        if pwShell.Some? && pwShell.value != [] && pwShell.value[0] == SLASH then pwShell.value
        else DEFAULT_SHELL
    }
  }

  /** putenv(3): NAME=value assigns, a bare NAME removes the variable. */
  function Putenv(m: Vars, e: bytes): Vars {
    if Assigns(e) then m[Key(e) := Value(e)] else m - {e}
  }

  lemma PutenvEffect(m: Vars, k: bytes, v: bytes)
    requires EQUALS !in k
    ensures Putenv(m, k + [EQUALS] + v) == m[k := v]
    ensures Putenv(m, k) == m - {k}
  {
    AssignmentOf(k, v);
  }

  /** The received list, in order, skipping what the whitelist refuses. */
  function PutAll(m: Vars, list: seq<CString>): Vars {
    if list == [] then
      m
    else
      var before := PutAll(m, list[..|list| - 1]);
      var e := list[|list| - 1];
      if Permitted(e) then Putenv(before, e) else before
  }

  /** The last admitted entry of the list that concerns k. */
  function LastFor(list: seq<CString>, k: bytes): Option<CString> {
    if list == [] then
      None
    else
      var e := list[|list| - 1];
      if Permitted(e) && Key(e) == k then Some(e) else LastFor(list[..|list| - 1], k)
  }

  function Lookup(m: Vars, k: bytes): Option<bytes> {
    if k in m then Some(m[k]) else None
  }

  const FIVE := {HOME, PWD, SHELL, LOGNAME, USER}

  lemma FiveAreNotWhitelisted(k: bytes)
    requires k in FIVE
    ensures !Whitelisted(k)
  {
    assert k[0] in {HOME[0], PWD[0], SHELL[0]} || (k[0] == LC_[0] && k[1] != LC_[1]) || k[0] == USER[0];
    assert SHELL[1] != SSH_TTY[1] && |SHELL| == 5;
    assert LANG[1] != LOGNAME[1];
  }

  lemma PermittedKeys(e: bytes)
    requires Permitted(e)
    ensures Whitelisted(Key(e))
    ensures !Assigns(e) ==> Key(e) == e
    ensures Key(e) == SSH_TTY ==> Assigns(e)
  {
    PrefixOfKey(e);
    assert SSH_TTY[0] != LC_[0];
  }

  /** One variable after the whole list: untouched by entries about other names, and otherwise what
      its last admitted entry says. */
  lemma {:induction false} PutAllEffect(m: Vars, list: seq<CString>, k: bytes)
    ensures Lookup(PutAll(m, list), k)
         == match LastFor(list, k)
            case None => Lookup(m, k)
            case Some(e) => if Assigns(e) then Some(Value(e)) else None
  {
    if list != [] {
      var e := list[|list| - 1];
      PutAllEffect(m, list[..|list| - 1], k);
      if Permitted(e) {
        PermittedKeys(e);
      }
    }
  }

  lemma {:induction false} LastForIsPermitted(list: seq<CString>, k: bytes)
    ensures match LastFor(list, k)
            case None => forall i | 0 <= i < |list| :: Permitted(list[i]) ==> Key(list[i]) != k
            case Some(e) => e in list && Permitted(e) && Key(e) == k
  {
    if list != [] {
      LastForIsPermitted(list[..|list| - 1], k);
      assert list == list[..|list| - 1] + [list[|list| - 1]];
    }
  }

  /** Leaving out what is not admitted does not change which entry decides. */
  lemma {:induction false} LastOfPermitted(environ: seq<CString>, k: bytes)
    ensures LastFor(ForkPayload.PermittedOnly(environ), k) == LastFor(environ, k)
  {
    if environ != [] {
      var n := |environ| - 1;
      LastOfPermitted(environ[..n], k);
      ForkPayload.PermittedOnlySnoc(environ, n);
      assert environ[..n + 1] == environ;
      var kept := ForkPayload.PermittedOnly(environ[..n]);
      assert kept + [] == kept && (kept + [environ[n]])[..|kept|] == kept;
    }
  }

  /** child_setup_envvars on top of the variables already set. */
  function SetUp(start: Vars, a: Account, tty: Option<bytes>, list: seq<CString>): Vars {
    var received := PutAll(start, list);
    var named := received[SHELL := a.Shell()][LOGNAME := a.Name()][USER := a.Name()];
    if SSH_TTY !in named then named
    else
      match tty
      case Some(name) => named[SSH_TTY := name]
      case None => named - {SSH_TTY}
  }

  /** The variables at exec, for every account, working directory, terminal and received list. */
  function AtExec(a: Account, cwd: bytes, tty: Option<bytes>, list: seq<CString>): Vars {
    SetUp(map[HOME := a.dir, PWD := cwd], a, tty, list)
  }

  /** The variable k at exec, when last is the list's last admitted entry for it. */
  function Decided(a: Account, cwd: bytes, tty: Option<bytes>, k: bytes, last: Option<CString>): Option<bytes> {
    if k == HOME then Some(a.dir)
    else if k == PWD then Some(cwd)
    else if k == SHELL then Some(a.Shell())
    else if k == LOGNAME || k == USER then Some(a.Name())
    else if !Whitelisted(k) then None
    else if k == SSH_TTY then (if last.Some? then tty else None)
    else
      match last
      case None => None
      case Some(e) => if Assigns(e) then Some(Value(e)) else None
  }

  /** What a client can and cannot decide: five variables never depend on its list, nothing outside
      the whitelist comes from it, each other name follows its last admitted entry, and SSH_TTY is
      only ever the guest's own terminal. */
  lemma GuestEnvironment(a: Account, cwd: bytes, tty: Option<bytes>, list: seq<CString>, k: bytes)
    ensures Lookup(AtExec(a, cwd, tty, list), k) == Decided(a, cwd, tty, k, LastFor(list, k))
  {
    Distinct();
    if k in FIVE {
      FiveAreNotWhitelisted(k);
      FiveDecided(a, cwd, tty, list, k);
    } else {
      ListDecided(a, cwd, tty, list, k);
    }
  }

  lemma FiveDecided(a: Account, cwd: bytes, tty: Option<bytes>, list: seq<CString>, k: bytes)
    requires k in FIVE && !Whitelisted(k)
    ensures Lookup(AtExec(a, cwd, tty, list), k) == Decided(a, cwd, tty, k, LastFor(list, k))
  {
    PutAllEffect(map[HOME := a.dir, PWD := cwd], list, k);
    LastForIsPermitted(list, k);
    if LastFor(list, k).Some? {
      PermittedKeys(LastFor(list, k).value);
    }
    Distinct();
  }

  lemma ListDecided(a: Account, cwd: bytes, tty: Option<bytes>, list: seq<CString>, k: bytes)
    requires k !in FIVE
    ensures Lookup(AtExec(a, cwd, tty, list), k) == Decided(a, cwd, tty, k, LastFor(list, k))
  {
    var start := map[HOME := a.dir, PWD := cwd];
    PutAllEffect(start, list, k);
    PutAllEffect(start, list, SSH_TTY);
    LastForIsPermitted(list, k);
    LastForIsPermitted(list, SSH_TTY);
    if LastFor(list, k).Some? {
      PermittedKeys(LastFor(list, k).value);
    }
    if LastFor(list, SSH_TTY).Some? {
      PermittedKeys(LastFor(list, SSH_TTY).value);
    }
    Distinct();
    assert Whitelisted(SSH_TTY);
  }

  /** The same for an assignment in the list: if nothing behind it assigns to its name, or is the bare name,
      the guest has just its value. */
  lemma LastAssignmentWins(a: Account, cwd: bytes, tty: Option<bytes>, list: seq<CString>, i: nat,
                           k: bytes, v: bytes)
    requires i < |list| && list[i] == k + [EQUALS] + v && EQUALS !in k && Whitelisted(k) && k != SSH_TTY
    requires forall j | i < j < |list| :: list[j] != k && !(k + [EQUALS] <= list[j])
    ensures Lookup(AtExec(a, cwd, tty, list), k) == Some(v)
  {
    AssignmentOf(k, v);
    LastForIs(list, i, k);
    GuestEnvironment(a, cwd, tty, list, k);
    if k in FIVE {
      FiveAreNotWhitelisted(k);
    }
  }

  /** And if nothing in the list assigns to a name, it is absent. */
  lemma NotAssigned(a: Account, cwd: bytes, tty: Option<bytes>, list: seq<CString>, k: bytes)
    requires k !in FIVE && forall i | 0 <= i < |list| :: !(k + [EQUALS] <= list[i])
    ensures k !in AtExec(a, cwd, tty, list)
  {
    GuestEnvironment(a, cwd, tty, list, k);
    LastForIsPermitted(list, k);
    if LastFor(list, k).Some? {
      var e := LastFor(list, k).value;
      var i :| 0 <= i < |list| && list[i] == e;
      PermittedKeys(e);
      assert Assigns(e) ==> k + [EQUALS] <= e;
    }
  }

  lemma {:induction false} LastForIs(list: seq<CString>, i: nat, k: bytes)
    requires i < |list| && Permitted(list[i]) && Key(list[i]) == k
    requires forall j | i < j < |list| :: list[j] != k && !(k + [EQUALS] <= list[j])
    ensures LastFor(list, k) == Some(list[i])
  {
    var n := |list| - 1;
    if i < n {
      OtherName(list[n], k);
      LastForIs(list[..n], i, k);
    }
  }

  lemma OtherName(e: bytes, k: bytes)
    requires e != k && !(k + [EQUALS] <= e)
    ensures Key(e) != k
  {
  }

  /** Nothing else gets in: a variable at exec is one of the five or has a listed name. */
  lemma NothingElse(a: Account, cwd: bytes, tty: Option<bytes>, list: seq<CString>, k: bytes)
    requires k in AtExec(a, cwd, tty, list)
    ensures k in FIVE || k in {SSH_CONNECTION, SSH_CLIENT, SSH_TTY, TERM, LANG} || LC_ <= k
  {
    GuestEnvironment(a, cwd, tty, list, k);
  }

  /** SSH_TTY is the guest's own terminal if the client sent any, and never what the client sent. */
  lemma OwnTerminal(a: Account, cwd: bytes, tty: Option<bytes>, list: seq<CString>)
    ensures Lookup(AtExec(a, cwd, tty, list), SSH_TTY)
         == if exists i :: 0 <= i < |list| && SSH_TTY + [EQUALS] <= list[i] then tty else None
  {
    GuestEnvironment(a, cwd, tty, list, SSH_TTY);
    LastForIsPermitted(list, SSH_TTY);
    Distinct();
    match LastFor(list, SSH_TTY)
    case None =>
      forall i | 0 <= i < |list|
        ensures !(SSH_TTY + [EQUALS] <= list[i])
      {
        if SSH_TTY + [EQUALS] <= list[i] {
          TerminalEntry(list[i]);
        }
      }
    case Some(e) =>
      PermittedKeys(e);
      var i :| 0 <= i < |list| && list[i] == e;
      assert SSH_TTY + [EQUALS] <= list[i];
  }

  lemma TerminalEntry(e: bytes)
    requires SSH_TTY + [EQUALS] <= e
    ensures Permitted(e) && Key(e) == SSH_TTY
  {
    NoEquals(SSH_TTY);
    AssignmentOf(SSH_TTY, e[|SSH_TTY| + 1..]);
    assert e == SSH_TTY + [EQUALS] + e[|SSH_TTY| + 1..];
  }

  /** The five variables, by the account: the client's list has no part in them. */
  lemma AccountVariables(a: Account, cwd: bytes, tty: Option<bytes>, list: seq<CString>)
    ensures var vars := AtExec(a, cwd, tty, list);
            && Lookup(vars, HOME) == Some(a.dir) && Lookup(vars, PWD) == Some(cwd)
            && Lookup(vars, LOGNAME) == Lookup(vars, USER)
                 == (if a.argName.Some? then a.argName else Some(a.pwName))
            && Lookup(vars, SHELL)
                 == if a.argShell.Some? then a.argShell
                    else if a.pwShell.Some? && [SLASH] <= a.pwShell.value then a.pwShell
                    else Some(DEFAULT_SHELL)
  {
    GuestEnvironment(a, cwd, tty, list, HOME);
    GuestEnvironment(a, cwd, tty, list, PWD);
    GuestEnvironment(a, cwd, tty, list, SHELL);
    GuestEnvironment(a, cwd, tty, list, LOGNAME);
    GuestEnvironment(a, cwd, tty, list, USER);
    Distinct();
  }

  lemma Distinct()
    ensures HOME != PWD && SSH_TTY !in FIVE
    ensures SHELL !in {HOME, PWD, LOGNAME, USER} && LOGNAME !in {HOME, PWD, USER} && USER !in {HOME, PWD}
  {
    assert HOME[0] == 72 && PWD[0] == 80 && SHELL[0] == 83 && LOGNAME[0] == 76 && USER[0] == 85;
    assert |SSH_TTY| == 7 && SSH_TTY[0] == 83;
  }

  /** environ of the forked child. Any library call may fail, unless works says otherwise; the child then
      exits without exec. */
  class ChildEnvironment {
    const works: bool
    var vars: Vars

    constructor (works: bool)
      ensures vars == map[] && this.works == works
    {
      this.works, vars := works, map[];
    }

    method Setenv(k: bytes, v: bytes) returns (ret: int)
      modifies this
      ensures ret == 0 || ret == -1
      ensures works ==> ret == 0
      ensures vars == if ret == 0 then old(vars)[k := v] else old(vars)
    {
      var fails: bool := *;
      if fails && !works {
        return -1;
      }
      vars := vars[k := v];
      ret := 0;
    }

    method Unsetenv(k: bytes) returns (ret: int)
      modifies this
      ensures ret == 0 || ret == -1
      ensures works ==> ret == 0
      ensures vars == if ret == 0 then old(vars) - {k} else old(vars)
    {
      var fails: bool := *;
      if fails && !works {
        return -1;
      }
      vars := vars - {k};
      ret := 0;
    }

    method PutEnv(e: bytes) returns (ret: int)
      modifies this
      ensures ret == 0 || ret == -1
      ensures works ==> ret == 0
      ensures vars == if ret == 0 then Putenv(old(vars), e) else old(vars)
    {
      if Assigns(e) {
        ret := Setenv(Key(e), Value(e));
      } else {
        ret := Unsetenv(e);
      }
    }

    /** child_chdir_to_home: HOME always, PWD where the child could go. */
    method ChdirToHome(a: Account, canEnterHome: bool, canEnterRoot: bool)
      returns (ret: int, cwd: bytes)
      modifies this
      ensures ret == 0 ==>
                (cwd == a.dir || cwd == ROOT) && vars == old(vars)[HOME := a.dir][PWD := cwd]
      ensures ret == 0 && cwd != a.dir ==> canEnterRoot
      ensures ret == 0 && !canEnterHome ==> canEnterRoot && cwd == ROOT
      ensures works ==> (ret == 0 <==> canEnterHome || canEnterRoot) && (canEnterHome ==> cwd == a.dir)
    {
      cwd := a.dir;
      ret := Setenv(HOME, a.dir);
      if ret != 0 {
        return -1, cwd;
      }
      if canEnterHome {
        ret := Setenv(PWD, a.dir);
        if ret == 0 {
          return 0, cwd;
        }
      }
      if canEnterRoot {
        cwd := ROOT;
        ret := Setenv(PWD, cwd);
        if ret == 0 {
          return 0, cwd;
        }
      }
      return -1, cwd;
    }

    /** child_setup_envvars */
    method SetupEnvvars(a: Account, tty: Option<bytes>, env: seq<CString>) returns (ret: int)
      modifies this
      ensures ret == 0 ==> vars == SetUp(old(vars), a, tty, env)
      ensures works ==> ret == 0
    {
      ghost var start := vars;
      for i := 0 to |env|
        invariant vars == PutAll(start, env[..i])
      {
        assert env[..i + 1][..i] == env[..i];
        var permitted := EnvironPermitted(env[i]);
        if !permitted {
          continue;
        }
        var put := PutEnv(env[i]);
        if put != 0 {
          return -1;
        }
      }
      assert env[..|env|] == env;
      ret := Setenv(SHELL, a.Shell());
      if ret != 0 {
        return -1;
      }
      ret := Setenv(LOGNAME, a.Name());
      if ret != 0 {
        return -1;
      }
      ret := Setenv(USER, a.Name());
      if ret != 0 {
        return -1;
      }
      if SSH_TTY in vars {
        if tty.Some? {
          ret := Setenv(SSH_TTY, tty.value);
        } else {
          ret := Unsetenv(SSH_TTY);
        }
        if ret != 0 {
          return -1;
        }
      }
      ret := 0;
    }

    /** child_exec_child up to execve: true when the guest's program is reached. */
    method ExecChild(a: Account, canEnterHome: bool, canEnterRoot: bool, tty: Option<bytes>,
                     env: seq<CString>)
      returns (reached: bool, cwd: bytes)
      modifies this
      ensures reached ==> cwd in {a.dir, ROOT} && vars == AtExec(a, cwd, tty, env)
      ensures reached && !canEnterHome ==> cwd == ROOT
      ensures works ==> (reached <==> canEnterHome || canEnterRoot) && (canEnterHome ==> cwd == a.dir)
    {
      vars := map[];
      var ret;
      ret, cwd := ChdirToHome(a, canEnterHome, canEnterRoot);
      if ret != 0 {
        return false, cwd;
      }
      assert vars == map[HOME := a.dir, PWD := cwd];
      ret := SetupEnvvars(a, tty, env);
      reached := ret == 0;
    }
  }
}
