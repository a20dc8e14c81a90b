/** common/environ.c: which variables may reach a guest. */
module Environ {
  import opened Bytes

  const EQUALS: byte := 61

  /** One row of GOOD: a variable name, or a prefix of names. */
  datatype Good = Good(what: bytes, prefix: bool)

  const SSH_CONNECTION := Ascii("SSH_CONNECTION")
  const SSH_CLIENT := Ascii("SSH_CLIENT")
  const SSH_TTY := Ascii("SSH_TTY")
  const TERM := Ascii("TERM")
  const LANG := Ascii("LANG")
  const LC_ := Ascii("LC_")
  const HOME := Ascii("HOME")
  const PWD := Ascii("PWD")
  const SHELL := Ascii("SHELL")
  const LOGNAME := Ascii("LOGNAME")
  const USER := Ascii("USER")

  const GOOD: seq<Good> := [
    Good(SSH_CONNECTION, false), Good(SSH_CLIENT, false), Good(SSH_TTY, false),
    Good(TERM, false), Good(LANG, false), Good(LC_, true)]

  /** The name of an entry: what precedes its first '='. */
  function Key(e: bytes): (k: bytes)
    ensures EQUALS !in k && k <= e
    ensures k == e || (|k| < |e| && e[|k|] == EQUALS)
  {
    if e == [] || e[0] == EQUALS then [] else [e[0]] + Key(e[1..])
  }

  predicate Assigns(e: bytes) {
    EQUALS in e
  }

  /** What an assignment has behind its first '='. */
  function Value(e: bytes): (v: bytes)
    requires Assigns(e)
    ensures e == Key(e) + [EQUALS] + v
  {
    assert e != Key(e);
    e[|Key(e)| + 1..]
  }

  /** The names a client may pass on. */
  predicate Whitelisted(k: bytes) {
    k in {SSH_CONNECTION, SSH_CLIENT, SSH_TTY, TERM, LANG} || LC_ <= k
  }

  /** What the whitelist admits: an assignment to a listed name, or anything starting with LC_. */
  predicate Permitted(e: bytes) {
    LC_ <= e || (Assigns(e) && Whitelisted(Key(e)))
  }

  lemma {:induction false} KeyUnique(e: bytes, k: bytes)
    requires EQUALS !in k && k <= e && |k| < |e| && e[|k|] == EQUALS
    ensures Key(e) == k
  {
    if k != [] {
      assert e[0] == k[0] && k[0] in k;
      KeyUnique(e[1..], k[1..]);
    }
  }

  /** An assignment of v to k is taken apart into just these. */
  lemma AssignmentOf(k: bytes, v: bytes)
    requires EQUALS !in k
    ensures var e := k + [EQUALS] + v;
            Assigns(e) && Key(e) == k && Value(e) == v
  {
    var e := k + [EQUALS] + v;
    KeyUnique(e, k);
    assert e[|k|] == EQUALS;
    assert e[|k| + 1..] == v;
  }

  predicate Matches(e: bytes, row: Good) {
    row.what <= e && (row.prefix || (|row.what| < |e| && e[|row.what|] == EQUALS))
  }

  /** environ_permitted: the scan over GOOD. Its answer on every entry is the whitelist's. */
  method EnvironPermitted(env: CString) returns (ret: bool)
    ensures ret == Permitted(env)
  {
    for i := 0 to |GOOD|
      invariant forall j | 0 <= j < i :: !Matches(env, GOOD[j])
    {
      var p := GOOD[i];
      var l := |p.what|;
      // memcmp never agrees past the end of env: its NUL differs from every character of what.
      if |env| < l || env[..l] != p.what {
        continue;
      }
      if p.prefix {
        ScanAnswers(env);
        assert Matches(env, GOOD[i]);
        return true;
      }
      if l < |env| && env[l] == EQUALS {
        ScanAnswers(env);
        assert Matches(env, GOOD[i]);
        return true;
      }
    }
    ScanAnswers(env);
    return false;
  }

  lemma ScanAnswers(e: bytes)
    ensures Permitted(e) <==> exists j :: 0 <= j < |GOOD| && Matches(e, GOOD[j])
  {
    assert GOOD[5] == Good(LC_, true);
    forall j | 0 <= j < 5 && Matches(e, GOOD[j])
      ensures Permitted(e)
    {
      NoEquals(GOOD[j].what);
      KeyUnique(e, GOOD[j].what);
    }
    if Permitted(e) {
      if LC_ <= e {
        assert Matches(e, GOOD[5]);
      } else {
        var k := Key(e);
        PrefixOfKey(e);
        var j := if k == SSH_CONNECTION then 0 else if k == SSH_CLIENT then 1
                 else if k == SSH_TTY then 2 else if k == TERM then 3 else 4;
        assert Matches(e, GOOD[j]);
      }
    }
  }

  lemma NoEquals(what: bytes)
    requires what in {SSH_CONNECTION, SSH_CLIENT, SSH_TTY, TERM, LANG, LC_}
    ensures EQUALS !in what
  {
  }

  lemma PrefixOfKey(e: bytes)
    ensures LC_ <= e <==> LC_ <= Key(e)
  {
    assert LC_[0] != EQUALS && LC_[1] != EQUALS && LC_[2] != EQUALS;
    if LC_ <= e {
      assert e[0] == LC_[0] && e[1] == LC_[1] && e[2] == LC_[2];
      assert LC_ == LC_[..3] && |Key(e)| >= 3;
    }
  }
}
