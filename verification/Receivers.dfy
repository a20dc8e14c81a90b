/** The two receivers as instances of the shared receive loop: the dispatchers fit it, its results are
    runs of the machines, and cutting a stream differently changes nothing. */
module Receivers {
  import opened Bytes
  import opened Message
  import D = Decoder
  import C = Client
  import CS = ClientSafety
  import Runs
  import S = Session
  import SS = SessionSafety

  /** child_execute, where the kernel's answers are given in order by a script. */
  function SessionDispatcher(script: nat -> S.Answer): D.Dispatcher<(S.Core, nat)> {
    (st, f) => SessionReply(script, st, f)
  }

  function SessionReply(script: nat -> S.Answer, st: (S.Core, nat), f: Frame): D.Reply<(S.Core, nat)> {
    var r := S.Execute(st.0, f, script(st.1));
    D.Reply((r.core, st.1 + 1), r.verdict == S.Fine)
  }

  /** client_dispatch_remote, where write's answers are given in order by a script. */
  function ClientDispatcher(script: nat -> int): D.Dispatcher<(C.Core, nat)> {
    (st, f) => ClientReply(script, st, f)
  }

  function ClientReply(script: nat -> int, st: (C.Core, nat), f: Frame): D.Reply<(C.Core, nat)> {
    var r := C.Dispatch(st.0, f, script(st.1));
    D.Reply((r.core, st.1 + 1), r.verdict == C.Fine)
  }

  lemma SessionRefusesEmpty(script: nat -> S.Answer)
    ensures D.RefusesEmpty(SessionDispatcher(script))
  {
    forall st: (S.Core, nat), f: Frame | f.body == []
      ensures !SessionDispatcher(script)(st, f).ok
    {
      SS.OutcomeOfExecute(st.0, f, script(st.1));
    }
  }

  lemma ClientRefusesEmpty(script: nat -> int)
    ensures D.RefusesEmpty(ClientDispatcher(script))
  {
    forall st: (C.Core, nat), f: Frame | f.body == []
      ensures !ClientDispatcher(script)(st, f).ok
    {
      CS.OutcomeOfDispatch(st.0, f, script(st.1));
    }
  }

  /** t is what draining the buffer of s leads to. */
  ghost predicate DrainedTo(s: S.Session, script: nat -> S.Answer, n: nat, t: S.Session)
    requires D.RefusesEmpty(SessionDispatcher(script))
  {
    var d := D.Drain(SessionDispatcher(script), (s.core, n), s.buf);
    && t.core == d.state.0 && t.buf == d.rest
    && (if d.ok then t.pc == S.Out else t.pc.Ended?)
  }

  /** Draining a session's buffer is a run of the machine: from the frame loop to its end, or to the
      frame that ended the session. */
  lemma {:induction false} SessionDrainIsRun(s: S.Session, script: nat -> S.Answer, n: nat)
    returns (es: seq<S.Event>, t: S.Session)
    requires s.pc == S.Dispatch && D.RefusesEmpty(SessionDispatcher(script))
    ensures Runs.Leads(S.Step, s, es, t) && DrainedTo(s, script, n, t)
    decreases |s.buf|, 1
  {
    if !HasFrame(s.buf) {
      es, t := [S.BufferDry] + [], S.Next(s, S.BufferDry);
      Runs.Stay(S.Step, t);
      Runs.Cons(S.Step, s, S.BufferDry, t, [], t);
    } else {
      var e := S.RunFrame(script(n));
      var r := S.Execute(s.core, Front(s.buf), script(n));
      SS.OutcomeOfExecute(s.core, Front(s.buf), script(n));
      es, t := SettledDrain(s, script, n, r, e);
    }
  }

  lemma SettledDrain(s: S.Session, script: nat -> S.Answer, n: nat, r: S.Executed, e: S.Event)
    returns (es: seq<S.Event>, t: S.Session)
    requires s.pc == S.Dispatch && HasFrame(s.buf) && D.RefusesEmpty(SessionDispatcher(script))
    requires SessionReply(script, (s.core, n), Front(s.buf)) == D.Reply((r.core, n + 1), r.verdict == S.Fine)
    requires r.verdict == S.Fine ==> Length(s.buf) >= SMALLEST
    requires S.Enabled(s, e) && S.Next(s, e) == S.Settle(s, r)
    ensures Runs.Leads(S.Step, s, es, t) && DrainedTo(s, script, n, t)
    decreases |s.buf|, 0
  {
    var u := S.Settle(s, r);
    Runs.Stay(S.Step, u);
    es, t := [], u;
    if r.verdict == S.Fine {
      es, t := SessionDrainIsRun(u, script, n + 1);
    }
    Runs.Cons(S.Step, s, e, u, es, t);
    es := [e] + es;
  }

  /** Two ways of cutting the same stream into reads leave a session in the same state - the same
      frames accepted, the same guest, the same bytes given to it - with the same verdict and the same
      residue. */
  lemma SessionChunking(script: nat -> S.Answer, c: S.Core, one: seq<bytes>, two: seq<bytes>)
    requires D.RefusesEmpty(SessionDispatcher(script)) && D.Concat(one) == D.Concat(two)
    ensures var a := D.Receive(SessionDispatcher(script), (c, 0), [], one);
            var b := D.Receive(SessionDispatcher(script), (c, 0), [], two);
            a.state == b.state && a.ok == b.ok && (a.ok ==> a.rest == b.rest)
  {
    D.ChunkIndependence(SessionDispatcher(script), (c, 0), [], one);
    D.ChunkIndependence(SessionDispatcher(script), (c, 0), [], two);
  }

  /** The same for a client. What g_client_status holds after a status frame of 5 to 7 bytes is not
      among the bytes of the stream at all; the state says PastTheFrame for it. */
  lemma ClientChunking(script: nat -> int, c: C.Core, one: seq<bytes>, two: seq<bytes>)
    requires D.RefusesEmpty(ClientDispatcher(script)) && D.Concat(one) == D.Concat(two)
    ensures var a := D.Receive(ClientDispatcher(script), (c, 0), [], one);
            var b := D.Receive(ClientDispatcher(script), (c, 0), [], two);
            a.state == b.state && a.ok == b.ok && (a.ok ==> a.rest == b.rest)
  {
    D.ChunkIndependence(ClientDispatcher(script), (c, 0), [], one);
    D.ChunkIndependence(ClientDispatcher(script), (c, 0), [], two);
  }
}
