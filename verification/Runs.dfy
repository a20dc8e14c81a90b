/** Runs of a machine, whatever its states S and events E: a step function says where an event leads from
    a state, if it can happen there. */
module Runs {
  import opened Bytes

  type Step<!S, !E> = (S, E) -> Option<S>

  /** The i-th event leads from the i-th state to the next. */
  ghost predicate StepAt<S, E>(step: Step<S, E>, states: seq<S>, es: seq<E>, i: nat)
    requires |states| == |es| + 1 && i < |es|
  {
    step(states[i], es[i]) == Some(states[i + 1])
  }

  /** The states a run goes through. */
  ghost predicate Trace<S, E>(step: Step<S, E>, states: seq<S>, es: seq<E>, s: S, t: S) {
    && |states| == |es| + 1 && states[0] == s && states[|es|] == t
    && forall i | 0 <= i < |es| :: StepAt(step, states, es, i)
  }

  /** The events es can happen one after the other from s, and lead to t. */
  ghost predicate Leads<S(!new), E>(step: Step<S, E>, s: S, es: seq<E>, t: S) {
    exists states: seq<S> :: Trace(step, states, es, s, t)
  }

  lemma Stay<S(!new), E>(step: Step<S, E>, s: S)
    ensures Leads(step, s, [], s)
  {
    assert Trace(step, [s], [], s, s);
  }

  lemma Stays<S(!new), E>(step: Step<S, E>, s: S, es: seq<E>, t: S)
    requires Leads(step, s, es, t) && es == []
    ensures t == s
  {
    var states :| Trace(step, states, es, s, t);
  }

  lemma Snoc<S(!new), E>(step: Step<S, E>, s: S, es: seq<E>, t: S, e: E, u: S)
    requires Leads(step, s, es, t) && step(t, e) == Some(u)
    ensures Leads(step, s, es + [e], u)
  {
    var states :| Trace(step, states, es, s, t);
    var longer, all := states + [u], es + [e];
    forall i | 0 <= i < |all|
      ensures StepAt(step, longer, all, i)
    {
      assert i < |es| ==> StepAt(step, states, es, i);
    }
    assert Trace(step, longer, all, s, u);
  }

  lemma Cons<S(!new), E>(step: Step<S, E>, s: S, e: E, t: S, es: seq<E>, u: S)
    requires step(s, e) == Some(t) && Leads(step, t, es, u)
    ensures Leads(step, s, [e] + es, u)
  {
    var states :| Trace(step, states, es, t, u);
    var longer, all := [s] + states, [e] + es;
    forall i | 0 <= i < |all|
      ensures StepAt(step, longer, all, i)
    {
      assert i > 0 ==> StepAt(step, states, es, i - 1);
    }
    assert Trace(step, longer, all, s, u);
  }

  /** One run behind the other. */
  lemma {:induction false} Append<S(!new), E>(step: Step<S, E>, s: S, es: seq<E>, t: S, fs: seq<E>, u: S)
    requires Leads(step, s, es, t) && Leads(step, t, fs, u)
    ensures Leads(step, s, es + fs, u)
    decreases |es|
  {
    if es == [] {
      Stays(step, s, es, t);
      assert es + fs == fs;
    } else {
      Uncons(step, s, es, t);
      Append(step, step(s, es[0]).value, es[1..], t, fs, u);
      Cons(step, s, es[0], step(s, es[0]).value, es[1..] + fs, u);
      assert es + fs == [es[0]] + (es[1..] + fs);
    }
  }

  /** A run that is not empty, from its front. */
  lemma Uncons<S(!new), E>(step: Step<S, E>, s: S, es: seq<E>, u: S)
    requires Leads(step, s, es, u) && es != []
    ensures step(s, es[0]).Some? && Leads(step, step(s, es[0]).value, es[1..], u)
  {
    var states :| Trace(step, states, es, s, u);
    assert StepAt(step, states, es, 0);
    forall i | 0 <= i < |es| - 1
      ensures StepAt(step, states[1..], es[1..], i)
    {
      assert StepAt(step, states, es, i + 1);
    }
    assert Trace(step, states[1..], es[1..], states[1], u);
  }

  /** What every step relates, reflexively and transitively, relates the ends of a run. */
  lemma {:induction false} Related<S(!new), E(!new)>(
    step: Step<S, E>, inv: S -> bool, rel: (S, S) -> bool, s: S, es: seq<E>, t: S)
    requires Leads(step, s, es, t) && inv(s)
    requires forall u, e :: inv(u) && step(u, e).Some? ==>
               inv(step(u, e).value) && rel(u, step(u, e).value)
    requires forall u :: rel(u, u)
    requires forall u, v, w :: rel(u, v) && rel(v, w) ==> rel(u, w)
    ensures inv(t) && rel(s, t)
    decreases |es|
  {
    if es == [] {
      Stays(step, s, es, t);
    } else {
      Uncons(step, s, es, t);
      Related(step, inv, rel, step(s, es[0]).value, es[1..], t);
      assert rel(s, step(s, es[0]).value);
    }
  }

  /** What every step keeps holds wherever a run leads. */
  lemma Kept<S(!new), E(!new)>(step: Step<S, E>, inv: S -> bool, s: S, es: seq<E>, t: S)
    requires Leads(step, s, es, t) && inv(s)
    requires forall u, e :: inv(u) && step(u, e).Some? ==> inv(step(u, e).value)
    ensures inv(t)
  {
    Related(step, inv, (u, v) => true, s, es, t);
  }
}
