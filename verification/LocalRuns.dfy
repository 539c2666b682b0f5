/**
  One process of a step machine on its own: the actions it takes, each at the version the
  server has reached by then, while others write whatever they write in between.
 */
module LocalRuns {
  import opened Wrappers

  /** `after` is what an action makes of a process, `put` the version that the server accepts from it, if any. */
  datatype Machine<!V, !P, !A> = Machine(after: (seq<V>, P, A) -> P, put: (seq<V>, P, A) -> Option<V>)

  /** An action taken while `top` is the latest version. */
  datatype Seen<A> = Seen(top: nat, action: A)

  ghost function EndOf<V, P, A>(m: Machine<V, P, A>, hist: seq<V>, p: P, trace: seq<Seen<A>>): P {
    if |trace| == 0 then p
    else
      var e := trace[|trace| - 1];
      var q := EndOf(m, hist, p, trace[..|trace| - 1]);
      if e.top < |hist| then m.after(hist[..e.top + 1], q, e.action) else q
  }

  ghost function LastPut<V, P, A>(m: Machine<V, P, A>, hist: seq<V>, p: P, trace: seq<Seen<A>>): Option<V> {
    if |trace| == 0 || trace[|trace| - 1].top >= |hist| then None
    else
      var e := trace[|trace| - 1];
      m.put(hist[..e.top + 1], EndOf(m, hist, p, trace[..|trace| - 1]), e.action)
  }

  /** The version that the next action sees at least. */
  ghost function Reached<V, P, A>(m: Machine<V, P, A>, hist: seq<V>, p: P, trace: seq<Seen<A>>): nat {
    if |trace| == 0 then 0
    else trace[|trace| - 1].top + if LastPut(m, hist, p, trace).Some? then 1 else 0
  }

  /** Versions only grow, and each accepted update is the next version. */
  ghost predicate Real<V, P, A>(m: Machine<V, P, A>, hist: seq<V>, p: P, trace: seq<Seen<A>>) {
    |trace| > 0 ==>
      var init, e := trace[..|trace| - 1], trace[|trace| - 1];
      var put := LastPut(m, hist, p, trace);
      && Real(m, hist, p, init) && Reached(m, hist, p, init) <= e.top < |hist|
      && (put.Some? ==> e.top + 1 < |hist| && hist[e.top + 1] == put.value)
  }

  /** The versions that are accepted updates of the process. */
  ghost function Written<V, P, A>(m: Machine<V, P, A>, hist: seq<V>, p: P, trace: seq<Seen<A>>): set<nat> {
    if |trace| == 0 then {}
    else
      Written(m, hist, p, trace[..|trace| - 1])
        + if LastPut(m, hist, p, trace).Some? then {trace[|trace| - 1].top + 1} else {}
  }

  /** Later versions change nothing about what has been done. */
  lemma {:induction false} Extends<V, P, A>(m: Machine<V, P, A>, hist: seq<V>, longer: seq<V>, p: P,
          trace: seq<Seen<A>>)
    requires hist <= longer && Real(m, hist, p, trace)
    ensures Real(m, longer, p, trace) && EndOf(m, longer, p, trace) == EndOf(m, hist, p, trace)
    ensures LastPut(m, longer, p, trace) == LastPut(m, hist, p, trace)
    ensures Written(m, longer, p, trace) == Written(m, hist, p, trace)
    ensures Reached(m, longer, p, trace) == Reached(m, hist, p, trace)
  {
    if |trace| > 0 {
      Extends(m, hist, longer, p, trace[..|trace| - 1]);
      var e := trace[|trace| - 1];
      assert hist[..e.top + 1] == longer[..e.top + 1];
    }
  }

  lemma Append<V, P, A>(m: Machine<V, P, A>, hist: seq<V>, p: P, trace: seq<Seen<A>>, e: Seen<A>)
    requires Real(m, hist, p, trace) && Reached(m, hist, p, trace) <= e.top < |hist|
    requires var put := m.put(hist[..e.top + 1], EndOf(m, hist, p, trace), e.action);
      put.Some? ==> e.top + 1 < |hist| && hist[e.top + 1] == put.value
    ensures var q := EndOf(m, hist, p, trace);
      var put := m.put(hist[..e.top + 1], q, e.action);
      && Real(m, hist, p, trace + [e]) && EndOf(m, hist, p, trace + [e]) == m.after(hist[..e.top + 1], q, e.action)
      && Written(m, hist, p, trace + [e]) == Written(m, hist, p, trace) + (if put.Some? then {e.top + 1} else {})
      && Reached(m, hist, p, trace + [e]) == e.top + if put.Some? then 1 else 0
  {
    var t := trace + [e];
    assert |t| > 0 && t[|t| - 1] == e && t[..|t| - 1] == trace;
    var put := m.put(hist[..e.top + 1], EndOf(m, hist, p, trace), e.action);
    assert LastPut(m, hist, p, t) == put;
  }

  /** The trace leads from one process to the other, with these versions as its accepted updates. */
  ghost predicate Told<V, P, A>(m: Machine<V, P, A>, hist: seq<V>, p0: P, trace: seq<Seen<A>>, p: P,
          written: set<nat>)
  {
    && Real(m, hist, p0, trace) && EndOf(m, hist, p0, trace) == p
    && Written(m, hist, p0, trace) == written && Reached(m, hist, p0, trace) < |hist|
  }

  lemma TellNothing<V, P, A>(m: Machine<V, P, A>, hist: seq<V>, p0: P)
    requires |hist| > 0
    ensures Told(m, hist, p0, [], p0, {})
  {
  }

  lemma TellMore<V, P, A>(m: Machine<V, P, A>, hist: seq<V>, longer: seq<V>, p0: P, trace: seq<Seen<A>>, p: P,
          written: set<nat>, e: Seen<A>)
    requires Told(m, hist, p0, trace, p, written) && hist <= longer && |hist| - 1 <= e.top < |longer|
    requires var put := m.put(longer[..e.top + 1], p, e.action);
      put.Some? ==> e.top + 1 < |longer| && longer[e.top + 1] == put.value
    ensures Told(m, longer, p0, trace + [e], m.after(longer[..e.top + 1], p, e.action),
      written + if m.put(longer[..e.top + 1], p, e.action).Some? then {e.top + 1} else {})
  {
    hide Real, EndOf, Reached, LastPut, Written;
    Extends(m, hist, longer, p0, trace);
    Append(m, longer, p0, trace, e);
  }
}
