/** What one process does in a run of the reservation protocol, seen from the process. */
module IpamLocal {
  import opened Wrappers
  import opened Ipam
  import opened IpamProtocol
  import opened LocalRuns

  /** The state in which the process is alone with these versions. */
  function Alone(hist: seq<Spec>, p: Proc): State { State(hist, [], map[0 := p]) }

  ghost function After(net: Net, hist: seq<Spec>, p: Proc, action: Action): Proc
    requires GoodNet(net)
  {
    if |hist| == 0 then p else Of(Do(net, Alone(hist, p), Event(0, action)), 0)
  }

  /** The update that the server accepts. */
  function PutBy(hist: seq<Spec>, p: Proc, action: Action): Option<Spec> {
    if |hist| > 0 && Accepted(Alone(hist, p), Event(0, action)) then Some(p.next) else None
  }

  ghost function Steps(net: Net): Machine<Spec, Proc, Action>
    requires GoodNet(net)
  {
    Machine((hist, p, action) => After(net, hist, p, action), (hist, p, action) => PutBy(hist, p, action))
  }

  /** The actions of one process in a run. */
  ghost function TraceOf(net: Net, s: State, events: seq<Event>, pid: nat): seq<Seen<Action>>
    requires GoodNet(net) && |s.hist| > 0
  {
    if |events| == 0 then []
    else
      var init, e := events[..|events| - 1], events[|events| - 1];
      TraceOf(net, s, init, pid) + if e.pid == pid then [Seen(Top(Run(net, s, init)), e.action)] else []
  }

  /** In any state the step of a process is what it would be alone. */
  lemma AloneIsEnough(net: Net, s: State, e: Event)
    requires GoodNet(net) && |s.hist| > 0
    ensures var p := Of(s, e.pid);
      var put := PutBy(s.hist, p, e.action);
      && Of(Do(net, s, e), e.pid) == After(net, s.hist, p, e.action)
      && Do(net, s, e).hist == s.hist + if put.Some? then [put.value] else []
  {
    var p := Of(s, e.pid);
    assert Of(Alone(s.hist, p), 0) == p;
    hide Pass;
    RememberAlone(net, s, Alone(s.hist, p), p, e.action);
  }

  lemma RememberAlone(net: Net, s: State, t: State, p: Proc, action: Action)
    requires GoodNet(net) && |s.hist| > 0 && s.hist == t.hist
    ensures Remember(net, s, p, action) == Remember(net, t, p, action)
  {
  }

  lemma OthersLeaveIt(net: Net, s: State, e: Event, pid: nat)
    requires GoodNet(net) && |s.hist| > 0 && e.pid != pid
    ensures Of(Do(net, s, e), pid) == Of(s, pid) && s.hist <= Do(net, s, e).hist
  {
    hide Remember;
  }

  lemma RunOneMore(net: Net, s: State, events: seq<Event>)
    requires GoodNet(net) && |s.hist| > 0 && |events| > 0
    ensures var init := events[..|events| - 1];
      Run(net, s, events) == Do(net, Run(net, s, init), events[|events| - 1])
  {
    var init, e := events[..|events| - 1], events[|events| - 1];
    assert events == init + [e];
    RunAppend(net, s, init, [e]);
    assert [e][1..] == [];
    var t := Run(net, s, init);
    assert Run(net, t, [e]) == Run(net, Do(net, t, e), []);
  }

  /** The trace so far has led the process to where it is. */
  ghost predicate Explains(net: Net, s: State, pid: nat, p0: Proc, trace: seq<Seen<Action>>)
    requires GoodNet(net)
  {
    var m := Steps(net);
    && Real(m, s.hist, p0, trace) && EndOf(m, s.hist, p0, trace) == Of(s, pid)
    && Reached(m, s.hist, p0, trace) < |s.hist|
  }

  lemma StepsAre(net: Net, hist: seq<Spec>, p: Proc, action: Action)
    requires GoodNet(net)
    ensures Steps(net).after(hist, p, action) == After(net, hist, p, action)
    ensures Steps(net).put(hist, p, action) == PutBy(hist, p, action)
  {
  }

  lemma OwnStepExplained(net: Net, s: State, e: Event, p0: Proc, trace: seq<Seen<Action>>)
    requires GoodNet(net) && |s.hist| > 0 && Explains(net, s, e.pid, p0, trace)
    ensures Explains(net, Do(net, s, e), e.pid, p0, trace + [Seen(Top(s), e.action)])
  {
    var s' := Do(net, s, e);
    AloneIsEnough(net, s, e);
    StepsAre(net, s.hist, Of(s, e.pid), e.action);
    hide Do, Real, EndOf, Reached, After, PutBy, LastPut, Written, Steps;
    Extends(Steps(net), s.hist, s'.hist, p0, trace);
    assert s'.hist[..Top(s) + 1] == s.hist;
    Append(Steps(net), s'.hist, p0, trace, Seen(Top(s), e.action));
  }

  lemma OtherStepExplained(net: Net, s: State, e: Event, pid: nat, p0: Proc, trace: seq<Seen<Action>>)
    requires GoodNet(net) && |s.hist| > 0 && Explains(net, s, pid, p0, trace) && e.pid != pid
    ensures Explains(net, Do(net, s, e), pid, p0, trace)
  {
    OthersLeaveIt(net, s, e, pid);
    hide Do, Real, EndOf, Reached, Steps;
    Extends(Steps(net), s.hist, Do(net, s, e).hist, p0, trace);
  }

  /** In every run each process takes the actions of such a trace, on the versions of that run. */
  lemma {:induction false} RunIsLocal(net: Net, s: State, events: seq<Event>, pid: nat)
    requires GoodNet(net) && |s.hist| > 0
    ensures Explains(net, Run(net, s, events), pid, Of(s, pid), TraceOf(net, s, events, pid))
    decreases |events|
  {
    hide Run, Do, Explains;
    if |events| > 0 {
      var init, e := events[..|events| - 1], events[|events| - 1];
      RunIsLocal(net, s, init, pid);
      RunOneMore(net, s, events);
      if e.pid == pid {
        OwnStepExplained(net, Run(net, s, init), e, Of(s, pid), TraceOf(net, s, init, pid));
      } else {
        var trace := TraceOf(net, s, init, pid);
        assert trace + [] == trace;
        OtherStepExplained(net, Run(net, s, init), e, pid, Of(s, pid), trace);
      }
    } else {
      NothingExplained(net, s, events, pid);
    }
  }

  lemma NothingExplained(net: Net, s: State, events: seq<Event>, pid: nat)
    requires GoodNet(net) && |s.hist| > 0 && |events| == 0
    ensures Run(net, s, events) == s && Explains(net, s, pid, Of(s, pid), [])
  {
  }

  // ---- one action more ----

  /** An action that leaves the server alone. */
  lemma TellQuiet(net: Net, hist: seq<Spec>, longer: seq<Spec>, p0: Proc, trace: seq<Seen<Action>>, p: Proc,
          written: set<nat>, action: Action)
    requires GoodNet(net) && Told(Steps(net), hist, p0, trace, p, written) && hist <= longer && |longer| > 0
    requires !(p.Putting? && p.cur.ver == |longer| - 1 && (action.Send? || action.SendReplyLost?))
    ensures Told(Steps(net), longer, p0, trace + [Seen(|longer| - 1, action)],
      Remember(net, Alone(longer, p), p, action), written)
  {
    var e := Seen(|longer| - 1, action);
    assert longer[..e.top + 1] == longer;
    assert Of(Alone(longer, p), 0) == p;
    assert PutBy(longer, p, action).None?;
    assert After(net, longer, p, action) == Remember(net, Alone(longer, p), p, action);
    StepsAre(net, longer, p, action);
    hide Told, After, PutBy, Remember, Steps;
    TellMore(Steps(net), hist, longer, p0, trace, p, written, e);
  }

  /** An update that the server accepts. */
  lemma TellPut(net: Net, hist: seq<Spec>, longer: seq<Spec>, p0: Proc, trace: seq<Seen<Action>>, p: Proc,
          written: set<nat>, replyLost: bool)
    requires GoodNet(net) && Told(Steps(net), hist, p0, trace, p, written) && |hist| > 0
    requires p.Putting? && p.cur.ver == |hist| - 1 && longer == hist + [p.next]
    ensures Told(Steps(net), longer, p0, trace + [Seen(|hist| - 1, if replyLost then SendReplyLost else Send)],
      if replyLost then Failed(p.call) else Returned(p.call, p.got, |hist|), written + {|hist|})
  {
    var e := Seen(|hist| - 1, if replyLost then SendReplyLost else Send);
    hide Told, After, PutBy, Failed, Returned, Steps;
    assert longer[..e.top + 1] == hist;
    PutIsAccepted(net, hist, p, replyLost);
    StepsAre(net, hist, p, e.action);
    TellMore(Steps(net), hist, longer, p0, trace, p, written, e);
  }

  lemma PutIsAccepted(net: Net, hist: seq<Spec>, p: Proc, replyLost: bool)
    requires GoodNet(net) && |hist| > 0 && p.Putting? && p.cur.ver == |hist| - 1
    ensures var action := if replyLost then SendReplyLost else Send;
      && PutBy(hist, p, action) == Some(p.next)
      && After(net, hist, p, action) == if replyLost then Failed(p.call) else Returned(p.call, p.got, |hist|)
  {
    assert Of(Alone(hist, p), 0) == p;
  }

  /** A pass on the copy at hand. */
  ghost function Tried(net: Net, p: Proc, top: nat): Proc
    requires GoodNet(net) && p.Running?
  {
    var pass := Pass(net, p.call, p.cur.spec);
    if pass.None? then Failed(p.call)
    else if pass.value.0 == p.orig.spec then Returned(p.call, pass.value.1, top)
    else Putting(p.call, p.orig, p.cur, pass.value.0, pass.value.1, p.tries)
  }

  lemma TellTry(net: Net, hist: seq<Spec>, p0: Proc, trace: seq<Seen<Action>>, p: Proc, written: set<nat>)
    requires GoodNet(net) && Told(Steps(net), hist, p0, trace, p, written) && |hist| > 0 && p.Running?
    ensures Told(Steps(net), hist, p0, trace + [Seen(|hist| - 1, Try)], Tried(net, p, |hist| - 1), written)
  {
    hide Steps, Told, Pass;
    TellQuiet(net, hist, hist, p0, trace, p, written, Try);
  }

  lemma TellConflict(net: Net, hist: seq<Spec>, longer: seq<Spec>, p0: Proc, trace: seq<Seen<Action>>, p: Proc,
          written: set<nat>)
    requires GoodNet(net) && Told(Steps(net), hist, p0, trace, p, written) && hist <= longer
    requires p.Putting? && p.cur.ver < |longer| - 1
    ensures Told(Steps(net), longer, p0, trace + [Seen(|longer| - 1, Send)],
      Conflicted(p.call, p.orig, p.cur, p.tries), written)
  {
    hide Steps, Told;
    TellQuiet(net, hist, longer, p0, trace, p, written, Send);
  }

  lemma TellError(net: Net, hist: seq<Spec>, longer: seq<Spec>, p0: Proc, trace: seq<Seen<Action>>, p: Proc,
          written: set<nat>)
    requires GoodNet(net) && Told(Steps(net), hist, p0, trace, p, written) && hist <= longer && |longer| > 0
    requires p.Putting?
    ensures Told(Steps(net), longer, p0, trace + [Seen(|longer| - 1, SendError)], Failed(p.call), written)
  {
    hide Steps, Told;
    TellQuiet(net, hist, longer, p0, trace, p, written, SendError);
  }

  lemma TellReread(net: Net, hist: seq<Spec>, longer: seq<Spec>, p0: Proc, trace: seq<Seen<Action>>, p: Proc,
          written: set<nat>)
    requires GoodNet(net) && Told(Steps(net), hist, p0, trace, p, written) && hist <= longer && |longer| > 0
    requires p.Conflicted?
    ensures var top := |longer| - 1;
      Told(Steps(net), longer, p0, trace + [Seen(top, Reread)],
        Running(p.call, p.orig, Copy(top, longer[top]), p.tries + 1), written)
  {
    hide Steps, Told;
    TellQuiet(net, hist, longer, p0, trace, p, written, Reread);
  }

  lemma TellReserve(net: Net, hist: seq<Spec>, req4: Request, req6: Request, ver: nat)
    requires GoodNet(net) && ver < |hist|
    ensures var copy := Copy(ver, hist[ver]);
      Told(Steps(net), hist, Idle, [Seen(|hist| - 1, BeginReserve(req4, req6, ver))],
        Running(ReserveCall(req4, req6), copy, copy, 0), {})
  {
    TellNothing(Steps(net), hist, Idle);
    assert [] + [Seen(|hist| - 1, BeginReserve(req4, req6, ver))] == [Seen(|hist| - 1, BeginReserve(req4, req6, ver))];
    hide Steps, Told;
    TellQuiet(net, hist, hist, Idle, [], Idle, {}, BeginReserve(req4, req6, ver));
  }

  lemma TellFree(net: Net, hist: seq<Spec>, p: Proc, v6: bool, ver: nat)
    requires GoodNet(net) && p.Holding? && p.since <= ver < |hist|
    ensures var copy := Copy(ver, hist[ver]);
      Told(Steps(net), hist, p, [Seen(|hist| - 1, BeginFree(v6, ver))],
        Running(FreeCall(p.lease, p.since, p.listed, v6), copy, copy, 0), {})
  {
    TellNothing(Steps(net), hist, p);
    assert [] + [Seen(|hist| - 1, BeginFree(v6, ver))] == [Seen(|hist| - 1, BeginFree(v6, ver))];
    hide Steps, Told;
    TellQuiet(net, hist, hist, p, [], p, {}, BeginFree(v6, ver));
  }

  // ---- one pass more ----

  /** The process is about to make a pass that computes this spec and lease. */
  ghost predicate PassGives(net: Net, p: Proc, next: Spec, got: Lease)
    requires GoodNet(net)
  {
    p.Running? && Pass(net, p.call, p.cur.spec) == Some((next, got))
  }

  lemma RefusedPass(net: Net, hist: seq<Spec>, p0: Proc, trace: seq<Seen<Action>>, p: Proc)
      returns (trace': seq<Seen<Action>>)
    requires GoodNet(net) && Told(Steps(net), hist, p0, trace, p, {}) && |hist| > 0
    requires p.Running? && Pass(net, p.call, p.cur.spec).None?
    ensures Told(Steps(net), hist, p0, trace', Failed(p.call), {})
  {
    hide Steps, Told, Pass, Failed;
    TellTry(net, hist, p0, trace, p, {});
    trace' := trace + [Seen(|hist| - 1, Try)];
  }

  lemma UnchangedPass(net: Net, hist: seq<Spec>, p0: Proc, trace: seq<Seen<Action>>, p: Proc, got: Lease)
      returns (trace': seq<Seen<Action>>)
    requires GoodNet(net) && Told(Steps(net), hist, p0, trace, p, {}) && |hist| > 0
    requires p.Running? && PassGives(net, p, p.orig.spec, got)
    ensures Told(Steps(net), hist, p0, trace', Returned(p.call, got, |hist| - 1), {})
  {
    hide Steps, Told, Pass, Returned;
    TellTry(net, hist, p0, trace, p, {});
    trace' := trace + [Seen(|hist| - 1, Try)];
  }

  lemma AcceptedPass(net: Net, hist: seq<Spec>, longer: seq<Spec>, p0: Proc, trace: seq<Seen<Action>>, p: Proc,
          next: Spec, got: Lease, replyLost: bool)
      returns (trace': seq<Seen<Action>>)
    requires GoodNet(net) && Told(Steps(net), hist, p0, trace, p, {}) && PassGives(net, p, next, got)
    requires next != p.orig.spec
    requires |hist| > 0 && p.cur.ver == |hist| - 1 && longer == hist + [next]
    ensures Told(Steps(net), longer, p0, trace',
      if replyLost then Failed(p.call) else Returned(p.call, got, |hist|), {|hist|})
  {
    hide Steps, Told, Pass, Returned, Failed;
    TellTry(net, hist, p0, trace, p, {});
    var q := Putting(p.call, p.orig, p.cur, next, got, p.tries);
    trace' := trace + [Seen(|hist| - 1, Try)];
    TellPut(net, hist, longer, p0, trace', q, {}, replyLost);
    assert {} + {|hist|} == {|hist|};
    trace' := trace' + [Seen(|hist| - 1, if replyLost then SendReplyLost else Send)];
  }

  lemma FailedPass(net: Net, hist: seq<Spec>, longer: seq<Spec>, p0: Proc, trace: seq<Seen<Action>>, p: Proc,
          next: Spec, got: Lease)
      returns (trace': seq<Seen<Action>>)
    requires GoodNet(net) && Told(Steps(net), hist, p0, trace, p, {}) && PassGives(net, p, next, got)
    requires next != p.orig.spec
    requires |hist| > 0 && hist <= longer
    ensures Told(Steps(net), longer, p0, trace', Failed(p.call), {})
  {
    hide Steps, Told, Pass, Failed;
    TellTry(net, hist, p0, trace, p, {});
    var q := Putting(p.call, p.orig, p.cur, next, got, p.tries);
    trace' := trace + [Seen(|hist| - 1, Try)];
    TellError(net, hist, longer, p0, trace', q, {});
    trace' := trace' + [Seen(|longer| - 1, SendError)];
  }

  /** A pass in vain: a conflict at one version, and a new copy at the same or a later one. */
  lemma VainPass(net: Net, hist: seq<Spec>, mid: seq<Spec>, longer: seq<Spec>, p0: Proc, trace: seq<Seen<Action>>,
          p: Proc, next: Spec, got: Lease)
      returns (trace': seq<Seen<Action>>)
    requires GoodNet(net) && Told(Steps(net), hist, p0, trace, p, {}) && PassGives(net, p, next, got)
    requires next != p.orig.spec
    requires |hist| > 0 && hist <= mid <= longer && p.cur.ver < |mid| - 1
    ensures var top := |longer| - 1;
      Told(Steps(net), longer, p0, trace', Running(p.call, p.orig, Copy(top, longer[top]), p.tries + 1), {})
  {
    hide Steps, Told, Pass;
    TellTry(net, hist, p0, trace, p, {});
    var q := Putting(p.call, p.orig, p.cur, next, got, p.tries);
    trace' := trace + [Seen(|hist| - 1, Try)];
    TellConflict(net, hist, mid, p0, trace', q, {});
    trace' := trace' + [Seen(|mid| - 1, Send)];
    TellReread(net, mid, longer, p0, trace', Conflicted(p.call, p.orig, p.cur, p.tries), {});
    trace' := trace' + [Seen(|longer| - 1, Reread)];
  }

  /** A conflict after which the network cannot be read again. */
  lemma UnreadPass(net: Net, hist: seq<Spec>, longer: seq<Spec>, p0: Proc, trace: seq<Seen<Action>>, p: Proc,
          next: Spec, got: Lease)
      returns (trace': seq<Seen<Action>>)
    requires GoodNet(net) && Told(Steps(net), hist, p0, trace, p, {}) && PassGives(net, p, next, got)
    requires next != p.orig.spec
    requires |hist| > 0 && hist <= longer && p.cur.ver < |longer| - 1
    ensures Told(Steps(net), longer, p0, trace', Failed(p.call), {})
  {
    hide Steps, Told, Pass, Failed;
    TellTry(net, hist, p0, trace, p, {});
    var q := Putting(p.call, p.orig, p.cur, next, got, p.tries);
    trace' := trace + [Seen(|hist| - 1, Try)];
    TellConflict(net, hist, longer, p0, trace', q, {});
    trace' := trace' + [Seen(|longer| - 1, Send)];
    TellQuiet(net, longer, longer, p0, trace', Conflicted(p.call, p.orig, p.cur, p.tries), {}, RereadError);
    trace' := trace' + [Seen(|longer| - 1, RereadError)];
  }
}
