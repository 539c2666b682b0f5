/** What one process does in a run of the VNI protocol, seen from the process. */
module VniLocal {
  import opened Wrappers
  import opened Confman
  import opened VniProtocol
  import opened LocalRuns

  /** The state in which the process is alone with these versions. */
  function Alone(hist: seq<seq<Profile>>, p: Proc): State { State(hist, [], map[0 := p]) }

  function After(hist: seq<seq<Profile>>, p: Proc, action: Action): Proc {
    if |hist| == 0 then p else Of(Do(Alone(hist, p), Event(0, action)), 0)
  }

  /** The update that the server accepts. */
  function PutBy(hist: seq<seq<Profile>>, p: Proc, action: Action): Option<seq<Profile>> {
    if |hist| > 0 && Accepted(Alone(hist, p), Event(0, action)) then Some(p.next) else None
  }

  ghost function Steps(): Machine<seq<Profile>, Proc, Action> {
    Machine((hist, p, action) => After(hist, p, action), (hist, p, action) => PutBy(hist, p, action))
  }

  /** The actions of one process in a run. */
  ghost function TraceOf(s: State, events: seq<Event>, pid: nat): seq<Seen<Action>>
    requires |s.hist| > 0
  {
    if |events| == 0 then []
    else
      var init, e := events[..|events| - 1], events[|events| - 1];
      TraceOf(s, init, pid) + if e.pid == pid then [Seen(Top(Run(s, init)), e.action)] else []
  }

  /** In any state the step of a process is what it would be alone. */
  lemma AloneIsEnough(s: State, e: Event)
    requires |s.hist| > 0
    ensures var p := Of(s, e.pid);
      var put := PutBy(s.hist, p, e.action);
      && Of(Do(s, e), e.pid) == After(s.hist, p, e.action)
      && Do(s, e).hist == s.hist + if put.Some? then [put.value] else []
  {
    var p := Of(s, e.pid);
    assert Of(Alone(s.hist, p), 0) == p;
    hide PassOf;
  }

  lemma OthersLeaveIt(s: State, e: Event, pid: nat)
    requires |s.hist| > 0 && e.pid != pid
    ensures Of(Do(s, e), pid) == Of(s, pid) && s.hist <= Do(s, e).hist
  {
    hide Remember;
  }

  lemma {:induction false} RunOneMore(s: State, events: seq<Event>)
    requires |s.hist| > 0 && |events| > 0
    ensures Run(s, events) == Do(Run(s, events[..|events| - 1]), events[|events| - 1])
    decreases |events|
  {
    var init, e := events[..|events| - 1], events[|events| - 1];
    if |init| > 0 {
      RunOneMore(Do(s, events[0]), events[1..]);
      assert events[1..][..|events[1..]| - 1] == init[1..];
    }
  }

  /** The trace so far has led the process to where it is. */
  ghost predicate Explains(s: State, pid: nat, p0: Proc, trace: seq<Seen<Action>>) {
    && Real(Steps(), s.hist, p0, trace) && EndOf(Steps(), s.hist, p0, trace) == Of(s, pid)
    && Reached(Steps(), s.hist, p0, trace) < |s.hist|
  }

  lemma StepsAre(hist: seq<seq<Profile>>, p: Proc, action: Action)
    ensures Steps().after(hist, p, action) == After(hist, p, action)
    ensures Steps().put(hist, p, action) == PutBy(hist, p, action)
  {
  }

  lemma OwnStepExplained(s: State, e: Event, p0: Proc, trace: seq<Seen<Action>>)
    requires |s.hist| > 0 && Explains(s, e.pid, p0, trace)
    ensures Explains(Do(s, e), e.pid, p0, trace + [Seen(Top(s), e.action)])
  {
    var s' := Do(s, e);
    AloneIsEnough(s, e);
    StepsAre(s.hist, Of(s, e.pid), e.action);
    hide Do, Real, EndOf, Reached, After, PutBy, LastPut, Written, Steps;
    Extends(Steps(), s.hist, s'.hist, p0, trace);
    assert s'.hist[..Top(s) + 1] == s.hist;
    Append(Steps(), s'.hist, p0, trace, Seen(Top(s), e.action));
  }

  lemma OtherStepExplained(s: State, e: Event, pid: nat, p0: Proc, trace: seq<Seen<Action>>)
    requires |s.hist| > 0 && Explains(s, pid, p0, trace) && e.pid != pid
    ensures Explains(Do(s, e), pid, p0, trace)
  {
    OthersLeaveIt(s, e, pid);
    hide Do, Real, EndOf, Reached, Steps;
    Extends(Steps(), s.hist, Do(s, e).hist, p0, trace);
  }

  /** In every run each process takes the actions of such a trace, on the versions of that run. */
  lemma {:induction false} RunIsLocal(s: State, events: seq<Event>, pid: nat)
    requires |s.hist| > 0
    ensures Explains(Run(s, events), pid, Of(s, pid), TraceOf(s, events, pid))
    decreases |events|
  {
    hide Do, Explains;
    if |events| > 0 {
      var init, e := events[..|events| - 1], events[|events| - 1];
      RunIsLocal(s, init, pid);
      RunOneMore(s, events);
      var trace := TraceOf(s, init, pid);
      if e.pid == pid {
        OwnStepExplained(Run(s, init), e, Of(s, pid), trace);
      } else {
        assert trace + [] == trace;
        OtherStepExplained(Run(s, init), e, pid, Of(s, pid), trace);
      }
    } else {
      NothingExplained(s, pid);
    }
  }

  lemma NothingExplained(s: State, pid: nat)
    requires |s.hist| > 0
    ensures Explains(s, pid, Of(s, pid), [])
  {
  }

  // ---- one action more ----

  /** An action that leaves the server alone. */
  lemma TellQuiet(hist: seq<seq<Profile>>, longer: seq<seq<Profile>>, p0: Proc, trace: seq<Seen<Action>>, p: Proc,
          action: Action)
    requires Told(Steps(), hist, p0, trace, p, {}) && hist <= longer && |longer| > 0
    requires !(p.Putting? && p.ver == |longer| - 1 && (action.Send? || action.SendReplyLost?))
    ensures Told(Steps(), longer, p0, trace + [Seen(|longer| - 1, action)], Remember(Alone(longer, p), p, action), {})
  {
    var e := Seen(|longer| - 1, action);
    assert longer[..e.top + 1] == longer;
    assert Of(Alone(longer, p), 0) == p;
    assert PutBy(longer, p, action).None? && After(longer, p, action) == Remember(Alone(longer, p), p, action);
    StepsAre(longer, p, action);
    hide Told, After, PutBy, Remember, Steps;
    TellMore(Steps(), hist, longer, p0, trace, p, {}, e);
  }

  lemma PutIsAccepted(hist: seq<seq<Profile>>, p: Proc, replyLost: bool)
    requires |hist| > 0 && p.Putting? && p.ver == |hist| - 1
    ensures var action := if replyLost then SendReplyLost else Send;
      && PutBy(hist, p, action) == Some(p.next)
      && After(hist, p, action) == if replyLost then Failed(p.call) else Finished(p.call, p.tnet)
  {
    assert Of(Alone(hist, p), 0) == p;
  }

  // ---- one pass more ----

  /** A pass that computes no update ends the call. */
  lemma LastPass(hist: seq<seq<Profile>>, p0: Proc, trace: seq<Seen<Action>>, p: Proc)
    returns (trace': seq<Seen<Action>>)
    requires Told(Steps(), hist, p0, trace, p, {}) && |hist| > 0 && p.Running? && !PassOf(p.call, p.conf).Update?
    ensures Told(Steps(), hist, p0, trace',
      if PassOf(p.call, p.conf).Nothing? then Finished(p.call, p.call.tnet) else Failed(p.call), {})
  {
    hide Steps, Told, PassOf;
    TellQuiet(hist, hist, p0, trace, p, Try);
    trace' := trace + [Seen(|hist| - 1, Try)];
  }

  /** The process that puts what a pass has computed. */
  function Puts(p: Proc, next: seq<Profile>, tnet: Tnet): Proc
    requires p.Running?
  {
    Putting(p.call, p.first, p.ver, p.conf, next, tnet, p.tries)
  }

  lemma Passed(hist: seq<seq<Profile>>, p0: Proc, trace: seq<Seen<Action>>, p: Proc, next: seq<Profile>, tnet: Tnet)
    requires Told(Steps(), hist, p0, trace, p, {}) && |hist| > 0
    requires p.Running? && PassOf(p.call, p.conf) == Update(next, tnet)
    ensures Told(Steps(), hist, p0, trace + [Seen(|hist| - 1, Try)], Puts(p, next, tnet), {})
  {
    hide Steps, Told, PassOf;
    TellQuiet(hist, hist, p0, trace, p, Try);
  }

  lemma AcceptedPass(hist: seq<seq<Profile>>, longer: seq<seq<Profile>>, p0: Proc, trace: seq<Seen<Action>>, p: Proc,
          next: seq<Profile>, tnet: Tnet, replyLost: bool)
      returns (trace': seq<Seen<Action>>)
    requires Told(Steps(), hist, p0, trace, p, {}) && |hist| > 0
    requires p.Running? && PassOf(p.call, p.conf) == Update(next, tnet)
    requires p.ver == |hist| - 1 && longer == hist + [next]
    ensures Told(Steps(), longer, p0, trace', if replyLost then Failed(p.call) else Finished(p.call, tnet), {|hist|})
  {
    var q, e := Puts(p, next, tnet), Seen(|hist| - 1, if replyLost then SendReplyLost else Send);
    hide Told, After, PutBy, Failed, Finished, Steps, PassOf;
    Passed(hist, p0, trace, p, next, tnet);
    trace' := trace + [Seen(|hist| - 1, Try)];
    assert longer[..e.top + 1] == hist;
    PutIsAccepted(hist, q, replyLost);
    StepsAre(hist, q, e.action);
    TellMore(Steps(), hist, longer, p0, trace', q, {}, e);
    assert {} + {|hist|} == {|hist|};
    trace' := trace' + [e];
  }

  lemma FailedPass(hist: seq<seq<Profile>>, longer: seq<seq<Profile>>, p0: Proc, trace: seq<Seen<Action>>, p: Proc,
          next: seq<Profile>, tnet: Tnet)
      returns (trace': seq<Seen<Action>>)
    requires Told(Steps(), hist, p0, trace, p, {}) && |hist| > 0 && hist <= longer
    requires p.Running? && PassOf(p.call, p.conf) == Update(next, tnet)
    ensures Told(Steps(), longer, p0, trace', Failed(p.call), {})
  {
    hide Steps, Told, Failed, PassOf;
    Passed(hist, p0, trace, p, next, tnet);
    trace' := trace + [Seen(|hist| - 1, Try)];
    TellQuiet(hist, longer, p0, trace', Puts(p, next, tnet), SendError);
    trace' := trace' + [Seen(|longer| - 1, SendError)];
  }

  /** A conflict, after which the configuration cannot be read, or is read at the same or a later version. */
  lemma VainPass(hist: seq<seq<Profile>>, mid: seq<seq<Profile>>, longer: seq<seq<Profile>>, p0: Proc,
          trace: seq<Seen<Action>>, p: Proc, next: seq<Profile>, tnet: Tnet, unread: bool)
      returns (trace': seq<Seen<Action>>)
    requires Told(Steps(), hist, p0, trace, p, {}) && |hist| > 0 && hist <= mid <= longer && p.Running?
    requires PassOf(p.call, p.conf) == Update(next, tnet) && p.ver < |mid| - 1
    ensures var top := |longer| - 1;
      Told(Steps(), longer, p0, trace',
        if unread then Failed(p.call) else Running(p.call, p.first, top, longer[top], p.tries + 1), {})
  {
    hide Steps, Told, Failed, PassOf;
    Passed(hist, p0, trace, p, next, tnet);
    trace' := trace + [Seen(|hist| - 1, Try)];
    TellQuiet(hist, mid, p0, trace', Puts(p, next, tnet), Send);
    trace' := trace' + [Seen(|mid| - 1, Send)];
    var last := if unread then RereadError else Reread;
    TellQuiet(mid, longer, p0, trace', Conflicted(p.call, p.first, p.ver, p.tries), last);
    trace' := trace' + [Seen(|longer| - 1, last)];
  }
}
