/**
  What holds in every state of every run, also after a slip: the books may be wrong by
  then, but every version is still one operation on its predecessor.
 */
module IpamAlways {
  import opened Wrappers
  import opened Ipam
  import opened AtomicAllocator
  import opened IpamProtocol

  /** One operation on the bitmaps: it sets bits that were all clear, or clears bits. */
  ghost predicate Changes(before: Spec, op: Op<Res>, after: Spec) {
    match op
    case Take(_, rs) => rs !! Bits(before) && Bits(after) == Bits(before) + rs
    case Give(_, rs) => Bits(after) == Bits(before) - rs
  }

  /** No cursor is a readable address, so every search starts at the beginning of its pool. */
  predicate NoCursor(spec: Spec) { ParsedLast(spec.last4).None? && ParsedLast(spec.last6).None? }

  ghost predicate VersionOk(net: Net, spec0: Spec, spec: Spec) {
    Good(net, spec) && Bits(spec0) <= Bits(spec) && (NoCursor(spec0) ==> NoCursor(spec))
  }

  ghost predicate RealCall(net: Net, spec0: Spec, s: State, call: Call, orig: Copy, cur: Copy, tries: nat)
    requires GoodNet(net)
  {
    && IsCopy(s, orig) && IsCopy(s, cur) && orig.ver + tries <= cur.ver
    && (call.FreeCall? ==> LeaseBits(net, call.lease) + LeaseBits(net, call.listed) !! Bits(spec0))
  }

  /** What a process remembers are real versions, and what it holds was never set from the start. */
  ghost predicate RealProc(net: Net, spec0: Spec, s: State, p: Proc)
    requires GoodNet(net)
  {
    match p
    case Idle => true
    case Holding(lease, since, listed) => LeaseBits(net, lease) + LeaseBits(net, listed) !! Bits(spec0)
    case Running(call, orig, cur, tries) => RealCall(net, spec0, s, call, orig, cur, tries)
    case Putting(call, orig, cur, next, got, tries) =>
      RealCall(net, spec0, s, call, orig, cur, tries) && Pass(net, call, cur.spec) == Some((next, got))
    case Conflicted(call, orig, cur, tries) => RealCall(net, spec0, s, call, orig, cur, tries) && cur.ver < |s.hist| - 1
  }

  ghost predicate Always(net: Net, spec0: Spec, s: State)
    requires GoodNet(net)
  {
    && |s.hist| == |s.log| + 1
    && (forall v :: 0 <= v < |s.hist| ==> VersionOk(net, spec0, s.hist[v]))
    && (forall v :: 0 <= v < |s.log| ==> Changes(s.hist[v], s.log[v], s.hist[v + 1]))
    && forall pid :: RealProc(net, spec0, s, Of(s, pid))
  }

  lemma FreshAlways(net: Net, spec0: Spec)
    requires GoodNet(net) && Good(net, spec0)
    ensures Always(net, spec0, Fresh(spec0))
  {
  }

  /** A pass from any version leaves the bits set from the start alone, and never writes a readable cursor. */
  lemma PassFromVersion(net: Net, spec0: Spec, spec: Spec, call: Call)
    requires GoodNet(net) && VersionOk(net, spec0, spec) && Pass(net, call, spec).Some?
    requires call.FreeCall? ==> LeaseBits(net, call.lease) !! Bits(spec0)
    ensures var (next, got) := Pass(net, call, spec).value;
      && VersionOk(net, spec0, next) && LeaseBits(net, got) !! Bits(spec0)
      && forall pid, lost :: Changes(spec, Operation(net, pid, call, got, lost), next)
  {
    if call.ReserveCall? {
      AllocateIpsBits(net, spec, call.req4, call.req6);
    } else {
      FreeIpBits(net, spec, call.lease, call.v6);
    }
  }

  lemma RememberStaysReal(net: Net, spec0: Spec, s: State, p: Proc, action: Action)
    requires GoodNet(net) && Always(net, spec0, s) && RealProc(net, spec0, s, p)
    requires !(action.Send? && p.Putting? && p.cur.ver == Top(s))
    ensures RealProc(net, spec0, s, Remember(net, s, p, action))
  {
    if action.Try? && p.Running? && Pass(net, p.call, p.cur.spec).Some? {
      PassFromVersion(net, spec0, p.cur.spec, p.call);
    }
  }

  lemma RealSurvives(net: Net, spec0: Spec, s: State, s': State, p: Proc)
    requires GoodNet(net) && RealProc(net, spec0, s, p) && s.hist <= s'.hist
    ensures RealProc(net, spec0, s', p)
  {
    hide Bits, LeaseBits, Pass;
    assert forall v :: 0 <= v < |s.hist| ==> s'.hist[v] == s.hist[v];
  }

  lemma CommitKeepsAlways(net: Net, spec0: Spec, s: State, pid: nat, replyLost: bool)
    requires GoodNet(net) && Always(net, spec0, s) && Of(s, pid).Putting? && Of(s, pid).cur.ver == Top(s)
    ensures Always(net, spec0, Commit(net, s, pid, replyLost))
  {
    var p, s' := Of(s, pid), Commit(net, s, pid, replyLost);
    assert RealProc(net, spec0, s, p);
    PassFromVersion(net, spec0, p.cur.spec, p.call);
    hide VersionOk, Changes, Bits, LeaseBits, Operation, Pass;
    forall q ensures RealProc(net, spec0, s', Of(s', q)) {
      if q != pid {
        RealSurvives(net, spec0, s, s', Of(s, q));
      }
    }
    forall v | 0 <= v < |s'.hist| ensures VersionOk(net, spec0, s'.hist[v]) {
      assert v < |s.hist| ==> s'.hist[v] == s.hist[v];
    }
    forall v | 0 <= v < |s'.log| ensures Changes(s'.hist[v], s'.log[v], s'.hist[v + 1]) {
      assert v < |s.log| ==> s'.hist[v] == s.hist[v] && s'.hist[v + 1] == s.hist[v + 1] && s'.log[v] == s.log[v];
    }
  }

  lemma StepKeepsAlways(net: Net, spec0: Spec, s: State, e: Event)
    requires GoodNet(net) && Always(net, spec0, s)
    ensures Always(net, spec0, Do(net, s, e))
  {
    var p, s' := Of(s, e.pid), Do(net, s, e);
    if Accepted(s, e) {
      CommitKeepsAlways(net, spec0, s, e.pid, e.action.SendReplyLost?);
    } else {
      RememberStaysReal(net, spec0, s, p, e.action);
      hide VersionOk, Changes, Remember;
      forall q ensures RealProc(net, spec0, s', Of(s', q)) {
        assert Of(s', q) == if q == e.pid then Remember(net, s, p, e.action) else Of(s, q);
        RealSurvives(net, spec0, s, s', Of(s', q));
      }
    }
  }

  /** Every run from a fresh network, whatever goes wrong in it. */
  lemma {:induction false} RunKeepsAlways(net: Net, spec0: Spec, s: State, events: seq<Event>)
    requires GoodNet(net) && Always(net, spec0, s)
    ensures Always(net, spec0, Run(net, s, events))
    decreases |events|
  {
    if |events| > 0 {
      StepKeepsAlways(net, spec0, s, events[0]);
      RunKeepsAlways(net, spec0, Do(net, s, events[0]), events[1..]);
    }
  }

  lemma ReachesAlways(net: Net, spec0: Spec, events: seq<Event>)
    requires GoodNet(net) && Good(net, spec0)
    ensures Always(net, spec0, Run(net, Fresh(spec0), events))
  {
    FreshAlways(net, spec0);
    RunKeepsAlways(net, spec0, Fresh(spec0), events);
  }
}
