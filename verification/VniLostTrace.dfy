/**
  A run that shows why exclusive VNIs need the hypothesis on DELETE replies: eth0 has one
  VNI, and two live networks get it.
 */
module VniLostTrace {
  import opened Wrappers
  import opened Confman
  import Ipam
  import opened VniProtocol

  function Conf(on: set<nat>): seq<Profile> { [Profile("eth0", "vlan", [1], Ipam.Bitmap(8, on))] }

  const WANTED := Tnet("eth0", "", 0, 0)
  const PLACED := Tnet("eth0", "", 1, 0)

  function CreateScript(pid: nat, ver: nat): seq<Event> {
    [Event(pid, BeginCreate(WANTED, 0, ver)), Event(pid, Try), Event(pid, Send)]
  }

  function LostDeleteScript(pid: nat, ver: nat): seq<Event> {
    [Event(pid, BeginDelete(ver)), Event(pid, Try), Event(pid, SendReplyLost)]
  }

  lemma RunOfThree(s: State, e: Event, f: Event, g: Event)
    requires |s.hist| > 0
    ensures Run(s, [e, f, g]) == Do(Do(Do(s, e), f), g)
  {
    assert [e, f, g][1..] == [f, g] && [f, g][1..] == [g] && [g][1..] == [];
    assert Run(Do(Do(s, e), f), [g]) == Run(Do(Do(Do(s, e), f), g), []);
    assert Run(Do(s, e), [f, g]) == Run(Do(Do(s, e), f), [g]);
  }

  lemma {:induction false} RunAppend(s: State, a: seq<Event>, b: seq<Event>)
    requires |s.hist| > 0
    ensures Run(s, a + b) == Run(Run(s, a), b)
    decreases |a|
  {
    if |a| == 0 {
      assert a + b == b;
    } else {
      assert (a + b)[1..] == a[1..] + b;
      RunAppend(Do(s, a[0]), a[1..], b);
    }
  }

  lemma Passes(conf: seq<Profile>)
    requires conf == Conf({0})
    ensures CanCreate(conf, WANTED, 0) && conf[0].name == "eth0" && conf[0].vniType == "vlan"
    ensures PassOf(Create(WANTED, "eth0", "vlan"), conf) == Update(Conf({0, 1}), PLACED)
  {
    assert IfaceIndex(conf, "eth0", "vlan") == Some(0);
    assert FirstFreeVni([1], {0}) == Some(1);
    assert {0} + {1} == {0, 1};
  }

  lemma PassesBack(conf: seq<Profile>)
    requires conf == Conf({0, 1})
    ensures PassOf(Delete(PLACED), conf) == Update(Conf({0}), PLACED)
  {
    assert IfaceIndex(conf, "eth0", "vlan") == Some(0);
    assert {0, 1} - {1} == {0};
  }

  /** Where a process is, and that no other one has moved. */
  ghost predicate Moved(s: State, s': State, pid: nat, on: set<nat>) {
    s'.hist == s.hist + [Conf(on)] && Of(s', pid) == Live(PLACED) && forall q :: q != pid ==> Of(s', q) == Of(s, q)
  }

  lemma CreateSteps(s: State, pid: nat)
    requires |s.hist| > 0 && s.hist[Top(s)] == Conf({0}) && Of(s, pid).Absent?
    ensures Moved(s, Run(s, CreateScript(pid, Top(s))), pid, {0, 1})
  {
    Passes(s.hist[Top(s)]);
    hide Conf, PassOf, CanCreate;
    RunOfThree(s, Event(pid, BeginCreate(WANTED, 0, Top(s))), Event(pid, Try), Event(pid, Send));
  }

  lemma LostDeleteSteps(s: State, pid: nat)
    requires |s.hist| > 0 && s.hist[Top(s)] == Conf({0, 1}) && Of(s, pid) == Live(PLACED)
    ensures Moved(s, Run(s, LostDeleteScript(pid, Top(s))), pid, {0})
  {
    PassesBack(s.hist[Top(s)]);
    hide Conf, PassOf;
    RunOfThree(s, Event(pid, BeginDelete(Top(s))), Event(pid, Try), Event(pid, SendReplyLost));
  }

  lemma WholeRun(s0: State)
    requires s0 == Fresh(Conf({0}))
    ensures var s := Run(s0, CreateScript(1, 0) + LostDeleteScript(1, 1) + CreateScript(2, 2));
      Of(s, 1) == Live(PLACED) && Of(s, 2) == Live(PLACED)
  {
    hide Conf, Run, CreateScript, LostDeleteScript;
    var a, b, c := CreateScript(1, 0), LostDeleteScript(1, 1), CreateScript(2, 2);
    CreateSteps(s0, 1);
    var s1 := Run(s0, a);
    LostDeleteSteps(s1, 1);
    var s2 := Run(s1, b);
    CreateSteps(s2, 2);
    RunAppend(s0, a, b);
    RunAppend(s0, a + b, c);
  }

  /** Two live networks have VNI 1 on eth0 at the end of the trace. */
  lemma ExclusivityNeedsTheHypothesis()
    ensures GoodConf(Conf({0})) && ZeroTaken(Conf({0}))
    ensures exists events :: var s := Run(Fresh(Conf({0})), events);
      TnetOf(Of(s, 1)) == Some(PLACED) && TnetOf(Of(s, 2)) == Some(PLACED)
  {
    hide Run, CreateScript, LostDeleteScript;
    WholeRun(Fresh(Conf({0})));
    var s := Run(Fresh(Conf({0})), CreateScript(1, 0) + LostDeleteScript(1, 1) + CreateScript(2, 2));
    assert TnetOf(Of(s, 1)) == Some(PLACED) && TnetOf(Of(s, 2)) == Some(PLACED);
  }
}
