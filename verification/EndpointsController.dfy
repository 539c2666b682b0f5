/**
  The event handlers of pkg/svccontrol over all Services of a namespace, proved to keep
  every Endpoints object equal, as sets of addresses, to one built from scratch, and
  exactly which events they miss.
 */
module EndpointsController {
  import opened Wrappers
  import opened Endpoints

  /** What exists in the cluster: the DanmEps, the Pods they belong to, and the Services. */
  datatype World = World(live: set<Dep>, pods: map<string, Pod>, services: seq<Service>)

  datatype Event =
    | DepAdded(de: Dep)
    | DepUpdated(was: Dep, now: Dep)
    | DepDeleted(de: Dep)
    | PodFlipped(name: string)
    | SvcAdded(svc: Service)
    | SvcUpdated(at: nat, to: Service)

  ghost predicate GoodWorld(w: World) {
    ApartDeps(w.live) && forall de :: de in w.live ==> IpsOf(de) != {} && de.pod in w.pods
  }

  function Next(w: World, e: Event): World
    requires e.PodFlipped? ==> e.name in w.pods
    requires e.SvcUpdated? ==> e.at < |w.services|
  {
    match e
    case DepAdded(de) => w.(live := w.live + {de})
    case DepUpdated(was, now) => w.(live := w.live - {was} + {now})
    case DepDeleted(de) => w.(live := w.live - {de})
    case PodFlipped(name) => w.(pods := w.pods[name := Pod(w.pods[name].uid, !w.pods[name].ready)])
    case SvcAdded(svc) => w.(services := w.services + [svc])
    case SvcUpdated(at, to) => w.(services := w.services[at := to])
  }

  /** An event that the informers can deliver, leading to a world of the same kind. */
  ghost predicate Legal(w: World, e: Event) {
    match e
    case DepAdded(de) => de !in w.live && GoodWorld(Next(w, e))
    case DepUpdated(was, now) => was in w.live && now !in w.live - {was} && GoodWorld(Next(w, e))
    case DepDeleted(de) => de in w.live
    case PodFlipped(name) => name in w.pods
    case SvcAdded(_) => true
    case SvcUpdated(at, _) => at < |w.services|
  }

  ghost function Selected(svc: Service, live: set<Dep>): set<Dep> { set de | de in live && Matches(svc, de) }

  /** The object built from scratch. */
  ghost function Rebuilt(svc: Service, live: set<Dep>, pods: map<string, Pod>): View {
    Built(svc, Selected(svc, live), pods)
  }

  // ---- one event on one object ----

  ghost function AddStep(svc: Service, view: View, de: Dep, pods: map<string, Pod>): View
    requires de.pod in pods
  {
    if Matches(svc, de) then Added(svc, view, de, pods[de.pod]) else view
  }

  /** A deletion that does not go wrong. */
  ghost function DeleteStep(svc: Service, view: View, de: Dep): View {
    if Matches(svc, de) then Removed(view, IpsOf(de)) else view
  }

  ghost function FlipStep(svc: Service, view: View, name: string, pod: Pod): View {
    Trimmed(Flipped(svc, view, name, pod.uid, !pod.ready))
  }

  /** Without a selector and a network addSvc does nothing. */
  predicate Selecting(svc: Service) { svc.selector != map[] && svc.nets != map[] }

  /** Adding two addresses to an object that has subsets does nothing. */
  ghost predicate AddMisses(svc: Service, live: set<Dep>, pods: map<string, Pod>, de: Dep) {
    Matches(svc, de) && DualStack(de) && !Rebuilt(svc, live, pods).Gone?
  }

  /** Deleting two addresses takes a wrong one, or panics. */
  ghost predicate DeleteMisses(svc: Service, de: Dep) { Matches(svc, de) && DualStack(de) }

  /** A Service that stops selecting keeps the object it had. */
  ghost predicate UpdateMisses(was: Service, now: Service, live: set<Dep>, pods: map<string, Pod>) {
    now != was && !Selecting(now) && !Rebuilt(was, live, pods).Gone?
  }

  /** The events after which the object of Service `i` is not the one built from scratch. */
  ghost predicate Misses(i: nat, w: World, e: Event)
    requires i < |w.services|
  {
    var svc := w.services[i];
    match e
    case DepAdded(de) => AddMisses(svc, w.live, w.pods, de)
    case DepUpdated(was, now) => DeleteMisses(svc, was) || AddMisses(svc, w.live - {was}, w.pods, now)
    case DepDeleted(de) => DeleteMisses(svc, de)
    case PodFlipped(_) => false
    case SvcAdded(_) => false
    case SvcUpdated(at, to) => at == i && UpdateMisses(svc, to, w.live, w.pods)
  }

  ghost function Step(i: nat, w: World, view: View, e: Event): View
    requires i < |w.services| && GoodWorld(w) && Legal(w, e)
  {
    var svc := w.services[i];
    match e
    case DepAdded(de) =>
      assert de in Next(w, e).live;
      AddStep(svc, view, de, w.pods)
    case DepUpdated(was, now) =>
      assert now in Next(w, e).live;
      AddStep(svc, DeleteStep(svc, view, was), now, w.pods)
    case DepDeleted(de) => DeleteStep(svc, view, de)
    case PodFlipped(name) => FlipStep(svc, view, name, w.pods[name])
    case SvcAdded(_) => view
    case SvcUpdated(at, to) => if at == i && to != svc && Selecting(to) then Rebuilt(to, w.live, w.pods) else view
  }

  lemma AddAddrs(svc: Service, des: set<Dep>, pods: map<string, Pod>, de: Dep, ready: bool)
    requires de.pod in pods
    ensures AddrsOf(svc, des + {de}, pods, ready) == AddrsOf(svc, des, pods, ready)
      + if GoesReady(svc, pods[de.pod]) == ready then AddrsFor(de, pods[de.pod]) else {}
  {
  }

  lemma NoAddrs(svc: Service, pods: map<string, Pod>)
    ensures AddrsOf(svc, {}, pods, true) == {} && AddrsOf(svc, {}, pods, false) == {}
  {
  }

  /** The addresses of a new DanmEp are not listed yet. */
  lemma AddedIsUnlisted(svc: Service, live: set<Dep>, pods: map<string, Pod>, de: Dep)
    requires ApartDeps(live + {de}) && de !in live
    ensures Unlisted(Rebuilt(svc, live, pods), IpsOf(de)) && (DualStack(de) ==> de.v4 != de.v6)
  {
    assert de in live + {de};
    forall d | d in live ensures IpsOf(d) !! IpsOf(de) {
      assert d in live + {de};
    }
  }

  lemma AddKeepsRebuilt(svc: Service, live: set<Dep>, pods: map<string, Pod>, de: Dep)
    requires ApartDeps(live + {de}) && de !in live && de.pod in pods && IpsOf(de) != {}
    ensures AddStep(svc, Rebuilt(svc, live, pods), de, pods) == Rebuilt(svc, live + {de}, pods)
       <==> !AddMisses(svc, live, pods, de)
  {
    hide AddrsOf, Matches, ApartDeps, IpsOf;
    var des := Selected(svc, live);
    if !Matches(svc, de) {
      assert Selected(svc, live + {de}) == des;
    } else {
      assert Selected(svc, live + {de}) == des + {de};
      assert de in des + {de};
      AddAddrs(svc, des, pods, de, true);
      AddAddrs(svc, des, pods, de, false);
      NoAddrs(svc, pods);
      AddedIsUnlisted(svc, live, pods, de);
      var ip :| ip in IpsOf(de);
      assert Addr(ip, de.pod, pods[de.pod].uid) in AddrsFor(de, pods[de.pod]);
      if des != {} {
        assert NotReadyYet(AddrsFor(de, pods[de.pod]), AddrsOf(svc, des, pods, true)) == AddrsFor(de, pods[de.pod]);
      }
    }
  }

  lemma DeleteKeepsRebuilt(svc: Service, live: set<Dep>, pods: map<string, Pod>, de: Dep)
    requires ApartDeps(live) && (forall d :: d in live ==> IpsOf(d) != {} && d.pod in pods) && de in live
    ensures DeleteStep(svc, Rebuilt(svc, live, pods), de) == Rebuilt(svc, live - {de}, pods)
  {
    hide Matches, IpsOf;
    var des := Selected(svc, live);
    assert Selected(svc, live - {de}) == des - if Matches(svc, de) then {de} else {};
    if Matches(svc, de) {
      forall ready
        ensures AddrsOf(svc, des - {de}, pods, ready) == WithoutIps(AddrsOf(svc, des, pods, ready), IpsOf(de))
      {
      }
      if des - {de} == {} {
        NoAddrs(svc, pods);
      } else {
        var d :| d in des - {de};
        var ip :| ip in IpsOf(d);
        assert Addr(ip, d.pod, pods[d.pod].uid) in AddrsOf(svc, des - {de}, pods, GoesReady(svc, pods[d.pod]));
      }
    }
  }

  lemma FlipKeepsRebuilt(svc: Service, w: World, name: string)
    requires GoodWorld(w) && name in w.pods
    ensures FlipStep(svc, Rebuilt(svc, w.live, w.pods), name, w.pods[name]) ==
      Rebuilt(svc, w.live, Next(w, PodFlipped(name)).pods)
  {
    hide IpsOf, Matches;
    var des, pods, pods' := Selected(svc, w.live), w.pods, Next(w, PodFlipped(name)).pods;
    if des != {} {
      var d :| d in des;
      var ip :| ip in IpsOf(d);
      assert Addr(ip, d.pod, pods'[d.pod].uid) in AddrsOf(svc, des, pods', GoesReady(svc, pods'[d.pod]));
      FlipAddrs(svc, des, pods, name, true);
      FlipAddrs(svc, des, pods, name, false);
    }
  }

  /** The two sides after a flip, element by element. */
  lemma FlipAddrs(svc: Service, des: set<Dep>, pods: map<string, Pod>, name: string, ready: bool)
    requires name in pods && forall de :: de in des ==> de.pod in pods
    ensures var pod := pods[name];
      var pods' := pods[name := Pod(pod.uid, !pod.ready)];
      var leave := if !pod.ready || svc.early then {} else OfPod(AddrsOf(svc, des, pods, true), name, pod.uid);
      var enter := if !pod.ready then OfPod(AddrsOf(svc, des, pods, false), name, pod.uid) else {};
      AddrsOf(svc, des, pods', ready) == if ready then AddrsOf(svc, des, pods, true) - leave + enter
                                         else AddrsOf(svc, des, pods, false) - enter + leave
  {
    hide IpsOf;
  }

  lemma UpdateKeepsRebuilt(was: Service, now: Service, live: set<Dep>, pods: map<string, Pod>)
    ensures var view := if now != was && Selecting(now) then Rebuilt(now, live, pods) else Rebuilt(was, live, pods);
      view == Rebuilt(now, live, pods) <==> !UpdateMisses(was, now, live, pods)
  {
    if !Selecting(now) {
      assert Selected(now, live) == {};
    }
  }

  /** Any other event moves the object of any Service from the one rebuilt before to the one rebuilt after. */
  lemma StepKeepsRebuilt(i: nat, w: World, e: Event)
    requires i < |w.services| && GoodWorld(w) && Legal(w, e) && !Misses(i, w, e)
    ensures GoodWorld(Next(w, e))
    ensures var next := Next(w, e);
      Step(i, w, Rebuilt(w.services[i], w.live, w.pods), e) == Rebuilt(next.services[i], next.live, next.pods)
  {
    hide Matches, Rebuilt, AddStep, DeleteStep, FlipStep, IpsOf;
    var svc := w.services[i];
    match e
    case DepAdded(de) =>
      assert de in Next(w, e).live;
      AddKeepsRebuilt(svc, w.live, w.pods, de);
    case DepUpdated(was, now) =>
      assert now in Next(w, e).live;
      DeleteKeepsRebuilt(svc, w.live, w.pods, was);
      AddKeepsRebuilt(svc, w.live - {was}, w.pods, now);
    case DepDeleted(de) => DeleteKeepsRebuilt(svc, w.live, w.pods, de);
    case PodFlipped(name) => FlipKeepsRebuilt(svc, w, name);
    case SvcAdded(_) =>
    case SvcUpdated(at, to) =>
      if at == i {
        UpdateKeepsRebuilt(svc, to, w.live, w.pods);
      }
  }

  // ---- whole runs ----

  ghost predicate LegalRun(w: World, events: seq<Event>)
    decreases |events|
  {
    |events| > 0 ==> Legal(w, events[0]) && LegalRun(Next(w, events[0]), events[1..])
  }

  ghost predicate NeverMisses(i: nat, w: World, events: seq<Event>)
    requires i < |w.services| && LegalRun(w, events)
    decreases |events|
  {
    |events| > 0 ==> !Misses(i, w, events[0]) && NeverMisses(i, Next(w, events[0]), events[1..])
  }

  ghost function After(w: World, events: seq<Event>): (after: World)
    requires LegalRun(w, events)
    ensures |after.services| >= |w.services|
    decreases |events|
  {
    if |events| == 0 then w else After(Next(w, events[0]), events[1..])
  }

  ghost function Incremental(i: nat, w: World, view: View, events: seq<Event>): View
    requires i < |w.services| && GoodWorld(w) && LegalRun(w, events) && NeverMisses(i, w, events)
    decreases |events|
  {
    if |events| == 0 then view
    else
      StepKeepsRebuilt(i, w, events[0]);
      Incremental(i, Next(w, events[0]), Step(i, w, view, events[0]), events[1..])
  }

  /**
    Incremental equals rebuild: whatever the run, the object is the one built from the DanmEps that
    are left, and gone if none is.
   */
  lemma {:induction false} IncrementalIsRebuilt(i: nat, w: World, events: seq<Event>)
    requires i < |w.services| && GoodWorld(w) && LegalRun(w, events) && NeverMisses(i, w, events)
    ensures var after := After(w, events);
      var view := Incremental(i, w, Rebuilt(w.services[i], w.live, w.pods), events);
      && view == Rebuilt(after.services[i], after.live, after.pods)
      && (view.Gone? <==> !exists de :: de in after.live && Matches(after.services[i], de))
    decreases |events|
  {
    hide Matches, IpsOf;
    if |events| > 0 {
      StepKeepsRebuilt(i, w, events[0]);
      IncrementalIsRebuilt(i, Next(w, events[0]), events[1..]);
    } else if Rebuilt(w.services[i], w.live, w.pods).Gone? {
      assert forall de :: de in w.live && Matches(w.services[i], de) ==> de in Selected(w.services[i], w.live);
    } else {
      var de :| de in Selected(w.services[i], w.live);
    }
  }

  // ---- the events that are missed ----

  const LABELS := map["app" := "web"]
  const SVC := Service(LABELS, map["DanmNet" := "net"], false)
  const ONE := Dep("one", "net", "DanmNet", LABELS, "10.0.0.1", "none")
  const TWO := Dep("two", "net", "DanmNet", LABELS, "10.0.0.2", "fd00::2")
  const PODS := map["one" := Pod("1", true), "two" := Pod("2", true)]

  lemma BothMatch()
    ensures Matches(SVC, ONE) && Matches(SVC, TWO)
  {
    assert "app" in SVC.selector;
  }

  lemma MissedUpdate()
    ensures var w := World({ONE}, PODS, [SVC]);
      forall svc :: svc == SVC.(nets := map[]) || svc == SVC.(selector := map[]) ==> Misses(0, w, SvcUpdated(0, svc))
  {
    BothMatch();
    hide Matches;
    assert ONE in Selected(SVC, {ONE});
    assert "DanmNet" in SVC.nets && "app" in SVC.selector;
  }

  /** A second, dual-stack Pod never appears; where it is listed it is not deleted; a Service keeps its old object. */
  lemma MissedEvents()
    ensures var w := World({ONE}, PODS, [SVC]);
      && GoodWorld(w) && Legal(w, DepAdded(TWO)) && Misses(0, w, DepAdded(TWO))
      && forall svc :: svc == SVC.(nets := map[]) || svc == SVC.(selector := map[]) ==>
           Legal(w, SvcUpdated(0, svc)) && Misses(0, w, SvcUpdated(0, svc))
    ensures var w := World({TWO}, PODS, [SVC]);
      GoodWorld(w) && Legal(w, DepDeleted(TWO)) && Misses(0, w, DepDeleted(TWO))
  {
    BothMatch();
    hide Matches;
    MissedUpdate();
    assert ONE.v4 != TWO.v4 && ONE.v4 != TWO.v6 && TWO.v4 != TWO.v6;
    assert ONE in Selected(SVC, {ONE});
    assert IpsOf(ONE) == {ONE.v4} && IpsOf(TWO) == {TWO.v4, TWO.v6};
    assert ONE.v4 in IpsOf(ONE) && TWO.v4 in IpsOf(TWO);
  }

  // ---- the handlers ----

  /** The stored object is, as sets of addresses, the one built from scratch. */
  ghost predicate IsRebuilt(svc: Service, sub: Option<Subset>, live: set<Dep>, pods: map<string, Pod>) {
    Proper(sub) && ViewOf(sub) == Rebuilt(svc, live, pods)
  }

  method AddToService(svc: Service, sub: Option<Subset>, de: Dep, ghost live: set<Dep>, pods: map<string, Pod>)
    returns (after: Option<Subset>)
    requires ApartDeps(live + {de}) && de !in live && de.pod in pods && IpsOf(de) != {}
    requires IsRebuilt(svc, sub, live, pods)
    ensures IsRebuilt(svc, after, live + {de}, pods) <==> !AddMisses(svc, live, pods, de)
  {
    hide Rebuilt, Matches, Unlisted, Added, IpsOf, ApartDeps;
    AddedIsUnlisted(svc, live, pods, de);
    AddKeepsRebuilt(svc, live, pods, de);
    after := sub;
    var matched := IsMatching(svc, de);
    if matched {
      after := AddToEndpoints(svc, sub, de, pods);
    }
  }

  /** Both addresses of a dual-stack DanmEp are on one side. */
  lemma BothAreListed(svc: Service, sub: Subset, de: Dep, live: set<Dep>, pods: map<string, Pod>)
    requires ApartDeps(live) && de in live && de.pod in pods && Matches(svc, de)
    requires ViewOf(Some(sub)) == Rebuilt(svc, live, pods)
    ensures DualStack(de) <==> BothListed(de, sub.addresses) || BothListed(de, sub.notReady)
  {
    hide Matches;
    var pod := pods[de.pod];
    var side := if GoesReady(svc, pod) then sub.addresses else sub.notReady;
    if DualStack(de) {
      forall ip | ip in IpsOf(de) ensures Addr(ip, de.pod, pod.uid) in side {
        assert de in Selected(svc, live);
        assert Addr(ip, de.pod, pod.uid) in Elements(side);
      }
    }
  }

  method DeleteFromService(svc: Service, sub: Option<Subset>, de: Dep, ghost live: set<Dep>, ghost pods: map<string,
          Pod>)
    returns (after: Outcome)
    requires ApartDeps(live) && (forall d :: d in live ==> IpsOf(d) != {} && d.pod in pods) && de in live
    requires IsRebuilt(svc, sub, live, pods)
    ensures after.Stored? && IsRebuilt(svc, after.sub, live - {de}, pods) <==> !DeleteMisses(svc, de)
  {
    hide Matches, Trimmed, IpsOf, ApartDeps, BothListed, Proper;
    DeleteKeepsRebuilt(svc, live, pods, de);
    SelectedIsListed(svc, live, pods, de);
    after := Stored(sub);
    if sub.Some? {
      var matched := IsMatching(svc, de);
      if matched {
        BothAreListed(svc, sub.value, de, live, pods);
        ProperLists(sub.value);
        after := DeleteFromEndpoints(sub.value, de);
      }
    }
  }

  lemma SelectedIsListed(svc: Service, live: set<Dep>, pods: map<string, Pod>, de: Dep)
    requires de in live
    ensures Matches(svc, de) ==> !Rebuilt(svc, live, pods).Gone?
  {
    assert Matches(svc, de) ==> de in Selected(svc, live);
  }

  lemma ProperLists(sub: Subset)
    requires Proper(Some(sub))
    ensures DistinctIps(sub.addresses + sub.notReady)
  {
  }

  method FlipInService(svc: Service, sub: Option<Subset>, name: string, oldPod: Pod, newPod: Pod, ghost w: World)
    returns (after: Option<Subset>)
    requires GoodWorld(w) && name in w.pods && IsRebuilt(svc, sub, w.live, w.pods)
    requires oldPod == w.pods[name] && newPod == Pod(oldPod.uid, !oldPod.ready)
    ensures IsRebuilt(svc, after, w.live, Next(w, PodFlipped(name)).pods)
  {
    hide Rebuilt, IpsOf;
    FlipKeepsRebuilt(svc, w, name);
    after := sub;
    if sub.Some? {
      after := UpdatePodStatusInEps(svc, sub.value, name, newPod.uid, oldPod.ready, newPod.ready);
    }
  }

  /** The lister gives the DanmEps in no particular order. */
  method SelectDesMatchLabels(svc: Service, live: set<Dep>) returns (deList: seq<Dep>)
    requires Selecting(svc)
    ensures DepsOf(deList) == Selected(svc, live)
    ensures forall i, j :: 0 <= i < j < |deList| ==> deList[i] != deList[j]
  {
    deList := [];
    var rest := live;
    while rest != {}
      invariant rest <= live
      invariant forall de :: de in deList <==> de in live - rest && Matches(svc, de)
      invariant forall i, j :: 0 <= i < j < |deList| ==> deList[i] != deList[j]
    {
      var de :| de in rest;
      var deFit := IsMatching(svc, de);
      if deFit {
        deList := deList + [de];
      }
      rest := rest - {de};
    }
  }

  /** addSvc for one Service; `sub` is the object it has so far. */
  method AddSvcObject(svc: Service, sub: Option<Subset>, live: set<Dep>, pods: map<string, Pod>)
    returns (after: Option<Subset>)
    requires ApartDeps(live) && Proper(sub)
    ensures Proper(after)
    ensures ViewOf(after) == if Selecting(svc) then Rebuilt(svc, live, pods) else ViewOf(sub)
  {
    hide Matches, IpsOf;
    if !Selecting(svc) {
      return sub;
    }
    var matchingDesList := SelectDesMatchLabels(svc, live);
    after := MakeNewEps(svc, matchingDesList, pods);
  }

  /** updateSvc for one Service. */
  method UpdateSvcObject(was: Service, now: Service, sub: Option<Subset>, live: set<Dep>, pods: map<string, Pod>)
    returns (after: Option<Subset>)
    requires ApartDeps(live) && IsRebuilt(was, sub, live, pods)
    ensures IsRebuilt(now, after, live, pods) <==> !UpdateMisses(was, now, live, pods)
  {
    hide Rebuilt;
    UpdateKeepsRebuilt(was, now, live, pods);
    if now == was {
      return sub;
    }
    after := AddSvcObject(now, sub, live, pods);
  }

  lemma StepKeepsWorld(w: World, e: Event)
    requires GoodWorld(w) && Legal(w, e)
    ensures GoodWorld(Next(w, e))
  {
  }

  /** No Service misses the event. */
  ghost predicate Smooth(w: World, e: Event) { forall i: nat | i < |w.services| :: !Misses(i, w, e) }

  ghost predicate SmoothRun(w: World, events: seq<Event>)
    requires LegalRun(w, events)
    decreases |events|
  {
    |events| > 0 ==> Smooth(w, events[0]) && SmoothRun(Next(w, events[0]), events[1..])
  }

  class Controller {
    /** The Services with their Endpoints objects, and what the listers know of Pods and DanmEps. */
    var services: seq<Service>
    var eps: seq<Option<Subset>>
    var pods: map<string, Pod>
    var deps: set<Dep>

    constructor (pods: map<string, Pod>)
      ensures Mirrors(World({}, pods, []))
    {
      services, eps, deps := [], [], {};
      this.pods := pods;
    }

    /** Every object equals the one built from scratch. */
    ghost predicate Mirrors(w: World)
      reads this
    {
      && services == w.services && |eps| == |services| && pods == w.pods && deps == w.live
      && forall i :: 0 <= i < |eps| ==> IsRebuilt(services[i], eps[i], w.live, w.pods)
    }

    method AddDanmep(de: Dep, ghost w: World)
      requires GoodWorld(w) && Mirrors(w) && Legal(w, DepAdded(de)) && Smooth(w, DepAdded(de))
      modifies this
      ensures Mirrors(Next(w, DepAdded(de)))
    {
      deps := deps + {de};
      assert de in Next(w, DepAdded(de)).live;
      for i := 0 to |services|
        invariant services == w.services && |eps| == |services| && pods == w.pods && deps == w.live + {de}
        invariant forall j :: 0 <= j < i ==> IsRebuilt(services[j], eps[j], deps, pods)
        invariant forall j :: i <= j < |eps| ==> IsRebuilt(services[j], eps[j], w.live, pods)
      {
        hide IsRebuilt, AddMisses, ApartDeps, IpsOf;
        assert !Misses(i, w, DepAdded(de));
        var after := AddToService(services[i], eps[i], de, w.live, pods);
        eps := eps[i := after];
      }
    }

    method DelDanmep(de: Dep, ghost w: World)
      requires GoodWorld(w) && Mirrors(w) && de in w.live && Smooth(w, DepDeleted(de))
      modifies this
      ensures Mirrors(Next(w, DepDeleted(de)))
    {
      deps := deps - {de};
      for i := 0 to |services|
        invariant services == w.services && |eps| == |services| && pods == w.pods && deps == w.live - {de}
        invariant forall j :: 0 <= j < i ==> IsRebuilt(services[j], eps[j], deps, pods)
        invariant forall j :: i <= j < |eps| ==> IsRebuilt(services[j], eps[j], w.live, pods)
      {
        hide IsRebuilt, DeleteMisses, ApartDeps, IpsOf;
        assert !Misses(i, w, DepDeleted(de));
        var after := DeleteFromService(services[i], eps[i], de, w.live, pods);
        eps := eps[i := after.sub];
      }
    }

    method UpdateDanmep(was: Dep, now: Dep, ghost w: World)
      requires GoodWorld(w) && Mirrors(w) && Legal(w, DepUpdated(was, now)) && Smooth(w, DepUpdated(was, now))
      modifies this
      ensures Mirrors(Next(w, DepUpdated(was, now)))
    {
      hide Mirrors, AddMisses, DeleteMisses, ApartDeps, IpsOf;
      SmoothParts(w, was, now);
      DelDanmep(was, w);
      AddDanmep(now, Next(w, DepDeleted(was)));
    }

    /** updatePod when the readiness changed; the lister has the new Pod already. */
    method UpdatePod(name: string, ghost w: World)
      requires GoodWorld(w) && Mirrors(w) && name in w.pods
      modifies this
      ensures Mirrors(Next(w, PodFlipped(name)))
    {
      var oldPod := pods[name];
      var newPod := Pod(oldPod.uid, !oldPod.ready);
      pods := pods[name := newPod];
      for i := 0 to |services|
        invariant services == w.services && |eps| == |services| && deps == w.live
        invariant pods == Next(w, PodFlipped(name)).pods
        invariant forall j :: 0 <= j < i ==> IsRebuilt(services[j], eps[j], deps, pods)
        invariant forall j :: i <= j < |eps| ==> IsRebuilt(services[j], eps[j], deps, w.pods)
      {
        hide IsRebuilt, GoodWorld;
        var after := FlipInService(services[i], eps[i], name, oldPod, newPod, w);
        eps := eps[i := after];
      }
    }

    method AddSvc(svc: Service, ghost w: World)
      requires GoodWorld(w) && Mirrors(w)
      modifies this
      ensures Mirrors(Next(w, SvcAdded(svc)))
    {
      hide ApartDeps, IpsOf;
      var after := AddSvcObject(svc, None, deps, pods);
      NothingSelected(svc, deps, pods);
      services, eps := services + [svc], eps + [after];
    }

    method UpdateSvc(at: nat, to: Service, ghost w: World)
      requires GoodWorld(w) && Mirrors(w) && at < |w.services| && Smooth(w, SvcUpdated(at, to))
      modifies this
      ensures Mirrors(Next(w, SvcUpdated(at, to)))
    {
      hide IsRebuilt, ApartDeps, IpsOf, UpdateMisses;
      assert !Misses(at, w, SvcUpdated(at, to));
      var after := UpdateSvcObject(services[at], to, eps[at], deps, pods);
      services, eps := services[at := to], eps[at := after];
    }

    method Handle(e: Event, ghost w: World)
      requires GoodWorld(w) && Mirrors(w) && Legal(w, e) && Smooth(w, e)
      modifies this
      ensures Mirrors(Next(w, e))
    {
      hide Mirrors, Misses;
      match e
      case DepAdded(de) => AddDanmep(de, w);
      case DepUpdated(was, now) => UpdateDanmep(was, now, w);
      case DepDeleted(de) => DelDanmep(de, w);
      case PodFlipped(name) => UpdatePod(name, w);
      case SvcAdded(svc) => AddSvc(svc, w);
      case SvcUpdated(at, to) => UpdateSvc(at, to, w);
    }

    /** The controller over a whole run: every object ends as the one built from the DanmEps that are left. */
    method Watch(events: seq<Event>, ghost w: World)
      requires GoodWorld(w) && Mirrors(w) && LegalRun(w, events) && SmoothRun(w, events)
      modifies this
      ensures Mirrors(After(w, events))
      decreases |events|
    {
      if |events| > 0 {
        StepKeepsWorld(w, events[0]);
        Handle(events[0], w);
        Watch(events[1..], Next(w, events[0]));
      }
    }
  }

  /** An update is smooth if its deletion and its addition are. */
  lemma SmoothParts(w: World, was: Dep, now: Dep)
    requires GoodWorld(w) && Legal(w, DepUpdated(was, now)) && Smooth(w, DepUpdated(was, now))
    ensures Smooth(w, DepDeleted(was)) && GoodWorld(Next(w, DepDeleted(was)))
    ensures var mid := Next(w, DepDeleted(was));
      && Legal(mid, DepAdded(now)) && Smooth(mid, DepAdded(now))
      && Next(mid, DepAdded(now)) == Next(w, DepUpdated(was, now))
  {
    hide AddMisses, DeleteMisses, IpsOf;
    forall i: nat | i < |w.services| ensures !Misses(i, w, DepDeleted(was)) {
      assert !Misses(i, w, DepUpdated(was, now));
    }
    var mid := Next(w, DepDeleted(was));
    forall i: nat | i < |mid.services| ensures !Misses(i, mid, DepAdded(now)) {
      assert !Misses(i, w, DepUpdated(was, now));
    }
  }

  lemma NothingSelected(svc: Service, live: set<Dep>, pods: map<string, Pod>)
    ensures !Selecting(svc) ==> Rebuilt(svc, live, pods).Gone?
  {
    if !Selecting(svc) {
      assert Selected(svc, live) == {};
    }
  }
}
