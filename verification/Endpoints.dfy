/**
  The Endpoints objects that pkg/svccontrol keeps for Services selecting DanmEps, in one
  namespace.  Handlers change an object step by step; `Rebuilt` is what building it from
  scratch gives, and the two are proved to agree over every run of events.
 */
module Endpoints {
  import opened Wrappers

  datatype Pod = Pod(uid: string, ready: bool)

  /** A DanmEp: its Pod and network, and its two addresses without the prefix. */
  datatype Dep = Dep(pod: string, network: string, apiType: string, labels: map<string, string>, v4: string, v6: string)

  /** The DANM annotations of a Service; `nets` are the networks selected, by API kind. */
  datatype Service = Service(selector: map<string, string>, nets: map<string, string>, early: bool)

  datatype Addr = Addr(ip: string, pod: string, uid: string)

  /** Subsets[0] of an Endpoints object; an object without it has no subsets at all. */
  datatype Subset = Subset(addresses: seq<Addr>, notReady: seq<Addr>)

  // ---- which DanmEps belong to a Service ----

  ghost predicate Labelled(ep: map<string, string>, svc: map<string, string>) {
    forall k :: k in svc ==> k in ep && ep[k] == svc[k]
  }

  method IsContain(ep: map<string, string>, svc: map<string, string>) returns (fit: bool)
    ensures fit <==> Labelled(ep, svc)
  {
    var keys := svc.Keys;
    while keys != {}
      invariant keys <= svc.Keys
      invariant forall k :: k in svc && k !in keys ==> k in ep && ep[k] == svc[k]
    {
      var k :| k in keys;
      if k !in ep || ep[k] != svc[k] {
        return false;
      }
      keys := keys - {k};
    }
    return true;
  }

  const API_KINDS := {"DanmNet", "TenantNetwork", "ClusterNetwork"}

  /** The API kind of a DanmEp's network; a DanmEp that says nothing is of a DanmNet. */
  ghost function KindOf(de: Dep): string { if de.apiType == "" then "DanmNet" else de.apiType }

  /** The networks selected have the DanmEp's network under its kind. */
  ghost predicate Selects(nets: map<string, string>, de: Dep) {
    KindOf(de) in API_KINDS && KindOf(de) in nets && nets[KindOf(de)] == de.network
  }

  predicate IsDepSelectedBySvc(de: Dep, nets: map<string, string>): (selected: bool)
    ensures selected <==> Selects(nets, de)
  {
    || ("DanmNet" in nets && nets["DanmNet"] == de.network && (de.apiType == "DanmNet" || de.apiType == ""))
    || ("TenantNetwork" in nets && nets["TenantNetwork"] == de.network && de.apiType == "TenantNetwork")
    || ("ClusterNetwork" in nets && nets["ClusterNetwork"] == de.network && de.apiType == "ClusterNetwork")
  }

  ghost predicate Matches(svc: Service, de: Dep) {
    svc.selector != map[] && Selects(svc.nets, de) && Labelled(de.labels, svc.selector)
  }

  /** A Service with networks of one kind takes those of no other kind. */
  lemma SelectedByKind(svc: Service, de: Dep, kind: string, network: string)
    requires svc.nets == map[kind := network] && kind in API_KINDS
    requires svc.selector != map[] && Labelled(de.labels, svc.selector)
    ensures Matches(svc, de) <==>
      de.network == network && (de.apiType == kind || (de.apiType == "" && kind == "DanmNet"))
  {
  }

  /** One case for each kind: the DanmEp of a network of that kind is taken, those of the others are not. */
  lemma KindsApart()
    ensures forall kind, other :: kind in API_KINDS && other in API_KINDS ==>
      var svc := Service(map["a" := "b"], map[kind := "n"], false);
      (Matches(svc, Dep("p", "n", other, map["a" := "b"], "", "")) <==> kind == other)
  {
    forall kind, other | kind in API_KINDS && other in API_KINDS
      ensures var svc := Service(map["a" := "b"], map[kind := "n"], false);
        (Matches(svc, Dep("p", "n", other, map["a" := "b"], "", "")) <==> kind == other)
    {
      var svc := Service(map["a" := "b"], map[kind := "n"], false);
      assert "a" in svc.selector;
      SelectedByKind(svc, Dep("p", "n", other, map["a" := "b"], "", ""), kind, "n");
    }
  }

  method IsMatching(svc: Service, de: Dep) returns (fit: bool)
    ensures fit <==> Matches(svc, de)
  {
    if svc.selector == map[] || !IsDepSelectedBySvc(de, svc.nets) {
      return false;
    }
    fit := IsContain(de.labels, svc.selector);
  }

  // ---- views: an Endpoints object as two sets of addresses ----

  datatype View = Gone | Sets(ready: set<Addr>, notReady: set<Addr>)

  ghost function Elements(s: seq<Addr>): (e: set<Addr>)
    ensures forall a :: a in e <==> a in s
  {
    set a | a in s
  }

  ghost function ViewOf(sub: Option<Subset>): View {
    if sub.None? then Gone else Sets(Elements(sub.value.addresses), Elements(sub.value.notReady))
  }

  predicate IsReal(ip: string) { ip != "" && ip != "none" && ip != "dynamic" }

  predicate DualStack(de: Dep) { IsReal(de.v4) && IsReal(de.v6) }

  /** The real addresses of a DanmEp: two, one or none. */
  function IpsOf(de: Dep): set<string> {
    (if IsReal(de.v4) then {de.v4} else {}) + (if IsReal(de.v6) then {de.v6} else {})
  }

  ghost predicate DistinctIps(s: seq<Addr>) {
    && (forall i :: 0 <= i < |s| ==> IsReal(s[i].ip))
    && forall i, j :: 0 <= i < j < |s| ==> s[i].ip != s[j].ip
  }

  /** No address is listed twice. */
  ghost predicate Proper(sub: Option<Subset>) {
    sub.Some? ==> DistinctIps(sub.value.addresses + sub.value.notReady)
  }

  ghost predicate Unlisted(view: View, ips: set<string>) {
    view.Sets? ==> forall a :: a in view.ready + view.notReady ==> a.ip !in ips
  }

  /** UpdateEndpoints drops the subsets when both lists are empty. */
  ghost function Trimmed(view: View): View {
    if view.Sets? && view.ready == {} && view.notReady == {} then Gone else view
  }

  method UpdateEndpoints(sub: Subset) returns (updated: Option<Subset>)
    ensures ViewOf(updated) == Trimmed(ViewOf(Some(sub)))
    ensures DistinctIps(sub.addresses + sub.notReady) ==> Proper(updated)
  {
    if |sub.addresses| == 0 && |sub.notReady| == 0 {
      return None;
    }
    assert sub.addresses != [] ==> sub.addresses[0] in Elements(sub.addresses);
    assert sub.notReady != [] ==> sub.notReady[0] in Elements(sub.notReady);
    return Some(sub);
  }

  // ---- building from scratch ----

  ghost function AddrsFor(de: Dep, pod: Pod): set<Addr> { set ip | ip in IpsOf(de) :: Addr(ip, de.pod, pod.uid) }

  predicate GoesReady(svc: Service, pod: Pod) { pod.ready || svc.early }

  /** No two addresses are the same. */
  ghost predicate ApartDeps(des: set<Dep>) {
    && (forall de :: de in des && DualStack(de) ==> de.v4 != de.v6)
    && forall d, e :: d in des && e in des && d != e ==> IpsOf(d) !! IpsOf(e)
  }

  /** The addresses of the DanmEps whose Pods exist and would be listed as ready, or as not ready. */
  ghost function AddrsOf(svc: Service, des: set<Dep>, pods: map<string, Pod>, ready: bool): set<Addr> {
    set de, ip | de in des && ip in IpsOf(de) && de.pod in pods && GoesReady(svc, pods[de.pod]) == ready
      :: Addr(ip, de.pod, pods[de.pod].uid)
  }

  ghost function Built(svc: Service, des: set<Dep>, pods: map<string, Pod>): View {
    if des == {} then Gone else Sets(AddrsOf(svc, des, pods, true), AddrsOf(svc, des, pods, false))
  }

  /** The address is a real one of the DanmEp, and its Pod exists. */
  ghost predicate Gives(de: Dep, pods: map<string, Pod>, a: Addr) {
    && a.ip in {de.v4, de.v6} - {"", "none", "dynamic"}
    && de.pod in pods && a.pod == de.pod && a.uid == pods[de.pod].uid
  }

  /**
    What is listed: each address of a DanmEp whose Pod exists, if it is one, as ready or not ready as the
    Pod is, or as ready anyway if the Service publishes early.
   */
  lemma BuiltExactly(svc: Service, des: set<Dep>, pods: map<string, Pod>, a: Addr)
    ensures Built(svc, des, pods).Gone? <==> des == {}
    ensures des != {} ==>
      var Sets(ready, notReady) := Built(svc, des, pods);
      && (a in ready <==> exists de :: de in des && Gives(de, pods, a) && (pods[de.pod].ready || svc.early))
      && (a in notReady <==> exists de :: de in des && Gives(de, pods, a) && !pods[de.pod].ready && !svc.early)
  {
    forall de: Dep
      ensures Gives(de, pods, a) <==>
        a.ip in IpsOf(de) && de.pod in pods && a == Addr(a.ip, de.pod, pods[de.pod].uid)
    {
    }
  }

  ghost function DepsOf(des: seq<Dep>): (all: set<Dep>)
    ensures forall de :: de in all <==> de in des
  {
    set de | de in des
  }

  lemma OneMoreDep(svc: Service, des: seq<Dep>, i: nat, pods: map<string, Pod>, ready: bool)
    requires i < |des|
    ensures var de := des[i];
      AddrsOf(svc, DepsOf(des[..i + 1]), pods, ready) == AddrsOf(svc, DepsOf(des[..i]), pods, ready)
        + if de.pod in pods && GoesReady(svc, pods[de.pod]) == ready then AddrsFor(de, pods[de.pod]) else {}
  {
  }

  method IsIpInEp(ip: string, addresses: seq<Addr>) returns (isIpPresent: bool)
    ensures isIpPresent <==> exists a :: a in addresses && a.ip == ip
  {
    isIpPresent := false;
    for i := 0 to |addresses|
      invariant forall j :: 0 <= j < i ==> addresses[j].ip != ip
    {
      if addresses[i].ip == ip {
        return true;
      }
    }
  }

  /** createChangedEpAddressList; `listed` are the ready addresses of an existing object, none for a new one. */
  method CreateChangedEpAddressList(v4: string, v6: string, pod: string, uid: string, listed: seq<Addr>,
          epAddrs: seq<Addr>)
    returns (changed: seq<Addr>)
    ensures changed == epAddrs
      + (if IsReal(v4) && !(exists a :: a in listed && a.ip == v4) then [Addr(v4, pod, uid)] else [])
      + (if IsReal(v6) && !(exists a :: a in listed && a.ip == v6) then [Addr(v6, pod, uid)] else [])
  {
    changed := epAddrs;
    var found4 := IsIpInEp(v4, listed);
    if IsReal(v4) && !found4 {
      changed := changed + [Addr(v4, pod, uid)];
    }
    var found6 := IsIpInEp(v6, listed);
    if IsReal(v6) && !found6 {
      changed := changed + [Addr(v6, pod, uid)];
    }
  }

  /** The DanmEps of a list are different, and so are their addresses. */
  ghost predicate ApartList(des: seq<Dep>) {
    ApartDeps(DepsOf(des)) && forall i, j :: 0 <= i < j < |des| ==> des[i] != des[j]
  }

  /** The addresses listed so far come from the DanmEps seen so far. */
  ghost predicate ListedFrom(listed: set<Addr>, des: seq<Dep>) {
    forall a :: a in listed ==> exists de :: de in des && a.ip in IpsOf(de)
  }

  lemma ListOneMore(listed: set<Addr>, des: seq<Dep>, i: nat, pod: Pod)
    requires ApartList(des) && i < |des| && ListedFrom(listed, des[..i])
    ensures forall b :: b in listed ==> b.ip !in IpsOf(des[i])
    ensures ListedFrom(listed, des[..i + 1]) && ListedFrom(listed + AddrsFor(des[i], pod), des[..i + 1])
  {
    assert des[..i + 1] == des[..i] + [des[i]];
    assert des[i] in DepsOf(des);
    forall b | b in listed ensures b.ip !in IpsOf(des[i]) && exists de :: de in des[..i + 1] && b.ip in IpsOf(de) {
      var de :| de in des[..i] && b.ip in IpsOf(de);
      assert de in DepsOf(des) && de != des[i];
      assert de in des[..i + 1];
    }
    assert des[i] in des[..i + 1];
  }

  lemma AppendOne(ready: seq<Addr>, notReady: seq<Addr>, a: Addr)
    requires DistinctIps(ready + notReady) && IsReal(a.ip)
    requires forall b :: b in Elements(ready) + Elements(notReady) ==> b.ip != a.ip
    ensures DistinctIps(ready + [a] + notReady) && DistinctIps(ready + (notReady + [a]))
  {
    var s, t := ready + [a] + notReady, ready + notReady;
    forall i, j | 0 <= i < j < |s| ensures s[i].ip != s[j].ip {
      var i', j' := if i > |ready| then i - 1 else i, if j > |ready| then j - 1 else j;
      assert i != |ready| ==> s[i] == t[i'];
      assert j != |ready| ==> s[j] == t[j'];
    }
    forall i | 0 <= i < |s| ensures IsReal(s[i].ip) {
      assert i != |ready| ==> s[i] == t[if i > |ready| then i - 1 else i];
    }
    assert ready + (notReady + [a]) == t + [a];
  }

  /** The real addresses of a DanmEp in the order in which they are listed. */
  function ListOf(de: Dep, uid: string): (list: seq<Addr>)
    ensures forall a :: a in list <==> a.ip in IpsOf(de) && a == Addr(a.ip, de.pod, uid)
  {
    (if IsReal(de.v4) then [Addr(de.v4, de.pod, uid)] else [])
      + (if IsReal(de.v6) then [Addr(de.v6, de.pod, uid)] else [])
  }

  lemma AppendDep(ready: seq<Addr>, notReady: seq<Addr>, de: Dep, pod: Pod)
    requires DistinctIps(ready + notReady) && (DualStack(de) ==> de.v4 != de.v6)
    requires forall b :: b in Elements(ready) + Elements(notReady) ==> b.ip !in IpsOf(de)
    ensures DistinctIps(ready + ListOf(de, pod.uid) + notReady) && DistinctIps(ready + (notReady + ListOf(de, pod.uid)))
  {
    hide DistinctIps;
    var a4, a6 := Addr(de.v4, de.pod, pod.uid), Addr(de.v6, de.pod, pod.uid);
    var list := ListOf(de, pod.uid);
    if DualStack(de) {
      AppendOne(ready, notReady, a4);
      assert Elements(ready + [a4]) == Elements(ready) + {a4} && Elements(notReady + [a4]) == Elements(notReady) + {a4};
      AppendOne(ready + [a4], notReady, a6);
      AppendOne(ready, notReady + [a4], a6);
      assert ready + list + notReady == ready + [a4] + [a6] + notReady;
      assert notReady + list == notReady + [a4] + [a6];
    } else if list != [] {
      AppendOne(ready, notReady, list[0]);
      assert list == [list[0]];
    } else {
      assert ready + list + notReady == ready + notReady && notReady + list == notReady;
    }
  }

  lemma AppendElements(s: seq<Addr>, de: Dep, pod: Pod)
    ensures Elements(s + ListOf(de, pod.uid)) == Elements(s) + AddrsFor(de, pod)
  {
  }

  /** The lists built after the first `i` DanmEps. */
  ghost predicate BuiltSoFar(svc: Service, des: seq<Dep>, i: nat, pods: map<string, Pod>, ready: seq<Addr>,
          notReady: seq<Addr>)
    requires i <= |des|
  {
    && Elements(ready) == AddrsOf(svc, DepsOf(des[..i]), pods, true)
    && Elements(notReady) == AddrsOf(svc, DepsOf(des[..i]), pods, false)
    && (ApartList(des) ==> DistinctIps(ready + notReady) && ListedFrom(Elements(ready) + Elements(notReady), des[..i]))
  }

  lemma BuildOneMore(svc: Service, des: seq<Dep>, i: nat, pods: map<string, Pod>, ready: seq<Addr>, notReady: seq<Addr>)
    requires i < |des| && BuiltSoFar(svc, des, i, pods, ready, notReady)
    ensures var de := des[i];
      if de.pod !in pods then BuiltSoFar(svc, des, i + 1, pods, ready, notReady)
      else
        var list := ListOf(de, pods[de.pod].uid);
        if GoesReady(svc, pods[de.pod]) then BuiltSoFar(svc, des, i + 1, pods, ready + list, notReady)
        else BuiltSoFar(svc, des, i + 1, pods, ready, notReady + list)
  {
    hide AddrsOf, AddrsFor, ListedFrom, ApartList, DistinctIps, Elements, IpsOf, ListOf;
    var de := des[i];
    var pod := if de.pod in pods then pods[de.pod] else Pod("", false);
    OneMoreDep(svc, des, i, pods, true);
    OneMoreDep(svc, des, i, pods, false);
    AppendElements(ready, de, pod);
    AppendElements(notReady, de, pod);
    var listed := Elements(ready) + Elements(notReady);
    if ApartList(des) {
      ListOneMore(listed, des, i, pod);
      ApartWithin(des, i);
      AppendDep(ready, notReady, de, pod);
      assert Elements(ready) + AddrsFor(de, pod) + Elements(notReady) == listed + AddrsFor(de, pod);
      assert Elements(ready) + (Elements(notReady) + AddrsFor(de, pod)) == listed + AddrsFor(de, pod);
    }
  }

  lemma ApartWithin(des: seq<Dep>, i: nat)
    requires ApartList(des) && i < |des|
    ensures DualStack(des[i]) ==> des[i].v4 != des[i].v6
  {
    assert des[i] in DepsOf(des);
  }

  method ListOne(de: Dep, uid: string, epAddrs: seq<Addr>) returns (changed: seq<Addr>)
    ensures changed == epAddrs + ListOf(de, uid)
  {
    changed := CreateChangedEpAddressList(de.v4, de.v6, de.pod, uid, [], epAddrs);
  }

  method MakeNewEps(svc: Service, des: seq<Dep>, pods: map<string, Pod>) returns (sub: Option<Subset>)
    ensures ViewOf(sub) == Built(svc, DepsOf(des), pods)
    ensures ApartList(des) ==> Proper(sub)
  {
    if |des| == 0 {
      return None;
    }
    assert des[0] in DepsOf(des);
    var ready, notReady := [], [];
    for i := 0 to |des|
      invariant BuiltSoFar(svc, des, i, pods, ready, notReady)
    {
      hide BuiltSoFar, ApartList;
      BuildOneMore(svc, des, i, pods, ready, notReady);
      var de := des[i];
      if de.pod in pods {
        var pod := pods[de.pod];
        if GoesReady(svc, pod) {
          ready := ListOne(de, pod.uid, ready);
        } else {
          notReady := ListOne(de, pod.uid, notReady);
        }
      }
    }
    assert des[..|des|] == des;
    return Some(Subset(ready, notReady));
  }

  // ---- changing an object step by step ----

  /** Those of the addresses that are not listed as ready, which is the only list looked at. */
  ghost function NotReadyYet(addrs: set<Addr>, ready: set<Addr>): set<Addr> {
    set a | a in addrs && forall b :: b in ready ==> b.ip != a.ip
  }

  /** addDanmep for one object: two real addresses are left off an object that has subsets. */
  ghost function Added(svc: Service, view: View, de: Dep, pod: Pod): View {
    var addrs := AddrsFor(de, pod);
    if view.Gone? then if GoesReady(svc, pod) then Sets(addrs, {}) else Sets({}, addrs)
    else if DualStack(de) then view
    else
      var missing := NotReadyYet(addrs, view.ready);
      Trimmed(if GoesReady(svc, pod) then Sets(view.ready + missing, view.notReady)
              else Sets(view.ready, view.notReady + missing))
  }

  ghost function WithoutIps(addrs: set<Addr>, ips: set<string>): set<Addr> { set a | a in addrs && a.ip !in ips }

  ghost function Removed(view: View, ips: set<string>): View {
    if view.Gone? then Gone else Trimmed(Sets(WithoutIps(view.ready, ips), WithoutIps(view.notReady, ips)))
  }

  /** Addresses of the Pod in the set. */
  ghost function OfPod(addrs: set<Addr>, name: string, uid: string): set<Addr> {
    set a | a in addrs && a.pod == name && a.uid == uid
  }

  /** The Pod's addresses change sides, except that with early publication none ever leaves the ready side. */
  ghost function Flipped(svc: Service, view: View, name: string, uid: string, newReady: bool): View {
    if view.Gone? then Gone
    else
      var leave := if newReady || svc.early then {} else OfPod(view.ready, name, uid);
      var enter := if newReady then OfPod(view.notReady, name, uid) else {};
      Sets(view.ready - leave + enter, view.notReady - enter + leave)
  }

  /** EpCheckUpdate with the update it sends. */
  method EpCheckUpdate(svc: Service, de: Dep, sub: Subset, pod: Pod) returns (after: Option<Subset>)
    requires DistinctIps(sub.addresses + sub.notReady)
    ensures ViewOf(after) == Added(svc, ViewOf(Some(sub)), de, pod)
    ensures Unlisted(ViewOf(Some(sub)), IpsOf(de)) ==> Proper(after)
  {
    var wasIpv4AddressFound := IsIpInEp(de.v4, sub.addresses);
    var wasIpv6AddressFound := IsIpInEp(de.v6, sub.addresses);
    NoUnrealIp(sub, de.v4);
    NoUnrealIp(sub, de.v6);
    if (wasIpv4AddressFound || IsReal(de.v4)) && (wasIpv6AddressFound || IsReal(de.v6)) {
      return Some(sub);
    }
    var epAddrs := if GoesReady(svc, pod) then sub.addresses else sub.notReady;
    var changed := CreateChangedEpAddressList(de.v4, de.v6, de.pod, pod.uid, sub.addresses, epAddrs);
    AppendFresh(sub, de, pod, epAddrs, changed);
    if Unlisted(ViewOf(Some(sub)), IpsOf(de)) {
      AppendDep(sub.addresses, sub.notReady, de, pod);
    }
    after := UpdateEndpoints(if GoesReady(svc, pod) then sub.(addresses := changed) else sub.(notReady := changed));
  }

  lemma AppendFresh(sub: Subset, de: Dep, pod: Pod, epAddrs: seq<Addr>, changed: seq<Addr>)
    requires !DualStack(de)
    requires var listed, uid := sub.addresses, pod.uid;
      changed == epAddrs
      + (if IsReal(de.v4) && !(exists a :: a in listed && a.ip == de.v4) then [Addr(de.v4, de.pod, uid)] else [])
      + (if IsReal(de.v6) && !(exists a :: a in listed && a.ip == de.v6) then [Addr(de.v6, de.pod, uid)] else [])
    ensures Elements(changed) == Elements(epAddrs) + NotReadyYet(AddrsFor(de, pod), Elements(sub.addresses))
    ensures Unlisted(ViewOf(Some(sub)), IpsOf(de)) ==> changed == epAddrs + ListOf(de, pod.uid)
  {
  }

  lemma NoUnrealIp(sub: Subset, ip: string)
    requires DistinctIps(sub.addresses + sub.notReady)
    ensures forall a :: a in sub.addresses && a.ip == ip ==> IsReal(ip)
  {
    forall a | a in sub.addresses && a.ip == ip ensures IsReal(ip) {
      var i :| 0 <= i < |sub.addresses| && sub.addresses[i] == a;
      assert (sub.addresses + sub.notReady)[i] == a;
    }
  }

  /** The body of addDanmep for one matching Service. */
  method AddToEndpoints(svc: Service, sub: Option<Subset>, de: Dep, pods: map<string, Pod>)
    returns (after: Option<Subset>)
    requires de.pod in pods && Proper(sub)
    ensures ViewOf(after) == Added(svc, ViewOf(sub), de, pods[de.pod])
    ensures Unlisted(ViewOf(sub), IpsOf(de)) && (DualStack(de) ==> de.v4 != de.v6) ==> Proper(after)
  {
    if sub.Some? {
      after := EpCheckUpdate(svc, de, sub.value, pods[de.pod]);
    } else {
      after := MakeNewEps(svc, [de], pods);
      BuiltFromOne(svc, de, pods);
    }
  }

  lemma BuiltFromOne(svc: Service, de: Dep, pods: map<string, Pod>)
    requires de.pod in pods
    ensures DepsOf([de]) == {de} && Built(svc, {de}, pods) == Added(svc, Gone, de, pods[de.pod])
    ensures (DualStack(de) ==> de.v4 != de.v6) ==> ApartList([de])
  {
    assert DepsOf([de]) == {de};
    assert AddrsOf(svc, {de}, pods, true) == if GoesReady(svc, pods[de.pod]) then AddrsFor(de, pods[de.pod]) else {};
    assert AddrsOf(svc, {de}, pods, false) == if GoesReady(svc, pods[de.pod]) then {} else AddrsFor(de, pods[de.pod]);
  }

  function RemoveAt(s: seq<Addr>, at: Option<nat>): seq<Addr>
    requires at.Some? ==> at.value < |s|
  {
    if at.None? then s else s[..at.value] + s[at.value + 1..]
  }

  /** Both addresses are listed. */
  ghost predicate BothListed(de: Dep, addresses: seq<Addr>) {
    DualStack(de) && de.v4 != de.v6 && forall ip :: ip in IpsOf(de) ==> exists a :: a in addresses && a.ip == ip
  }

  /** Removing the only entry with one of the addresses leaves all others. */
  lemma RemovedElements(s: seq<Addr>, at: Option<nat>, de: Dep)
    requires DistinctIps(s) && (at.Some? ==> at.value < |s| && s[at.value].ip in IpsOf(de))
    requires forall j :: 0 <= j < |s| && at != Some(j) ==> s[j].ip !in IpsOf(de)
    ensures Elements(RemoveAt(s, at)) == WithoutIps(Elements(s), IpsOf(de)) && !BothListed(de, s)
  {
    forall a | a in WithoutIps(Elements(s), IpsOf(de)) ensures a in RemoveAt(s, at) {
      var j :| 0 <= j < |s| && s[j] == a;
      assert at.Some? && j > at.value ==> RemoveAt(s, at)[j - 1] == a;
      assert at.Some? && j < at.value ==> RemoveAt(s, at)[j] == a;
    }
    if DualStack(de) && de.v4 != de.v6 {
      var missing := if at.Some? && s[at.value].ip == de.v4 then de.v6 else de.v4;
      assert missing in IpsOf(de);
      forall a | a in s ensures a.ip != missing {
        var j :| 0 <= j < |s| && s[j] == a;
      }
    }
  }

  lemma HitIsIp(de: Dep, s: seq<Addr>, i: nat)
    requires DistinctIps(s) && i < |s|
    ensures de.v4 == s[i].ip || de.v6 == s[i].ip <==> s[i].ip in IpsOf(de)
  {
  }

  /** Two entries with addresses of a DanmEp have both, and no other entry has one. */
  lemma SecondHit(de: Dep, s: seq<Addr>, p: nat, q: nat)
    requires DistinctIps(s) && p < q < |s| && s[p].ip in IpsOf(de) && s[q].ip in IpsOf(de)
    ensures BothListed(de, s)
    ensures forall j :: 0 <= j < |s| && s[j].ip in IpsOf(de) ==> j == p || j == q
  {
    assert s[p].ip != s[q].ip;
    assert s[p] in s && s[q] in s;
  }

  /**
    The loop over deleteFromEpAddressList, which deletes at the original index from the shrinking list: the
    second deletion takes the entry after the right one, or panics (None) if that was the last.
   */
  method DeleteFromList(de: Dep, addresses: seq<Addr>) returns (kept: Option<seq<Addr>>, ghost at: Option<nat>)
    requires DistinctIps(addresses)
    ensures at.Some? ==> at.value < |addresses|
    ensures BothListed(de, addresses) ==>
      kept.None? || Elements(kept.value) != WithoutIps(Elements(addresses), IpsOf(de))
    ensures !BothListed(de, addresses) ==>
      kept == Some(RemoveAt(addresses, at)) && Elements(kept.value) == WithoutIps(Elements(addresses), IpsOf(de))
  {
    hide IpsOf, DistinctIps, BothListed;
    at := None;
    ghost var next: Option<nat> := None;
    var epAddrs := addresses;
    for index := 0 to |addresses|
      invariant at.Some? ==> at.value < index && addresses[at.value].ip in IpsOf(de)
      invariant next.Some? ==> at.Some? && at.value < next.value < index && addresses[next.value].ip in IpsOf(de)
      invariant next.None? ==> forall j :: 0 <= j < index && at != Some(j) ==> addresses[j].ip !in IpsOf(de)
      invariant next.None? ==> epAddrs == RemoveAt(addresses, at)
      invariant next.Some? ==> addresses[next.value] in epAddrs
    {
      HitIsIp(de, addresses, index);
      if de.v4 == addresses[index].ip || de.v6 == addresses[index].ip {
        if at.Some? {
          SecondHit(de, addresses, at.value, if next.Some? then next.value else index);
        }
        if index + 1 > |epAddrs| {
          return None, at;
        }
        if at.Some? {
          assert epAddrs[index - 1] == addresses[index];
          next := Some(index);
        } else {
          at := Some(index);
        }
        epAddrs := epAddrs[..index] + epAddrs[index + 1..];
      }
    }
    if next.None? {
      RemovedElements(addresses, at, de);
    } else {
      SecondHit(de, addresses, at.value, next.value);
      assert addresses[next.value] in Elements(epAddrs);
    }
    return Some(epAddrs), at;
  }

  lemma PartsDistinct(s: seq<Addr>, t: seq<Addr>)
    requires DistinctIps(s + t)
    ensures DistinctIps(s) && DistinctIps(t)
  {
    forall k | 0 <= k < |s| ensures s[k] == (s + t)[k] { }
    forall k | 0 <= k < |t| ensures t[k] == (s + t)[|s| + k] { }
  }

  lemma RemoveOneKeepsDistinct(s: seq<Addr>, at: Option<nat>)
    requires DistinctIps(s) && (at.Some? ==> at.value < |s|)
    ensures DistinctIps(RemoveAt(s, at))
  {
  }

  lemma RemoveInFirst(s: seq<Addr>, t: seq<Addr>, at: Option<nat>)
    requires at.Some? ==> at.value < |s|
    ensures RemoveAt(s + t, at) == RemoveAt(s, at) + t
  {
    if at.Some? {
      assert (s + t)[..at.value] == s[..at.value] && (s + t)[at.value + 1..] == s[at.value + 1..] + t;
    }
  }

  lemma RemoveInSecond(s: seq<Addr>, t: seq<Addr>, at: nat)
    requires at < |t|
    ensures RemoveAt(s + t, Some(|s| + at)) == s + RemoveAt(t, Some(at))
  {
  }

  lemma RemovalKeepsDistinct(s: seq<Addr>, t: seq<Addr>, i: Option<nat>, j: Option<nat>)
    requires DistinctIps(s + t) && (i.Some? ==> i.value < |s|) && (j.Some? ==> j.value < |t|)
    ensures DistinctIps(RemoveAt(s, i) + RemoveAt(t, j))
  {
    hide DistinctIps;
    RemoveInFirst(s, t, i);
    RemoveOneKeepsDistinct(s + t, i);
    if j.Some? {
      var s' := RemoveAt(s, i);
      RemoveInSecond(s', t, j.value);
      RemoveOneKeepsDistinct(s' + t, Some(|s'| + j.value));
    }
  }

  /** What a handler leaves in the store, unless it brings the controller down. */
  datatype Outcome = Panicked | Stored(sub: Option<Subset>)

  /** The body of delDanmep for one matching object; it goes wrong exactly for two addresses in one list. */
  method DeleteFromEndpoints(sub: Subset, de: Dep) returns (after: Outcome)
    requires DistinctIps(sub.addresses + sub.notReady)
    ensures after.Stored? && ViewOf(after.sub) == Removed(ViewOf(Some(sub)), IpsOf(de)) <==>
      !BothListed(de, sub.addresses) && !BothListed(de, sub.notReady)
    ensures !BothListed(de, sub.addresses) && !BothListed(de, sub.notReady) ==> Proper(after.sub)
  {
    PartsDistinct(sub.addresses, sub.notReady);
    var ready, i := DeleteFromList(de, sub.addresses);
    var notReady, j := DeleteFromList(de, sub.notReady);
    if ready.None? || notReady.None? {
      return Panicked;
    }
    if !BothListed(de, sub.addresses) && !BothListed(de, sub.notReady) {
      RemovalKeepsDistinct(sub.addresses, sub.notReady, i, j);
    }
    var updated := UpdateEndpoints(Subset(ready.value, notReady.value));
    after := Stored(updated);
  }

  // ---- readiness flips: two maps by address, between which the Pod's entries move ----

  ghost predicate Keyed(m: map<string, Addr>, all: set<Addr>) {
    && (forall k :: k in m ==> m[k].ip == k && m[k] in all)
    && forall a :: a in all ==> a.ip in m && m[a.ip] == a
  }

  ghost predicate ApartSets(s: set<Addr>, t: set<Addr>) { forall a, b :: a in s && b in t ==> a.ip != b.ip }

  /** A set of real addresses, none used twice. */
  ghost predicate UniqueIps(s: set<Addr>) {
    (forall a :: a in s ==> IsReal(a.ip)) && forall a, b :: a in s && b in s && a.ip == b.ip ==> a == b
  }

  lemma ListsAsSets(s: seq<Addr>, t: seq<Addr>)
    requires DistinctIps(s + t)
    ensures DistinctIps(s) && DistinctIps(t)
    ensures ApartSets(Elements(s), Elements(t)) && UniqueIps(Elements(s) + Elements(t))
  {
    PartsDistinct(s, t);
    forall a, b | a in s && b in t ensures a.ip != b.ip {
      var i :| 0 <= i < |s| && s[i] == a;
      var j :| 0 <= j < |t| && t[j] == b;
      assert (s + t)[i] == a && (s + t)[|s| + j] == b;
    }
  }

  lemma SetsAsLists(s: seq<Addr>, t: seq<Addr>)
    requires DistinctIps(s) && DistinctIps(t) && ApartSets(Elements(s), Elements(t))
    ensures DistinctIps(s + t)
  {
  }

  lemma MoveKeepsApart(s: set<Addr>, t: set<Addr>, moved: set<Addr>)
    requires UniqueIps(s + t) && ApartSets(s, t) && moved <= s
    ensures ApartSets(s - moved, t + moved) && ApartSets(t + moved, s - moved)
    ensures UniqueIps(s - moved) && UniqueIps(t + moved) && UniqueIps(t + s)
  {
  }

  method ToMap(addresses: seq<Addr>) returns (m: map<string, Addr>)
    requires DistinctIps(addresses)
    ensures Keyed(m, Elements(addresses))
  {
    m := map[];
    for i := 0 to |addresses|
      invariant Keyed(m, Elements(addresses[..i]))
    {
      assert addresses[..i + 1] == addresses[..i] + [addresses[i]];
      m := m[addresses[i].ip := addresses[i]];
    }
    assert addresses[..|addresses|] == addresses;
  }

  /** Ranging over the map gives its entries in some order. */
  method FromMap(m: map<string, Addr>, ghost all: set<Addr>) returns (addresses: seq<Addr>)
    requires Keyed(m, all) && UniqueIps(all)
    ensures Elements(addresses) == all && DistinctIps(addresses)
  {
    addresses := [];
    var keys := m.Keys;
    while keys != {}
      invariant keys <= m.Keys
      invariant forall a :: a in addresses <==> a in all && a.ip !in keys
      invariant DistinctIps(addresses)
    {
      var k :| k in keys;
      addresses := addresses + [m[k]];
      keys := keys - {k};
    }
  }

  /** The Pod's entries among `addresses` go from one map to the other. */
  method MovePod(addresses: seq<Addr>, name: string, uid: string, src: map<string, Addr>, dst: map<string, Addr>,
                 ghost there: set<Addr>, ghost here: set<Addr>)
    returns (src': map<string, Addr>, dst': map<string, Addr>)
    requires Keyed(src, there) && Keyed(dst, here) && DistinctIps(addresses) && Elements(addresses) <= there
    requires ApartSets(there, here)
    ensures Keyed(src', there - OfPod(Elements(addresses), name, uid))
    ensures Keyed(dst', here + OfPod(Elements(addresses), name, uid))
  {
    src', dst' := src, dst;
    for i := 0 to |addresses|
      invariant Keyed(src', there - OfPod(Elements(addresses[..i]), name, uid))
      invariant Keyed(dst', here + OfPod(Elements(addresses[..i]), name, uid))
    {
      var a := addresses[i];
      ghost var moved := OfPod(Elements(addresses[..i]), name, uid);
      assert addresses[..i + 1] == addresses[..i] + [a];
      assert a in Elements(addresses);
      assert OfPod(Elements(addresses[..i + 1]), name, uid) ==
        moved + if a.pod == name && a.uid == uid then {a} else {};
      if a.pod == name && a.uid == uid {
        KeyedMove(src', dst', there - moved, here + moved, a);
        src', dst' := src' - {a.ip}, dst'[a.ip := a];
        assert there - moved - {a} == there - (moved + {a});
        assert here + moved + {a} == here + (moved + {a});
      }
    }
    assert addresses[..|addresses|] == addresses;
  }

  lemma KeyedMove(src: map<string, Addr>, dst: map<string, Addr>, there: set<Addr>, here: set<Addr>, a: Addr)
    requires Keyed(src, there) && Keyed(dst, here) && a in there && forall b :: b in here ==> b.ip != a.ip
    ensures Keyed(src - {a.ip}, there - {a}) && Keyed(dst[a.ip := a], here + {a})
  {
  }

  /** UpdatePodStatusInEps for one object, with the update that follows. */
  method UpdatePodStatusInEps(svc: Service, sub: Subset, name: string, uid: string, oldReady: bool, newReady: bool)
    returns (after: Option<Subset>)
    requires DistinctIps(sub.addresses + sub.notReady) && oldReady != newReady
    ensures Proper(after)
    ensures ViewOf(after) == Trimmed(Flipped(svc, ViewOf(Some(sub)), name, uid, newReady))
  {
    hide DistinctIps, Keyed, ApartSets, UniqueIps, Elements;
    ListsAsSets(sub.addresses, sub.notReady);
    var readyAddrs := ToMap(sub.addresses);
    var notReadyAddrs := ToMap(sub.notReady);
    ghost var was, wasNot := Elements(sub.addresses), Elements(sub.notReady);
    ghost var leave := if (oldReady || (newReady && svc.early)) && !svc.early then OfPod(was, name, uid) else {};
    ghost var enter := if newReady then OfPod(wasNot, name, uid) else {};
    MoveKeepsApart(was, wasNot, leave);
    if (oldReady || (newReady && svc.early)) && !svc.early {
      readyAddrs, notReadyAddrs := MovePod(sub.addresses, name, uid, readyAddrs, notReadyAddrs, was, wasNot);
    }
    ghost var ready, notReady := was - leave, wasNot + leave;
    assert leave == {} ==> ready == was && notReady == wasNot;
    if newReady {
      assert leave == {};
      MoveKeepsApart(notReady, ready, enter);
      notReadyAddrs, readyAddrs := MovePod(sub.notReady, name, uid, notReadyAddrs, readyAddrs, notReady, ready);
      ready, notReady := ready + enter, notReady - enter;
    }
    assert Sets(ready, notReady) == Flipped(svc, ViewOf(Some(sub)), name, uid, newReady);
    var addresses := FromMap(readyAddrs, ready);
    var others := FromMap(notReadyAddrs, notReady);
    SetsAsLists(addresses, others);
    after := UpdateEndpoints(Subset(addresses, others));
  }
}
