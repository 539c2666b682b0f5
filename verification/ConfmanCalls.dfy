/**
  Reserve and Free of pkg/confman as the loops they are, over the persisted TenantConfig on the API
  server; each call is proved to be what one process of the step machine does on its versions.
 */
module ConfmanCalls {
  import opened Wrappers
  import opened Ipam
  import opened Confman
  import opened ApiServer
  import opened LocalRuns
  import VniLocal
  import VniProtocol
  import Base64

  ghost predicate GoodConfig(conf0: seq<Profile>, conf: seq<TextProfile>) {
    VniProtocol.SameProfiles(conf0, ReadAll(conf)) && forall p :: p in conf ==> Loadable(p.alloc)
  }

  ghost predicate Serves(api: Cell<seq<TextProfile>, VniProtocol.Res>, conf0: seq<Profile>)
    reads api
  {
    api.Valid() && forall x :: api.ok(x) <==> GoodConfig(conf0, x)
  }

  ghost function Versions(hist: seq<seq<TextProfile>>): (confs: seq<seq<Profile>>)
    ensures |confs| == |hist| && forall v :: 0 <= v < |hist| ==> confs[v] == ReadAll(hist[v])
  {
    seq(|hist|, v requires 0 <= v < |hist| => ReadAll(hist[v]))
  }

  lemma VersionsGrow(hist: seq<seq<TextProfile>>, longer: seq<seq<TextProfile>>)
    requires hist <= longer
    ensures Versions(hist) <= Versions(longer)
    ensures |longer| == |hist| + 1 ==> Versions(longer) == Versions(hist) + [ReadAll(longer[|hist|])]
  {
  }

  /** Writing one bitmap back into the copy. */
  lemma ReplaceAlloc(conf0: seq<Profile>, conf: seq<TextProfile>, index: nat, alloc: string, on: set<nat>)
    requires GoodConfig(conf0, conf) && index < |conf| && Loadable(alloc)
    requires Persisted(alloc) == Read(conf[index]).alloc.(on := on)
    requires forall i :: i in on ==> i < Read(conf[index]).alloc.size
    ensures GoodConfig(conf0, conf[index := conf[index].(alloc := alloc)])
    ensures ReadAll(conf[index := conf[index].(alloc := alloc)])
         == ReadAll(conf)[index := ReadAll(conf)[index].(alloc := Persisted(alloc))]
  {
  }

  datatype Result = Reserved(vni: nat) | Freed | Failure

  /** What reserving does to one version of the configuration: the first VNI of the range that is clear is set. */
  ghost predicate ReservedOn(before: seq<TextProfile>, after: seq<TextProfile>, name: string, vniType: string,
          vni: nat)
  {
    var i := IfaceIndex(ReadAll(before), name, vniType);
    && i.Some? && FirstFree(ReadAll(before)[i.value], vni) && ReserveVni(ReadAll(before)[i.value]) == Some(vni)
    && ReadAll(after) == WithBit(ReadAll(before), i.value, vni)
  }

  /** There is nothing to reserve in one version: no such profile, no bitmap, or no VNI of the range is left. */
  ghost predicate FullOn(tconf: seq<TextProfile>, name: string, vniType: string) {
    var conf := ReadAll(tconf);
    var i := IfaceIndex(conf, name, vniType);
    i.None? || conf[i.value].alloc.size == 0
      || forall vni :: vni in conf[i.value].vniRange ==> vni in conf[i.value].alloc.on
  }

  /** What releasing does to one version of the configuration. */
  ghost predicate FreedOn(before: seq<TextProfile>, after: seq<TextProfile>, name: string, vniType: string, vni: nat) {
    var i := IfaceIndex(ReadAll(before), name, vniType);
    i.Some? && ReadAll(after) == WithoutBit(ReadAll(before), i.value, vni)
  }

  /** One pass of the loop of Reserve on its copy. */
  method ReservePass(ghost conf0: seq<Profile>, tconf: seq<TextProfile>, name: string, vniType: string)
    returns (pass: Option<(seq<TextProfile>, nat)>)
    requires GoodConfig(conf0, tconf)
    ensures pass.Some? ==>
      GoodConfig(conf0, pass.value.0) && ReservedOn(tconf, pass.value.0, name, vniType, pass.value.1)
    ensures pass.None? <==> FullOn(tconf, name, vniType)
  {
    var index := GetIfaceIndex(tconf, name, vniType);
    if index.None? {
      return None;
    }
    var p := tconf[index.value];
    assert ReadAll(tconf)[index.value] == Read(p);
    var vni, alloc := ReserveVniText(p);
    ReserveVniExactly(Read(p));
    if vni.None? {
      return None;
    }
    ReplaceAlloc(conf0, tconf, index.value, alloc, Read(p).alloc.on + {vni.value});
    return Some((tconf[index.value := p.(alloc := alloc)], vni.value));
  }

  datatype FreePassed = NoProfile | Corrupt | Next(conf: seq<TextProfile>)

  /** One pass of the loop of Free on its copy. */
  method FreePass(ghost conf0: seq<Profile>, tconf: seq<TextProfile>, name: string, vniType: string, vni: nat)
    returns (pass: FreePassed)
    requires GoodConfig(conf0, tconf)
    requires var i := IfaceIndex(conf0, name, vniType);
      i.Some? && conf0[i.value].alloc.size > 0 ==> vni < conf0[i.value].alloc.size
    ensures pass.NoProfile? <==> IfaceIndex(conf0, name, vniType).None?
    ensures pass.Corrupt? <==>
      var i := IfaceIndex(conf0, name, vniType); i.Some? && conf0[i.value].alloc.size == 0
    ensures pass.Next? ==> GoodConfig(conf0, pass.conf) && FreedOn(tconf, pass.conf, name, vniType, vni)
  {
    var index := GetIfaceIndex(tconf, name, vniType);
    VniProtocol.SameIndices(conf0, ReadAll(tconf), name, vniType);
    if index.None? {
      return NoProfile;
    }
    var p := tconf[index.value];
    assert ReadAll(tconf)[index.value] == Read(p);
    var alloc := FreeVniText(p, vni);
    if alloc.None? {
      return Corrupt;
    }
    ReplaceAlloc(conf0, tconf, index.value, alloc.value, Read(p).alloc.on - {vni});
    return Next(tconf[index.value := p.(alloc := alloc.value)]);
  }

  /** Some reservation for the interface and type led from one version to the next. */
  ghost predicate SomeReservedOn(before: seq<TextProfile>, after: seq<TextProfile>, name: string, vniType: string) {
    exists vni :: ReservedOn(before, after, name, vniType, vni)
  }

  datatype Updated = Written | NotWritten | Refreshed(ver: nat, newConf: seq<TextProfile>)

  /**
    updateTenantConf: one PUT of what the pass of process `p` has computed and, after a conflict, a new
    copy.  It gives up only for an error of the PUT or of that read.
   */
  method UpdateTenantConf(api: Cell<seq<TextProfile>, VniProtocol.Res>, ghost conf0: seq<Profile>, ver: nat,
          next: seq<TextProfile>, ghost p0: VniProtocol.Proc, ghost trace: seq<Seen<VniProtocol.Action>>,
          ghost p: VniProtocol.Proc, ghost tnet: Tnet)
    returns (r: Updated, ghost landed: bool, ghost trace': seq<Seen<VniProtocol.Action>>)
    requires Serves(api, conf0) && ver <= api.version && GoodConfig(conf0, next)
    requires Told(VniLocal.Steps(), Versions(api.hist), p0, trace, p, {}) && p.Running? && p.ver == ver
    requires VniProtocol.PassOf(p.call, p.conf) == VniProtocol.Update(ReadAll(next), tnet)
    modifies api
    ensures Serves(api, conf0) && old(api.hist) <= api.hist && |api.foreign| <= old(|api.foreign|)
    ensures landed ==> ver + 1 == api.version == old(api.version) + 1 && api.value == next
    ensures api.own == old(api.own) + if landed then {api.version} else {}
    ensures (r.Written? ==> landed) && (r.Refreshed? ==> !landed)
    ensures api.errors == old(api.errors) + if r.NotWritten? then 1 else 0
    ensures r.Refreshed? ==> api.Knows(r.ver, r.newConf) && ver < r.ver == api.version
    ensures r.Refreshed? ==> |api.foreign| < old(|api.foreign|) || ver < old(api.version)
    ensures Told(VniLocal.Steps(), Versions(api.hist), p0, trace',
      match r
      case Written => VniProtocol.Finished(p.call, tnet)
      case NotWritten => VniProtocol.Failed(p.call)
      case Refreshed(ver, newConf) => VniProtocol.Running(p.call, p.first, ver, ReadAll(newConf), p.tries + 1),
      if landed then {api.version} else {})
  {
    hide GoodConfig, Told, Versions, ReadAll, VniProtocol.PassOf, VniLocal.Steps;
    ghost var before := api.hist;
    var reply;
    reply, landed := api.Update(ver, next, None, None);
    ghost var mid := api.hist;
    VersionsGrow(before, mid);
    if landed {
      trace' := VniLocal.AcceptedPass(Versions(before), Versions(mid), p0, trace, p, ReadAll(next), tnet, reply.Error?);
    }
    match reply
    case Error =>
      if !landed {
        trace' := VniLocal.FailedPass(Versions(before), Versions(mid), p0, trace, p, ReadAll(next), tnet);
      }
      r := NotWritten;
    case Accepted =>
      r := Written;
    case Conflict =>
      var latest := api.Refresh();
      VersionsGrow(mid, api.hist);
      trace' := VniLocal.VainPass(Versions(before), Versions(mid), Versions(api.hist), p0, trace, p, ReadAll(next),
                                  tnet, latest.None?);
      r := if latest.None? then NotWritten else Refreshed(latest.value.0, latest.value.1);
  }

  /** A CREATE or DELETE that has read this copy. */
  ghost function Begun(call: VniProtocol.Call, ver: nat, conf: seq<TextProfile>): VniProtocol.Proc {
    VniProtocol.Running(call, ver, ver, ReadAll(conf), 0)
  }

  /** A pass of the machine with that call on that copy reserves or frees what the loops do. */
  lemma PassReserves(tconf: seq<TextProfile>, next: seq<TextProfile>, tnet: Tnet, name: string, vniType: string,
          vni: nat)
    requires ReservedOn(tconf, next, name, vniType, vni)
    ensures VniProtocol.PassOf(VniProtocol.Create(tnet, name, vniType), ReadAll(tconf))
         == VniProtocol.Update(ReadAll(next), Attached(tnet, name, vniType, vni))
  {
  }

  lemma PassFrees(tconf: seq<TextProfile>, next: seq<TextProfile>, tnet: Tnet)
    requires tnet.vlan != 0 || tnet.vxlan != 0
    requires var (name, vniType, vni) := FreeKey(tnet);
      && FreedOn(tconf, next, name, vniType, vni)
      && ReadAll(tconf)[IfaceIndex(ReadAll(tconf), name, vniType).value].alloc.size != 0
    ensures VniProtocol.PassOf(VniProtocol.Delete(tnet), ReadAll(tconf)) == VniProtocol.Update(ReadAll(next), tnet)
  {
  }

  /**
    Reserve: its one write is the previous version with the first free VNI of the profile set.  It fails only
    for an error, when that write may have been accepted all the same, or because version `from` has no VNI
    left.  `trace` are the actions by which the CREATE of any network for that profile does the same in the
    step machine.
   */
  method Reserve(api: Cell<seq<TextProfile>, VniProtocol.Res>, ghost conf0: seq<Profile>, ver: nat,
          conf: seq<TextProfile>, name: string, vniType: string, ghost tnet: Tnet)
    returns (result: Result, ghost from: nat, ghost trace: seq<Seen<VniProtocol.Action>>)
    requires Serves(api, conf0) && api.Knows(ver, conf)
    modifies api
    ensures Serves(api, conf0) && old(api.hist) <= api.hist && !result.Freed? && from < |api.hist|
    ensures api.errors == old(api.errors) || (result.Failure? && api.errors == old(api.errors) + 1)
    ensures result.Failure? && api.errors == old(api.errors) ==>
      api.own == old(api.own) && FullOn(api.hist[from], name, vniType)
    ensures result.Failure? ==>
      || api.own == old(api.own)
      || (&& api.version > 0 && api.own == old(api.own) + {api.version}
          && SomeReservedOn(api.hist[api.version - 1], api.value, name, vniType))
    ensures result.Reserved? ==>
      && api.version > 0 && api.own == old(api.own) + {api.version}
      && ReservedOn(api.hist[api.version - 1], api.value, name, vniType, result.vni)
    ensures Told(VniLocal.Steps(), Versions(api.hist), Begun(VniProtocol.Create(tnet, name, vniType), ver, conf), trace,
      if result.Reserved? then VniProtocol.Live(Attached(tnet, name, vniType, result.vni)) else VniProtocol.Absent,
      api.own - old(api.own))
  {
    hide GoodConfig, FreedOn, ReservedOn, FullOn, Told, Versions, ReadAll, VniProtocol.PassOf, VniLocal.Steps, Attached;
    var tver: nat, tconf := ver, conf;
    ghost var call := VniProtocol.Create(tnet, name, vniType);
    ghost var p0, tries := Begun(call, ver, conf), 0;
    TellNothing(VniLocal.Steps(), Versions(api.hist), p0);
    trace := [];
    while true
      invariant Serves(api, conf0) && old(api.hist) <= api.hist && api.own == old(api.own)
      invariant api.Knows(tver, tconf) && api.errors == old(api.errors)
      invariant Told(VniLocal.Steps(), Versions(api.hist), p0, trace,
        VniProtocol.Running(call, ver, tver, ReadAll(tconf), tries), {})
      decreases |api.foreign|, tver < api.version
    {
      from := tver;
      assert api.own - old(api.own) == {};
      ghost var p := VniProtocol.Running(call, ver, tver, ReadAll(tconf), tries);
      var pass := ReservePass(conf0, tconf, name, vniType);
      if pass.None? {
        PassRefuses(tconf, tnet, name, vniType);
        trace := VniLocal.LastPass(Versions(api.hist), p0, trace, p);
        return Failure, from, trace;
      }
      var (next, vni) := pass.value;
      PassReserves(tconf, next, tnet, name, vniType, vni);
      ghost var landed;
      var updated;
      updated, landed, trace :=
        UpdateTenantConf(api, conf0, tver, next, p0, trace, p, Attached(tnet, name, vniType, vni));
      assert api.own - old(api.own) == if landed then {api.version} else {};
      match updated
      case Written => return Reserved(vni), from, trace;
      case NotWritten => return Failure, from, trace;
      case Refreshed(newVer, newConf) => tver, tconf, tries := newVer, newConf, tries + 1;
    }
  }

  lemma PassRefuses(tconf: seq<TextProfile>, tnet: Tnet, name: string, vniType: string)
    requires FullOn(tconf, name, vniType)
    ensures VniProtocol.PassOf(VniProtocol.Create(tnet, name, vniType), ReadAll(tconf)).Failure?
  {
    var i := IfaceIndex(ReadAll(tconf), name, vniType);
    if i.Some? {
      ReserveVniExactly(ReadAll(tconf)[i.value]);
    }
  }

  /** A DELETE whose pass finds no profile has nothing to do, and one that finds no bitmap fails. */
  lemma PassEnds(conf0: seq<Profile>, tconf: seq<TextProfile>, tnet: Tnet)
    requires GoodConfig(conf0, tconf) && (tnet.vlan != 0 || tnet.vxlan != 0)
    ensures var (name, vniType, _) := FreeKey(tnet);
      var i, pass := IfaceIndex(conf0, name, vniType), VniProtocol.PassOf(VniProtocol.Delete(tnet), ReadAll(tconf));
      && (i.None? ==> pass.Nothing?) && (i.Some? && conf0[i.value].alloc.size == 0 ==> pass.Failure?)
      && (i.Some? ==>
            && i == IfaceIndex(ReadAll(tconf), name, vniType)
            && ReadAll(tconf)[i.value].alloc.size == conf0[i.value].alloc.size)
  {
    VniProtocol.SameIndices(conf0, ReadAll(tconf), FreeKey(tnet).0, FreeKey(tnet).1);
  }

  /**
    Free: a network without VNI, or with an unknown interface, changes nothing; otherwise its one write
    clears its VNI.  It fails only for an error, when that write may have been accepted, or because its
    profile has no bitmap.  `trace` are the actions by which the network's DELETE does the same in the step
    machine.
   */
  method Free(api: Cell<seq<TextProfile>, VniProtocol.Res>, ghost conf0: seq<Profile>, ver: nat,
          conf: seq<TextProfile>, tnet: Tnet)
    returns (result: Result, ghost trace: seq<Seen<VniProtocol.Action>>)
    requires Serves(api, conf0) && api.Knows(ver, conf)
    requires var (name, vniType, vni) := FreeKey(tnet);
      var i := IfaceIndex(conf0, name, vniType);
      i.Some? && conf0[i.value].alloc.size > 0 ==> vni < conf0[i.value].alloc.size
    modifies api
    ensures Serves(api, conf0) && old(api.hist) <= api.hist && !result.Reserved?
    ensures api.errors == old(api.errors) || (result.Failure? && api.errors == old(api.errors) + 1)
    ensures result.Failure? && api.errors == old(api.errors) ==>
      var (name, vniType, _) := FreeKey(tnet);
      var i := IfaceIndex(conf0, name, vniType);
      i.Some? && conf0[i.value].alloc.size == 0
    ensures var (name, vniType, vni) := FreeKey(tnet);
      api.own == old(api.own)
      || (&& api.version > 0 && api.own == old(api.own) + {api.version}
          && FreedOn(api.hist[api.version - 1], api.value, name, vniType, vni))
    ensures var (name, vniType, _) := FreeKey(tnet);
      if (tnet.vlan == 0 && tnet.vxlan == 0) || IfaceIndex(conf0, name, vniType).None?
      then result.Freed? && api.own == old(api.own)
      else result.Freed? ==> api.own == old(api.own) + {api.version}
    ensures Told(VniLocal.Steps(), Versions(api.hist), Begun(VniProtocol.Delete(tnet), ver, conf), trace,
      if result.Freed? then VniProtocol.Absent else VniProtocol.Live(tnet), api.own - old(api.own))
  {
    hide GoodConfig, FreedOn, Told, Versions, ReadAll, VniLocal.Steps, FreeKey;
    ghost var call := VniProtocol.Delete(tnet);
    ghost var p0, tries := Begun(call, ver, conf), 0;
    TellNothing(VniLocal.Steps(), Versions(api.hist), p0);
    trace := [];
    assert api.own - old(api.own) == {};
    if tnet.vlan == 0 && tnet.vxlan == 0 {
      trace := VniLocal.LastPass(Versions(api.hist), p0, trace, p0);
      return Freed, trace;
    }
    hide VniProtocol.PassOf;
    var (name, vniType, vni) := FreeKey(tnet);
    var tver: nat, tconf := ver, conf;
    while true
      invariant Serves(api, conf0) && old(api.hist) <= api.hist && api.own == old(api.own)
      invariant api.Knows(tver, tconf) && api.errors == old(api.errors)
      invariant Told(VniLocal.Steps(), Versions(api.hist), p0, trace,
        VniProtocol.Running(call, ver, tver, ReadAll(tconf), tries), {})
      decreases |api.foreign|, tver < api.version
    {
      assert api.own - old(api.own) == {};
      ghost var p := VniProtocol.Running(call, ver, tver, ReadAll(tconf), tries);
      var pass := FreePass(conf0, tconf, name, vniType, vni);
      PassEnds(conf0, tconf, tnet);
      if !pass.Next? {
        trace := VniLocal.LastPass(Versions(api.hist), p0, trace, p);
        return if pass.NoProfile? then Freed else Failure, trace;
      }
      PassFrees(tconf, pass.conf, tnet);
      ghost var landed;
      var updated;
      updated, landed, trace := UpdateTenantConf(api, conf0, tver, pass.conf, p0, trace, p, tnet);
      assert api.own - old(api.own) == if landed then {api.version} else {};
      match updated
      case Written => return Freed, trace;
      case NotWritten => return Failure, trace;
      case Refreshed(newVer, newConf) => tver, tconf, tries := newVer, newConf, tries + 1;
    }
  }

  /**
    attachNetworkToIfaceProfile for a manifest without VNIs and the profile chosen for it: the network is on
    the interface it asked for, or on that of the profile, and has the VNI reserved for it there, if the
    profile has VNIs.  It is refused only for an error or for lack of a VNI.
   */
  method AttachNetworkToIfaceProfile(api: Cell<seq<TextProfile>, VniProtocol.Res>, ghost conf0: seq<Profile>,
          ver: nat, conf: seq<TextProfile>, tnet: Tnet, index: nat)
    returns (attached: Option<Tnet>, ghost from: nat)
    requires Serves(api, conf0) && api.Knows(ver, conf) && Admissible(tnet)
    requires index < |conf| && conf[index].name != "" && conf[index].vniType in ["", "vlan", "vxlan"]
    requires Choosable(ReadAll(conf), tnet, index)
    modifies api
    ensures Serves(api, conf0) && old(api.hist) <= api.hist && from < |api.hist|
    ensures attached.None? ==>
      && conf[index].vniType != ""
      && (api.errors == old(api.errors) + 1
          || (api.own == old(api.own) && FullOn(api.hist[from], conf[index].name, conf[index].vniType)))
    ensures attached.Some? ==>
      && api.errors == old(api.errors) && attached.value.devicePool == tnet.devicePool
      && attached.value.device ==
           if tnet.device == "" && tnet.devicePool == "" then conf[index].name else tnet.device
    ensures attached.Some? && conf[index].vniType == "" ==>
      attached.value.vlan == attached.value.vxlan == 0 && api.own == old(api.own)
    ensures attached.Some? && conf[index].vniType != "" ==>
      var vni := if conf[index].vniType == "vlan" then attached.value.vlan else attached.value.vxlan;
      && (if conf[index].vniType == "vlan" then attached.value.vxlan == 0 else attached.value.vlan == 0)
      && api.version > 0 && api.own == old(api.own) + {api.version}
      && ReservedOn(api.hist[api.version - 1], api.value, conf[index].name, conf[index].vniType, vni)
      && (vni != 0 ==> FreeKey(attached.value) == (conf[index].name, conf[index].vniType, vni))
  {
    hide GoodConfig, ReservedOn, FullOn, Told, Versions, VniLocal.Steps;
    var iface, placed := conf[index], tnet;
    from := ver;
    if tnet.device == "" && tnet.devicePool == "" {
      placed := tnet.(device := iface.name);
    }
    if (iface.vniType == "vlan" && tnet.vlan == 0) || (iface.vniType == "vxlan" && tnet.vxlan == 0) {
      var result;
      ghost var trace;
      result, from, trace := Reserve(api, conf0, ver, conf, iface.name, iface.vniType, tnet);
      if result.Failure? {
        return None, from;
      }
      assert ReadAll(conf)[index] == Read(iface);
      if result.vni != 0 {
        FreeKeyFindsReservation(ReadAll(conf), tnet, index, result.vni);
      }
      placed := if iface.vniType == "vlan" then placed.(vlan := result.vni) else placed.(vxlan := result.vni);
      assert placed == Attached(tnet, iface.name, iface.vniType, result.vni);
    }
    return Some(placed), from;
  }
}
