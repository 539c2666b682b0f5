/**
  VNI allocation of pkg/confman and the choice of an interface profile in pkg/admit, on
  one copy of the TenantConfig.
 */
module Confman {
  import opened Wrappers
  import opened Ipam
  import Base64
  import BitArrays

  /** One entry of hostDevices; the VNI range is taken as the ascending list of its members. */
  datatype Profile = Profile(name: string, vniType: string, vniRange: seq<nat>, alloc: Bitmap)

  /** The fields of a TenantNetwork that VNI handling reads and writes. */
  datatype Tnet = Tnet(device: string, devicePool: string, vlan: nat, vxlan: nat)

  /** The first profile of that name and type, as the list may hold one interface several times. */
  function IfaceIndex(conf: seq<Profile>, name: string, vniType: string): (index: Option<nat>)
    ensures index.Some? ==>
      index.value < |conf| && conf[index.value].name == name && conf[index.value].vniType == vniType
    ensures index.Some? ==> forall j :: 0 <= j < index.value ==> conf[j].name != name || conf[j].vniType != vniType
    ensures index.None? ==> forall j :: 0 <= j < |conf| ==> conf[j].name != name || conf[j].vniType != vniType
  {
    if |conf| == 0 then None
    else if conf[0].name == name && conf[0].vniType == vniType then Some(0)
    else
      var rest := IfaceIndex(conf[1..], name, vniType);
      if rest.None? then None else Some(rest.value + 1)
  }

  /** The first member of the range whose bit is clear. */
  function FirstFreeVni(vnis: seq<nat>, on: set<nat>): (vni: Option<nat>)
    ensures vni.Some? ==> vni.value in vnis && vni.value !in on
    ensures vni.None? <==> forall v :: v in vnis ==> v in on
  {
    if |vnis| == 0 then None
    else if vnis[0] !in on then Some(vnis[0])
    else FirstFreeVni(vnis[1..], on)
  }

  /** All members of the range before the chosen one are taken. */
  lemma {:induction false} FirstFreeVniIsFirst(vnis: seq<nat>, on: set<nat>)
    ensures var vni := FirstFreeVni(vnis, on);
      vni.Some? ==>
        && vni.value !in on
        && exists i :: 0 <= i < |vnis| && vnis[i] == vni.value && forall k :: 0 <= k < i ==> vnis[k] in on
  {
    var vni := FirstFreeVni(vnis, on);
    if |vnis| == 0 {
    } else if vnis[0] !in on {
      assert vnis[0] == vni.value;
    } else if vni.Some? {
      FirstFreeVniIsFirst(vnis[1..], on);
      var rest := vnis[1..];
      var i :| 0 <= i < |rest| && rest[i] == vni.value && forall k :: 0 <= k < i ==> rest[k] in on;
      assert vnis[i + 1] == vni.value && forall k :: 1 <= k < i + 1 ==> vnis[k] == rest[k - 1];
    }
  }

  /** What validateIfaceConfig and mutateConfigManifest establish for a profile with VNIs. */
  predicate ProfileOk(p: Profile) {
    && (forall v :: v in p.vniRange ==> v < p.alloc.size)
    && (forall i :: i in p.alloc.on ==> i < p.alloc.size)
  }

  /** reserveVni; an empty bitmap or a full range is refused. */
  function ReserveVni(p: Profile): Option<nat> {
    if p.alloc.size == 0 then None else FirstFreeVni(p.vniRange, p.alloc.on)
  }

  /** The VNI is the first of the range that is clear. */
  ghost predicate FirstFree(p: Profile, vni: nat) {
    && vni !in p.alloc.on
    && exists i :: 0 <= i < |p.vniRange| && p.vniRange[i] == vni
         && forall k :: 0 <= k < i ==> p.vniRange[k] in p.alloc.on
  }

  /** A reservation is refused exactly without a bitmap or a clear VNI, and otherwise gets the first one. */
  lemma ReserveVniExactly(p: Profile)
    ensures ReserveVni(p).None? <==> p.alloc.size == 0 || forall v :: v in p.vniRange ==> v in p.alloc.on
    ensures ReserveVni(p).Some? ==> ReserveVni(p).value in p.vniRange && FirstFree(p, ReserveVni(p).value)
  {
    FirstFreeVniIsFirst(p.vniRange, p.alloc.on);
  }

  function WithBit(conf: seq<Profile>, index: nat, vni: nat): seq<Profile>
    requires index < |conf|
  {
    conf[index := conf[index].(alloc := conf[index].alloc.(on := conf[index].alloc.on + {vni}))]
  }

  function WithoutBit(conf: seq<Profile>, index: nat, vni: nat): seq<Profile>
    requires index < |conf|
  {
    conf[index := conf[index].(alloc := conf[index].alloc.(on := conf[index].alloc.on - {vni}))]
  }

  // ---- admission of a TenantNetwork ----

  predicate HasSlash(name: string) { '/' in name }

  /** The profile matches the interface the network asks for: a device pool by name, or a real NIC. */
  predicate Requested(tnet: Tnet, p: Profile) {
    || (tnet.devicePool != "" && tnet.devicePool == p.name)
    || (tnet.device == p.name && !HasSlash(p.name))
  }

  predicate AsksForInterface(tnet: Tnet) { tnet.device != "" || tnet.devicePool != "" }

  /** What admission may choose: the first profile asked for, or any real NIC if none is asked for. */
  ghost predicate Choosable(conf: seq<Profile>, tnet: Tnet, index: nat) {
    && index < |conf|
    && if tnet.device != "" || tnet.devicePool != ""
       then Requested(tnet, conf[index]) && forall j :: 0 <= j < index ==> !Requested(tnet, conf[j])
       else '/' !in conf[index].name
  }

  /** An interface is asked for by its name; a device, but not a device pool, must be a real NIC. */
  lemma RequestedExactly(tnet: Tnet, p: Profile)
    requires Admissible(tnet) && p.name != ""
    ensures Requested(tnet, p) <==>
      if tnet.device != "" then p.name == tnet.device && '/' !in p.name else p.name == tnet.devicePool
  {
  }

  /** allocateDetailsForDynamicBackends up to its choice; `draw` stands for the random number. */
  method ChooseProfile(conf: seq<Profile>, tnet: Tnet, draw: nat) returns (index: Option<nat>)
    requires forall p :: p in conf ==> p.name != ""
    ensures index.Some? ==> Choosable(conf, tnet, index.value)
    ensures index.None? <==> forall j :: 0 <= j < |conf| ==>
      if tnet.device != "" || tnet.devicePool != "" then !Requested(tnet, conf[j]) else '/' in conf[j].name
  {
    var pfProfiles := [];
    for i := 0 to |conf|
      invariant forall j :: 0 <= j < i ==> !Requested(tnet, conf[j])
      invariant forall k :: 0 <= k < |pfProfiles| ==> 0 <= pfProfiles[k] < i && !HasSlash(conf[pfProfiles[k]].name)
      invariant forall j :: 0 <= j < i && !HasSlash(conf[j].name) ==> j in pfProfiles
    {
      if Requested(tnet, conf[i]) {
        assert conf[i] in conf;
        return Some(i);
      }
      if !HasSlash(conf[i].name) {
        pfProfiles := pfProfiles + [i];
      }
    }
    if AsksForInterface(tnet) || |pfProfiles| == 0 {
      return None;
    }
    return Some(pfProfiles[draw % |pfProfiles|]);
  }

  /** attachNetworkToIfaceProfile after a VNI was reserved. */
  function Attached(tnet: Tnet, name: string, vniType: string, vni: nat): Tnet {
    var placed := if AsksForInterface(tnet) then tnet else tnet.(device := name);
    if vniType == "vlan" then placed.(vlan := vni) else placed.(vxlan := vni)
  }

  /** What confman.Free reads off the network: interface name, VNI type and VNI. */
  function FreeKey(tnet: Tnet): (string, string, nat) {
    (if tnet.devicePool != "" then tnet.devicePool else tnet.device,
     if tnet.vxlan != 0 then "vxlan" else "vlan",
     if tnet.vxlan != 0 then tnet.vxlan else tnet.vlan)
  }

  /** An admitted manifest has no VNI yet and does not name both a device and a device pool. */
  predicate Admissible(tnet: Tnet) {
    tnet.vlan == 0 && tnet.vxlan == 0 && (tnet.device == "" || tnet.devicePool == "")
  }

  /**
    The VNI goes into the field of its type, and the network is on the interface it asked for or else on the
    one chosen; so deletion finds the profile and the VNI that admission used.
   */
  lemma FreeKeyFindsReservation(conf: seq<Profile>, tnet: Tnet, index: nat, vni: nat)
    requires Choosable(conf, tnet, index) && Admissible(tnet) && vni != 0
    requires conf[index].vniType == "vlan" || conf[index].vniType == "vxlan"
    requires conf[index].name != ""
    ensures var (name, vniType) := (conf[index].name, conf[index].vniType);
      var attached := Attached(tnet, name, vniType, vni);
      && attached.vlan == (if vniType == "vlan" then vni else 0)
      && attached.vxlan == (if vniType == "vxlan" then vni else 0)
      && attached.devicePool == tnet.devicePool
      && attached.device == (if tnet.device == "" && tnet.devicePool == "" then name else tnet.device)
      && FreeKey(attached) == (name, vniType, vni)
  {
  }

  // ---- the same on persisted text ----

  datatype TextProfile = TextProfile(name: string, vniType: string, vniRange: seq<nat>, alloc: string)

  ghost function Read(p: TextProfile): Profile { Profile(p.name, p.vniType, p.vniRange, Persisted(p.alloc)) }

  ghost function ReadAll(conf: seq<TextProfile>): seq<Profile> {
    seq(|conf|, i requires 0 <= i < |conf| => Read(conf[i]))
  }

  method GetIfaceIndex(conf: seq<TextProfile>, name: string, vniType: string) returns (index: Option<nat>)
    ensures index == IfaceIndex(ReadAll(conf), name, vniType)
  {
    for i := 0 to |conf|
      invariant forall j :: 0 <= j < i ==> conf[j].name != name || conf[j].vniType != vniType
    {
      if conf[i].name == name && conf[i].vniType == vniType {
        assert ReadAll(conf)[i].name == name && ReadAll(conf)[i].vniType == vniType;
        assert forall j :: 0 <= j < i ==> ReadAll(conf)[j] == Read(conf[j]);
        return Some(i);
      }
    }
    return None;
  }

  method ReserveVniText(p: TextProfile) returns (vni: Option<nat>, alloc: string)
    requires Loadable(p.alloc) && ProfileOk(Read(p))
    ensures vni == ReserveVni(Read(p))
    ensures vni.Some? ==> Loadable(alloc)
    ensures vni.Some? ==> Persisted(alloc) == Read(p).alloc.(on := Read(p).alloc.on + {vni.value})
  {
    var allocs := BitArrays.NewBitArrayFromBase64(p.alloc);
    if allocs.len == 0 {
      return None, "";
    }
    ghost var on := allocs.On();
    for i := 0 to |p.vniRange|
      invariant allocs.On() == on
      invariant FirstFreeVni(p.vniRange, on) == FirstFreeVni(p.vniRange[i..], on)
    {
      assert p.vniRange[i..][0] == p.vniRange[i] && p.vniRange[i..][1..] == p.vniRange[i + 1..];
      assert p.vniRange[i] in Read(p).vniRange;
      var isSet := allocs.Get(p.vniRange[i]);
      if !isSet {
        allocs.Set(p.vniRange[i]);
        alloc := allocs.Encode();
        Base64.DecodeEncode(allocs.data[..]);
        return Some(p.vniRange[i]), alloc;
      }
    }
    return None, "";
  }

  method FreeVniText(p: TextProfile, vni: nat) returns (alloc: Option<string>)
    requires Loadable(p.alloc) && (|Base64.Decode(p.alloc)| > 0 ==> vni < 8 * |Base64.Decode(p.alloc)|)
    ensures alloc.None? <==> Persisted(p.alloc).size == 0
    ensures alloc.Some? ==> Loadable(alloc.value)
    ensures alloc.Some? ==> Persisted(alloc.value) == Persisted(p.alloc).(on := Persisted(p.alloc).on - {vni})
  {
    var allocs := BitArrays.NewBitArrayFromBase64(p.alloc);
    if allocs.len == 0 {
      return None;
    }
    allocs.Reset(vni);
    var text := allocs.Encode();
    Base64.DecodeEncode(allocs.data[..]);
    return Some(text);
  }
}
