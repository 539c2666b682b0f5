/** Admission of a TenantConfig: its validation and the VNI bitmaps it starts with. */
module ConfAdmission {
  import opened Wrappers
  import opened Confman
  import A = Admission
  import I = Ipam
  import Base64
  import BitArrays
  import V = VniProtocol

  const MAX_ALLOWED_VNI := 5000

  /** One hostDevices entry as written; the range is the text that cpuset parsing reads. */
  datatype Iface = Iface(name: string, vniType: string, vniRange: A.Text<seq<nat>>, alloc: string)

  /** The VNIs of a range; an empty text is the empty range. */
  function RangeOf(iface: Iface): seq<nat> { if iface.vniRange.Parsed? then iface.vniRange.value else [] }

  function AsProfile(iface: Iface): TextProfile { TextProfile(iface.name, iface.vniType, RangeOf(iface), iface.alloc) }

  /** What validateIfaceConfig lets through. */
  ghost predicate IfaceOk(iface: Iface, create: bool) {
    && iface.name != "" && iface.vniType in ["", "vlan", "vxlan"]
    && (iface.vniType == "" <==> iface.vniRange.Blank?)
    && !iface.vniRange.Malformed?
    && (create ==> iface.alloc == "")
    && forall v :: v in RangeOf(iface) ==> v <= MAX_ALLOWED_VNI
  }

  method ValidateIfaceConfig(iface: Iface, create: bool) returns (ok: bool)
    ensures ok <==> IfaceOk(iface, create)
  {
    if iface.name == "" {
      return false;
    }
    if (iface.vniType == "" && iface.vniRange != A.Blank) || (iface.vniRange == A.Blank && iface.vniType != "") {
      return false;
    }
    if iface.vniType != "" && iface.vniType != "vlan" && iface.vniType != "vxlan" {
      return false;
    }
    if create && iface.alloc != "" {
      return false;
    }
    if iface.vniRange.Malformed? {
      return false;
    }
    var vniSet := RangeOf(iface);
    for i := 0 to |vniSet|
      invariant forall j :: 0 <= j < i ==> vniSet[j] <= MAX_ALLOWED_VNI
    {
      if vniSet[i] > MAX_ALLOWED_VNI {
        assert vniSet[i] in RangeOf(iface);
        return false;
      }
    }
    return true;
  }

  /** The bitmap of an interface with VNIs: 5001 bits rounded up to whole bytes, with position 0 set. */
  function FreshVnis(): I.Bitmap { I.Bitmap(5008, {0}) }

  method NewVnis() returns (text: string)
    ensures I.Canonical(text) && I.Persisted(text) == FreshVnis()
  {
    hide I.Canonical, I.Persisted;
    var bitArray := BitArrays.NewBitArray(MAX_ALLOWED_VNI + 1);
    text := bitArray.value.Encode();
    I.EncodePersists(bitArray.value.data[..]);
  }

  /** A profile after mutateConfigManifest: a missing bitmap is filled in, nothing else changes. */
  ghost predicate Initialised(before: Iface, after: Iface) {
    && after == before.(alloc := after.alloc)
    && if before.alloc != "" || before.vniType == "" then after == before
       else I.Canonical(after.alloc) && I.Persisted(after.alloc) == FreshVnis()
  }

  /** What validateTenantconfig asks of one NetworkID mapping. */
  ghost predicate MappingOk(nType: string, nId: string) {
    nType != "" && nId != "" && (|nId| <= A.MAX_NID_LENGTH || !A.DynamicType(nType))
  }

  class TenantConfig {
    var hostDevices: seq<Iface>
    var networkIds: map<string, string>

    /** What validateTenantconfig lets through. */
    ghost predicate ConfigOk(create: bool)
      reads this
    {
      && (hostDevices != [] || networkIds != map[])
      && (forall i :: 0 <= i < |hostDevices| ==> IfaceOk(hostDevices[i], create))
      && (forall nType :: nType in networkIds ==> MappingOk(nType, networkIds[nType]))
    }

    ghost function Profiles(): seq<Profile>
      reads this
    {
      ReadAll(seq(|hostDevices|, i requires 0 <= i < |hostDevices| reads this => AsProfile(hostDevices[i])))
    }

    method ValidateTenantConfig(create: bool) returns (ok: bool)
      ensures ok <==> ConfigOk(create)
    {
      if |hostDevices| == 0 && |networkIds| == 0 {
        return false;
      }
      for i := 0 to |hostDevices|
        invariant forall j :: 0 <= j < i ==> IfaceOk(hostDevices[j], create)
      {
        ok := ValidateIfaceConfig(hostDevices[i], create);
        if !ok {
          return false;
        }
      }
      var nTypes := networkIds.Keys;
      while nTypes != {}
        invariant nTypes <= networkIds.Keys
        invariant forall nType :: nType in networkIds && nType !in nTypes ==> MappingOk(nType, networkIds[nType])
      {
        var nType :| nType in nTypes;
        var nId := networkIds[nType];
        if nType == "" || nId == "" {
          return false;
        }
        if |nId| > A.MAX_NID_LENGTH && A.IsTypeDynamic(nType) {
          return false;
        }
        nTypes := nTypes - {nType};
      }
      return true;
    }

    /** mutateConfigManifest. */
    method MutateConfigManifest()
      modifies this`hostDevices
      ensures |hostDevices| == |old(hostDevices)|
      ensures forall i :: 0 <= i < |hostDevices| ==> Initialised(old(hostDevices)[i], hostDevices[i])
    {
      var ifaces := hostDevices;
      for i := 0 to |ifaces|
        invariant |hostDevices| == |ifaces|
        invariant forall j :: i <= j < |ifaces| ==> hostDevices[j] == ifaces[j]
        invariant forall j :: 0 <= j < i ==> Initialised(ifaces[j], hostDevices[j])
      {
        hide I.Canonical, I.Persisted;
        if ifaces[i].alloc != "" || ifaces[i].vniType == "" {
          continue;
        }
        var text := NewVnis();
        hostDevices := hostDevices[i := ifaces[i].(alloc := text)];
      }
    }

    /** The CREATE of a TenantConfig leaves a configuration from which the VNI protocol may start. */
    method AdmitCreate() returns (ok: bool)
      modifies this`hostDevices
      ensures ok <==> old(ConfigOk(true))
      ensures ok ==> V.GoodConf(Profiles()) && V.ZeroTaken(Profiles())
      ensures ok ==> forall i :: 0 <= i < |hostDevices| ==>
        (hostDevices[i].vniType == "" || Profiles()[i].alloc == FreshVnis())
    {
      ok := ValidateTenantConfig(true);
      if ok {
        MutateConfigManifest();
        forall i | 0 <= i < |hostDevices|
          ensures ProfileOk(Profiles()[i]) && (Profiles()[i].alloc.size > 0 ==> 0 in Profiles()[i].alloc.on)
        {
          assert IfaceOk(old(hostDevices)[i], true);
          FreshProfileOk(hostDevices[i]);
          assert Profiles()[i] == Read(AsProfile(hostDevices[i]));
        }
      }
    }
  }

  lemma FreshProfileOk(iface: Iface)
    requires IfaceOk(iface.(alloc := ""), true)
    requires if iface.vniType == "" then iface.alloc == "" else I.Persisted(iface.alloc) == FreshVnis()
    ensures ProfileOk(Read(AsProfile(iface))) && Read(AsProfile(iface)).alloc.size in [0, 5008]
    ensures Read(AsProfile(iface)).alloc.size > 0 ==> 0 in Read(AsProfile(iface)).alloc.on
  {
    if iface.vniType == "" {
      assert Base64.Decode("") == [];
    } else {
      assert RangeOf(iface) == RangeOf(iface.(alloc := ""));
    }
  }
}
