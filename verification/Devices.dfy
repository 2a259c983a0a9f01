/** Discovered devices and the graph that stores them. */
module Devices {
  import opened Wrappers

  datatype Attribute =
    | Hostname | MacAddress | Vendor | OperatingSystem | ComputerName | DomainName | SmbSigning
    | SnmpSysDescr | SnmpSysObjectId | SnmpSysUptime | SnmpSysContact | SnmpSysLocation

  type Attributes = map<Attribute, string>

  /** A device. Its optional text fields are read and written by attribute name, as `getattr` and `setattr`
      do, so they are one map in which an absent name is `None`. */
  class Device {
    const ipAddress: string
    var attributes: Attributes
    var deviceType: string
    var discoverySources: seq<string>

    constructor (ipAddress: string, attributes: Attributes, discoverySources: seq<string>)
      ensures this.ipAddress == ipAddress && this.attributes == attributes
      ensures this.deviceType == "unknown" && this.discoverySources == discoverySources
    {
      this.ipAddress := ipAddress;
      this.attributes := attributes;
      this.deviceType := "unknown";
      this.discoverySources := discoverySources;
    }
  }

  function Ips(ds: seq<Device>): (ips: seq<string>)
    ensures |ips| == |ds| && forall k :: 0 <= k < |ds| ==> ips[k] == ds[k].ipAddress
  {
    if ds == [] then [] else Ips(ds[..|ds| - 1]) + [ds[|ds| - 1].ipAddress]
  }

  ghost function AttributesOf(ds: seq<Device>): (all: seq<Attributes>)
    reads ds
    ensures |all| == |ds| && forall k :: 0 <= k < |ds| ==> all[k] == ds[k].attributes
  {
    seq(|ds|, k requires 0 <= k < |ds| reads ds => ds[k].attributes)
  }

  /** Every device keeps what it had. */
  ghost predicate AllExtend(before: seq<Attributes>, after: seq<Attributes>) {
    |before| == |after| && forall k :: 0 <= k < |before| ==> Extends(before[k], after[k])
  }

  lemma AllExtendTransitive(a: seq<Attributes>, b: seq<Attributes>, c: seq<Attributes>)
    requires AllExtend(a, b) && AllExtend(b, c)
    ensures AllExtend(a, c)
  {
  }

  /** Nothing already set is overwritten or removed. */
  ghost predicate Extends(before: Attributes, after: Attributes) {
    forall a :: a in before ==> a in after && after[a] == before[a]
  }

  /** What a discovery provider reports about one device. */
  datatype Found = Found(ip: string, attributes: Attributes)

  ghost function StateOf(ds: seq<Device>): (fs: seq<Found>)
    reads ds
    ensures |fs| == |ds| && forall k :: 0 <= k < |ds| ==> fs[k] == Found(ds[k].ipAddress, ds[k].attributes)
  {
    seq(|ds|, k requires 0 <= k < |ds| reads ds => Found(ds[k].ipAddress, ds[k].attributes))
  }

  function FoundIps(fs: seq<Found>): (ips: seq<string>)
    ensures |ips| == |fs| && forall k :: 0 <= k < |fs| ==> ips[k] == fs[k].ip
  {
    if fs == [] then [] else FoundIps(fs[..|fs| - 1]) + [fs[|fs| - 1].ip]
  }

  function FoundAttributes(fs: seq<Found>): (all: seq<Attributes>)
    ensures |all| == |fs| && forall k :: 0 <= k < |fs| ==> all[k] == fs[k].attributes
  {
    if fs == [] then [] else FoundAttributes(fs[..|fs| - 1]) + [fs[|fs| - 1].attributes]
  }

  /** The first device of each address, in discovery order. */
  function FirstPerIp(fs: seq<Found>): seq<Found> {
    if fs == [] then []
    else
      var kept := FirstPerIp(fs[..|fs| - 1]);
      var f := fs[|fs| - 1];
      if f.ip in FoundIps(kept) then kept else kept + [f]
  }

  lemma {:induction false} FirstPerIpExact(fs: seq<Found>)
    ensures forall f :: f in FirstPerIp(fs) ==> f in fs
    ensures forall f :: f in fs ==> f.ip in FoundIps(FirstPerIp(fs))
    ensures forall i, j :: 0 <= i < j < |FirstPerIp(fs)| ==> FirstPerIp(fs)[i].ip != FirstPerIp(fs)[j].ip
  {
    if fs != [] {
      var init, f := fs[..|fs| - 1], fs[|fs| - 1];
      assert fs == init + [f];
      FirstPerIpExact(init);
      var kept := FirstPerIp(init);
      FoundIpsStep(kept, f);
      if f.ip !in FoundIps(kept) {
        forall i | 0 <= i < |kept| ensures kept[i].ip != f.ip {
          assert FoundIps(kept)[i] in FoundIps(kept);
        }
      }
    }
  }

  lemma FoundIpsStep(fs: seq<Found>, f: Found)
    ensures FoundIps(fs + [f]) == FoundIps(fs) + [f.ip]
  {
    assert (fs + [f])[..|fs|] == fs;
  }

  lemma NewAddressKept(fs: seq<Found>, ip: string)
    requires ip !in FoundIps(fs)
    ensures ip !in FoundIps(FirstPerIp(fs))
  {
    FirstPerIpExact(fs);
    var kept := FirstPerIp(fs);
    forall k | 0 <= k < |kept| ensures FoundIps(kept)[k] != ip {
      assert kept[k] in fs;
      var n :| 0 <= n < |fs| && fs[n] == kept[k];
      assert FoundIps(fs)[n] == kept[k].ip;
    }
  }

  /** What is kept for an address was reported before everything else about that address. */
  lemma {:induction false} FirstPerIpIsFirst(fs: seq<Found>, i: nat)
    requires i < |fs| && fs[i].ip !in FoundIps(fs[..i])
    ensures fs[i] in FirstPerIp(fs)
  {
    var init, last := fs[..|fs| - 1], fs[|fs| - 1];
    if i == |fs| - 1 {
      NewAddressKept(init, last.ip);
    } else {
      assert init[..i] == fs[..i];
      FirstPerIpIsFirst(init, i);
    }
  }

  /** What a presentation reads of a device. */
  datatype DeviceInfo = DeviceInfo(hostname: Option<string>)

  /** A graph's `get_device` at one moment, by address. */
  type DeviceLookup = map<string, DeviceInfo>

  function Looked(devices: DeviceLookup, ip: string): Option<DeviceInfo> {
    if ip in devices then Some(devices[ip]) else None
  }

  function HostnameOf(attributes: Attributes): Option<string> {
    if Hostname in attributes then Some(attributes[Hostname]) else None
  }

  /** The name shown is the device's own, where it has one. */
  predicate ShowsName(info: DeviceInfo, attributes: Attributes) {
    && (info.hostname.Some? <==> Hostname in attributes)
    && (Hostname in attributes ==> info.hostname.value == attributes[Hostname])
  }

  /** `NetworkGraph`: devices keyed by address, the first one added winning. */
  class NetworkGraph {
    var order: seq<string>
    var devices: map<string, Device>

    ghost predicate Valid()
      reads this
    {
      && (forall i, j :: 0 <= i < j < |order| ==> order[i] != order[j])
      && (forall ip :: ip in devices <==> ip in order)
      && (forall ip :: ip in devices ==> devices[ip].ipAddress == ip)
    }

    constructor ()
      ensures Valid() && AllDevices() == []
    {
      order := [];
      devices := map[];
    }

    method AddDevice(device: Device)
      requires Valid()
      modifies this
      ensures Valid()
      ensures device.ipAddress in old(Ips(AllDevices())) ==> AllDevices() == old(AllDevices())
      ensures device.ipAddress !in old(Ips(AllDevices())) ==> AllDevices() == old(AllDevices()) + [device]
    {
      if device.ipAddress in devices { return; }
      order := order + [device.ipAddress];
      devices := devices[device.ipAddress := device];
    }

    function GetDevice(ip: string): (d: Option<Device>)
      requires Valid()
      reads this
      ensures d.Some? <==> ip in Ips(AllDevices())
      ensures d.Some? ==> d.value in AllDevices() && d.value.ipAddress == ip
    {
      if ip in devices then Some(devices[ip]) else None
    }

    /** Insertion order. */
    function AllDevices(): (ds: seq<Device>)
      requires Valid()
      reads this
      ensures |ds| == |order| && forall i :: 0 <= i < |ds| ==> ds[i] == devices[order[i]]
      ensures Ips(ds) == order
    {
      seq(|order|, i requires 0 <= i < |order| && order[i] in devices reads this => devices[order[i]])
    }

    /** The table a presentation of this graph is made from: one entry for each device, found by its address. */
    ghost function Lookup(): (table: DeviceLookup)
      requires Valid()
      reads this, devices.Values
      ensures forall ip :: ip in table <==> ip in Ips(AllDevices())
      ensures forall d :: d in AllDevices() ==> d.ipAddress in table && ShowsName(table[d.ipAddress], d.attributes)
    {
      map ip | ip in devices :: DeviceInfo(HostnameOf(devices[ip].attributes))
    }
  }
}
