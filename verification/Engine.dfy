/** A discovery run: discovery providers, then enrichment providers that may fail, then classification. */
module Engine {
  import opened Wrappers
  import opened Observations
  import opened Devices
  import opened Evidence
  import opened MacIndex
  import opened Providers
  import Pipeline
  import I = IdentityResolution
  import R = RelationshipResolution

  datatype Enrichment =
    | System(system: SnmpEnrichmentProvider)
    | Arp(arp: SnmpArpNeighborProvider)
    | Lldp(lldp: SnmpLldpNeighborProvider)
    | Fdb(fdb: SnmpBridgeFdbProvider)

  /** An enrichment provider as registered, with the unexpected failures that strike it in this run: when the
      snapshot is handed over, before some host is processed, or when its observations are collected. */
  datatype Registered = Registered(provider: Enrichment, receiveFails: bool, defect: Defect, collectFails: bool)

  predicate EnrichRaises(p: Enrichment, defect: Defect, hosts: seq<string>) {
    Strikes(defect, |hosts|) || (p.System? && MergeRaises(p.system.client, hosts))
  }

  /** What a provider reports once its whole pass succeeded. */
  function Reported(p: Enrichment, hosts: seq<string>, snapshot: seq<Observation>): seq<Observation> {
    match p
    case System(p) => SystemOutput(p.client, hosts, p.stamp)
    case Arp(p) => ArpOutput(p.client, hosts, AddressSet(hosts), p.stamp)
    case Lldp(p) => LldpOutput(p.client, hosts, AddressSet(hosts), IndexOf(snapshot), p.stamp)
    case Fdb(p) => FdbOutput(p.client, hosts, IndexOf(snapshot), p.stamp)
  }

  /** What a registered provider yields, given the hosts and the snapshot it received; `None` when it raised. */
  function Output(r: Registered, hosts: seq<string>, snapshot: seq<Observation>): Option<seq<Observation>> {
    if r.receiveFails || EnrichRaises(r.provider, r.defect, hosts) || r.collectFails then None
    else Some(Reported(r.provider, hosts, snapshot))
  }

  function Contribution(r: Registered, hosts: seq<string>, snapshot: seq<Observation>): seq<Observation> {
    match Output(r, hosts, snapshot) case Some(os) => os case None => []
  }

  /** What each provider adds to the log it is shown. */
  type Adds<!P> = (P, seq<Observation>) -> seq<Observation>

  /** The log once all providers have run in order, each seeing the log of those before it. */
  function RunAll<P>(adds: Adds<P>, ps: seq<P>, log: seq<Observation>): seq<Observation> {
    if ps == [] then log
    else
      var snapshot := RunAll(adds, ps[..|ps| - 1], log);
      snapshot + adds(ps[|ps| - 1], snapshot)
  }

  function Contributions(hosts: seq<string>): Adds<Registered> {
    (r: Registered, snapshot: seq<Observation>) => Contribution(r, hosts, snapshot)
  }

  function AfterEnrichment(rs: seq<Registered>, hosts: seq<string>, log: seq<Observation>): seq<Observation> {
    RunAll(Contributions(hosts), rs, log)
  }

  function DiscoveryLog(ps: seq<NmapProvider>): seq<Observation> {
    if ps == [] then []
    else
      var p := ps[|ps| - 1];
      DiscoveryLog(ps[..|ps| - 1]) + NmapOutput(p.scan, p.enriched, p.stamp)
  }

  /** Everything the discovery providers report, in order. */
  function AllFound(ps: seq<NmapProvider>): seq<Found> {
    if ps == [] then []
    else AllFound(ps[..|ps| - 1]) + HostsFound(ps[|ps| - 1].scan, ps[|ps| - 1].enriched)
  }

  /** The device set of a run. */
  function DeviceSet(ps: seq<NmapProvider>): seq<Found> { FirstPerIp(AllFound(ps)) }

  function DeviceIps(ps: seq<NmapProvider>): seq<string> { FoundIps(DeviceSet(ps)) }

  /** All observations a run retains. */
  function RunLog(ps: seq<NmapProvider>, rs: seq<Registered>): seq<Observation> {
    AfterEnrichment(rs, DeviceIps(ps), DiscoveryLog(ps))
  }

  // ---- The log is append-only, and a failing provider leaves no trace ----

  lemma {:induction false} RunAllAppends<P>(adds: Adds<P>, ps: seq<P>, log: seq<Observation>, k: nat)
    requires k <= |ps|
    ensures RunAll(adds, ps[..k], log) <= RunAll(adds, ps, log)
  {
    if k == |ps| {
      assert ps[..k] == ps;
    } else {
      assert ps[..|ps| - 1][..k] == ps[..k];
      RunAllAppends(adds, ps[..|ps| - 1], log, k);
    }
  }

  /** Running more providers is running them on the log so far. */
  lemma {:induction false} RunAllSplits<P>(adds: Adds<P>, ps: seq<P>, qs: seq<P>, log: seq<Observation>)
    ensures RunAll(adds, ps + qs, log) == RunAll(adds, qs, RunAll(adds, ps, log))
  {
    if qs == [] {
      assert ps + qs == ps;
    } else {
      RunAllSplits(adds, ps, qs[..|qs| - 1], log);
      assert (ps + qs)[..|ps + qs| - 1] == ps + qs[..|qs| - 1];
    }
  }

  lemma RunOne<P>(adds: Adds<P>, p: P, log: seq<Observation>)
    ensures RunAll(adds, [p], log) == log + adds(p, log)
  {
    assert [p][..0] == [];
  }

  /** The log is append-only: what the first `k` providers left is a prefix of the final log. */
  lemma LogAppendOnly(rs: seq<Registered>, hosts: seq<string>, log: seq<Observation>, k: nat)
    requires k <= |rs|
    ensures AfterEnrichment(rs[..k], hosts, log) <= AfterEnrichment(rs, hosts, log)
  {
    RunAllAppends(Contributions(hosts), rs, log, k);
  }

  /** A provider that raises, wherever it stands and however far it got, is as if never registered:
      the log, and so everything every later provider sees and contributes, is unchanged. */
  lemma FailureLeavesNoTrace(before: seq<Registered>, failing: Registered, after: seq<Registered>,
                             hosts: seq<string>, log: seq<Observation>)
    requires Output(failing, hosts, AfterEnrichment(before, hosts, log)) == None
    ensures AfterEnrichment(before + [failing] + after, hosts, log) == AfterEnrichment(before + after, hosts, log)
  {
    AddsNothing(Contributions(hosts), before, failing, after, log);
  }

  lemma AddsNothing<P>(adds: Adds<P>, before: seq<P>, p: P, after: seq<P>, log: seq<Observation>)
    requires adds(p, RunAll(adds, before, log)) == []
    ensures RunAll(adds, before + [p] + after, log) == RunAll(adds, before + after, log)
  {
    var snapshot := RunAll(adds, before, log);
    RunAllSplits(adds, before + [p], after, log);
    RunAllSplits(adds, before, [p], log);
    RunAllSplits(adds, before, after, log);
    RunOne(adds, p, snapshot);
    assert snapshot + [] == snapshot;
  }

  // ---- Endpoint safety ----

  lemma ReportedGated(p: Enrichment, hosts: seq<string>, snapshot: seq<Observation>)
    ensures Gated(Reported(p, hosts, snapshot), AddressSet(hosts))
  {
    var ips := AddressSet(hosts);
    match p
    case System(p) => SystemGated(p.client, hosts, ips, p.stamp);
    case Arp(p) => ArpGated(p.client, hosts, ips, p.stamp);
    case Lldp(p) => LldpGated(p.client, hosts, ips, IndexOf(snapshot), p.stamp);
    case Fdb(p) =>
      forall i ensures Identity(i) !in FdbOutput(p.client, hosts, IndexOf(snapshot), p.stamp) {
        FdbNoIdentity(p.client, hosts, IndexOf(snapshot), p.stamp, i);
      }
  }

  lemma {:induction false} RunAllGated<P>(adds: Adds<P>, ps: seq<P>, log: seq<Observation>, ips: set<string>)
    requires Gated(log, ips)
    requires forall p, snapshot :: p in ps ==> Gated(adds(p, snapshot), ips)
    ensures Gated(RunAll(adds, ps, log), ips)
  {
    if ps != [] {
      var snapshot, last := RunAll(adds, ps[..|ps| - 1], log), ps[|ps| - 1];
      assert last in ps && forall p :: p in ps[..|ps| - 1] ==> p in ps;
      RunAllGated(adds, ps[..|ps| - 1], log, ips);
      GatedJoin(snapshot, adds(last, snapshot), ips);
    }
  }

  lemma EnrichmentGated(rs: seq<Registered>, hosts: seq<string>, log: seq<Observation>)
    requires Gated(log, AddressSet(hosts))
    ensures Gated(AfterEnrichment(rs, hosts, log), AddressSet(hosts))
  {
    forall r, snapshot | r in rs ensures Gated(Contributions(hosts)(r, snapshot), AddressSet(hosts)) {
      ReportedGated(r.provider, hosts, snapshot);
    }
    RunAllGated(Contributions(hosts), rs, log, AddressSet(hosts));
  }

  lemma {:induction false} DiscoveryGated(ps: seq<NmapProvider>, ips: set<string>)
    requires forall f :: f in AllFound(ps) ==> f.ip in ips
    ensures Gated(DiscoveryLog(ps), ips)
  {
    if ps != [] {
      var init, p := ps[..|ps| - 1], ps[|ps| - 1];
      var found := HostsFound(p.scan, p.enriched);
      assert forall f :: f in AllFound(init) ==> f in AllFound(ps);
      assert forall f :: f in found ==> f in AllFound(ps);
      DiscoveryGated(init, ips);
      forall h | h in p.scan ensures h.ip in ips {
        var k :| 0 <= k < |p.scan| && p.scan[k] == h;
        assert found[k] in found;
      }
      NmapGated(p.scan, p.enriched, p.stamp, ips);
      GatedJoin(DiscoveryLog(init), NmapOutput(p.scan, p.enriched, p.stamp), ips);
    }
  }

  /** Whatever providers run, in whatever order, and however they fail, every identity observation of the
      run is about a discovered device. */
  lemma RunGated(ps: seq<NmapProvider>, rs: seq<Registered>)
    ensures Gated(RunLog(ps, rs), AddressSet(DeviceIps(ps)))
  {
    FirstPerIpExact(AllFound(ps));
    DiscoveryGated(ps, AddressSet(DeviceIps(ps)));
    EnrichmentGated(rs, DeviceIps(ps), DiscoveryLog(ps));
  }

  /** So no canonical identity, and neither endpoint of any canonical relationship, is anything but a
      discovered device: no relationship evidence creates the endpoint it needs. */
  lemma EndpointSafety(ps: seq<NmapProvider>, rs: seq<Registered>, policy: R.Policy)
    ensures I.Subjects(Pipeline.Identities(RunLog(ps, rs))) <= AddressSet(DeviceIps(ps))
    ensures forall c :: c in Pipeline.Edges(RunLog(ps, rs), policy) ==>
      c.subject in DeviceIps(ps) && c.relatedSubject in DeviceIps(ps)
  {
    var log := RunLog(ps, rs);
    var ips := AddressSet(DeviceIps(ps));
    RunGated(ps, rs);
    forall s | s in I.Subjects(Pipeline.Identities(log)) ensures s in ips {
      Pipeline.SubjectsExact(log, s);
    }
    forall c | c in Pipeline.Edges(log, policy) ensures c.subject in ips && c.relatedSubject in ips {
      Pipeline.EndpointsResolved(log, policy, c);
    }
  }

  /** Providers that run later only strengthen what earlier ones established. */
  lemma LaterProvidersStrengthen(ps: seq<NmapProvider>, rs: seq<Registered>, k: nat, policy: R.Policy,
                                 c: R.CanonicalRelationship)
    requires k <= |rs| && c in Pipeline.Edges(RunLog(ps, rs[..k]), policy)
    ensures exists d :: d in Pipeline.Edges(RunLog(ps, rs), policy) && Pipeline.EdgeGrows(c, d)
  {
    var early, late := RunLog(ps, rs[..k]), RunLog(ps, rs);
    LogAppendOnly(rs, DeviceIps(ps), DiscoveryLog(ps), k);
    assert late == early + late[|early|..];
    Pipeline.EdgesMonotone(early, late, policy, c);
  }

  // ---- The run itself ----

  function ObjectOf(p: Enrichment): object {
    match p case System(p) => p case Arp(p) => p case Lldp(p) => p case Fdb(p) => p
  }

  function Objects(rs: seq<Registered>): set<object> {
    set r | r in rs :: ObjectOf(r.provider)
  }

  /** What a classifier decides; it changes nothing else about a device. */
  type Classifier = (string, Attributes) -> string

  function DeviceTypeOf(ip: string, attributes: Attributes, classifier: Classifier): (deviceType: string)
    ensures deviceType == classifier(ip, attributes)
  {
    classifier(ip, attributes)
  }

  ghost predicate Classified(devices: seq<Device>, classifier: Classifier)
    reads devices
  {
    forall k :: 0 <= k < |devices| ==>
      devices[k].deviceType == DeviceTypeOf(devices[k].ipAddress, devices[k].attributes, classifier)
  }

  class DiscoveryEngine {
    const providers: seq<NmapProvider>
    const enrichment: seq<Registered>
    const classifier: Classifier
    var observations: seq<Observation>

    constructor (providers: seq<NmapProvider>, enrichment: seq<Registered>, classifier: Classifier)
      ensures this.providers == providers && this.enrichment == enrichment && this.classifier == classifier
      ensures observations == []
    {
      this.providers, this.enrichment, this.classifier := providers, enrichment, classifier;
      observations := [];
    }

    /** `devices_by_ip.setdefault` for each discovered device. */
    method AddDevices(devices: seq<Device>, discovered: seq<Device>, ghost found: seq<Found>, ghost states: seq<Found>)
        returns (all: seq<Device>)
      requires StateOf(devices) == FirstPerIp(found) && StateOf(discovered) == states
      ensures StateOf(all) == FirstPerIp(found + states)
      ensures forall d :: d in all ==> d in devices || d in discovered
    {
      all := devices;
      assert found + states[..0] == found;
      for i := 0 to |discovered|
        invariant StateOf(all) == FirstPerIp(found + states[..i])
        invariant forall d :: d in all ==> d in devices || d in discovered
      {
        AddDeviceStep(all, discovered[i], found + states[..i]);
        SliceStep(found, states, i);
        if discovered[i].ipAddress !in Ips(all) { all := all + [discovered[i]]; }
      }
      assert states[..|states|] == states;
    }

    /** One discovery provider. */
    method DiscoverWith(provider: NmapProvider, devices: seq<Device>, ghost found: seq<Found>)
        returns (all: seq<Device>)
      requires StateOf(devices) == FirstPerIp(found)
      modifies this, provider
      ensures observations == old(observations) + NmapOutput(provider.scan, provider.enriched, provider.stamp)
      ensures StateOf(all) == FirstPerIp(found + HostsFound(provider.scan, provider.enriched))
      ensures forall d :: d in all ==> d in devices || fresh(d)
    {
      var discovered := provider.Discover();
      observations := observations + provider.observations;
      all := AddDevices(devices, discovered, found, HostsFound(provider.scan, provider.enriched));
    }

    method DiscoverDevices() returns (devices: seq<Device>)
      modifies this, providers
      ensures observations == DiscoveryLog(providers)
      ensures StateOf(devices) == DeviceSet(providers)
      ensures forall d :: d in devices ==> fresh(d)
    {
      observations := [];
      devices := [];
      for i := 0 to |providers|
        invariant observations == DiscoveryLog(providers[..i])
        invariant StateOf(devices) == FirstPerIp(AllFound(providers[..i]))
        invariant forall d :: d in devices ==> fresh(d)
      {
        DiscoveryStep(providers, i);
        devices := DiscoverWith(providers[i], devices, AllFound(providers[..i]));
      }
      assert providers[..|providers|] == providers;
    }

    /** `enrich`, preceded by the snapshot where the provider keeps it. */
    method EnrichWith(p: Enrichment, defect: Defect, devices: seq<Device>)
        returns (raised: bool, reported: seq<Observation>)
      modifies ObjectOf(p), devices
      ensures raised <==> EnrichRaises(p, defect, Ips(devices))
      ensures !raised ==> reported == Reported(p, Ips(devices), observations)
      ensures AllExtend(old(AttributesOf(devices)), AttributesOf(devices))
    {
      match p
      case System(p) =>
        raised := p.Enrich(devices, defect);
        reported := p.observations;
      case Arp(p) =>
        raised := p.Enrich(devices, defect);
        reported := p.observations;
      case Lldp(p) =>
        p.ReceiveObservations(observations);
        raised := p.Enrich(devices, defect);
        reported := p.observations;
      case Fdb(p) =>
        p.ReceiveObservations(observations);
        raised := p.Enrich(devices, defect);
        reported := p.observations;
    }

    /** One turn of the enrichment loop: on any failure nothing is collected. */
    method Enrich(r: Registered, devices: seq<Device>)
      modifies this, ObjectOf(r.provider), devices
      ensures observations == old(observations) + Contribution(r, Ips(devices), old(observations))
      ensures AllExtend(old(AttributesOf(devices)), AttributesOf(devices))
    {
      if r.receiveFails { return; }
      var raised, reported := EnrichWith(r.provider, r.defect, devices);
      if raised || r.collectFails { return; }
      observations := observations + reported;
    }

    method EnrichDevices(devices: seq<Device>)
      modifies this, Objects(enrichment), devices
      ensures observations == AfterEnrichment(enrichment, Ips(devices), old(observations))
      ensures AllExtend(old(AttributesOf(devices)), AttributesOf(devices))
    {
      for i := 0 to |enrichment|
        invariant observations == AfterEnrichment(enrichment[..i], Ips(devices), old(observations))
        invariant AllExtend(old(AttributesOf(devices)), AttributesOf(devices))
      {
        EnrichmentStep(enrichment, i, Ips(devices), old(observations));
        ghost var before := AttributesOf(devices);
        Enrich(enrichment[i], devices);
        AllExtendTransitive(old(AttributesOf(devices)), before, AttributesOf(devices));
      }
      assert enrichment[..|enrichment|] == enrichment;
    }

    method ClassifyDevice(devices: seq<Device>, i: nat, graph: NetworkGraph)
      requires i < |devices| && DistinctAddresses(devices)
      requires graph.Valid() && graph.AllDevices() == devices[..i] && Classified(devices[..i], classifier)
      modifies devices[i], graph
      ensures graph.Valid() && graph.AllDevices() == devices[..i + 1]
      ensures Classified(devices[..i + 1], classifier)
      ensures devices[i].attributes == old(devices[i].attributes)
    {
      NewAddress(devices, i);
      var d := devices[i];
      d.deviceType := DeviceTypeOf(d.ipAddress, d.attributes, classifier);
      graph.AddDevice(d);
    }

    /** `_classify_devices`: each device is classified and put into the graph. */
    method ClassifyDevices(devices: seq<Device>, graph: NetworkGraph)
      requires graph.Valid() && graph.AllDevices() == []
      requires DistinctAddresses(devices)
      modifies devices, graph
      ensures graph.Valid() && graph.AllDevices() == devices
      ensures AttributesOf(devices) == old(AttributesOf(devices))
      ensures Classified(devices, classifier)
    {
      for i := 0 to |devices|
        invariant graph.Valid() && graph.AllDevices() == devices[..i] && Classified(devices[..i], classifier)
        invariant AttributesOf(devices) == old(AttributesOf(devices))
      {
        ClassifyDevice(devices, i, graph);
      }
      assert devices[..|devices|] == devices;
    }

    method Discover() returns (graph: NetworkGraph)
      modifies this, providers, Objects(enrichment)
      ensures observations == RunLog(providers, enrichment)
      ensures fresh(graph) && graph.Valid()
      ensures Ips(graph.AllDevices()) == DeviceIps(providers)
      ensures AllExtend(FoundAttributes(DeviceSet(providers)), AttributesOf(graph.AllDevices()))
      ensures Classified(graph.AllDevices(), classifier)
    {
      var devices := DiscoverDevices();
      KeptDevices(devices, AllFound(providers));
      assert fresh(set d | d in devices);
      EnrichDevices(devices);
      graph := new NetworkGraph();
      ClassifyDevices(devices, graph);
    }
  }

  lemma NewAddress(devices: seq<Device>, i: nat)
    requires i < |devices| && DistinctAddresses(devices)
    ensures devices[i].ipAddress !in Ips(devices[..i]) && devices[i] !in devices[..i]
    ensures devices[..i + 1] == devices[..i] + [devices[i]]
  {
  }

  lemma KeptDevices(devices: seq<Device>, found: seq<Found>)
    requires StateOf(devices) == FirstPerIp(found)
    ensures DistinctAddresses(devices) && Ips(devices) == FoundIps(FirstPerIp(found))
    ensures AttributesOf(devices) == FoundAttributes(FirstPerIp(found))
  {
    FirstPerIpExact(found);
    forall i, j | 0 <= i < j < |devices| ensures devices[i].ipAddress != devices[j].ipAddress {
      assert FirstPerIp(found)[i].ip != FirstPerIp(found)[j].ip;
    }
  }

  ghost predicate DistinctAddresses(devices: seq<Device>) {
    forall i, j :: 0 <= i < j < |devices| ==> devices[i].ipAddress != devices[j].ipAddress
  }

  lemma EnrichmentStep(rs: seq<Registered>, i: nat, hosts: seq<string>, log: seq<Observation>)
    requires i < |rs|
    ensures AfterEnrichment(rs[..i + 1], hosts, log) == AfterEnrichment(rs[..i], hosts, log)
      + Contribution(rs[i], hosts, AfterEnrichment(rs[..i], hosts, log))
    ensures ObjectOf(rs[i].provider) in Objects(rs)
  {
    assert rs[..i + 1][..i] == rs[..i];
    assert rs[i] in rs;
  }

  lemma DiscoveryStep(ps: seq<NmapProvider>, i: nat)
    requires i < |ps|
    ensures DiscoveryLog(ps[..i + 1])
      == DiscoveryLog(ps[..i]) + NmapOutput(ps[i].scan, ps[i].enriched, ps[i].stamp)
    ensures AllFound(ps[..i + 1]) == AllFound(ps[..i]) + HostsFound(ps[i].scan, ps[i].enriched)
  {
    assert ps[..i + 1][..i] == ps[..i];
  }

  lemma FirstPerIpStep(fs: seq<Found>, f: Found)
    ensures FirstPerIp(fs + [f])
      == if f.ip in FoundIps(FirstPerIp(fs)) then FirstPerIp(fs) else FirstPerIp(fs) + [f]
  {
    assert (fs + [f])[..|fs|] == fs;
  }

  lemma StateAppend(all: seq<Device>, d: Device)
    ensures StateOf(all + [d]) == StateOf(all) + [Found(d.ipAddress, d.attributes)]
    ensures Ips(all) == FoundIps(StateOf(all))
  {
  }

  lemma AddDeviceStep(all: seq<Device>, d: Device, found: seq<Found>)
    requires StateOf(all) == FirstPerIp(found)
    ensures FirstPerIp(found + [Found(d.ipAddress, d.attributes)])
      == if d.ipAddress in Ips(all) then StateOf(all) else StateOf(all + [d])
  {
    StateAppend(all, d);
    FirstPerIpStep(found, Found(d.ipAddress, d.attributes));
  }

  lemma SliceStep(found: seq<Found>, states: seq<Found>, i: nat)
    requires i < |states|
    ensures found + states[..i + 1] == found + states[..i] + [states[i]]
  {
  }
}
