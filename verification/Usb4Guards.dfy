/** Everything bench/usb4stream-bench.py checks before a device is opened: which cable a node resolves, whether
    a different machine answers on it, whether a live serve shares its hardware, and whether the two ends agree. */
module Usb4Guards {
  import opened Json
  import opened Optional

  // ------------------------------------------------------------------ one node, as its sysfs and configfs read

  datatype Ip = Ip(a: nat, b: nat, c: nat, d: nat)

  datatype Neighbour = Neighbour(addr: Ip, lladdr: Option<string>, state: Option<string>)

  /** Thunderbolt domain and NHI, each None where it cannot be read off the path. */
  datatype Router = Router(domain: Option<string>, nhi: Option<string>)

  /** A stream function's configfs group; index is None when unreadable or no number. */
  datatype Group = Group(path: string, index: Option<string>, inHop: Option<string>, outHop: Option<string>,
                         ringSize: Json, throttling: Json)

  /** The stream service beside a netdev, with its function groups. */
  datatype Service = Service(router: Router, groups: map<string, Group>)

  datatype Node = Node(
    addresses: seq<(string, Ip)>,
    thunderbolt: seq<string>,
    carrier: set<string>,
    hwaddr: map<string, string>,
    neighbours: map<string, seq<Neighbour>>,
    stream: map<string, Service>,
    router: map<string, Router>)

  datatype Cable = A | B

  /** What a node resolves a cable to. */
  datatype Resolved = Resolved(cable: Cable, rail: string, railAddr: Ip, hwaddr: Option<string>, peer: Option<Ip>,
                               router: Router, dev: string, group: Group)

  /** configfs says how far the chain got before it failed. */
  datatype Resolution = Found(value: Resolved) | NotFound(configfs: bool)

  const DEVICE_PREFIX: string := "/dev/tbstream"

  /** 10.99.0.0/30 */
  predicate InRailNet(ip: Ip) { ip.a == 10 && ip.b == 99 && ip.c == 0 && ip.d < 4 }

  /** The other host of the /30. */
  function RailPeer(ip: Ip): Ip { ip.(d := if ip.d == 1 then 2 else 1) }

  function Rail(rows: seq<(string, Ip)>): Option<(string, Ip)> {
    if rows == [] then None else if InRailNet(rows[0].1) then Some(rows[0]) else Rail(rows[1..])
  }

  function AddressesOf(rows: seq<(string, Ip)>, dev: string): seq<Ip> {
    if rows == [] then [] else (if rows[0].0 == dev then [rows[0].1] else []) + AddressesOf(rows[1..], dev)
  }

  function Others(devs: seq<string>, rail: string, carrier: set<string>): seq<string> {
    if devs == [] then []
    else (if devs[0] != rail && devs[0] in carrier then [devs[0]] else []) + Others(devs[1..], rail, carrier)
  }

  /** Cable A is the rail; cable B is the one other carriered Thunderbolt netdev, if there is exactly one. */
  function CableNetdev(node: Node, cable: Cable): Option<(string, Ip)> {
    match Rail(node.addresses)
    case None => None
    case Some(rail) =>
      if cable == A then Some(rail) else
        var others := Others(node.thunderbolt, rail.0, node.carrier);
        if |others| != 1 || AddressesOf(node.addresses, others[0]) == [] then None
        else Some((others[0], AddressesOf(node.addresses, others[0])[0]))
  }

  predicate Mine(node: Node, ip: Ip) { exists i | 0 <= i < |node.addresses| :: node.addresses[i].1 == ip }

  function Neighbours(node: Node, dev: string): seq<Neighbour> {
    if dev in node.neighbours then node.neighbours[dev] else []
  }

  predicate Usable(n: Neighbour) {
    n.lladdr.Some? && n.lladdr.value != "" && n.state != Some("FAILED") && n.state != Some("INCOMPLETE")
  }

  function FirstRemote(node: Node, rows: seq<Neighbour>): Option<Ip> {
    if rows == [] then None
    else if Mine(node, rows[0].addr) || !Usable(rows[0]) then FirstRemote(node, rows[1..])
    else Some(rows[0].addr)
  }

  function PeerAddress(node: Node, dev: string, addr: Ip, cable: Cable): Option<Ip> {
    if cable == A && InRailNet(addr) then Some(RailPeer(addr)) else FirstRemote(node, Neighbours(node, dev))
  }

  function EntryFor(rows: seq<Neighbour>, peer: Ip): Option<Neighbour> {
    if rows == [] then None else if rows[0].addr == peer then Some(rows[0]) else EntryFor(rows[1..], peer)
  }

  /** A different machine answers on this interface: not our own address, the ping is answered, and the first
      neighbour entry for it has a link-layer address that is not our own. */
  predicate PeerReachable(node: Node, dev: string, peer: Option<Ip>, hwaddr: Option<string>, ping: bool) {
    && peer.Some? && !Mine(node, peer.value) && ping
    && var entry := EntryFor(Neighbours(node, dev), peer.value);
       entry.Some? && Usable(entry.value)
       && (hwaddr.Some? && hwaddr.value != "" ==> entry.value.lladdr != hwaddr)
  }

  function Resolve(node: Node, cable: Cable, fn: string): Resolution {
    match CableNetdev(node, cable)
    case None => NotFound(false)
    case Some(net) =>
      if net.0 !in node.stream then NotFound(false)
      else
        var service := node.stream[net.0];
        if fn !in service.groups || service.groups[fn].index.None? then NotFound(true)
        else
          var group := service.groups[fn];
          Found(Resolved(cable, net.0, net.1, if net.0 in node.hwaddr then Some(node.hwaddr[net.0]) else None,
                         PeerAddress(node, net.0, net.1, cable), service.router, DEVICE_PREFIX + group.index.value, group))
  }

  // ------------------------------------------------------------------ do the two ends agree

  /** The mismatch guard: what the two resolutions disagree on, if anything. */
  function Disagreement(local: Resolved, probe: Resolved): Option<string> {
    if probe.cable != local.cable then Some("cable label mismatch")
    else if local.group.outHop.None? || probe.group.inHop.None? then Some("hopid interlock unverifiable")
    else if local.group.outHop != probe.group.inHop then Some("hopid interlock broken")
    else if local.group.inHop.None? || probe.group.outHop.None? then Some("hopid interlock unverifiable")
    else if local.group.inHop != probe.group.outHop then Some("hopid interlock broken")
    else if local.peer.Some? && local.peer.value != probe.railAddr then Some("wire peer mismatch")
    else if probe.peer.Some? && probe.peer.value != local.railAddr then Some("wire peer mismatch")
    else None
  }

  /** The guard passes for one end against the other exactly when it passes the other way round, though the two
      may name a different first disagreement. */
  lemma GuardIsSymmetric(local: Resolved, probe: Resolved)
    ensures Disagreement(local, probe).None? <==> Disagreement(probe, local).None?
    ensures Disagreement(local, probe).None? ==>
      && local.cable == probe.cable
      && local.group.outHop == probe.group.inHop && local.group.inHop == probe.group.outHop
      && local.group.outHop.Some? && local.group.inHop.Some?
  {
  }

  // ------------------------------------------------------------------ is a live serve in the way

  /** Both nodes as they are during the checks, a serve seen on the coordinator's API, in its container or in the
      worker's, the ping's answer, and what comes of a probe over the control wire. */
  datatype World = World(node: Node, worker: Node, api: bool, here: bool, there: bool, ping: bool, reply: Reply, schedule: Json)

  /** The probe's report arrives, no report does, or the call itself raises: it timed out, or there is no ssh. */
  datatype Reply = Answers | Silent | Raises

  predicate ServeUp(w: World) { w.api || w.here || w.there }

  /** The probe runs the same resolution on the worker; None is a report that is not ok. */
  function Probe(w: World, cable: Cable, fn: string): Option<Resolved> {
    match Resolve(w.worker, cable, fn)
    case Found(r) => if w.reply.Answers? then Some(r) else None
    case NotFound(_) => None
  }

  predicate Measured(r: Router) { r.domain.Some? && r.nhi.Some? }

  function RouterOf(node: Node, dev: string): Router {
    if dev in node.router then node.router[dev] else Router(None, None)
  }

  /** Does a live serve forbid this cable? On cable A always; on cable B unless both routers are measured and
      differ, or the chain does not resolve and a later check refuses. */
  predicate ServeBlocks(node: Node, cable: Cable, fn: string) {
    if cable == A then true else
      match Resolve(node, cable, fn)
      case NotFound(_) => false
      case Found(local) =>
        Rail(node.addresses).Some? &&
        var serve := RouterOf(node, Rail(node.addresses).value.0);
        !Measured(local.router) || !Measured(serve) || local.router == serve
  }

  // ------------------------------------------------------------------ the preconditions

  const SKIP_SERVE_UP: string := "skipped:serve-up-on-shared-cable"
  const SKIP_PEER_UNREACHABLE: string := "skipped:rail-peer-unreachable"
  const SKIP_CONFIGFS_MISSING: string := "skipped:configfs-group-missing"
  const SKIP_CABLE_MISMATCH: string := "skipped:cable-mismatch-between-nodes"

  datatype Decision = Proceed(local: Resolved, probe: Resolved) | Skip(outcome: string) | Raised

  /** What has to hold for a run to go ahead. */
  ghost predicate Cleared(w: World, cable: Cable, fn: string, local: Resolved, probe: Resolved) {
    && !(ServeUp(w) && ServeBlocks(w.node, cable, fn))
    && Resolve(w.node, cable, fn) == Found(local)
    && PeerReachable(w.node, local.rail, local.peer, local.hwaddr, w.ping)
    && Probe(w, cable, fn) == Some(probe)
    && Disagreement(local, probe).None?
  }

  /** Which of the four reasons a refused run gives: the first in the order of the checks. */
  ghost predicate Refuses(w: World, cable: Cable, fn: string, outcome: string) {
    var blocked := ServeUp(w) && ServeBlocks(w.node, cable, fn);
    var local := Resolve(w.node, cable, fn);
    var reached := local.Found? && PeerReachable(w.node, local.value.rail, local.value.peer, local.value.hwaddr, w.ping);
    || (outcome == SKIP_SERVE_UP && blocked)
    || (outcome == SKIP_PEER_UNREACHABLE && !blocked && (local == NotFound(false) || (local.Found? && !reached)))
    || (outcome == SKIP_CONFIGFS_MISSING && !blocked && !w.reply.Raises?
        && (local == NotFound(true) || (reached && Probe(w, cable, fn).None?)))
    || (outcome == SKIP_CABLE_MISMATCH && !blocked && reached && Probe(w, cable, fn).Some?
        && Disagreement(local.value, Probe(w, cable, fn).value).Some?)
  }

  /** The worker is asked, and asking raises. */
  ghost predicate ProbeRaises(w: World, cable: Cable, fn: string) {
    var local := Resolve(w.node, cable, fn);
    && !(ServeUp(w) && ServeBlocks(w.node, cable, fn)) && w.reply.Raises?
    && (local == NotFound(true)
        || (local.Found? && PeerReachable(w.node, local.value.rail, local.value.peer, local.value.hwaddr, w.ping)))
  }

  /** A run is refused, cleared or ended by the probe, only one of the three, and a refusal's reason is unique. */
  lemma RefusalIsExact(w: World, cable: Cable, fn: string, outcome: string, other: string)
    requires Refuses(w, cable, fn, outcome)
    ensures forall local, probe :: !Cleared(w, cable, fn, local, probe)
    ensures !ProbeRaises(w, cable, fn)
    ensures Refuses(w, cable, fn, other) ==> other == outcome
  {
  }

  type Evidence = map<string, Json>

  function Flag(b: bool): Json { Num(if b then 1.0 else 0.0) }

  function Counts(coordinator: Json, peer: Json): Json { Obj(map["coordinator" := coordinator, "peer" := peer]) }

  /** What every receipt says of the run up to the decision. */
  ghost predicate Recorded(base: Evidence, w: World, cable: Cable) {
    && Get(base, "serve_up") == Flag(ServeUp(w)) && "serve_up" in base
    && Get(base, "open_count") == Counts(Num(0.0), Num(0.0))
    && Get(base, "loop") == Str("python")
    && Get(base, "cable") == Str(if cable == A then "A" else "B")
    && "outcome" !in base
  }

  /** Both devices, and the ring as configfs has it. */
  ghost predicate Located(base: Evidence, local: Resolved, probe: Resolved) {
    && Get(base, "device") == Counts(Str(local.dev), Str(probe.dev))
    && "ring_size" in base && base["ring_size"] == local.group.ringSize
    && "throttling" in base && base["throttling"] == local.group.throttling
  }

  /** The keys every receipt is graded or read by; later evidence goes under other keys. */
  const HEADER: set<string> := {"serve_up", "open_count", "loop", "cable", "outcome"}

  ghost predicate SameBut(before: Evidence, after: Evidence, keys: set<string>) {
    forall k | k !in keys :: (k in after <==> k in before) && (k in before ==> after[k] == before[k])
  }

  lemma RecordedStays(before: Evidence, after: Evidence, keys: set<string>, w: World, cable: Cable)
    requires Recorded(before, w, cable) && SameBut(before, after, keys) && keys !! HEADER
    ensures Recorded(after, w, cable)
  {
    assert forall k | k in HEADER :: k !in keys;
    assert "serve_up" in HEADER && "open_count" in HEADER && "loop" in HEADER && "cable" in HEADER && "outcome" in HEADER;
  }

  /** The coordinator's process while it checks: what it has gathered. */
  class Process {
    var base: Evidence

    constructor ()
      ensures base == map[]
    {
      base := map[];
    }

    method Begin(w: World, cable: Cable)
      modifies this`base
      ensures Recorded(base, w, cable)
    {
      base := map["serve_up" := Null, "loop" := Str("python"), "cable" := Str(if cable == A then "A" else "B"),
                  "schedule" := w.schedule, "device" := Counts(Null, Null), "open_count" := Counts(Num(0.0), Num(0.0))];
      base := base["serve_up" := Flag(ServeUp(w))];
    }

    /** The serve check, with the hardware note it leaves behind. */
    method ServeCheck(w: World, cable: Cable, fn: string) returns (blocks: bool)
      requires Recorded(base, w, cable)
      modifies this`base
      ensures blocks <==> ServeBlocks(w.node, cable, fn)
      ensures Recorded(base, w, cable)
    {
      ghost var before := base;
      if cable == A {
        base := base["note" := Str("the stream device shares cable A with the serving rails")];
        RecordedStays(before, base, {"note"}, w, cable);
        return true;
      }
      var resolution := Resolve(w.node, cable, fn);
      var rail := Rail(w.node.addresses);
      if resolution.NotFound? || rail.None? { return false; }
      var serve := RouterOf(w.node, rail.value.0);
      var bench := resolution.value.router;
      blocks := !Measured(bench) || !Measured(serve) || bench == serve;
      base := base["serve_hardware" := Str(rail.value.0)];
      RecordedStays(before, base, {"serve_hardware"}, w, cable);
      SetNote(w, cable, blocks);
    }

    method SetNote(w: World, cable: Cable, blocks: bool)
      requires Recorded(base, w, cable)
      modifies this`base
      ensures Recorded(base, w, cable)
    {
      ghost var before := base;
      if !blocks { base := base["serve_shares_bench_hardware" := Flag(false)]; }
      base := base["note" := Str(if blocks then "the routers could not be shown disjoint" else "different routers")];
      RecordedStays(before, base, {"note", "serve_shares_bench_hardware"}, w, cable);
    }

    method LocateLocal(w: World, cable: Cable, local: Resolved)
      requires Recorded(base, w, cable)
      modifies this`base
      ensures Recorded(base, w, cable)
      ensures "ring_size" in base && base["ring_size"] == local.group.ringSize
      ensures "throttling" in base && base["throttling"] == local.group.throttling
    {
      ghost var before := base;
      base := base["device" := Counts(Str(local.dev), Null)]["configfs" := Counts(Str(local.group.path), Null)];
      base := base["ring_size" := local.group.ringSize]["throttling" := local.group.throttling];
      RecordedStays(before, base, {"device", "configfs", "ring_size", "throttling"}, w, cable);
    }

    method LocatePeer(w: World, cable: Cable, local: Resolved, probe: Resolved)
      requires Recorded(base, w, cable)
      requires "ring_size" in base && base["ring_size"] == local.group.ringSize
      requires "throttling" in base && base["throttling"] == local.group.throttling
      modifies this`base
      ensures Recorded(base, w, cable) && Located(base, local, probe)
    {
      ghost var before := base;
      base := base["peer_ring_size" := probe.group.ringSize]["peer_throttling" := probe.group.throttling];
      base := base["configfs" := Counts(Str(local.group.path), Str(probe.group.path))];
      base := base["device" := Counts(Str(local.dev), Str(probe.dev))];
      RecordedStays(before, base, {"device", "configfs", "peer_ring_size", "peer_throttling"}, w, cable);
    }

    /** One or two further pieces of evidence. */
    method Attach(w: World, cable: Cable, key: string, value: Json, other: string, further: Json)
      requires Recorded(base, w, cable) && key !in HEADER && other !in HEADER
      modifies this`base
      ensures Recorded(base, w, cable) && base == old(base)[key := value][other := further]
    {
      base := base[key := value][other := further];
      RecordedStays(old(base), base, {key, other}, w, cable);
    }

    /** What the serve check and the two resolutions leave behind is under none of the header keys. */
    static lemma EvidenceKeys()
      ensures "local_resolve_error" !in HEADER && "peer_probe" !in HEADER && "rail" !in HEADER
      ensures "peer_reachable" !in HEADER && "cable_mismatch" !in HEADER
    {
    }

    /** Everything that must hold before a device is opened. Opens nothing, and refuses with the first reason. */
    method Preconditions(w: World, cable: Cable, fn: string) returns (d: Decision)
      modifies this`base
      ensures d.Proceed? ==> Cleared(w, cable, fn, d.local, d.probe) && Located(base, d.local, d.probe)
      ensures d.Skip? ==> Refuses(w, cable, fn, d.outcome)
      ensures d.Raised? <==> ProbeRaises(w, cable, fn)
      ensures Recorded(base, w, cable)
    {
      Begin(w, cable);
      EvidenceKeys();
      if ServeUp(w) {
        var blocks := ServeCheck(w, cable, fn);
        if blocks { return Skip(SKIP_SERVE_UP); }
      }

      var resolution := Resolve(w.node, cable, fn);
      if resolution.NotFound? {
        var error := Str("the chain did not complete");
        Attach(w, cable, "local_resolve_error", error, "local_resolve_error", error);
        if !resolution.configfs { return Skip(SKIP_PEER_UNREACHABLE); }
        if w.reply.Raises? { return Raised; }
        Attach(w, cable, "peer_probe", Flag(w.reply.Answers?), "peer_probe", Flag(w.reply.Answers?));
        return Skip(SKIP_CONFIGFS_MISSING);
      }
      var local := resolution.value;

      var reachable := PeerReachable(w.node, local.rail, local.peer, local.hwaddr, w.ping);
      Attach(w, cable, "rail", Str(local.rail), "peer_reachable", Flag(reachable));
      if !reachable { return Skip(SKIP_PEER_UNREACHABLE); }

      if w.reply.Raises? { return Raised; }
      LocateLocal(w, cable, local);
      var report := Probe(w, cable, fn);
      if report.None? {
        Attach(w, cable, "peer_probe", Flag(false), "peer_probe", Flag(false));
        return Skip(SKIP_CONFIGFS_MISSING);
      }
      var probe := report.value;
      LocatePeer(w, cable, local, probe);

      var disagreement := Disagreement(local, probe);
      if disagreement.Some? {
        Attach(w, cable, "peer_probe", Flag(true), "cable_mismatch", Str(disagreement.value));
        return Skip(SKIP_CABLE_MISMATCH);
      }
      return Proceed(local, probe);
    }
  }

  // ------------------------------------------------------------------ what a cleared run has established

  /** netdev of this node to netdev of the other: which two ends face each other. */
  type Cabling = map<string, string>

  /** One netdev of the node holds this address. */
  ghost predicate HeldOnce(node: Node, ip: Ip) {
    forall dev, other | (dev, ip) in node.addresses && (other, ip) in node.addresses :: dev == other
  }

  /** Every live neighbour entry on this netdev is an address of the netdev at its far end. */
  ghost predicate TrueFarEnds(here: Node, there: Node, cabling: Cabling, dev: string) {
    forall i | 0 <= i < |Neighbours(here, dev)| && Usable(Neighbours(here, dev)[i]) ::
      dev in cabling && (cabling[dev], Neighbours(here, dev)[i].addr) in there.addresses
  }

  /** The entry looked up is the first one for the address. */
  lemma {:induction false} EntryForIsFirst(rows: seq<Neighbour>, peer: Ip, i: nat)
    requires i < |rows| && rows[i].addr == peer && forall j | 0 <= j < i :: rows[j].addr != peer
    ensures EntryFor(rows, peer) == Some(rows[i])
  {
    if i > 0 { EntryForIsFirst(rows[1..], peer, i - 1); }
  }

  lemma {:induction false} EntryForIsSome(rows: seq<Neighbour>, peer: Ip) returns (i: nat)
    requires EntryFor(rows, peer).Some?
    ensures i < |rows| && rows[i].addr == peer && forall j | 0 <= j < i :: rows[j].addr != peer
  {
    if rows[0].addr == peer {
      i := 0;
    } else {
      var before := EntryForIsSome(rows[1..], peer);
      i := before + 1;
      assert forall j | 1 <= j < i :: rows[j] == rows[1..][j - 1];
    }
  }

  lemma {:induction false} RailIsHeld(rows: seq<(string, Ip)>)
    requires Rail(rows).Some?
    ensures Rail(rows).value in rows && InRailNet(Rail(rows).value.1)
  {
    if !InRailNet(rows[0].1) { RailIsHeld(rows[1..]); }
  }

  lemma {:induction false} AddressesAreHeld(rows: seq<(string, Ip)>, dev: string)
    ensures forall i | 0 <= i < |AddressesOf(rows, dev)| :: (dev, AddressesOf(rows, dev)[i]) in rows
  {
    if rows != [] { AddressesAreHeld(rows[1..], dev); }
  }

  /** A resolved end holds its own address on its own netdev. */
  lemma ResolvedHolds(node: Node, cable: Cable, fn: string)
    requires Resolve(node, cable, fn).Found?
    ensures var r := Resolve(node, cable, fn).value; (r.rail, r.railAddr) in node.addresses
  {
    RailIsHeld(node.addresses);
    if cable == B {
      var others := Others(node.thunderbolt, Rail(node.addresses).value.0, node.carrier);
      AddressesAreHeld(node.addresses, others[0]);
    }
  }

  /** In a fixed topology a cleared run has both ends on the same cable: the peer's netdev is the far end of ours. */
  lemma ClearedMeansSameCable(w: World, cabling: Cabling, cable: Cable, fn: string, local: Resolved, probe: Resolved)
    requires Cleared(w, cable, fn, local, probe)
    requires HeldOnce(w.worker, probe.railAddr) && TrueFarEnds(w.node, w.worker, cabling, local.rail)
    ensures local.rail in cabling && cabling[local.rail] == probe.rail
    ensures local.cable == cable && probe.cable == cable
    ensures local.group.outHop == probe.group.inHop && local.group.inHop == probe.group.outHop
  {
    GuardIsSymmetric(local, probe);
    ResolvedHolds(w.worker, cable, fn);
    var rows := Neighbours(w.node, local.rail);
    var i := EntryForIsSome(rows, local.peer.value);
    EntryForIsFirst(rows, local.peer.value, i);
    assert Usable(rows[i]);
    assert (cabling[local.rail], probe.railAddr) in w.worker.addresses;
  }

  const LOOPBACK := ("lo", Ip(127, 0, 0, 1))

  /** A host of the pair: a loopback, a LAN with a neighbour that is neither twin, and cable A with the other twin. */
  function Twin(host: nat, other: nat, hwaddr: string, otherHwaddr: string): Node {
    Node([LOOPBACK, ("eth0", Ip(192, 168, 1, host)), ("thunderbolt0", Ip(10, 99, 0, host))],
         ["thunderbolt0"], {"thunderbolt0"}, map["thunderbolt0" := hwaddr],
         map["eth0" := [Neighbour(Ip(192, 168, 1, 254), Some("gw"), Some("REACHABLE"))],
             "thunderbolt0" := [Neighbour(Ip(10, 99, 0, other), Some(otherHwaddr), Some("REACHABLE"))]],
         map["thunderbolt0" := Service(Router(Some("domain0"), Some("nhi")), map["fn0" := TWIN_GROUP])],
         map[])
  }

  const TWIN_GROUP := Group("fn0", Some("2"), Some("9"), Some("9"), Num(1024.0), Num(2048.0))

  function TwinWorld(): World {
    World(Twin(1, 2, "a", "b"), Twin(2, 1, "b", "a"), false, false, false, true, Answers, Null)
  }

  lemma TwinHolds(host: nat, other: nat, hwaddr: string, otherHwaddr: string)
    requires (host == 1 && other == 2) || (host == 2 && other == 1)
    ensures var node := Twin(host, other, hwaddr, otherHwaddr);
      && Rail(node.addresses) == Some(("thunderbolt0", Ip(10, 99, 0, host)))
      && Resolve(node, A, "fn0") == Found(Resolved(A, "thunderbolt0", Ip(10, 99, 0, host), Some(hwaddr), Some(Ip(10, 99, 0, other)),
           Router(Some("domain0"), Some("nhi")), DEVICE_PREFIX + "2", TWIN_GROUP))
      && HeldOnce(node, Ip(10, 99, 0, host))
  {
    var node := Twin(host, other, hwaddr, otherHwaddr);
    var rows := node.addresses;
    assert Rail(rows) == Some(("thunderbolt0", Ip(10, 99, 0, host))) by {
      assert rows[1..] == [("eth0", Ip(192, 168, 1, host)), ("thunderbolt0", Ip(10, 99, 0, host))];
      assert rows[1..][1..] == [("thunderbolt0", Ip(10, 99, 0, host))];
      assert Rail(rows[1..][1..]).Some?;
      assert Rail(rows) == Rail(rows[1..]) == Rail(rows[1..][1..]);
    }
    forall dev | (dev, Ip(10, 99, 0, host)) in rows ensures dev == "thunderbolt0" {
      assert rows[0].1 != Ip(10, 99, 0, host) && rows[1].1 != Ip(10, 99, 0, host);
    }
  }

  /** Two such hosts are cleared and meet the conditions of the lemma above, loopbacks and LAN neighbours included. */
  lemma TwinsAreCleared() returns (local: Resolved, probe: Resolved, cabling: Cabling)
    ensures var w := TwinWorld();
      && LOOPBACK in w.node.addresses && LOOPBACK in w.worker.addresses
      && Cleared(w, A, "fn0", local, probe)
      && HeldOnce(w.worker, probe.railAddr) && TrueFarEnds(w.node, w.worker, cabling, local.rail)
  {
    var w := TwinWorld();
    TwinHolds(1, 2, "a", "b");
    TwinHolds(2, 1, "b", "a");
    local, probe := Resolve(w.node, A, "fn0").value, Resolve(w.worker, A, "fn0").value;
    cabling := map["thunderbolt0" := "thunderbolt0"];
    TwinReached();
    assert w.node.addresses[0] == LOOPBACK && w.worker.addresses[0] == LOOPBACK;
    assert w.worker.addresses[2] == ("thunderbolt0", Ip(10, 99, 0, 2));
  }

  lemma TwinReached()
    ensures PeerReachable(TwinWorld().node, "thunderbolt0", Some(Ip(10, 99, 0, 2)), Some("a"), true)
  {
    var node := TwinWorld().node;
    forall i | 0 <= i < |node.addresses| ensures node.addresses[i].1 != Ip(10, 99, 0, 2) {
      assert i == 0 || i == 1 || i == 2;
    }
    assert Neighbours(node, "thunderbolt0")[0].addr == Ip(10, 99, 0, 2);
  }

  /** And if a serve was up, the cable is not A, and the stream's router and the serving rail's are both fully
      measured and differ. */
  lemma ClearedMeansServeIsSafe(w: World, cable: Cable, fn: string, local: Resolved, probe: Resolved)
    requires Cleared(w, cable, fn, local, probe) && ServeUp(w)
    ensures cable == B && Rail(w.node.addresses).Some?
    ensures var serve := RouterOf(w.node, Rail(w.node.addresses).value.0);
      Measured(local.router) && Measured(serve) && local.router != serve
  {
  }

  lemma MineIff(node: Node, ip: Ip)
    ensures Mine(node, ip) <==> exists dev :: (dev, ip) in node.addresses
  {
    if Mine(node, ip) {
      var i :| 0 <= i < |node.addresses| && node.addresses[i].1 == ip;
      assert (node.addresses[i].0, ip) in node.addresses;
    }
    if exists dev :: (dev, ip) in node.addresses {
      var dev :| (dev, ip) in node.addresses;
      var i :| 0 <= i < |node.addresses| && node.addresses[i] == (dev, ip);
    }
  }

  /** The i-th entry is the first for this address, usable, and not under our own link-layer address. */
  ghost predicate HeardFrom(rows: seq<Neighbour>, peer: Ip, hwaddr: Option<string>, i: nat) {
    && i < |rows| && rows[i].addr == peer && (forall j | 0 <= j < i :: rows[j].addr != peer)
    && rows[i].lladdr.Some? && rows[i].lladdr.value != "" && rows[i].state !in {Some("FAILED"), Some("INCOMPLETE")}
    && (hwaddr.Some? && hwaddr.value != "" ==> rows[i].lladdr.value != hwaddr.value)
  }

  /** A peer counts as reached exactly when it is nobody on this node, answered the ping, and its first neighbour
      entry is usable and not under our own link-layer address. */
  lemma PeerReachableIff(node: Node, dev: string, peer: Option<Ip>, hwaddr: Option<string>, ping: bool)
    ensures PeerReachable(node, dev, peer, hwaddr, ping) <==>
      && ping && peer.Some? && (forall mine :: (mine, peer.value) !in node.addresses)
      && exists i: nat :: HeardFrom(Neighbours(node, dev), peer.value, hwaddr, i)
  {
    if peer.Some? {
      MineIff(node, peer.value);
      var rows := Neighbours(node, dev);
      if PeerReachable(node, dev, peer, hwaddr, ping) {
        var i := EntryForIsSome(rows, peer.value);
        EntryForIsFirst(rows, peer.value, i);
        assert HeardFrom(rows, peer.value, hwaddr, i);
      }
      if i: nat :| HeardFrom(rows, peer.value, hwaddr, i) { EntryForIsFirst(rows, peer.value, i); }
    }
  }

  /** So a cleared run pinged its peer, was answered, and heard from it under a link-layer address not its own. */
  lemma ClearedMeansAnswered(w: World, cable: Cable, fn: string, local: Resolved, probe: Resolved)
    requires Cleared(w, cable, fn, local, probe)
    ensures w.ping && local.peer.Some? && local.hwaddr == (if local.rail in w.node.hwaddr then Some(w.node.hwaddr[local.rail]) else None)
    ensures exists i: nat :: HeardFrom(Neighbours(w.node, local.rail), local.peer.value, local.hwaddr, i)
  {
    PeerReachableIff(w.node, local.rail, local.peer, local.hwaddr, w.ping);
  }

  /** A node never takes itself for its peer: whoever was reached is held by no netdev of this node. */
  lemma PeerIsNotOurselves(node: Node, dev: string, peer: Option<Ip>, hwaddr: Option<string>, ping: bool)
    requires PeerReachable(node, dev, peer, hwaddr, ping)
    ensures forall mine :: (mine, peer.value) !in node.addresses
  {
    MineIff(node, peer.value);
  }

  /** The octet swap is its own inverse on the two hosts of the /30 and stays inside it, and only there. */
  lemma RailPeerFacts(ip: Ip)
    ensures RailPeer(ip) != ip
    ensures InRailNet(ip) ==> InRailNet(RailPeer(ip))
    ensures RailPeer(RailPeer(ip)) == ip <==> ip.d == 1 || ip.d == 2
  {
  }
}
