/** What a node's resolution of a cable amounts to, and a cleared run, read off the node's own tables: by position in
    them rather than by the searches of bench/usb4stream-bench.py. */
module Usb4Resolution {
  import opened Optional
  import opened Usb4Guards

  // ------------------------------------------------------------------ the rail network

  predicate Octets(ip: Ip) { ip.a < 256 && ip.b < 256 && ip.c < 256 && ip.d < 256 }

  function Number(ip: Ip): nat { ((ip.a * 256 + ip.b) * 256 + ip.c) * 256 + ip.d }

  const RAIL_NET := Ip(10, 99, 0, 0)

  /** An address is on the rail exactly when it agrees with 10.99.0.0 in its first 30 bits. */
  lemma RailNetIff(ip: Ip)
    requires Octets(ip)
    ensures InRailNet(ip) <==> Number(ip) / 4 == Number(RAIL_NET) / 4
  {
  }

  // ------------------------------------------------------------------ which netdev

  type Rows = seq<(string, Ip)>

  ghost predicate FirstOnRail(rows: Rows, i: nat) {
    i < |rows| && InRailNet(rows[i].1) && forall j | 0 <= j < i :: !InRailNet(rows[j].1)
  }

  lemma {:induction false} RailIsFirst(rows: Rows, i: nat)
    requires FirstOnRail(rows, i)
    ensures Rail(rows) == Some(rows[i])
  {
    if i > 0 { RailIsFirst(rows[1..], i - 1); }
  }

  lemma {:induction false} RailIsSome(rows: Rows) returns (i: nat)
    requires Rail(rows).Some?
    ensures FirstOnRail(rows, i)
  {
    if InRailNet(rows[0].1) {
      i := 0;
    } else {
      var before := RailIsSome(rows[1..]);
      i := before + 1;
      assert forall j | 1 <= j < i :: rows[j] == rows[1..][j - 1];
    }
  }

  /** Cable A is the first netdev with an address on the rail. */
  lemma CableAIff(node: Node, net: (string, Ip))
    ensures CableNetdev(node, A) == Some(net) <==> exists i: nat :: FirstOnRail(node.addresses, i) && node.addresses[i] == net
  {
    if Rail(node.addresses).Some? {
      var i := RailIsSome(node.addresses);
      RailIsFirst(node.addresses, i);
    }
    if i: nat :| FirstOnRail(node.addresses, i) && node.addresses[i] == net { RailIsFirst(node.addresses, i); }
  }

  /** A second Thunderbolt netdev with a carrier. */
  predicate IsOther(dev: string, rail: string, carrier: set<string>) { dev != rail && dev in carrier }

  ghost predicate SoleOther(devs: seq<string>, rail: string, carrier: set<string>, i: nat) {
    i < |devs| && IsOther(devs[i], rail, carrier) && forall j | 0 <= j < |devs| && j != i :: !IsOther(devs[j], rail, carrier)
  }

  lemma {:induction false} NoOthers(devs: seq<string>, rail: string, carrier: set<string>)
    ensures Others(devs, rail, carrier) == [] <==> forall j | 0 <= j < |devs| :: !IsOther(devs[j], rail, carrier)
  {
    if devs != [] {
      NoOthers(devs[1..], rail, carrier);
      assert forall j | 1 <= j < |devs| :: devs[j] == devs[1..][j - 1];
      assert forall j | 0 <= j < |devs[1..]| :: devs[1..][j] == devs[j + 1];
    }
  }

  lemma {:induction false} SoleIsOthers(devs: seq<string>, rail: string, carrier: set<string>, i: nat)
    requires SoleOther(devs, rail, carrier, i)
    ensures Others(devs, rail, carrier) == [devs[i]]
  {
    if i == 0 {
      NoOthers(devs[1..], rail, carrier);
    } else {
      SoleIsOthers(devs[1..], rail, carrier, i - 1);
    }
  }

  lemma {:induction false} OthersIsSole(devs: seq<string>, rail: string, carrier: set<string>) returns (i: nat)
    requires |Others(devs, rail, carrier)| == 1
    ensures SoleOther(devs, rail, carrier, i)
  {
    if IsOther(devs[0], rail, carrier) {
      i := 0;
      NoOthers(devs[1..], rail, carrier);
      assert forall j | 1 <= j < |devs| :: devs[j] == devs[1..][j - 1];
    } else {
      var before := OthersIsSole(devs[1..], rail, carrier);
      i := before + 1;
      assert forall j | 1 <= j < |devs| :: devs[j] == devs[1..][j - 1];
    }
  }

  ghost predicate FirstOf(rows: Rows, dev: string, i: nat) {
    i < |rows| && rows[i].0 == dev && forall j | 0 <= j < i :: rows[j].0 != dev
  }

  lemma {:induction false} FirstAddress(rows: Rows, dev: string, i: nat)
    requires FirstOf(rows, dev, i)
    ensures AddressesOf(rows, dev) != [] && AddressesOf(rows, dev)[0] == rows[i].1
  {
    if i > 0 { FirstAddress(rows[1..], dev, i - 1); }
  }

  lemma {:induction false} SomeAddress(rows: Rows, dev: string) returns (i: nat)
    requires AddressesOf(rows, dev) != []
    ensures FirstOf(rows, dev, i)
  {
    if rows[0].0 == dev {
      i := 0;
    } else {
      var before := SomeAddress(rows[1..], dev);
      i := before + 1;
      assert forall j | 1 <= j < i :: rows[j] == rows[1..][j - 1];
    }
  }

  /** Where the rail is, the only other carriered Thunderbolt netdev of the node, and its first address. */
  ghost predicate CableBAt(node: Node, rail: string, net: (string, Ip), at: nat, first: nat) {
    && SoleOther(node.thunderbolt, rail, node.carrier, at) && node.thunderbolt[at] == net.0
    && FirstOf(node.addresses, net.0, first) && node.addresses[first] == net
  }

  /** Cable B is the one other Thunderbolt netdev with a carrier, if there is exactly one and it has an address. */
  lemma CableBIff(node: Node, net: (string, Ip))
    ensures CableNetdev(node, B) == Some(net) <==>
      Rail(node.addresses).Some? && exists at: nat, first: nat :: CableBAt(node, Rail(node.addresses).value.0, net, at, first)
  {
    if Rail(node.addresses).Some? {
      var rail := Rail(node.addresses).value.0;
      var others := Others(node.thunderbolt, rail, node.carrier);
      if CableNetdev(node, B) == Some(net) {
        var at := OthersIsSole(node.thunderbolt, rail, node.carrier);
        SoleIsOthers(node.thunderbolt, rail, node.carrier, at);
        var first := SomeAddress(node.addresses, net.0);
        FirstAddress(node.addresses, net.0, first);
        assert CableBAt(node, rail, net, at, first);
      }
      if at: nat, first: nat :| CableBAt(node, rail, net, at, first) {
        SoleIsOthers(node.thunderbolt, rail, node.carrier, at);
        FirstAddress(node.addresses, net.0, first);
      }
    }
  }

  // ------------------------------------------------------------------ the peer's address

  /** A live station that is not this node. */
  ghost predicate Remote(node: Node, n: Neighbour) {
    && (forall dev :: (dev, n.addr) !in node.addresses)
    && n.lladdr.Some? && n.lladdr.value != "" && n.state !in {Some("FAILED"), Some("INCOMPLETE")}
  }

  lemma RemoteIff(node: Node, n: Neighbour)
    ensures Remote(node, n) <==> !Mine(node, n.addr) && Usable(n)
  {
    MineIff(node, n.addr);
  }

  ghost predicate FirstHeard(node: Node, rows: seq<Neighbour>, i: nat) {
    i < |rows| && Remote(node, rows[i]) && forall j | 0 <= j < i :: !Remote(node, rows[j])
  }

  lemma {:induction false} FirstHeardIsFirst(node: Node, rows: seq<Neighbour>, i: nat)
    requires FirstHeard(node, rows, i)
    ensures FirstRemote(node, rows) == Some(rows[i].addr)
  {
    RemoteIff(node, rows[0]);
    if i > 0 { FirstHeardIsFirst(node, rows[1..], i - 1); }
  }

  lemma {:induction false} SomeHeard(node: Node, rows: seq<Neighbour>) returns (i: nat)
    requires FirstRemote(node, rows).Some?
    ensures FirstHeard(node, rows, i)
  {
    RemoteIff(node, rows[0]);
    if Remote(node, rows[0]) {
      i := 0;
    } else {
      var before := SomeHeard(node, rows[1..]);
      i := before + 1;
      assert forall j | 1 <= j < i :: rows[j] == rows[1..][j - 1];
    }
  }

  /** On the rail the peer is the other host of the /30; anywhere else it is the first live station heard on the netdev
      that is not this node, or nobody. */
  lemma PeerAddressIff(node: Node, dev: string, addr: Ip, cable: Cable, peer: Ip)
    ensures PeerAddress(node, dev, addr, cable) == Some(peer) <==>
      if cable == A && InRailNet(addr) then peer == RailPeer(addr)
      else exists i: nat :: FirstHeard(node, Neighbours(node, dev), i) && Neighbours(node, dev)[i].addr == peer
  {
    var rows := Neighbours(node, dev);
    if FirstRemote(node, rows).Some? {
      var i := SomeHeard(node, rows);
      FirstHeardIsFirst(node, rows, i);
    }
    if i: nat :| FirstHeard(node, rows, i) && rows[i].addr == peer { FirstHeardIsFirst(node, rows, i); }
  }

  // ------------------------------------------------------------------ the whole chain

  /** The chain gets as far as the stream service beside the cable's netdev. */
  ghost predicate ServiceFound(node: Node, cable: Cable) {
    CableNetdev(node, cable).Some? && CableNetdev(node, cable).value.0 in node.stream
  }

  /** And on to a readable group of the function. */
  ghost predicate GroupFound(node: Node, cable: Cable, fn: string) {
    && ServiceFound(node, cable)
    && var groups := node.stream[CableNetdev(node, cable).value.0].groups; fn in groups && groups[fn].index.Some?
  }

  /** How far the chain got decides what is reported: a device, a missing group, or no service at all. */
  lemma ResolutionIff(node: Node, cable: Cable, fn: string)
    ensures Resolve(node, cable, fn).Found? <==> GroupFound(node, cable, fn)
    ensures Resolve(node, cable, fn) == NotFound(true) <==> ServiceFound(node, cable) && !GroupFound(node, cable, fn)
    ensures Resolve(node, cable, fn) == NotFound(false) <==> !ServiceFound(node, cable)
  {
  }

  /** What a resolved end says is what its node's tables say of that netdev. */
  lemma ResolvedSays(node: Node, cable: Cable, fn: string, r: Resolved)
    requires Resolve(node, cable, fn) == Found(r)
    ensures r.cable == cable && CableNetdev(node, cable) == Some((r.rail, r.railAddr))
    ensures r.rail in node.stream && fn in node.stream[r.rail].groups
    ensures r.group == node.stream[r.rail].groups[fn] && r.router == node.stream[r.rail].router
    ensures r.group.index.Some? && r.dev == "/dev/tbstream" + r.group.index.value
    ensures r.hwaddr.Some? <==> r.rail in node.hwaddr
    ensures r.hwaddr.Some? ==> r.hwaddr.value == node.hwaddr[r.rail]
    ensures r.peer == PeerAddress(node, r.rail, r.railAddr, cable)
  {
  }

  // ------------------------------------------------------------------ a cleared run

  /** Both ends are on one cable by all three witnesses: the label, the hop ids and the addresses. */
  ghost predicate Interlocked(local: Resolved, probe: Resolved) {
    && local.cable == probe.cable
    && local.group.outHop.Some? && local.group.inHop.Some?
    && probe.group.inHop == local.group.outHop && probe.group.outHop == local.group.inHop
    && (local.peer.None? || local.peer.value == probe.railAddr)
    && (probe.peer.None? || probe.peer.value == local.railAddr)
  }

  lemma GuardPassesIff(local: Resolved, probe: Resolved)
    ensures Disagreement(local, probe).None? <==> Interlocked(local, probe)
  {
  }

  /** Domain and NHI of both known, and not both the same. */
  ghost predicate Disjoint(a: Router, b: Router) {
    && a.domain.Some? && a.nhi.Some? && b.domain.Some? && b.nhi.Some?
    && (a.domain.value != b.domain.value || a.nhi.value != b.nhi.value)
  }

  /** No serve anywhere; or the run is on cable B, behind a router that is not the serving rail's. */
  ghost predicate ServeIsSafe(w: World, cable: Cable, local: Resolved) {
    || (!w.api && !w.here && !w.there)
    || (cable == B && exists i: nat :: FirstOnRail(w.node.addresses, i) && w.node.addresses[i].0 in w.node.router
                                       && Disjoint(local.router, w.node.router[w.node.addresses[i].0]))
  }

  lemma ServeBlocksIff(w: World, cable: Cable, fn: string, local: Resolved)
    requires Resolve(w.node, cable, fn) == Found(local)
    ensures !(ServeUp(w) && ServeBlocks(w.node, cable, fn)) <==> ServeIsSafe(w, cable, local)
  {
    var rows := w.node.addresses;
    if Rail(rows).Some? {
      var i := RailIsSome(rows);
      RailIsFirst(rows, i);
      forall j: nat | FirstOnRail(rows, j) ensures rows[j] == rows[i] { RailIsFirst(rows, j); }
    }
  }

  /** The peer answered the ping, and was heard on our netdev under a link-layer address that is not ours. */
  ghost predicate Answered(w: World, local: Resolved) {
    && w.ping && local.peer.Some? && (forall dev :: (dev, local.peer.value) !in w.node.addresses)
    && exists i: nat :: HeardFrom(Neighbours(w.node, local.rail), local.peer.value, local.hwaddr, i)
  }

  /** A run is cleared exactly when no serve is in the way, both ends resolve, the peer answers on our netdev and on
      the control wire, and the two ends interlock. */
  lemma ClearedIff(w: World, cable: Cable, fn: string, local: Resolved, probe: Resolved)
    ensures Cleared(w, cable, fn, local, probe) <==>
      && Resolve(w.node, cable, fn) == Found(local) && Resolve(w.worker, cable, fn) == Found(probe)
      && ServeIsSafe(w, cable, local) && Answered(w, local) && w.reply == Answers && Interlocked(local, probe)
  {
    if Resolve(w.node, cable, fn) == Found(local) {
      ServeBlocksIff(w, cable, fn, local);
      PeerReachableIff(w.node, local.rail, local.peer, local.hwaddr, w.ping);
      GuardPassesIff(local, probe);
    }
  }

  /** The reason a run is refused, by what failed first: the serve, the way to the peer, a group at either end, the
      agreement of the two. */
  lemma RefusesIff(w: World, cable: Cable, fn: string, outcome: string)
    ensures var here := Resolve(w.node, cable, fn);
      var blocked := ServeUp(w) && ServeBlocks(w.node, cable, fn);
      && (blocked ==> (Refuses(w, cable, fn, outcome) <==> outcome == "skipped:serve-up-on-shared-cable"))
      && (!blocked && !ServiceFound(w.node, cable) ==>
            (Refuses(w, cable, fn, outcome) <==> outcome == "skipped:rail-peer-unreachable"))
      && (!blocked && ServiceFound(w.node, cable) && !GroupFound(w.node, cable, fn) && !w.reply.Raises? ==>
            (Refuses(w, cable, fn, outcome) <==> outcome == "skipped:configfs-group-missing"))
      && (!blocked && here.Found? && !Answered(w, here.value) ==>
            (Refuses(w, cable, fn, outcome) <==> outcome == "skipped:rail-peer-unreachable"))
      && (!blocked && here.Found? && Answered(w, here.value) && (w.reply == Silent || (w.reply == Answers && !GroupFound(w.worker, cable, fn))) ==>
            (Refuses(w, cable, fn, outcome) <==> outcome == "skipped:configfs-group-missing"))
      && (!blocked && here.Found? && Answered(w, here.value) && w.reply == Answers && GroupFound(w.worker, cable, fn)
          && !Interlocked(here.value, Resolve(w.worker, cable, fn).value) ==>
            (Refuses(w, cable, fn, outcome) <==> outcome == "skipped:cable-mismatch-between-nodes"))
  {
    ResolutionIff(w.node, cable, fn);
    ResolutionIff(w.worker, cable, fn);
    var here := Resolve(w.node, cable, fn);
    if here.Found? {
      PeerReachableIff(w.node, here.value.rail, here.value.peer, here.value.hwaddr, w.ping);
      if Resolve(w.worker, cable, fn).Found? { GuardPassesIff(here.value, Resolve(w.worker, cable, fn).value); }
    }
  }
}
