/** One run of bench/usb4stream-bench.py on each side, and any number of retries: the one open, the one receipt,
    and that the gate accepts whatever receipt is written. */
module Usb4Run {
  import opened Json
  import opened Fingerprint
  import opened ReceiptGate
  import opened Usb4Bound
  import opened Usb4Schedule
  import opened Usb4Guards
  import opened Optional

  // ------------------------------------------------------------------ the numbers of a finished schedule

  /** Percentiles per size and the two elapsed times, as the clock gave them. */
  datatype Timing = Timing(p50: nat -> real, p99: nat -> real, sent: real, received: real)

  function Cell(t: Timing, size: nat, iters: nat): Json {
    Obj(map["p50" := Num(t.p50(size)), "p99" := Num(t.p99(size)), "iters" := Num(iters as real)])
  }

  /** One entry per size, under its decimal form. */
  ghost predicate CellsFor(cells: Evidence, sizes: seq<nat>) {
    && HasSizes(cells, sizes)
    && forall k | k in cells :: CellOk(cells[k]) && NamesSize(k, sizes)
  }

  ghost predicate NamesSize(key: string, sizes: seq<nat>) {
    exists i | 0 <= i < |sizes| :: key == Decimal(sizes[i])
  }

  /** The cell holds this size's figures, each under its own name. */
  ghost predicate CellSays(cell: Json, t: Timing, size: nat, iters: nat) {
    && cell.Obj? && Get(cell.fields, "p50") == Num(t.p50(size)) && Get(cell.fields, "p99") == Num(t.p99(size))
    && Get(cell.fields, "iters") == Num(iters as real)
  }

  ghost predicate CellsSay(cells: Evidence, t: Timing, sizes: seq<nat>, iters: nat) {
    forall i | 0 <= i < |sizes| :: Decimal(sizes[i]) in cells && CellSays(cells[Decimal(sizes[i])], t, sizes[i], iters)
  }

  method Cells(t: Timing, sizes: seq<nat>, iters: nat) returns (cells: Evidence)
    ensures CellsFor(cells, sizes)
    ensures CellsSay(cells, t, sizes, iters)
  {
    cells := map[];
    ghost var done: seq<nat> := [];
    for i := 0 to |sizes|
      invariant done == sizes[..i] && CellsFor(cells, done) && CellsSay(cells, t, done, iters)
    {
      CellIsOk(t, sizes[i], iters);
      OneMoreSays(cells, t, done, sizes[i], iters);
      OneMoreCell(cells, done, sizes[i], Cell(t, sizes[i], iters));
      done := done + [sizes[i]];
      cells := cells[Decimal(sizes[i]) := Cell(t, sizes[i], iters)];
    }
    assert done == sizes;
  }

  /** A size measured again is the same size: distinct sizes have distinct decimal forms. */
  lemma OneMoreSays(cells: Evidence, t: Timing, sizes: seq<nat>, size: nat, iters: nat)
    requires CellsSay(cells, t, sizes, iters)
    ensures CellsSay(cells[Decimal(size) := Cell(t, size, iters)], t, sizes + [size], iters)
  {
    var more, longer := cells[Decimal(size) := Cell(t, size, iters)], sizes + [size];
    forall i | 0 <= i < |longer| ensures Decimal(longer[i]) in more && CellSays(more[Decimal(longer[i])], t, longer[i], iters) {
      if i < |sizes| { assert longer[i] == sizes[i]; }
      if Decimal(longer[i]) == Decimal(size) { DecimalInjective(longer[i], size); }
    }
  }

  lemma CellIsOk(t: Timing, size: nat, iters: nat)
    ensures CellOk(Cell(t, size, iters))
  {
    assert Truthy(Cell(t, size, iters)) by { assert "p50" in Cell(t, size, iters).fields; }
  }

  lemma OneMoreCell(cells: Evidence, sizes: seq<nat>, size: nat, cell: Json)
    requires CellsFor(cells, sizes) && CellOk(cell)
    ensures CellsFor(cells[Decimal(size) := cell], sizes + [size])
  {
    var more, longer := cells[Decimal(size) := cell], sizes + [size];
    forall i | 0 <= i < |longer| ensures Decimal(longer[i]) in more {
      if i < |sizes| { assert longer[i] == sizes[i]; }
    }
    forall k | k in more ensures CellOk(more[k]) && NamesSize(k, longer) {
      if k in cells && k != Decimal(size) {
        var i :| 0 <= i < |sizes| && k == Decimal(sizes[i]);
        assert longer[i] == sizes[i];
      } else {
        assert longer[|sizes|] == size;
      }
    }
  }

  /** Megabytes per second, or null when no time has passed. */
  function Rate(bytes: nat, elapsed: real): Json {
    if elapsed != 0.0 then Num(bytes as real / 1000000.0 / elapsed) else Null
  }

  // ------------------------------------------------------------------ the one open

  datatype Opened = Descriptor | Failed | SecondOpen

  /** The process-wide count behind open_stream_once. */
  class Opener {
    var count: nat

    constructor ()
      ensures count == 0
    {
      count := 0;
    }

    /** Counted before the attempt; a second call raises without attempting anything. */
    method Open(succeeds: bool) returns (r: Opened)
      modifies this
      ensures old(count) > 0 ==> r == SecondOpen && count == old(count)
      ensures old(count) == 0 ==> count == 1 && r == (if succeeds then Descriptor else Failed)
    {
      if count != 0 { return SecondOpen; }
      count := count + 1;
      r := if succeeds then Descriptor else Failed;
    }
  }

  // ------------------------------------------------------------------ what the world does to a run

  /** Where a coordinator past its preconditions stops, if it stops: errors are alarms, closed pipes, anything. A
      launch that fails may still have set the peer going; its report is then lost. */
  datatype Ending =
    | LaunchFails(errno: string, ran: bool)
    | BarrierFails(errno: string)
    | OpenFails(errno: string)
    | ScheduleFails(phase: string, errno: string)
    | Finishes(timing: Timing)

  /** world: what the preconditions see. peerNode: the worker when it resolves again. peer: what its open and its
      schedule meet. reported: its report survives the trip back. */
  datatype Env = Env(world: World, peerNode: Node, peer: PeerEnd, reported: bool, ending: Ending)

  datatype PeerEnd = PeerOpenFails(errno: string) | PeerScheduleFails(phase: string, errno: string) | PeerFinishes

  const OPEN_PHASE: string := "open"

  function Aborted(phase: string, errno: string): string { ABORTED + phase + [':'] + errno }

  // ------------------------------------------------------------------ everything that outlives a process

  /** The receipt file, and how many opens were ever attempted on each side. */
  class Site {
    var receipt: Option<Json>
    var coordinatorOpens: nat
    var peerOpens: nat
    var launches: nat

    constructor ()
      ensures receipt.None? && coordinatorOpens == 0 && peerOpens == 0 && launches == 0
    {
      receipt, coordinatorOpens, peerOpens, launches := None, 0, 0, 0;
    }
  }

  /** The receipt of a run, with the outcome and the loop it was measured by. */
  function Receipt(outcome: string, base: Evidence, ts: string): Json {
    var body := base["outcome" := Str(outcome)];
    var body := if "loop" in body then body else body["loop" := Str("python")];
    Obj(map["step" := Str("usb4stream"), "status" := Str("pass"), "ts" := Str(ts), "data" := Obj(body)])
  }

  /** The peer will take this device: the cable still resolves on its node, and to that device if one is named. */
  predicate Takes(node: Node, dev: string, cable: Cable, fn: string) {
    Resolve(node, cable, fn).Found? && (dev == "" || Resolve(node, cable, fn).value.dev == dev)
  }

  /** The peer: resolve again, refuse a device that is not ours, open once, announce, run the mirror. */
  method RunPeer(site: Site, node: Node, dev: string, cable: Cable, fn: string, end: PeerEnd)
    returns (marker: bool, report: Evidence)
    modifies site`peerOpens
    ensures site.peerOpens == old(site.peerOpens) + (if Takes(node, dev, cable, fn) then 1 else 0)
    ensures marker <==> Takes(node, dev, cable, fn) && !end.PeerOpenFails?
    ensures Get(report, "outcome") == Str("ok") <==> marker && end.PeerFinishes?
    ensures Get(report, "open_count") == Num(if marker then 1.0 else 0.0)
  {
    marker := false;
    report := map["outcome" := Str("ok"), "open_count" := Num(0.0)];
    var resolution := Resolve(node, cable, fn);
    if resolution.NotFound? || (dev != "" && dev != resolution.value.dev) {
      report := report["outcome" := Str(Aborted("startup", "EUNKNOWN"))];
      AbortedIsNotOk("startup", "EUNKNOWN");
      return;
    }
    var opener := new Opener();
    var r := opener.Open(!end.PeerOpenFails?);
    site.peerOpens := site.peerOpens + opener.count;
    if r != Descriptor {
      report := report["outcome" := Str(Aborted(OPEN_PHASE, end.errno))];
      AbortedIsNotOk(OPEN_PHASE, end.errno);
      return;
    }
    report := report["open_count" := Num(1.0)];
    marker := true;
    if end.PeerScheduleFails? {
      report := report["outcome" := Str(Aborted(end.phase, end.errno))];
      AbortedIsNotOk(end.phase, end.errno);
    }
  }

  lemma AbortedIsNotOk(phase: string, errno: string)
    ensures Aborted(phase, errno)[0] == 'a' && Aborted(phase, errno) != "ok"
  {
  }

  // ------------------------------------------------------------------ what the gate makes of it

  function DataOf(receipt: Json): Json {
    if receipt.Obj? then OrEmpty(Get(receipt.fields, "data")) else Null
  }

  /** base.update(results): the three measured sections. */
  ghost predicate HasResults(base: Evidence, p: Params, t: Timing) {
    && "rtt_us" in base && base["rtt_us"].Obj? && CellsFor(base["rtt_us"].fields, p.rttSizes)
    && "exchange_us" in base && base["exchange_us"].Obj? && CellsFor(base["exchange_us"].fields, p.exchangeSizes)
    && Get(base, "throughput_mb_s") == Rates(p, t)
  }

  function Rates(p: Params, t: Timing): Json {
    Obj(map["coordinator_to_peer" := Rate(p.throughputBytes, t.sent), "peer_to_coordinator" := Rate(p.throughputBytes, t.received)])
  }

  /** The rate is the megabytes moved, over the time they took; there is none where no time passed. */
  ghost predicate RateSays(rate: Json, bytes: nat, elapsed: real) {
    if elapsed == 0.0 then rate == Null else rate.Num? && Over(rate.number, elapsed) == bytes as real / 1000000.0
  }

  function Over(rate: real, elapsed: real): real { rate * elapsed }

  lemma RateIsRight(bytes: nat, elapsed: real)
    ensures RateSays(Rate(bytes, elapsed), bytes, elapsed)
  {
    if elapsed != 0.0 { assert bytes as real / 1000000.0 / elapsed * elapsed == bytes as real / 1000000.0; }
  }

  /** The receipt's figures are those the clock gave, each size and each direction in its own place. */
  ghost predicate Figures(d: Evidence, p: Params, t: Timing) {
    && Get(d, "rtt_us").Obj? && CellsSay(Get(d, "rtt_us").fields, t, p.rttSizes, p.rttIters)
    && Get(d, "exchange_us").Obj? && CellsSay(Get(d, "exchange_us").fields, t, p.exchangeSizes, p.exchangeIters)
    && Get(d, "throughput_mb_s").Obj?
    && RateSays(Get(Get(d, "throughput_mb_s").fields, "coordinator_to_peer"), p.throughputBytes, t.sent)
    && RateSays(Get(Get(d, "throughput_mb_s").fields, "peer_to_coordinator"), p.throughputBytes, t.received)
  }

  lemma FiguresStay(rtt: Evidence, exchange: Evidence, base: Evidence, d: Evidence, keys: set<string>, p: Params, t: Timing)
    requires CellsSay(rtt, t, p.rttSizes, p.rttIters) && CellsSay(exchange, t, p.exchangeSizes, p.exchangeIters)
    requires SameBut(Updated(base, rtt, exchange, p, t), d, keys) && RESULT_KEYS !! keys
    ensures Figures(d, p, t)
  {
    assert "rtt_us" in RESULT_KEYS && "exchange_us" in RESULT_KEYS && "throughput_mb_s" in RESULT_KEYS;
    RateIsRight(p.throughputBytes, t.sent);
    RateIsRight(p.throughputBytes, t.received);
  }

  /** The schedule measures every size the gate demands. */
  ghost predicate Covers(p: Params) {
    (forall i | 0 <= i < |GATE_RTT| :: GATE_RTT[i] in p.rttSizes)
    && (forall i | 0 <= i < |GATE_EXCHANGE| :: GATE_EXCHANGE[i] in p.exchangeSizes)
  }

  lemma FirstLightCovers()
    ensures Covers(FIRST_LIGHT)
  {
    assert GATE_RTT == FIRST_LIGHT.rttSizes && GATE_EXCHANGE == FIRST_LIGHT.exchangeSizes;
  }

  lemma CoveredIff(cells: Evidence, sizes: seq<nat>, demanded: seq<nat>)
    requires CellsFor(cells, sizes)
    ensures HasSizes(cells, demanded) <==> forall i | 0 <= i < |demanded| :: demanded[i] in sizes
  {
    forall i | 0 <= i < |demanded| ensures Decimal(demanded[i]) in cells <==> demanded[i] in sizes {
      if Decimal(demanded[i]) in cells {
        var j :| 0 <= j < |sizes| && Decimal(demanded[i]) == Decimal(sizes[j]);
        DecimalInjective(demanded[i], sizes[j]);
      }
      if demanded[i] in sizes {
        var j :| 0 <= j < |sizes| && sizes[j] == demanded[i];
        assert Decimal(sizes[j]) in cells;
      }
    }
  }

  lemma RatesPass(p: Params, t: Timing)
    ensures RatesOk(Rates(p, t)) <==> t.sent != 0.0 && t.received != 0.0
  {
    var fields := Rates(p, t).fields;
    assert "coordinator_to_peer" in fields && "peer_to_coordinator" in fields;
    assert fields.Keys == {"coordinator_to_peer", "peer_to_coordinator"};
    assert |fields| == |fields.Keys|;
  }

  /** What a receipt of outcome ok carries. */
  ghost predicate OkBody(d: Evidence, p: Params, t: Timing, dev: string, peerDev: string) {
    && Get(d, "outcome") == Str("ok") && "serve_up" in d && Get(d, "loop") == Str("python")
    && Get(d, "open_count") == Counts(Num(1.0), Num(1.0))
    && Get(d, "device") == Counts(Str(dev), Str(peerDev))
    && "ring_size" in d && "throttling" in d
    && HasResults(d, p, t)
  }

  lemma CountsFacts(c: Json, e: Json)
    ensures Truthy(Counts(c, e)) && OrEmpty(Counts(c, e)) == Counts(c, e)
    ensures Get(Counts(c, e).fields, "coordinator") == c && Get(Counts(c, e).fields, "peer") == e
    ensures OpensOk(Counts(c, e)) <==> c == Num(1.0) && e == Num(1.0)
  {
    var f := Counts(c, e).fields;
    assert "coordinator" in f && "peer" in f;
  }

  ghost predicate SectionOk(section: Json, demanded: seq<nat>) {
    Truthy(section) && SizesPresent(OrEmpty(section), demanded) == Fine && CellsPresent(OrEmpty(section)) == Fine
  }

  ghost predicate RatesOk(rates: Json) { Truthy(rates) && Usb4Bound.Throughput(OrEmpty(rates)) == Fine }

  /** A section of cells passes every check on it exactly when the demanded sizes were measured. */
  lemma SectionPassesIff(cells: Evidence, sizes: seq<nat>, demanded: seq<nat>)
    requires CellsFor(cells, sizes) && demanded != []
    ensures SectionOk(Obj(cells), demanded) <==> forall i | 0 <= i < |demanded| :: demanded[i] in sizes
  {
    SizesPresentIff(cells, demanded);
    CoveredIff(cells, sizes, demanded);
    if HasSizes(cells, demanded) { assert Decimal(demanded[0]) in cells; }
  }

  /** The gate passes an ok receipt exactly when its schedule measures the sizes demanded and the clock moved in
      both throughput phases. */
  lemma OkPassesIff(d: Evidence, p: Params, t: Timing, dev: string, peerDev: string)
    requires OkBody(d, p, t, dev, peerDev) && dev != "" && peerDev != ""
    ensures Usb4stream(Obj(d)) == Fine <==> Covers(p) && t.sent != 0.0 && t.received != 0.0
  {
    NeitherSkipNorAbort();
    RestPassesIff(d, p, t, dev, peerDev);
    SectionsPassIff(d, p, t);
    MeasuredOkIff(d);
  }

  lemma MeasuredOkIff(d: Evidence)
    ensures MeasuredOk(d) == Fine <==> SectionsPass(d) && RestPasses(d)
  {
  }

  /** The checks on what was measured. */
  predicate SectionsPass(d: Evidence) {
    var rtt, exchange := OrEmpty(Get(d, "rtt_us")), OrEmpty(Get(d, "exchange_us"));
    && (forall i | 0 <= i < |GATE_KEYS| :: Truthy(Get(d, GATE_KEYS[i])))
    && SizesPresent(rtt, GATE_RTT) == Fine && SizesPresent(exchange, GATE_EXCHANGE) == Fine
    && CellsPresent(rtt) == Fine && CellsPresent(exchange) == Fine
    && Usb4Bound.Throughput(OrEmpty(Get(d, "throughput_mb_s"))) == Fine
  }

  predicate RestPasses(d: Evidence) {
    && OpensOk(Get(d, "open_count")) && "ring_size" in d && "throttling" in d
    && Devices(OrEmpty(Get(d, "device"))) == Fine && Get(d, "loop") == Str("python")
  }

  lemma SectionsPassParts(d: Evidence)
    ensures SectionsPass(d) <==>
      && Truthy(Get(d, "device")) && RatesOk(Get(d, "throughput_mb_s"))
      && SectionOk(Get(d, "rtt_us"), GATE_RTT) && SectionOk(Get(d, "exchange_us"), GATE_EXCHANGE)
  {
    AllThere(d);
  }

  lemma SectionsPassIff(d: Evidence, p: Params, t: Timing)
    requires HasResults(d, p, t) && Truthy(Get(d, "device"))
    ensures SectionsPass(d) <==> Covers(p) && t.sent != 0.0 && t.received != 0.0
  {
    SectionPassesIff(d["rtt_us"].fields, p.rttSizes, GATE_RTT);
    SectionPassesIff(d["exchange_us"].fields, p.exchangeSizes, GATE_EXCHANGE);
    RatesPass(p, t);
    SectionsPassParts(d);
  }

  lemma RestPassesIff(d: Evidence, p: Params, t: Timing, dev: string, peerDev: string)
    requires OkBody(d, p, t, dev, peerDev) && dev != "" && peerDev != ""
    ensures RestPasses(d) && Truthy(Get(d, "device"))
  {
    CountsFacts(Num(1.0), Num(1.0));
    CountsFacts(Str(dev), Str(peerDev));
  }

  lemma NeitherSkipNorAbort()
    ensures !(SKIPPED <= "ok") && !(ABORTED <= "ok")
  {
  }

  lemma ReceiptData(outcome: string, base: Evidence, ts: string)
    ensures DataOf(Receipt(outcome, base, ts)).Obj?
    ensures var d := DataOf(Receipt(outcome, base, ts)).fields;
      && Get(d, "outcome") == Str(outcome)
      && SameBut(base, d, {"outcome", "loop"})
      && ("loop" in base ==> Get(d, "loop") == base["loop"])
  {
    var body := base["outcome" := Str(outcome)];
    var body' := if "loop" in body then body else body["loop" := Str("python")];
    assert "outcome" in body';
    var r := Receipt(outcome, base, ts).fields;
    assert "data" in r && r["data"] == Obj(body');
  }

  /** Any skip or abort is accepted: its reason is text. */
  lemma TypedReceiptPasses(base: Evidence, outcome: string, ts: string, prefix: string, reason: string)
    requires prefix == SKIPPED || prefix == ABORTED
    requires outcome == prefix + reason && !Blank(reason) && "serve_up" in base
    ensures Usb4stream(DataOf(Receipt(outcome, base, ts))) == Fine
  {
    ReceiptData(outcome, base, ts);
    TypedOutcomePasses(DataOf(Receipt(outcome, base, ts)).fields, prefix, reason);
  }

  lemma AbortPasses(base: Evidence, phase: string, errno: string, ts: string)
    requires "serve_up" in base
    ensures Usb4stream(DataOf(Receipt(Aborted(phase, errno), base, ts))) == Fine
  {
    var reason := phase + [':'] + errno;
    assert reason[|phase|] == ':';
    assert ABORTED + phase + [':'] + errno == ABORTED + reason;
    TypedReceiptPasses(base, Aborted(phase, errno), ts, ABORTED, reason);
  }

  lemma SkipPasses(base: Evidence, outcome: string, ts: string)
    requires outcome in {SKIP_SERVE_UP, SKIP_PEER_UNREACHABLE, SKIP_CONFIGFS_MISSING, SKIP_CABLE_MISMATCH}
    requires "serve_up" in base
    ensures Usb4stream(DataOf(Receipt(outcome, base, ts))) == Fine
  {
    SkipReason(outcome);
    TypedReceiptPasses(base, outcome, ts, SKIPPED, outcome[8..]);
  }

  /** The four skip types begin with the skip prefix and then a letter. */
  lemma SkipLetters()
    ensures |SKIP_SERVE_UP| > 8 && SKIP_SERVE_UP[..8] == SKIPPED && SKIP_SERVE_UP[8] == 's'
    ensures |SKIP_PEER_UNREACHABLE| > 8 && SKIP_PEER_UNREACHABLE[..8] == SKIPPED && SKIP_PEER_UNREACHABLE[8] == 'r'
    ensures |SKIP_CONFIGFS_MISSING| > 8 && SKIP_CONFIGFS_MISSING[..8] == SKIPPED && SKIP_CONFIGFS_MISSING[8] == 'c'
    ensures |SKIP_CABLE_MISMATCH| > 8 && SKIP_CABLE_MISMATCH[..8] == SKIPPED && SKIP_CABLE_MISMATCH[8] == 'c'
  {
  }

  lemma LetterIsReason(outcome: string)
    requires |outcome| > 8 && outcome[..8] == SKIPPED && !IsSpace(outcome[8])
    ensures outcome == SKIPPED + outcome[8..] && !Blank(outcome[8..])
  {
    assert outcome == outcome[..8] + outcome[8..];
    assert outcome[8..][0] == outcome[8];
  }

  lemma SkipReason(outcome: string)
    requires outcome in {SKIP_SERVE_UP, SKIP_PEER_UNREACHABLE, SKIP_CONFIGFS_MISSING, SKIP_CABLE_MISMATCH}
    ensures |outcome| > 8 && outcome == SKIPPED + outcome[8..] && !Blank(outcome[8..])
  {
    SkipLetters();
    LetterIsReason(outcome);
  }

  /** The whole gate then has nothing against the receipt, whatever the other bounds are. */
  lemma GateFollowsTheBound(outcome: string, base: Evidence, ts: string, bounds: seq<Bound>)
    requires forall i, d | 0 <= i < |bounds| && bounds[i].prefix <= "usb4stream" :: bounds[i].check(d) == Usb4stream(d)
    requires Usb4stream(DataOf(Receipt(outcome, base, ts))) == Fine
    ensures Grade(Parsed(Receipt(outcome, base, ts)), bounds) == Fine
  {
    var r := Receipt(outcome, base, ts).fields;
    assert "step" in r && "status" in r && "ts" in r;
    assert Get(r, "step") == Str("usb4stream") && Get(r, "status") == Str("pass");
    assert "pass"[0] != "fail"[0];
  }

  // ------------------------------------------------------------------ the coordinator

  method WriteReceipt(site: Site, outcome: string, base: Evidence, ts: string)
    modifies site`receipt
    ensures site.receipt == Some(Receipt(outcome, base, ts))
  {
    site.receipt := Some(Receipt(outcome, base, ts));
  }

  /** The abort path: type the error, attach the peer's report, write the receipt. */
  method Abort(site: Site, base: Evidence, phase: string, errno: string, report: Evidence, ts: string)
    requires "serve_up" in base
    modifies site`receipt
    ensures site.receipt.Some? && Usb4stream(DataOf(site.receipt.value)) == Fine
    ensures OutcomeOf(site.receipt.value) == Str(Aborted(phase, errno)) && OutcomeOf(site.receipt.value) != Str("ok")
    ensures DataOf(site.receipt.value).Obj?
      && SameBut(base, DataOf(site.receipt.value).fields, {"outcome", "loop", "error", "peer_report"})
  {
    AbortedIsNotOk(phase, errno);
    var full := base["error" := Str(errno)]["peer_report" := Obj(report)];
    WriteReceipt(site, Aborted(phase, errno), full, ts);
    AbortPasses(full, phase, errno, ts);
    ReceiptData(Aborted(phase, errno), full, ts);
  }

  function OutcomeOf(receipt: Json): Json {
    if DataOf(receipt).Obj? then Get(DataOf(receipt).fields, "outcome") else Null
  }

  /** The run is refused before anything is launched. */
  method Refuse(site: Site, base: Evidence, outcome: string, ts: string)
    requires outcome in {SKIP_SERVE_UP, SKIP_PEER_UNREACHABLE, SKIP_CONFIGFS_MISSING, SKIP_CABLE_MISMATCH}
    requires "serve_up" in base
    modifies site`receipt
    ensures site.receipt.Some? && Usb4stream(DataOf(site.receipt.value)) == Fine
    ensures OutcomeOf(site.receipt.value) == Str(outcome) && OutcomeOf(site.receipt.value) != Str("ok")
  {
    SkipIsNotOk(outcome);
    WriteReceipt(site, outcome, base, ts);
    SkipPasses(base, outcome, ts);
    ReceiptData(outcome, base, ts);
  }

  /** The finished run: its numbers, then ok if the peer reports a clean run with one open, or a typed abort. */
  method Finish(site: Site, base: Evidence, w: World, cable: Cable, local: Resolved, probe: Resolved, p: Params, t: Timing,
                report: Evidence, ts: string)
    requires Recorded(base, w, cable) && Located(base, local, probe) && local.dev != "" && probe.dev != ""
    modifies site`receipt
    ensures site.receipt.Some?
    ensures OutcomeOf(site.receipt.value) ==
      Str(if Get(report, "outcome") == Str("ok") && Get(report, "open_count") == Num(1.0) then "ok" else Aborted("peer", "EPROTO"))
    ensures Usb4stream(DataOf(site.receipt.value)) == Fine <==>
      (OutcomeOf(site.receipt.value) == Str("ok") ==> Covers(p) && t.sent != 0.0 && t.received != 0.0)
    ensures Measures(site.receipt.value, p, t)
  {
    var rtt := Cells(t, p.rttSizes, p.rttIters);
    var exchange := Cells(t, p.exchangeSizes, p.exchangeIters);
    var measured := Updated(base, rtt, exchange, p, t);
    if Get(report, "outcome") != Str("ok") || Get(report, "open_count") != Num(1.0) {
      Abort(site, measured, "peer", "EPROTO", report, ts);
      FiguresStay(rtt, exchange, base, DataOf(site.receipt.value).fields, {"outcome", "loop", "error", "peer_report"}, p, t);
      return;
    }
    var full := Attached(measured, report);
    WriteReceipt(site, "ok", full, ts);
    FullIsOkBody(base, w, cable, local, probe, p, t, rtt, exchange, report, ts);
    OkPassesIff(DataOf(Receipt("ok", full, ts)).fields, p, t, local.dev, probe.dev);
    FullKeepsFigures(base, rtt, exchange, report, p, t, ts);
  }

  /** base.update(results) */
  function Updated(base: Evidence, rtt: Evidence, exchange: Evidence, p: Params, t: Timing): Evidence {
    base["rtt_us" := Obj(rtt)]["exchange_us" := Obj(exchange)]["throughput_mb_s" := Rates(p, t)]
  }

  const RESULT_KEYS: set<string> := {"rtt_us", "exchange_us", "throughput_mb_s"}

  lemma UpdatedFacts(base: Evidence, rtt: Evidence, exchange: Evidence, p: Params, t: Timing)
    requires CellsFor(rtt, p.rttSizes) && CellsFor(exchange, p.exchangeSizes)
    ensures HasResults(Updated(base, rtt, exchange, p, t), p, t)
    ensures SameBut(base, Updated(base, rtt, exchange, p, t), RESULT_KEYS)
  {
  }

  /** The peer's report, and the opens of both sides. */
  function Attached(base: Evidence, report: Evidence): Evidence {
    base["open_count" := Counts(Num(1.0), Get(report, "open_count"))]["peer_report" := Obj(report)]
  }

  lemma AttachedFacts(base: Evidence, report: Evidence)
    ensures Get(Attached(base, report), "open_count") == Counts(Num(1.0), Get(report, "open_count"))
    ensures SameBut(base, Attached(base, report), {"open_count", "peer_report"})
  {
  }

  /** Keys the results and the peer's report leave as they were. */
  lemma KeysApart()
    ensures RESULT_KEYS !! {"open_count", "peer_report"} && RESULT_KEYS !! {"outcome", "loop"}
    ensures {"serve_up", "loop", "device", "ring_size", "throttling"} !! RESULT_KEYS + {"open_count", "peer_report"}
    ensures {"serve_up", "device", "ring_size", "throttling", "open_count"} !! {"outcome", "loop"}
  {
  }

  lemma ResultsStay(before: Evidence, after: Evidence, keys: set<string>, p: Params, t: Timing)
    requires HasResults(before, p, t) && SameBut(before, after, keys) && RESULT_KEYS !! keys
    ensures HasResults(after, p, t)
  {
    assert "rtt_us" in RESULT_KEYS && "exchange_us" in RESULT_KEYS && "throughput_mb_s" in RESULT_KEYS;
  }

  lemma KeyStays(before: Evidence, after: Evidence, keys: set<string>, kept: set<string>, key: string)
    requires SameBut(before, after, keys) && kept !! keys && key in kept
    ensures (key in after <==> key in before) && Get(after, key) == Get(before, key)
  {
  }

  lemma FullIsOkBody(base: Evidence, w: World, cable: Cable, local: Resolved, probe: Resolved, p: Params, t: Timing,
                     rtt: Evidence, exchange: Evidence, report: Evidence, ts: string)
    requires Recorded(base, w, cable) && Located(base, local, probe)
    requires CellsFor(rtt, p.rttSizes) && CellsFor(exchange, p.exchangeSizes) && Get(report, "open_count") == Num(1.0)
    ensures var full := Attached(Updated(base, rtt, exchange, p, t), report);
      DataOf(Receipt("ok", full, ts)).Obj? && OkBody(DataOf(Receipt("ok", full, ts)).fields, p, t, local.dev, probe.dev)
      && OutcomeOf(Receipt("ok", full, ts)) == Str("ok")
  {
    var measured := Updated(base, rtt, exchange, p, t);
    var full := Attached(measured, report);
    KeysApart();
    UpdatedFacts(base, rtt, exchange, p, t);
    AttachedFacts(measured, report);
    ResultsStay(measured, full, {"open_count", "peer_report"}, p, t);
    BaseStays(base, measured, full);
    ReceiptData("ok", full, ts);
    var d := DataOf(Receipt("ok", full, ts)).fields;
    ResultsStay(full, d, {"outcome", "loop"}, p, t);
    BodyStays(full, d);
  }

  lemma FullKeepsFigures(base: Evidence, rtt: Evidence, exchange: Evidence, report: Evidence, p: Params, t: Timing, ts: string)
    requires CellsSay(rtt, t, p.rttSizes, p.rttIters) && CellsSay(exchange, t, p.exchangeSizes, p.exchangeIters)
    ensures var full := Attached(Updated(base, rtt, exchange, p, t), report);
      DataOf(Receipt("ok", full, ts)).Obj? && Figures(DataOf(Receipt("ok", full, ts)).fields, p, t)
  {
    var measured := Updated(base, rtt, exchange, p, t);
    var full := Attached(measured, report);
    AttachedFacts(measured, report);
    ReceiptData("ok", full, ts);
    FiguresStay(rtt, exchange, base, DataOf(Receipt("ok", full, ts)).fields, {"open_count", "peer_report", "outcome", "loop"}, p, t);
  }

  /** What the checks recorded is still there once results and report are in. */
  lemma BaseStays(base: Evidence, measured: Evidence, full: Evidence)
    requires SameBut(base, measured, RESULT_KEYS) && SameBut(measured, full, {"open_count", "peer_report"})
    ensures forall k | k in {"serve_up", "loop", "device", "ring_size", "throttling"} ::
      (k in full <==> k in base) && Get(full, k) == Get(base, k)
  {
    KeysApart();
    var kept := {"serve_up", "loop", "device", "ring_size", "throttling"};
    forall k | k in kept ensures (k in full <==> k in base) && Get(full, k) == Get(base, k) {
      KeyStays(base, measured, RESULT_KEYS, kept, k);
      KeyStays(measured, full, {"open_count", "peer_report"}, kept, k);
    }
  }

  lemma BodyStays(full: Evidence, d: Evidence)
    requires SameBut(full, d, {"outcome", "loop"})
    ensures forall k | k in {"serve_up", "device", "ring_size", "throttling", "open_count"} ::
      (k in d <==> k in full) && Get(d, k) == Get(full, k)
  {
    KeysApart();
    var kept := {"serve_up", "device", "ring_size", "throttling", "open_count"};
    forall k | k in kept ensures (k in d <==> k in full) && Get(d, k) == Get(full, k) {
      KeyStays(full, d, {"outcome", "loop"}, kept, k);
    }
  }

  lemma ResolvedDevIsText(node: Node, cable: Cable, fn: string)
    requires Resolve(node, cable, fn).Found?
    ensures Resolve(node, cable, fn).value.dev != ""
  {
    assert |DEVICE_PREFIX| > 0;
  }

  ghost predicate ClockMoved(ending: Ending) {
    ending.Finishes? && ending.timing.sent != 0.0 && ending.timing.received != 0.0
  }

  /** The gate passes the receipt, unless it says ok over a schedule too short or a clock that stood still. */
  ghost predicate GradedAs(receipt: Json, p: Params, ending: Ending) {
    Usb4stream(DataOf(receipt)) == Fine <==> (OutcomeOf(receipt) == Str("ok") ==> Covers(p) && ClockMoved(ending))
  }

  /** Both sides are through the barrier: the peer has opened the device and said so. */
  ghost predicate Through(env: Env, dev: string, cable: Cable, fn: string) {
    && !env.ending.LaunchFails? && !env.ending.BarrierFails?
    && Takes(env.peerNode, dev, cable, fn) && !env.peer.PeerOpenFails?
  }

  /** The run of a cleared coordinator that went well to the end, on both sides. */
  ghost predicate WentWell(env: Env, dev: string, cable: Cable, fn: string) {
    env.ending.Finishes? && env.reported && env.peer.PeerFinishes? && Takes(env.peerNode, dev, cable, fn)
  }

  /** An abort names the phase the run had reached and the error it met there. */
  ghost predicate AbortNamed(env: Env, dev: string, cable: Cable, fn: string, outcome: Json) {
    match env.ending
    case LaunchFails(errno, _) => outcome == Str(Aborted("startup", errno))
    case BarrierFails(errno) => outcome == Str(Aborted("peer-open-barrier", errno))
    case OpenFails(errno) => Through(env, dev, cable, fn) ==> outcome == Str(Aborted(OPEN_PHASE, errno))
    case ScheduleFails(phase, errno) => Through(env, dev, cable, fn) ==> outcome == Str(Aborted(phase, errno))
    case Finishes(_) => Through(env, dev, cable, fn) && outcome != Str("ok") ==> outcome == Str(Aborted("peer", "EPROTO"))
  }

  ghost predicate Measures(receipt: Json, p: Params, t: Timing) {
    DataOf(receipt).Obj? && Figures(DataOf(receipt).fields, p, t)
  }

  /** Past the preconditions: launch the peer, wait for its open, open once, run, write the one receipt. */
  method RunCleared(site: Site, env: Env, base: Evidence, cable: Cable, fn: string, local: Resolved, probe: Resolved,
                    p: Params, ts: string)
    requires Recorded(base, env.world, cable) && Located(base, local, probe) && local.dev != "" && probe.dev != ""
    modifies site
    ensures site.receipt.Some? && GradedAs(site.receipt.value, p, env.ending)
    ensures site.launches == old(site.launches) + 1
    ensures old(site.peerOpens) <= site.peerOpens <= old(site.peerOpens) + 1
    ensures site.coordinatorOpens == old(site.coordinatorOpens) + (if Through(env, probe.dev, cable, fn) then 1 else 0)
    ensures Through(env, probe.dev, cable, fn) ==> site.peerOpens == old(site.peerOpens) + 1
    ensures OutcomeOf(site.receipt.value) == Str("ok") <==> WentWell(env, probe.dev, cable, fn)
    ensures AbortNamed(env, probe.dev, cable, fn, OutcomeOf(site.receipt.value))
    ensures Through(env, probe.dev, cable, fn) && env.ending.Finishes? ==> Measures(site.receipt.value, p, env.ending.timing)
  {
    site.launches := site.launches + 1;
    if env.ending.LaunchFails? {
      if env.ending.ran {
        var _, _ := RunPeer(site, env.peerNode, probe.dev, cable, fn, env.peer);
      }
      Abort(site, base, "startup", env.ending.errno, map[], ts);
      return;
    }
    var marker, report := RunPeer(site, env.peerNode, probe.dev, cable, fn, env.peer);
    if !env.reported { report := map[]; }
    if !marker || env.ending.BarrierFails? {
      Abort(site, base, "peer-open-barrier", if env.ending.BarrierFails? then env.ending.errno else "EPIPE", report, ts);
      return;
    }
    RunOpened(site, env.world, env.ending, base, cable, local, probe, p, report, ts);
  }

  /** Past the barrier. */
  method RunOpened(site: Site, w: World, ending: Ending, base: Evidence, cable: Cable, local: Resolved, probe: Resolved,
                   p: Params, report: Evidence, ts: string)
    requires Recorded(base, w, cable) && Located(base, local, probe) && local.dev != "" && probe.dev != ""
    requires !ending.LaunchFails? && !ending.BarrierFails?
    modifies site`receipt, site`coordinatorOpens
    ensures site.receipt.Some? && GradedAs(site.receipt.value, p, ending)
    ensures site.coordinatorOpens == old(site.coordinatorOpens) + 1
    ensures OutcomeOf(site.receipt.value) == Str("ok") <==>
      ending.Finishes? && Get(report, "outcome") == Str("ok") && Get(report, "open_count") == Num(1.0)
    ensures match ending
      case OpenFails(errno) => OutcomeOf(site.receipt.value) == Str(Aborted(OPEN_PHASE, errno))
      case ScheduleFails(phase, errno) => OutcomeOf(site.receipt.value) == Str(Aborted(phase, errno))
      case Finishes(timing) => OutcomeOf(site.receipt.value) in {Str("ok"), Str(Aborted("peer", "EPROTO"))}
    ensures ending.Finishes? ==> Measures(site.receipt.value, p, ending.timing)
  {
    var opener := new Opener();
    var r := opener.Open(!ending.OpenFails?);
    site.coordinatorOpens := site.coordinatorOpens + opener.count;
    match ending {
      case OpenFails(errno) => Abort(site, base, OPEN_PHASE, errno, report, ts);
      case ScheduleFails(phase, errno) => Abort(site, base, phase, errno, report, ts);
      case Finishes(timing) => Finish(site, base, w, cable, local, probe, p, timing, report, ts);
    }
  }

  /** A run that says ok: cleared, through its schedule, and the peer on the other end of it finished and said so. */
  ghost predicate SaysOk(env: Env, cable: Cable, fn: string) {
    exists local, probe :: Cleared(env.world, cable, fn, local, probe) && WentWell(env, probe.dev, cable, fn)
  }

  /** A refusal gives its reason and opens nothing; a cleared run opens if both sides are through the barrier, and an
      abort names its phase and error. */
  ghost predicate SaysWhy(env: Env, cable: Cable, fn: string, outcome: Json, opens: int) {
    && (forall reason | Refuses(env.world, cable, fn, reason) :: outcome == Str(reason) && opens == 0)
    && forall local, probe | Cleared(env.world, cable, fn, local, probe) ::
         AbortNamed(env, probe.dev, cable, fn, outcome) && opens == (if Through(env, probe.dev, cable, fn) then 1 else 0)
  }

  lemma RefusedRun(env: Env, cable: Cable, fn: string, reason: string)
    requires Refuses(env.world, cable, fn, reason)
    ensures !SaysOk(env, cable, fn) && SaysWhy(env, cable, fn, Str(reason), 0)
  {
    forall other ensures Refuses(env.world, cable, fn, other) ==> other == reason {
      RefusalIsExact(env.world, cable, fn, reason, other);
    }
    RefusalIsExact(env.world, cable, fn, reason, reason);
  }

  lemma NotRefused(w: World, cable: Cable, fn: string, local: Resolved, probe: Resolved)
    requires Cleared(w, cable, fn, local, probe)
    ensures forall reason :: !Refuses(w, cable, fn, reason)
  {
    forall reason ensures !Refuses(w, cable, fn, reason) {
      if Refuses(w, cable, fn, reason) { RefusalIsExact(w, cable, fn, reason, reason); }
    }
  }

  lemma ClearedRun(env: Env, cable: Cable, fn: string, local: Resolved, probe: Resolved, outcome: Json)
    requires Cleared(env.world, cable, fn, local, probe) && AbortNamed(env, probe.dev, cable, fn, outcome)
    ensures SaysOk(env, cable, fn) <==> WentWell(env, probe.dev, cable, fn)
    ensures SaysWhy(env, cable, fn, outcome, if Through(env, probe.dev, cable, fn) then 1 else 0)
  {
    NotRefused(env.world, cable, fn, local, probe);
    forall l, p | Cleared(env.world, cable, fn, l, p) ensures p == probe { }
  }

  /** Between two such hosts, with a peer that finishes and a report that survives, the run says ok. */
  lemma TwinsSayOk(timing: Timing)
    ensures SaysOk(Env(TwinWorld(), TwinWorld().worker, PeerFinishes, true, Finishes(timing)), A, "fn0")
  {
    var env := Env(TwinWorld(), TwinWorld().worker, PeerFinishes, true, Finishes(timing));
    var local, probe, cabling := TwinsAreCleared();
    assert WentWell(env, probe.dev, A, "fn0");
  }

  /** One coordinator run to its end. A banked receipt stops it before it looks at anything; a probe that raises
      ends it with nothing written and nothing opened. */
  method RunCoordinator(site: Site, env: Env, cable: Cable, fn: string, p: Params, ts: string)
    modifies site
    ensures old(site.receipt).Some? ==> unchanged(site)
    ensures old(site.receipt).None? ==> (site.receipt.None? <==> ProbeRaises(env.world, cable, fn))
    ensures site.receipt.None? ==> unchanged(site)
    ensures old(site.coordinatorOpens) <= site.coordinatorOpens <= old(site.coordinatorOpens) + 1
    ensures old(site.peerOpens) <= site.peerOpens <= old(site.peerOpens) + 1
    ensures old(site.launches) <= site.launches <= old(site.launches) + 1
    ensures site.coordinatorOpens > old(site.coordinatorOpens) ==> site.peerOpens > old(site.peerOpens)
    ensures site.peerOpens > old(site.peerOpens) ==> site.launches > old(site.launches)
    ensures site.launches > old(site.launches) ==> exists local, probe :: Cleared(env.world, cable, fn, local, probe)
    ensures old(site.receipt).None? && site.receipt.Some? ==> GradedAs(site.receipt.value, p, env.ending)
    ensures old(site.receipt).None? && site.receipt.Some? ==>
      && (OutcomeOf(site.receipt.value) == Str("ok") <==> SaysOk(env, cable, fn))
      && SaysWhy(env, cable, fn, OutcomeOf(site.receipt.value), site.coordinatorOpens - old(site.coordinatorOpens))
      && (SaysOk(env, cable, fn) ==> Measures(site.receipt.value, p, env.ending.timing))
  {
    if site.receipt.Some? { return; }
    var run := new Process();
    var decision := run.Preconditions(env.world, cable, fn);
    match decision {
      case Raised =>
      case Skip(outcome) =>
        RefusedRun(env, cable, fn, outcome);
        RefusalIsExact(env.world, cable, fn, outcome, outcome);
        Refuse(site, run.base, outcome, ts);
      case Proceed(local, probe) =>
        ResolvedDevIsText(env.world.node, cable, fn);
        ResolvedDevIsText(env.world.worker, cable, fn);
        RunCleared(site, env, run.base, cable, fn, local, probe, p, ts);
        ClearedRun(env, cable, fn, local, probe, OutcomeOf(site.receipt.value));
    }
  }

  lemma SkipIsNotOk(outcome: string)
    requires outcome in {SKIP_SERVE_UP, SKIP_PEER_UNREACHABLE, SKIP_CONFIGFS_MISSING, SKIP_CABLE_MISMATCH}
    ensures outcome != "ok"
  {
    SkipReason(outcome);
  }

  // ------------------------------------------------------------------ retries

  /** Any number of completed runs, each in its own world: at most one open was ever attempted on each side and at
      most one peer launched, and the receipt is that of the first run whose probe did not raise. */
  method Retry(site: Site, envs: seq<Env>, cables: seq<Cable>, fn: string, p: Params, ts: string) returns (writer: nat)
    requires |cables| == |envs|
    requires site.receipt.None? && site.coordinatorOpens == 0 && site.peerOpens == 0 && site.launches == 0
    modifies site
    ensures site.coordinatorOpens <= site.peerOpens <= site.launches <= 1
    ensures writer <= |envs| && forall i | 0 <= i < writer :: ProbeRaises(envs[i].world, cables[i], fn)
    ensures site.receipt.None? <==> writer == |envs|
    ensures site.receipt.None? ==> site.launches == 0
    ensures site.receipt.Some? ==> !ProbeRaises(envs[writer].world, cables[writer], fn) && GradedAs(site.receipt.value, p, envs[writer].ending)
    ensures site.receipt.Some? ==> (OutcomeOf(site.receipt.value) == Str("ok") <==> SaysOk(envs[writer], cables[writer], fn))
  {
    writer := 0;
    for i := 0 to |envs|
      invariant site.coordinatorOpens <= site.peerOpens <= site.launches <= (if site.receipt.Some? then 1 else 0)
      invariant writer <= i && forall j | 0 <= j < writer :: ProbeRaises(envs[j].world, cables[j], fn)
      invariant if site.receipt.None? then writer == i else writer < i && !ProbeRaises(envs[writer].world, cables[writer], fn)
      invariant site.receipt.Some? ==> GradedAs(site.receipt.value, p, envs[writer].ending)
      invariant site.receipt.Some? ==> (OutcomeOf(site.receipt.value) == Str("ok") <==> SaysOk(envs[writer], cables[writer], fn))
    {
      RunCoordinator(site, envs[i], cables[i], fn, p, ts);
      if site.receipt.None? { writer := i + 1; }
    }
  }
}
