/** The hard bound on the usb4stream receipt in scripts/receipts-verify.py, on the receipt's data. */
module Usb4Bound {
  import opened Json
  import opened Fingerprint
  import opened ReceiptGate
  import opened Optional

  const GATE_RTT: seq<nat> := [64, 4096, 16384, 65536]
  const GATE_EXCHANGE: seq<nat> := [8192, 16384, 65536]
  const GATE_KEYS: seq<string> := ["rtt_us", "exchange_us", "throughput_mb_s", "device"]

  const SKIPPED: string := "skipped:"
  const ABORTED: string := "aborted:"

  /** What str.strip takes off. */
  predicate IsSpace(c: char) {
    var n := c as int;
    9 <= n <= 13 || 28 <= n <= 32 || n == 0x85 || n == 0xA0 || n == 0x1680 || 0x2000 <= n <= 0x200A
    || n == 0x2028 || n == 0x2029 || n == 0x202F || n == 0x205F || n == 0x3000
  }

  predicate Blank(s: string) { forall i | 0 <= i < |s| :: IsSpace(s[i]) }

  predicate Substring(part: string, whole: string) {
    part <= whole || (whole != "" && Substring(part, whole[1..]))
  }

  /** `key in container`, None where Python raises. */
  function Contains(container: Json, key: string): Option<bool> {
    match container
    case Obj(fields) => Some(key in fields)
    case Arr(items) => Some(Str(key) in items)
    case Str(text) => Some(Substring(key, text))
    case _ => None
  }

  /** The size entries the gate insists on, checked in order. */
  function SizesPresent(container: Json, sizes: seq<nat>): Verdict {
    if sizes == [] then Fine else
      match Contains(container, Decimal(sizes[0]))
      case None => Crash
      case Some(false) => Violation
      case Some(true) => SizesPresent(container, sizes[1..])
  }

  /** A cell with both percentiles; a cell that is falsy counts as empty. */
  predicate CellOk(cell: Json) {
    OrEmpty(cell).Obj? && Get(OrEmpty(cell).fields, "p50") != Null && Get(OrEmpty(cell).fields, "p99") != Null
  }

  predicate CellRaises(cell: Json) { !OrEmpty(cell).Obj? }

  function CellsPresent(container: Json): Verdict {
    if !container.Obj? then Crash
    else if forall k | k in container.fields :: CellOk(container.fields[k]) then Fine
    else if forall k | k in container.fields :: CellOk(container.fields[k]) || CellRaises(container.fields[k]) then Crash
    else Violation
  }

  predicate OpensOk(opens: Json) {
    if opens.Obj? then opens.fields != map[] && forall k | k in opens.fields :: opens.fields[k] == Num(1.0)
    else opens == Num(1.0)
  }

  function Throughput(t: Json): Verdict {
    match t
    case Obj(fields) => if |fields| >= 2 && forall k | k in fields :: fields[k] != Null then Fine else Violation
    case Arr(items) => if |items| < 2 then Violation else Crash
    case Str(text) => if |text| < 2 then Violation else Crash
    case _ => Crash
  }

  function Devices(d: Json): Verdict {
    if !d.Obj? then Crash
    else if Truthy(Get(d.fields, "coordinator")) && Truthy(Get(d.fields, "peer")) then Fine else Violation
  }

  /** One check after another: the first that is not fine decides. */
  function Next(first: Verdict, rest: Verdict): Verdict { if first == Fine then rest else first }

  function Check(ok: bool): Verdict { if ok then Fine else Violation }

  /** The tail of the checker, for outcome ok: the numbers, the ring and the devices. */
  function MeasuredOk(d: map<string, Json>): Verdict {
    var rtt, exchange := OrEmpty(Get(d, "rtt_us")), OrEmpty(Get(d, "exchange_us"));
    Next(Check(OpensOk(Get(d, "open_count"))),
    Next(Check(forall i | 0 <= i < |GATE_KEYS| :: Truthy(Get(d, GATE_KEYS[i]))),
    Next(SizesPresent(rtt, GATE_RTT),
    Next(SizesPresent(exchange, GATE_EXCHANGE),
    Next(CellsPresent(rtt),
    Next(CellsPresent(exchange),
    Next(Throughput(OrEmpty(Get(d, "throughput_mb_s"))),
    Next(Check("ring_size" in d && "throttling" in d),
    Next(Devices(OrEmpty(Get(d, "device"))),
         Check(Get(d, "loop") == Str("python")))))))))))
  }

  function Usb4stream(data: Json): Verdict {
    if !data.Obj? then Crash else
      var d := data.fields;
      var outcome := Get(d, "outcome");
      if !outcome.Str? || outcome.text == "" || "serve_up" !in d then Violation
      else if SKIPPED <= outcome.text then (if Blank(outcome.text[|SKIPPED|..]) then Violation else Fine)
      else if ABORTED <= outcome.text then (if Blank(outcome.text[|ABORTED|..]) then Violation else Fine)
      else if outcome.text != "ok" then Violation
      else MeasuredOk(d)
  }

  // ------------------------------------------------------------------ what it takes to pass

  /** Every demanded size has an entry. */
  predicate HasSizes(cells: map<string, Json>, sizes: seq<nat>) {
    forall i | 0 <= i < |sizes| :: Decimal(sizes[i]) in cells
  }

  lemma {:induction false} SizesPresentIff(cells: map<string, Json>, sizes: seq<nat>)
    ensures SizesPresent(Obj(cells), sizes) == Fine <==> HasSizes(cells, sizes)
  {
    if sizes != [] {
      SizesPresentIff(cells, sizes[1..]);
      if HasSizes(cells, sizes) {
        forall i | 0 <= i < |sizes[1..]| ensures Decimal(sizes[1..][i]) in cells { assert sizes[1..][i] == sizes[i + 1]; }
      }
      if HasSizes(cells, sizes[1..]) && Decimal(sizes[0]) in cells {
        forall i | 0 <= i < |sizes| ensures Decimal(sizes[i]) in cells {
          if i > 0 { assert sizes[1..][i - 1] == sizes[i]; }
        }
      }
    }
  }

  /** An outcome typed as a skip or an abort passes as soon as the reason has one character that is no space. */
  lemma TypedOutcomePasses(d: map<string, Json>, prefix: string, reason: string)
    requires prefix == SKIPPED || prefix == ABORTED
    requires Get(d, "outcome") == Str(prefix + reason) && "serve_up" in d
    ensures Usb4stream(Obj(d)) == Fine <==> !Blank(reason)
  {
    assert (prefix + reason)[|prefix|..] == reason;
    assert prefix <= prefix + reason;
    if prefix == ABORTED {
      assert (prefix + reason)[0] == 'a' && SKIPPED[0] == 's';
    }
  }

  /** A section of measurements: an entry at every demanded size, and both percentiles in every entry. */
  ghost predicate MeasuredAt(section: Json, sizes: seq<nat>) {
    section.Obj? && HasSizes(section.fields, sizes) && forall k | k in section.fields :: HasPercentiles(section.fields[k])
  }

  ghost predicate HasPercentiles(cell: Json) {
    cell.Obj? && Has(cell.fields, "p50") && Has(cell.fields, "p99")
  }

  /** The key is there, with something under it. */
  predicate Has(fields: map<string, Json>, key: string) { key in fields && fields[key] != Null }

  /** One open: said once, or for each side by name. */
  ghost predicate OneOpenEach(opens: Json) {
    opens == Num(1.0) || (opens.Obj? && opens.fields != map[] && opens.fields.Values == {Num(1.0)})
  }

  ghost predicate BothNamed(device: Json) {
    device.Obj? && "coordinator" in device.fields && Truthy(device.fields["coordinator"])
    && "peer" in device.fields && Truthy(device.fields["peer"])
  }

  ghost predicate BothDirections(rates: Json) {
    rates.Obj? && |rates.fields| >= 2 && forall k | k in rates.fields :: Has(rates.fields, k)
  }

  /** Everything a receipt that says ok has to carry. */
  ghost predicate FirstLightEvidence(d: map<string, Json>) {
    && "serve_up" in d && "ring_size" in d && "throttling" in d && Get(d, "loop") == Str("python")
    && OneOpenEach(Get(d, "open_count")) && BothNamed(Get(d, "device")) && BothDirections(Get(d, "throughput_mb_s"))
    && MeasuredAt(Get(d, "rtt_us"), GATE_RTT) && MeasuredAt(Get(d, "exchange_us"), GATE_EXCHANGE)
  }

  lemma OpensIff(opens: Json)
    ensures OpensOk(opens) <==> OneOpenEach(opens)
  {
    if opens.Obj? && opens.fields != map[] {
      var k :| k in opens.fields;
      assert opens.fields[k] in opens.fields.Values;
      if OpensOk(opens) { assert opens.fields.Values == {Num(1.0)}; }
      if OneOpenEach(opens) {
        forall k | k in opens.fields ensures opens.fields[k] == Num(1.0) { assert opens.fields[k] in opens.fields.Values; }
      }
    }
  }

  lemma CellIff(cell: Json)
    ensures CellOk(cell) <==> HasPercentiles(cell)
  {
  }

  lemma SectionIff(section: Json, sizes: seq<nat>)
    requires sizes != []
    ensures Truthy(section) && SizesPresent(OrEmpty(section), sizes) == Fine && CellsPresent(OrEmpty(section)) == Fine
      <==> MeasuredAt(section, sizes)
  {
    if section.Obj? {
      SizesPresentIff(section.fields, sizes);
      forall k | k in section.fields ensures CellOk(section.fields[k]) <==> HasPercentiles(section.fields[k]) {
        CellIff(section.fields[k]);
      }
      if HasSizes(section.fields, sizes) { assert Decimal(sizes[0]) in section.fields; }
    }
  }

  lemma RatesIff(rates: Json)
    ensures Truthy(rates) && Throughput(OrEmpty(rates)) == Fine <==> BothDirections(rates)
  {
  }

  lemma DevicesIff(device: Json)
    ensures Truthy(device) && Devices(OrEmpty(device)) == Fine <==> BothNamed(device)
  {
  }

  lemma AllThere(d: map<string, Json>)
    ensures (forall i | 0 <= i < |GATE_KEYS| :: Truthy(Get(d, GATE_KEYS[i]))) <==>
      Truthy(Get(d, "rtt_us")) && Truthy(Get(d, "exchange_us")) && Truthy(Get(d, "throughput_mb_s")) && Truthy(Get(d, "device"))
  {
    assert GATE_KEYS[0] == "rtt_us" && GATE_KEYS[1] == "exchange_us" && GATE_KEYS[2] == "throughput_mb_s" && GATE_KEYS[3] == "device";
  }

  lemma NextIsBoth(first: Verdict, rest: Verdict)
    ensures Next(first, rest) == Fine <==> first == Fine && rest == Fine
  {
  }

  lemma EvidenceIff(d: map<string, Json>)
    requires "serve_up" in d
    ensures MeasuredOk(d) == Fine <==> FirstLightEvidence(d)
  {
    AllThere(d);
    OpensIff(Get(d, "open_count"));
    SectionIff(Get(d, "rtt_us"), GATE_RTT);
    SectionIff(Get(d, "exchange_us"), GATE_EXCHANGE);
    RatesIff(Get(d, "throughput_mb_s"));
    DevicesIff(Get(d, "device"));
  }

  /** A skip or an abort with a reason that is more than white space. */
  ghost predicate Typed(outcome: Json) {
    exists prefix, reason | prefix in {SKIPPED, ABORTED} && outcome == Str(prefix + reason) :: !Blank(reason)
  }

  predicate TypedText(outcome: string) {
    || (SKIPPED <= outcome && !Blank(outcome[|SKIPPED|..]))
    || (ABORTED <= outcome && !Blank(outcome[|ABORTED|..]))
  }

  lemma TypedIff(outcome: Json)
    ensures Typed(outcome) <==> outcome.Str? && TypedText(outcome.text)
  {
    if outcome.Str? {
      if SKIPPED <= outcome.text { assert outcome.text == SKIPPED + outcome.text[|SKIPPED|..]; }
      if ABORTED <= outcome.text { assert outcome.text == ABORTED + outcome.text[|ABORTED|..]; }
    }
    if Typed(outcome) {
      var prefix, reason :| prefix in {SKIPPED, ABORTED} && outcome == Str(prefix + reason) && !Blank(reason);
      assert (prefix + reason)[|prefix|..] == reason;
    }
  }

  /** The two prefixes exclude each other and begin no other outcome that passes. */
  lemma PrefixesApart(outcome: string)
    ensures !(SKIPPED <= outcome && ABORTED <= outcome)
    ensures SKIPPED <= outcome || ABORTED <= outcome ==> outcome != "ok" && outcome != ""
  {
    assert SKIPPED[0] == 's' && ABORTED[0] == 'a' && "ok"[0] == 'o';
  }

  /** A receipt's data passes exactly when it records the serve state and says either a typed skip or abort with a
      reason, or ok with all the evidence: both percentiles at every size, rates both ways, one open a side, both
      devices, the ring and the loop. */
  lemma BoundPassesIff(data: Json)
    ensures Usb4stream(data) == Fine <==>
      && data.Obj? && "serve_up" in data.fields
      && (Typed(Get(data.fields, "outcome")) || (Get(data.fields, "outcome") == Str("ok") && FirstLightEvidence(data.fields)))
  {
    if data.Obj? && "serve_up" in data.fields {
      var outcome := Get(data.fields, "outcome");
      TypedIff(outcome);
      if outcome.Str? { PrefixesApart(outcome.text); }
      if outcome == Str("ok") { EvidenceIff(data.fields); }
    }
  }
}
