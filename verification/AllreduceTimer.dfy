/** The all-reduce timer of container/rootfs/fn_allreduce_timer.py: a wrapper around a communicator's
    collective that records a bounded window of three-way splits and never disturbs the call. */
module AllreduceTimer {
  import opened Division
  import opened SiteCache
  import opened Optional

  /** Window settings: calls to skip, rows to keep. */
  datatype Config = Config(start: nat, calls: nat)

  datatype Probe = Probe(kind: Kind, fired: Option<bool>, capturing: Option<bool>)

  datatype Row = Row(kind: Kind, detect: real, exchange: real, compute: Option<real>,
                     fired: Option<bool>, capturing: Option<bool>)

  datatype Outcome<+T> = Returned(value: T) | Raised(error: nat)

  /** One collective: three clock readings, what the call-site probe found (None: it failed), and what
      the wrapped collective does. */
  datatype Call<+T> = Call(t0: real, t1: real, t2: real, probe: Option<Probe>, outcome: Outcome<T>)

  datatype Log = Log(rows: seq<Row>, seen: nat, lastExit: Option<real>, done: bool)

  const EMPTY := Log([], 0, None, false)

  predicate Records<T>(cfg: Config, s: Log, c: Call<T>) {
    !s.done && s.seen + 1 > cfg.start && c.probe.Some? && c.outcome.Returned?
  }

  function RowOf<T>(s: Log, c: Call<T>): Row
    requires c.probe.Some?
  {
    Row(c.probe.value.kind, c.t1 - c.t0, c.t2 - c.t1,
        if s.lastExit.None? then None else Some(c.t0 - s.lastExit.value),
        c.probe.value.fired, c.probe.value.capturing)
  }

  /** What one wrapped call leaves behind. */
  function Logged<T>(cfg: Config, s: Log, c: Call<T>): Log {
    if s.done then s
    else if c.outcome.Raised? then s.(seen := s.seen + 1)
    else if Records(cfg, s, c) then
      Log(s.rows + [RowOf(s, c)], s.seen + 1, Some(c.t2), |s.rows| + 1 >= cfg.calls)
    else s.(seen := s.seen + 1, lastExit := Some(c.t2))
  }

  function Run<T>(cfg: Config, s: Log, cs: seq<Call<T>>): Log
    decreases |cs|
  {
    if cs == [] then s else Run(cfg, Logged(cfg, s, cs[0]), cs[1..])
  }

  /** Three clock readings around one collective. */
  datatype Clock = Clock(t0: real, t1: real, t2: real)

  /** What a probe that does not fail sees: the frames below the call, and two flags. */
  datatype Sighting = Sighting(frames: Frames, fired: Option<bool>, capturing: Option<bool>)

  class Timer {
    const cfg: Config
    const walker: Walker
    var rows: seq<Row>
    var seen: nat
    var lastExit: Option<real>
    var done: bool

    function State(): Log
      reads this
    {
      Log(rows, seen, lastExit, done)
    }

    constructor (cfg: Config, walker: Walker)
      ensures this.cfg == cfg && this.walker == walker && State() == EMPTY
    {
      this.cfg, this.walker := cfg, walker;
      rows, seen, lastExit, done := [], 0, None, false;
    }

    method Record(row: Row)
      modifies this
      ensures rows == old(rows) + [row] && done == (old(done) || |rows| >= cfg.calls)
      ensures seen == old(seen) && lastExit == old(lastExit)
    {
      rows := rows + [row];
      if |rows| >= cfg.calls {
        done := true;
      }
    }

    /** Whether the next call is probed: the window is open and the skip is over. */
    predicate Probes()
      reads this
    {
      !done && seen + 1 > cfg.start
    }

    /** The layer the memo's walk names for this sighting. */
    function Named(site: Option<Sighting>): Option<Probe>
      reads this, walker
    {
      match site
      case None => None
      case Some(s) => Some(Probe(Cached(walker.cache, s.frames, walker.depth, walker.max).0, s.fired, s.capturing))
    }

    /** The wrapper around the original collective. Whatever the window, the probes and the memo do, the caller gets
        what the original returns or raises on the caller's own input. site is None where a probe fails. */
    method Wrapped<I, T>(orig: I -> Outcome<T>, input: I, clock: Clock, site: Option<Sighting>) returns (out: Outcome<T>)
      modifies this, walker
      ensures out == orig(input)
      ensures State() == Logged(cfg, old(State()), Call(clock.t0, clock.t1, clock.t2, old(Named(site)), orig(input)))
      ensures walker.cache == if old(Probes()) && site.Some?
        then Cached(old(walker.cache), site.value.frames, walker.depth, walker.max).1 else old(walker.cache)
    {
      if done {
        return orig(input);
      }
      seen := seen + 1;
      var recording := seen > cfg.start && site.Some?;
      var kind: Kind := Unknown;
      if recording {
        kind := walker.Walk(site.value.frames);
      }
      out := orig(input);
      if out.Raised? {
        return;
      }
      var prev := lastExit;
      lastExit := Some(clock.t2);
      if recording {
        Record(Row(kind, clock.t1 - clock.t0, clock.t2 - clock.t1,
                   if prev.None? then None else Some(clock.t0 - prev.value),
                   site.value.fired, site.value.capturing));
      }
    }

    /** Everything recorded is dropped, the memo included, and the window is open again. */
    method Reset()
      modifies this, walker
      ensures State() == EMPTY && walker.cache == map[]
    {
      rows, seen, lastExit, done := [], 0, None, false;
      walker.cache := map[];
    }
  }

  // ------------------------------------------------------------------ how many rows

  ghost predicate AllReturn<T>(cs: seq<Call<T>>) {
    forall c | c in cs :: c.outcome.Returned? && c.probe.Some?
  }

  /** Over k returning calls with no failed probe the log holds exactly the window: what lies past the
      skip, up to the row limit and never fewer than one row once recording starts. */
  lemma WindowCount<T>(cfg: Config, cs: seq<Call<T>>)
    requires AllReturn(cs)
    ensures |Run(cfg, EMPTY, cs).rows| == Min(Max(0, |cs| - cfg.start), Max(1, cfg.calls))
    ensures Run(cfg, EMPTY, cs).done <==> |cs| >= cfg.start + Max(1, cfg.calls)
  {
    CountFrom(cfg, EMPTY, cs, 0);
  }

  lemma {:induction false} CountFrom<T>(cfg: Config, s: Log, cs: seq<Call<T>>, k: nat)
    requires AllReturn(cs)
    requires |s.rows| == Min(Max(0, k - cfg.start), Max(1, cfg.calls))
    requires s.done <==> k >= cfg.start + Max(1, cfg.calls)
    requires !s.done ==> s.seen == k
    ensures |Run(cfg, s, cs).rows| == Min(Max(0, k + |cs| - cfg.start), Max(1, cfg.calls))
    ensures Run(cfg, s, cs).done <==> k + |cs| >= cfg.start + Max(1, cfg.calls)
    decreases |cs|
  {
    if cs != [] {
      assert cs[0] in cs;
      assert forall c | c in cs[1..] :: c in cs;
      CountFrom(cfg, Logged(cfg, s, cs[0]), cs[1..], k + 1);
    }
  }

  // ------------------------------------------------------------------ which calls, and what of them

  /** Past the skip, with a probe that works, and returning. */
  predicate Recordable<T>(cfg: Config, cs: seq<Call<T>>, i: nat)
    requires i < |cs|
  {
    i >= cfg.start && cs[i].probe.Some? && cs[i].outcome.Returned?
  }

  /** The recordable calls before n, no more than the window takes. */
  function Kept<T>(cfg: Config, cs: seq<Call<T>>, n: nat): seq<nat>
    requires n <= |cs|
  {
    if n == 0 then [] else
      var before := Kept(cfg, cs, n - 1);
      if Recordable(cfg, cs, n - 1) && |before| < Max(1, cfg.calls) then before + [n - 1] else before
  }

  /** When the last call before n that returned was left. */
  function ExitBefore<T>(cs: seq<Call<T>>, n: nat): Option<real>
    requires n <= |cs|
  {
    if n == 0 then None else if cs[n - 1].outcome.Returned? then Some(cs[n - 1].t2) else ExitBefore(cs, n - 1)
  }

  /** The row is this call's: entry to detection, detection to exit, and what went before since the last exit. */
  ghost predicate RowOfCall<T>(row: Row, cs: seq<Call<T>>, i: nat) {
    && i < |cs| && cs[i].probe == Some(Probe(row.kind, row.fired, row.capturing))
    && cs[i].t0 + row.detect == cs[i].t1 && cs[i].t1 + row.exchange == cs[i].t2
    && match ExitBefore(cs, i)
       case None => row.compute.None?
       case Some(exit) => row.compute.Some? && exit + row.compute.value == cs[i].t0
  }

  lemma {:induction false} RunSnoc<T>(cfg: Config, s: Log, cs: seq<Call<T>>, c: Call<T>)
    ensures Run(cfg, s, cs + [c]) == Logged(cfg, Run(cfg, s, cs), c)
    decreases |cs|
  {
    if cs == [] {
      assert [c][1..] == [];
    } else {
      assert (cs + [c])[1..] == cs[1..] + [c];
      RunSnoc(cfg, Logged(cfg, s, cs[0]), cs[1..], c);
    }
  }

  /** After n calls. */
  ghost predicate LoggedSoFar<T>(cfg: Config, s: Log, cs: seq<Call<T>>, n: nat)
    requires n <= |cs|
  {
    && |s.rows| == |Kept(cfg, cs, n)| <= Max(1, cfg.calls)
    && (forall k | 0 <= k < |s.rows| :: RowOfCall(s.rows[k], cs, Kept(cfg, cs, n)[k]))
    && (s.done <==> |s.rows| == Max(1, cfg.calls))
    && (!s.done ==> s.seen == n && s.lastExit == ExitBefore(cs, n))
  }

  lemma OneMoreCall<T>(cfg: Config, s: Log, cs: seq<Call<T>>, n: nat)
    requires n < |cs| && LoggedSoFar(cfg, s, cs, n)
    ensures LoggedSoFar(cfg, Logged(cfg, s, cs[n]), cs, n + 1)
  {
    if !s.done && Recordable(cfg, cs, n) { assert RowOfCall(RowOf(s, cs[n]), cs, n); }
  }

  lemma {:induction false} RunLogs<T>(cfg: Config, cs: seq<Call<T>>, n: nat)
    requires n <= |cs|
    ensures LoggedSoFar(cfg, Run(cfg, EMPTY, cs[..n]), cs, n)
  {
    if n > 0 {
      RunLogs(cfg, cs, n - 1);
      assert cs[..n] == cs[..n - 1] + [cs[n - 1]];
      RunSnoc(cfg, EMPTY, cs[..n - 1], cs[n - 1]);
      OneMoreCall(cfg, Run(cfg, EMPTY, cs[..n - 1]), cs, n - 1);
    }
  }

  /** In every run, raising calls and failed probes included: the rows are those of the first recordable calls past
      the skip, one each and in order, until the window is full. */
  lemma RowsAreTheKeptCalls<T>(cfg: Config, cs: seq<Call<T>>)
    ensures var rows, kept := Run(cfg, EMPTY, cs).rows, Kept(cfg, cs, |cs|);
      |rows| == |kept| && forall k | 0 <= k < |rows| :: RowOfCall(rows[k], cs, kept[k])
  {
    RunLogs(cfg, cs, |cs|);
    assert cs[..|cs|] == cs;
  }

  /** A call is kept exactly when it is recordable and fewer than the window takes are recordable before it. */
  lemma {:induction false} KeptIff<T>(cfg: Config, cs: seq<Call<T>>, n: nat, i: nat)
    requires n <= |cs| && i < |cs|
    ensures i in Kept(cfg, cs, n) <==> i < n && Recordable(cfg, cs, i) && RecordableBefore(cfg, cs, i) < Max(1, cfg.calls)
    ensures |Kept(cfg, cs, n)| == Min(RecordableBefore(cfg, cs, n), Max(1, cfg.calls))
  {
    if n > 0 { KeptIff(cfg, cs, n - 1, i); }
  }

  function RecordableBefore<T>(cfg: Config, cs: seq<Call<T>>, n: nat): nat
    requires n <= |cs|
  {
    if n == 0 then 0 else RecordableBefore(cfg, cs, n - 1) + (if Recordable(cfg, cs, n - 1) then 1 else 0)
  }

  function Detected(rows: seq<Row>): real {
    if rows == [] then 0.0 else Detected(rows[..|rows| - 1]) + rows[|rows| - 1].detect
  }

  function Exchanged(rows: seq<Row>): real {
    if rows == [] then 0.0 else Exchanged(rows[..|rows| - 1]) + rows[|rows| - 1].exchange
  }

  /** The sum over these calls of the time from entry to detection, and of that from detection to exit. */
  function Detecting<T>(cs: seq<Call<T>>, kept: seq<nat>): real
    requires forall k | 0 <= k < |kept| :: kept[k] < |cs|
  {
    if kept == [] then 0.0 else
      var c := cs[kept[|kept| - 1]];
      Detecting(cs, kept[..|kept| - 1]) + (c.t1 - c.t0)
  }

  function Exchanging<T>(cs: seq<Call<T>>, kept: seq<nat>): real
    requires forall k | 0 <= k < |kept| :: kept[k] < |cs|
  {
    if kept == [] then 0.0 else
      var c := cs[kept[|kept| - 1]];
      Exchanging(cs, kept[..|kept| - 1]) + (c.t2 - c.t1)
  }

  lemma {:induction false} SumsOfCalls<T>(rows: seq<Row>, cs: seq<Call<T>>, kept: seq<nat>)
    requires |rows| == |kept| && forall k | 0 <= k < |rows| :: RowOfCall(rows[k], cs, kept[k])
    ensures forall k | 0 <= k < |kept| :: kept[k] < |cs|
    ensures Detected(rows) == Detecting(cs, kept) && Exchanged(rows) == Exchanging(cs, kept)
  {
    forall k | 0 <= k < |kept| ensures kept[k] < |cs| { assert RowOfCall(rows[k], cs, kept[k]); }
    if rows != [] {
      var n := |rows| - 1;
      SumsOfCalls(rows[..n], cs, kept[..n]);
      assert RowOfCall(rows[n], cs, kept[n]);
    }
  }

  /** Over every run the detect total is what the kept calls spent from entry to detection, and the exchange total
      what they spent from there to their exit. */
  lemma SplitTotals<T>(cfg: Config, cs: seq<Call<T>>)
    ensures forall k | 0 <= k < |Kept(cfg, cs, |cs|)| :: Kept(cfg, cs, |cs|)[k] < |cs|
    ensures var rows, kept := Run(cfg, EMPTY, cs).rows, Kept(cfg, cs, |cs|);
      Detected(rows) == Detecting(cs, kept) && Exchanged(rows) == Exchanging(cs, kept)
  {
    RowsAreTheKeptCalls(cfg, cs);
    SumsOfCalls(Run(cfg, EMPTY, cs).rows, cs, Kept(cfg, cs, |cs|));
  }

  // ------------------------------------------------------------------ the split telescopes

  function RowTotal(r: Row): real {
    r.detect + r.exchange + (if r.compute.Some? then r.compute.value else 0.0)
  }

  function Total(rows: seq<Row>): real {
    if rows == [] then 0.0 else Total(rows[..|rows| - 1]) + RowTotal(rows[|rows| - 1])
  }

  /** Where the recorded window begins: the exit before its first row, or that row's own entry. */
  function Base<T>(cfg: Config, s: Log, cs: seq<Call<T>>): real
    decreases |cs|
  {
    if cs == [] then 0.0
    else if Records(cfg, s, cs[0]) then (if s.lastExit.Some? then s.lastExit.value else cs[0].t0)
    else Base(cfg, Logged(cfg, s, cs[0]), cs[1..])
  }

  /** Time of returning calls after the first row that a failed probe kept out of the log. */
  function Unlogged<T>(cfg: Config, s: Log, cs: seq<Call<T>>): real
    decreases |cs|
  {
    if cs == [] then 0.0
    else (if s.rows != [] && !s.done && cs[0].outcome.Returned? && !Records(cfg, s, cs[0]) && s.lastExit.Some?
          then cs[0].t2 - s.lastExit.value else 0.0)
         + Unlogged(cfg, Logged(cfg, s, cs[0]), cs[1..])
  }

  /** In every run, raising calls and failed probes included: detect, exchange and compute over all rows,
      with the time of calls whose probe failed, telescope to last exit minus where the window begins. */
  lemma {:induction false} SplitTelescopes<T>(cfg: Config, cs: seq<Call<T>>)
    ensures var s := Run(cfg, EMPTY, cs);
      s.rows != [] ==> s.lastExit.Some?
                       && Total(s.rows) + Unlogged(cfg, EMPTY, cs) == s.lastExit.value - Base(cfg, EMPTY, cs)
  {
    BeforeWindow(cfg, EMPTY, cs);
  }

  lemma {:induction false} BeforeWindow<T>(cfg: Config, s: Log, cs: seq<Call<T>>)
    requires s.rows == [] && !s.done
    ensures var e := Run(cfg, s, cs);
      e.rows != [] ==> e.lastExit.Some? && Total(e.rows) + Unlogged(cfg, s, cs) == e.lastExit.value - Base(cfg, s, cs)
    decreases |cs|
  {
    if cs != [] {
      var t := Logged(cfg, s, cs[0]);
      if Records(cfg, s, cs[0]) {
        assert t.rows == [RowOf(s, cs[0])];
        assert t.rows[..0] == [];
        InWindow(cfg, t, cs[1..]);
      } else {
        BeforeWindow(cfg, t, cs[1..]);
      }
    }
  }

  lemma {:induction false} InWindow<T>(cfg: Config, s: Log, cs: seq<Call<T>>)
    requires s.rows != [] && s.lastExit.Some?
    ensures var e := Run(cfg, s, cs);
      e.rows != [] && e.lastExit.Some?
      && Total(e.rows) + Unlogged(cfg, s, cs) - Total(s.rows) == e.lastExit.value - s.lastExit.value
    decreases |cs|
  {
    if cs != [] {
      var t := Logged(cfg, s, cs[0]);
      if Records(cfg, s, cs[0]) {
        assert t.rows[..|t.rows| - 1] == s.rows;
      }
      InWindow(cfg, t, cs[1..]);
    }
  }

  /** With no failed probe nothing is missing, raising calls or not. */
  lemma {:induction false} NothingUnlogged<T>(cfg: Config, s: Log, cs: seq<Call<T>>)
    requires (forall c | c in cs :: c.probe.Some?) && (s.rows != [] ==> s.seen >= cfg.start)
    ensures Unlogged(cfg, s, cs) == 0.0
    decreases |cs|
  {
    if cs != [] {
      assert cs[0] in cs;
      assert forall c | c in cs[1..] :: c in cs;
      NothingUnlogged(cfg, Logged(cfg, s, cs[0]), cs[1..]);
    }
  }

  lemma CleanSplitTelescopes<T>(cfg: Config, cs: seq<Call<T>>)
    requires forall c | c in cs :: c.probe.Some?
    ensures var s := Run(cfg, EMPTY, cs);
      s.rows != [] ==> s.lastExit.Some? && Total(s.rows) == s.lastExit.value - Base(cfg, EMPTY, cs)
  {
    SplitTelescopes(cfg, cs);
    NothingUnlogged(cfg, EMPTY, cs);
  }

  // ------------------------------------------------------------------ buckets and tallies

  function Select(rows: seq<Row>, kind: Kind): seq<Row> {
    if rows == [] then [] else
      (if rows[0].kind == kind then [rows[0]] else []) + Select(rows[1..], kind)
  }

  /** The three layer buckets hold every row exactly once. */
  lemma {:induction false} BucketsPartition(rows: seq<Row>)
    ensures multiset(rows) == multiset(Select(rows, Qsa)) + multiset(Select(rows, Gdn)) + multiset(Select(rows, Unknown))
  {
    if rows != [] {
      BucketsPartition(rows[1..]);
      assert rows == [rows[0]] + rows[1..];
      var r := multiset{rows[0]};
      assert multiset(rows) == r + multiset(rows[1..]);
      SelectHead(rows, Qsa);
      SelectHead(rows, Gdn);
      SelectHead(rows, Unknown);
    }
  }

  lemma SelectHead(rows: seq<Row>, kind: Kind)
    requires rows != []
    ensures multiset(Select(rows, kind))
         == (if rows[0].kind == kind then multiset{rows[0]} else multiset{}) + multiset(Select(rows[1..], kind))
  {
  }

  lemma {:induction false} SelectedAreOfKind(rows: seq<Row>, kind: Kind, r: Row)
    ensures r in Select(rows, kind) <==> r in rows && r.kind == kind
  {
    if rows != [] {
      SelectedAreOfKind(rows[1..], kind, r);
    }
  }

  datatype Tally = Tally(yes: nat, no: nat, unknown: nat)

  function Count(flags: seq<Option<bool>>, f: Option<bool>): nat {
    multiset(flags)[f]
  }

  method TallyFlags(flags: seq<Option<bool>>) returns (t: Tally)
    ensures t == Tally(Count(flags, Some(true)), Count(flags, Some(false)), Count(flags, None))
    ensures t.yes + t.no + t.unknown == |flags|
  {
    t := Tally(0, 0, 0);
    for i := 0 to |flags|
      invariant t == Tally(Count(flags[..i], Some(true)), Count(flags[..i], Some(false)), Count(flags[..i], None))
      invariant t.yes + t.no + t.unknown == i
    {
      assert flags[..i + 1] == flags[..i] + [flags[i]];
      match flags[i] {
        case Some(b) => if b { t := t.(yes := t.yes + 1); } else { t := t.(no := t.no + 1); }
        case None => t := t.(unknown := t.unknown + 1);
      }
    }
    assert flags[..|flags|] == flags;
  }

  // ------------------------------------------------------------------ installing and uninstalling

  /** An attribute of a communicator: the stock collective, or this wrapper around one. */
  datatype Fn = Stock(which: nat) | Timed(inner: Fn)

  /** The attributes each communicator holds itself, and those its class supplies. */
  datatype Comms = Comms(own: map<(nat, string), Fn>, inherited: map<(nat, string), Fn>)

  datatype Patch = Patch(at: (nat, string), orig: Fn, owned: bool)

  function Lookup(w: Comms, at: (nat, string)): Option<Fn> {
    if at in w.own then Some(w.own[at]) else if at in w.inherited then Some(w.inherited[at]) else None
  }

  class Installer {
    var comms: Comms
    var installed: seq<Patch>

    constructor (comms: Comms)
      ensures this.comms == comms && installed == []
    {
      this.comms := comms;
      installed := [];
    }

    method Wrap(at: (nat, string)) returns (ok: bool)
      modifies this
      ensures ok <==> Lookup(old(comms), at).Some? && Lookup(old(comms), at).value.Stock?
      ensures !ok ==> comms == old(comms) && installed == old(installed)
      ensures ok ==> Lookup(comms, at) == Some(Timed(Lookup(old(comms), at).value))
      ensures Undo(comms, installed) == Undo(old(comms), old(installed))
    {
      var orig := Lookup(comms, at);
      if orig.None? || orig.value.Timed? {
        return false;
      }
      var patch := Patch(at, orig.value, at in comms.own);
      ghost var before := comms;
      comms := comms.(own := comms.own[at := Timed(orig.value)]);
      installed := installed + [patch];
      assert installed[..|installed| - 1] == old(installed);
      assert Undone(comms, patch).own == before.own;
      return true;
    }

    /** Every wrapped attribute is put back, last first. */
    method Uninstall()
      modifies this
      ensures comms == Undo(old(comms), old(installed)) && installed == []
    {
      while installed != []
        invariant Undo(comms, installed) == Undo(old(comms), old(installed))
        decreases |installed|
      {
        var patch := installed[|installed| - 1];
        installed := installed[..|installed| - 1];
        comms := if patch.owned then comms.(own := comms.own[patch.at := patch.orig])
                 else comms.(own := comms.own - {patch.at});
      }
    }
  }

  function Undone(w: Comms, p: Patch): Comms {
    if p.owned then w.(own := w.own[p.at := p.orig]) else w.(own := w.own - {p.at})
  }

  function Undo(w: Comms, ps: seq<Patch>): Comms
    decreases |ps|
  {
    if ps == [] then w else Undo(Undone(w, ps[|ps| - 1]), ps[..|ps| - 1])
  }

  /** Whatever is wrapped, in whatever order and however often, uninstalling restores every attribute. */
  method WrapAllThenUninstall(comms: Comms, ats: seq<(nat, string)>) returns (after: Comms)
    ensures after == comms
  {
    var inst := new Installer(comms);
    for i := 0 to |ats|
      invariant Undo(inst.comms, inst.installed) == comms
    {
      var _ := inst.Wrap(ats[i]);
    }
    inst.Uninstall();
    after := inst.comms;
  }
}
