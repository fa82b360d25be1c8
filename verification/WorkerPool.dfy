/** The barrier-released worker pool of bench/fn-stream-client.py: request indices dealt round-robin to
    the workers, all released together, each then draining its own list. */
module WorkerPool {
  import opened Division

  /** Arguments below one are raised to one. */
  function AtLeastOne(n: int): (r: nat)
    ensures r == Max(1, n)
  {
    if n < 1 then 1 else n
  }

  /** Worker w's list: w, w + c, w + 2c, ... below the request count. */
  function Dealt(w: nat, c: nat, requests: nat): seq<nat>
    requires c >= 1
    decreases requests
  {
    if requests == 0 then [] else
      var rest := Dealt(w, c, requests - 1);
      if (requests - 1) % c == w then rest + [requests - 1] else rest
  }

  /** The dealing loop. */
  method Deal(c: nat, requests: nat) returns (chunks: seq<seq<nat>>)
    requires c >= 1
    ensures |chunks| == c && forall w | 0 <= w < c :: chunks[w] == Dealt(w, c, requests)
  {
    chunks := seq(c, i => []);
    for idx := 0 to requests
      invariant |chunks| == c && forall w | 0 <= w < c :: chunks[w] == Dealt(w, c, idx)
    {
      chunks := chunks[idx % c := chunks[idx % c] + [idx]];
    }
  }

  /** A worker's list holds exactly the indices that fall to it, each once, in order. */
  lemma {:induction false} DealtExactly(w: nat, c: nat, requests: nat)
    requires c >= 1 && w < c
    ensures forall idx: nat :: idx in Dealt(w, c, requests) <==> idx < requests && idx % c == w
    ensures forall i, j | 0 <= i < j < |Dealt(w, c, requests)| :: Dealt(w, c, requests)[i] < Dealt(w, c, requests)[j]
  {
    if requests > 0 {
      DealtExactly(w, c, requests - 1);
      var rest := Dealt(w, c, requests - 1);
      forall i | 0 <= i < |rest| ensures rest[i] < requests - 1 { assert rest[i] in rest; }
    }
  }

  // ------------------------------------------------------------------ the pool at work

  datatype Stage = Starting | Waiting | Working | Busy(idx: nat) | Stopped

  /** todo: the indices the worker has not begun. */
  datatype Worker = Worker(stage: Stage, todo: seq<nat>)

  /** results and errors as the shared lists see them; begun counts attempts per index. */
  datatype Pool<+R> = Pool(workers: seq<Worker>, releaser: bool, results: map<nat, R>, errors: seq<nat>, begun: multiset<nat>)

  function Fresh<R>(c: nat, requests: nat): Pool<R>
    requires c >= 1
  {
    Pool(seq(c, w requires 0 <= w < c => Worker(Starting, Dealt(w, c, requests))), false, map[], [], multiset{})
  }

  /** Every worker and the releaser have reached the barrier. */
  ghost predicate AllAtBarrier<R>(p: Pool<R>) {
    p.releaser && forall w | 0 <= w < |p.workers| :: p.workers[w].stage != Starting
  }

  datatype Act<+R> =
    | Arrive(w: nat)
    | ArriveReleaser
    | Leave(w: nat)
    | Begin(w: nat)
    | Succeed(w: nat, rec: R)
    | Fail(w: nat)
    | Stop(w: nat)

  ghost predicate Enabled<R>(p: Pool<R>, a: Act<R>) {
    match a
    case Arrive(w) => w < |p.workers| && p.workers[w].stage == Starting
    case ArriveReleaser => !p.releaser
    case Leave(w) => w < |p.workers| && p.workers[w].stage == Waiting && AllAtBarrier(p)
    case Begin(w) => w < |p.workers| && p.workers[w].stage == Working && p.workers[w].todo != []
    case Succeed(w, _) => w < |p.workers| && p.workers[w].stage.Busy?
    case Fail(w) => w < |p.workers| && p.workers[w].stage.Busy?
    case Stop(w) => w < |p.workers| && p.workers[w].stage == Working && p.workers[w].todo == []
  }

  function Set<R>(p: Pool<R>, w: nat, worker: Worker): Pool<R>
    requires w < |p.workers|
  {
    p.(workers := p.workers[w := worker])
  }

  function Take<R>(p: Pool<R>, a: Act<R>): Pool<R>
    requires a.ArriveReleaser? || a.w < |p.workers|
    requires a.Begin? ==> p.workers[a.w].todo != []
    requires a.Succeed? || a.Fail? ==> p.workers[a.w].stage.Busy?
  {
    match a
    case Arrive(w) => Set(p, w, p.workers[w].(stage := Waiting))
    case ArriveReleaser => p.(releaser := true)
    case Leave(w) => Set(p, w, p.workers[w].(stage := Working))
    case Begin(w) =>
      var idx := p.workers[w].todo[0];
      Set(p, w, Worker(Busy(idx), p.workers[w].todo[1..])).(begun := p.begun + multiset{idx})
    case Succeed(w, rec) =>
      Set(p, w, p.workers[w].(stage := Working)).(results := p.results[p.workers[w].stage.idx := rec])
    case Fail(w) =>
      Set(p, w, p.workers[w].(stage := Working)).(errors := p.errors + [p.workers[w].stage.idx])
    case Stop(w) => Set(p, w, p.workers[w].(stage := Stopped))
  }

  ghost predicate Legal<R>(p: Pool<R>, acts: seq<Act<R>>)
    decreases |acts|
  {
    acts == [] || (Enabled(p, acts[0]) && Legal(Take(p, acts[0]), acts[1..]))
  }

  function Perform<R>(p: Pool<R>, acts: seq<Act<R>>): Pool<R>
    requires Legal(p, acts)
    decreases |acts|
  {
    if acts == [] then p else Perform(Take(p, acts[0]), acts[1..])
  }

  // ------------------------------------------------------------------ the invariant

  function Count(xs: seq<nat>, x: nat): nat { multiset(xs)[x] }

  /** Results and logged errors an index has so far. */
  function Outcomes<R>(p: Pool<R>, idx: nat): nat {
    (if idx in p.results then 1 else 0) + Count(p.errors, idx)
  }

  /** An index not begun has nothing, one being served has one attempt, any other one attempt and one outcome. */
  ghost predicate Tallied(worker: Worker, idx: nat, attempts: nat, outcomes: nat) {
    && (idx in worker.todo ==> attempts == 0 && outcomes == 0 && worker.stage != Busy(idx))
    && (worker.stage == Busy(idx) ==> attempts == 1 && outcomes == 0)
    && (idx !in worker.todo && worker.stage != Busy(idx) ==> attempts == 1 && outcomes == 1)
  }

  /** What is known of one index, from the worker it was dealt to. */
  ghost predicate IndexOk<R>(p: Pool<R>, idx: nat)
    requires |p.workers| >= 1
  {
    Tallied(p.workers[idx % |p.workers|], idx, p.begun[idx], Outcomes(p, idx))
  }

  /** Nothing is recorded of an index outside the requests. */
  ghost predicate InRange<R>(p: Pool<R>, requests: nat) {
    forall idx: nat | idx >= requests :: idx !in p.results && idx !in p.errors && p.begun[idx] == 0
  }

  /** Lists hold only their own worker's indices, each once; a busy worker is on one of its own. */
  ghost predicate WorkerOk<R>(p: Pool<R>, requests: nat, w: nat)
    requires |p.workers| >= 1 && w < |p.workers|
  {
    var wk := p.workers[w];
    && (forall i | 0 <= i < |wk.todo| :: wk.todo[i] < requests && wk.todo[i] % |p.workers| == w)
    && (forall i, j | 0 <= i < j < |wk.todo| :: wk.todo[i] != wk.todo[j])
    && (wk.stage.Busy? ==> wk.stage.idx < requests && wk.stage.idx % |p.workers| == w && wk.stage.idx !in wk.todo)
    && (wk.stage == Stopped ==> wk.todo == [])
    && (wk.stage != Starting && wk.stage != Waiting ==> AllAtBarrier(p))
  }

  ghost predicate Inv<R>(p: Pool<R>, c: nat, requests: nat) {
    && c >= 1 && |p.workers| == c
    && (forall w | 0 <= w < c :: WorkerOk(p, requests, w))
    && (forall idx: nat | idx < requests :: IndexOk(p, idx))
    && InRange(p, requests)
    && (p.begun != multiset{} ==> AllAtBarrier(p))
  }

  lemma FreshInv<R>(c: nat, requests: nat)
    requires c >= 1
    ensures Inv(Fresh<R>(c, requests), c, requests)
  {
    var p := Fresh<R>(c, requests);
    forall w | 0 <= w < c ensures WorkerOk(p, requests, w) {
      DealtExactly(w, c, requests);
      forall i | 0 <= i < |p.workers[w].todo| ensures p.workers[w].todo[i] < requests && p.workers[w].todo[i] % c == w {
        assert p.workers[w].todo[i] in p.workers[w].todo;
      }
    }
    forall idx: nat | idx < requests ensures IndexOk(p, idx) {
      DealtExactly(idx % c, c, requests);
    }
  }

  /** Nobody who reached the barrier goes back before it, and only the acting worker changes. */
  lemma BarrierHolds<R>(p: Pool<R>, a: Act<R>)
    requires Enabled(p, a)
    ensures |Take(p, a).workers| == |p.workers|
    ensures AllAtBarrier(p) ==> AllAtBarrier(Take(p, a))
    ensures forall w | 0 <= w < |p.workers| && (a.ArriveReleaser? || a.w != w) :: Take(p, a).workers[w] == p.workers[w]
  {
  }

  lemma OtherWorkersOk<R>(p: Pool<R>, c: nat, requests: nat, a: Act<R>, w: nat)
    requires Inv(p, c, requests) && Enabled(p, a) && w < c && (a.ArriveReleaser? || a.w != w)
    ensures WorkerOk(Take(p, a), requests, w)
  {
    BarrierHolds(p, a);
    SameWorkerOk(p, Take(p, a), requests, w);
  }

  lemma SameWorkerOk<R>(p: Pool<R>, q: Pool<R>, requests: nat, w: nat)
    requires w < |p.workers| == |q.workers| && p.workers[w] == q.workers[w] && WorkerOk(p, requests, w)
    requires AllAtBarrier(p) ==> AllAtBarrier(q)
    ensures WorkerOk(q, requests, w)
  {
  }

  lemma OwnWorkerOk<R>(p: Pool<R>, c: nat, requests: nat, a: Act<R>)
    requires Inv(p, c, requests) && Enabled(p, a) && !a.ArriveReleaser?
    ensures WorkerOk(Take(p, a), requests, a.w)
  {
    assert WorkerOk(p, requests, a.w);
    if a.Begin? {
      var todo := p.workers[a.w].todo;
      assert todo[0] !in todo[1..];
    }
  }

  lemma OneMoreError(errors: seq<nat>, x: nat, idx: nat)
    ensures Count(errors + [x], idx) == Count(errors, idx) + (if x == idx then 1 else 0)
  {
  }

  /** How one step moves the record of one index. */
  lemma RecordMoves<R>(p: Pool<R>, a: Act<R>, idx: nat)
    requires Enabled(p, a)
    ensures Take(p, a).begun[idx] == p.begun[idx] + (if a.Begin? && p.workers[a.w].todo[0] == idx then 1 else 0)
    ensures Outcomes(Take(p, a), idx) ==
      (if a.Succeed? && p.workers[a.w].stage.idx == idx then 1 + Count(p.errors, idx)
       else Outcomes(p, idx) + (if a.Fail? && p.workers[a.w].stage.idx == idx then 1 else 0))
  {
    if a.Fail? { OneMoreError(p.errors, p.workers[a.w].stage.idx, idx); }
  }

  lemma StepOfOther<R>(p: Pool<R>, c: nat, requests: nat, a: Act<R>, idx: nat)
    requires Inv(p, c, requests) && Enabled(p, a) && idx < requests && (a.ArriveReleaser? || a.w != idx % c)
    ensures IndexOk(Take(p, a), idx)
  {
    assert IndexOk(p, idx);
    RecordMoves(p, a, idx);
    if !a.ArriveReleaser? { assert WorkerOk(p, requests, a.w); }
  }

  lemma BeginTallied(worker: Worker, idx: nat, attempts: nat, outcomes: nat)
    requires worker.todo != [] && !worker.stage.Busy? && Tallied(worker, idx, attempts, outcomes)
    requires worker.todo[0] !in worker.todo[1..]
    ensures Tallied(Worker(Busy(worker.todo[0]), worker.todo[1..]), idx,
                    attempts + (if worker.todo[0] == idx then 1 else 0), outcomes)
  {
    assert worker.todo == [worker.todo[0]] + worker.todo[1..];
  }

  lemma StepOfOwn<R>(p: Pool<R>, c: nat, requests: nat, a: Act<R>, idx: nat)
    requires Inv(p, c, requests) && Enabled(p, a) && idx < requests && !a.ArriveReleaser? && a.w == idx % c
    ensures IndexOk(Take(p, a), idx)
  {
    assert IndexOk(p, idx);
    RecordMoves(p, a, idx);
    assert WorkerOk(p, requests, a.w);
    if a.Begin? {
      BeginTallied(p.workers[a.w], idx, p.begun[idx], Outcomes(p, idx));
    }
  }

  lemma StaysInRange<R>(p: Pool<R>, c: nat, requests: nat, a: Act<R>)
    requires Inv(p, c, requests) && Enabled(p, a)
    ensures InRange(Take(p, a), requests)
  {
    if !a.ArriveReleaser? { assert WorkerOk(p, requests, a.w); }
    if a.Begin? { assert p.workers[a.w].todo[0] < requests; }
  }

  lemma BarrierStays<R>(p: Pool<R>, c: nat, requests: nat, a: Act<R>)
    requires Inv(p, c, requests) && Enabled(p, a)
    ensures Take(p, a).begun != multiset{} ==> AllAtBarrier(Take(p, a))
  {
    if !a.ArriveReleaser? { assert WorkerOk(p, requests, a.w); }
  }

  lemma StepInv<R>(p: Pool<R>, c: nat, requests: nat, a: Act<R>)
    requires Inv(p, c, requests) && Enabled(p, a)
    ensures Inv(Take(p, a), c, requests)
  {
    forall w | 0 <= w < c ensures WorkerOk(Take(p, a), requests, w) {
      if a.ArriveReleaser? || a.w != w { OtherWorkersOk(p, c, requests, a, w); } else { OwnWorkerOk(p, c, requests, a); }
    }
    forall idx: nat | idx < requests ensures IndexOk(Take(p, a), idx) {
      if a.ArriveReleaser? || a.w != idx % c { StepOfOther(p, c, requests, a, idx); } else { StepOfOwn(p, c, requests, a, idx); }
    }
    StaysInRange(p, c, requests, a);
    BarrierStays(p, c, requests, a);
  }

  lemma {:induction false} RunInv<R>(p: Pool<R>, c: nat, requests: nat, acts: seq<Act<R>>)
    requires Inv(p, c, requests) && Legal(p, acts)
    ensures Inv(Perform(p, acts), c, requests)
    decreases |acts|
  {
    if acts != [] {
      StepInv(p, c, requests, acts[0]);
      RunInv(Take(p, acts[0]), c, requests, acts[1..]);
    }
  }

  // ------------------------------------------------------------------ what callers rely on

  function InFlight(workers: seq<Worker>): nat {
    if workers == [] then 0 else InFlight(workers[1..]) + (if workers[0].stage.Busy? then 1 else 0)
  }

  lemma {:induction false} InFlightBound(workers: seq<Worker>)
    ensures InFlight(workers) <= |workers|
  {
    if workers != [] { InFlightBound(workers[1..]); }
  }

  /** In every run: no request starts before all workers and the releaser are at the barrier, at most
      `concurrency` are in flight, and no index is attempted twice. */
  lemma PoolDiscipline<R>(concurrency: int, requests: int, acts: seq<Act<R>>)
    requires Legal(Fresh<R>(AtLeastOne(concurrency), AtLeastOne(requests)), acts)
    ensures var p := Perform(Fresh<R>(AtLeastOne(concurrency), AtLeastOne(requests)), acts);
      && (p.begun != multiset{} ==> AllAtBarrier(p))
      && InFlight(p.workers) <= AtLeastOne(concurrency)
      && forall idx: nat :: p.begun[idx] <= (if idx < AtLeastOne(requests) then 1 else 0)
  {
    var c, n := AtLeastOne(concurrency), AtLeastOne(requests);
    FreshInv<R>(c, n);
    RunInv(Fresh<R>(c, n), c, n, acts);
    var p := Perform(Fresh<R>(c, n), acts);
    InFlightBound(p.workers);
    forall idx: nat ensures p.begun[idx] <= (if idx < n then 1 else 0) {
      if idx < n { assert IndexOk(p, idx); } else { assert idx !in p.begun; }
    }
  }

  ghost predicate Joined<R>(p: Pool<R>) { forall w | 0 <= w < |p.workers| :: p.workers[w].stage == Stopped }

  /** At join every index was attempted exactly once and has a result or one logged error, never both; so
      successes and errors add up to the requests. */
  lemma JoinAccountsForEveryRequest<R>(concurrency: int, requests: int, acts: seq<Act<R>>)
    requires Legal(Fresh<R>(AtLeastOne(concurrency), AtLeastOne(requests)), acts)
    requires Joined(Perform(Fresh<R>(AtLeastOne(concurrency), AtLeastOne(requests)), acts))
    ensures var p := Perform(Fresh<R>(AtLeastOne(concurrency), AtLeastOne(requests)), acts);
      && (forall idx: nat | idx < AtLeastOne(requests) :: Settled(p, idx))
      && |p.results| + |p.errors| == AtLeastOne(requests)
  {
    var c, n := AtLeastOne(concurrency), AtLeastOne(requests);
    FreshInv<R>(c, n);
    RunInv(Fresh<R>(c, n), c, n, acts);
    var p := Perform(Fresh<R>(c, n), acts);
    forall idx: nat | idx < n ensures Settled(p, idx) {
      IndexSettled(p, c, n, idx);
    }
    SettledCount(p, n);
  }

  /** One attempt, and a result or one logged error but not both. */
  ghost predicate Settled<R>(p: Pool<R>, idx: nat) {
    p.begun[idx] == 1 && (idx in p.results <==> idx !in p.errors) && Count(p.errors, idx) <= 1
  }

  lemma IndexSettled<R>(p: Pool<R>, c: nat, n: nat, idx: nat)
    requires Inv(p, c, n) && Joined(p) && idx < n
    ensures Settled(p, idx)
  {
    assert IndexOk(p, idx);
    assert WorkerOk(p, n, idx % c);
    assert idx in p.errors <==> Count(p.errors, idx) > 0;
  }

  function Elements(xs: seq<nat>): (s: set<nat>)
    ensures forall x: nat :: x in s <==> x in xs
  {
    set x | x in xs
  }

  lemma SettledCount<R>(p: Pool<R>, n: nat)
    requires InRange(p, n) && forall idx: nat | idx < n :: Settled(p, idx)
    ensures |p.results| + |p.errors| == n
  {
    forall idx: nat | idx in p.errors ensures Count(p.errors, idx) <= 1 {
      assert idx < n && Settled(p, idx);
    }
    DistinctCount(p.errors);
    SplitCount(p.results.Keys, Elements(p.errors), n) by {
      forall idx: nat | idx < n ensures idx in p.results.Keys <==> idx !in Elements(p.errors) { assert Settled(p, idx); }
    }
  }

  lemma SplitCount(a: set<nat>, b: set<nat>, n: nat)
    requires forall idx: nat | idx >= n :: idx !in a && idx !in b
    requires forall idx: nat | idx < n :: idx in a <==> idx !in b
    ensures |a| + |b| == n
  {
    assert a + b == UpTo(n);
    assert a !! b;
    assert |a + b| == |a| + |b|;
  }

  lemma {:induction false} DistinctCount(xs: seq<nat>)
    requires forall x: nat | x in xs :: Count(xs, x) <= 1
    ensures |Elements(xs)| == |xs|
  {
    if xs != [] {
      var rest := xs[1..];
      assert xs == [xs[0]] + rest;
      assert multiset(xs) == multiset{xs[0]} + multiset(rest);
      forall x: nat | x in rest ensures Count(rest, x) <= 1 { assert x in xs; }
      DistinctCount(rest);
      var tail := Elements(rest);
      assert xs[0] !in tail by {
        assert xs[0] in xs;
        assert Count(xs, xs[0]) == 1 + Count(rest, xs[0]);
      }
      assert Elements(xs) == tail + {xs[0]};
      assert |tail + {xs[0]}| == |tail| + 1;
    }
  }

  /** Nobody waits for ever: until the join some step is possible, and every run is bounded. */
  lemma PoolNeverStalls<R(0)>(p: Pool<R>, c: nat, requests: nat) returns (a: Act<R>)
    requires Inv(p, c, requests) && !(p.releaser && Joined(p))
    ensures Enabled(p, a) && StepsLeft(Take(p, a).workers, Take(p, a).releaser) < StepsLeft(p.workers, p.releaser)
  {
    if !p.releaser {
      a := ArriveReleaser;
    } else if exists w :: 0 <= w < c && p.workers[w].stage == Starting {
      var w: nat :| w < c && p.workers[w].stage == Starting;
      a := Arrive(w);
      WorkLess(p.workers, w, p.workers[w].(stage := Waiting));
    } else {
      var w: nat :| w < c && p.workers[w].stage != Stopped;
      match p.workers[w].stage {
        case Waiting => a := Leave(w);
        case Busy(_) => a := Fail(w);
        case Working => a := if p.workers[w].todo == [] then Stop(w) else Begin(w);
      }
      WorkLess(p.workers, w, Take(p, a).workers[w]);
    }
  }

  function Weight(w: Worker): nat {
    2 * |w.todo| + match w.stage { case Starting => 3 case Waiting => 2 case Working => 1 case Busy(_) => 2 case Stopped => 0 }
  }

  function Work(workers: seq<Worker>): nat {
    if workers == [] then 0 else Work(workers[1..]) + Weight(workers[0])
  }

  function StepsLeft(workers: seq<Worker>, releaser: bool): nat {
    Work(workers) + (if releaser then 0 else 1)
  }

  lemma {:induction false} WorkLess(ws: seq<Worker>, at: nat, w: Worker)
    requires at < |ws|
    ensures Work(ws[at := w]) == Work(ws) - Weight(ws[at]) + Weight(w)
  {
    if at == 0 {
      assert ws[0 := w][1..] == ws[1..];
    } else {
      assert ws[at := w][1..] == ws[1..][at - 1 := w];
      WorkLess(ws[1..], at - 1, w);
    }
  }

  /** Every step of every run brings the join nearer. */
  lemma EveryStepCounts<R>(p: Pool<R>, a: Act<R>)
    requires Enabled(p, a)
    ensures StepsLeft(Take(p, a).workers, Take(p, a).releaser) + 1 == StepsLeft(p.workers, p.releaser)
  {
    if !a.ArriveReleaser? {
      WorkLess(p.workers, a.w, Take(p, a).workers[a.w]);
    }
  }

  lemma {:induction false} StepsAreSpent<R>(p: Pool<R>, acts: seq<Act<R>>)
    requires Legal(p, acts)
    ensures |acts| + StepsLeft(Perform(p, acts).workers, Perform(p, acts).releaser) == StepsLeft(p.workers, p.releaser)
    decreases |acts|
  {
    if acts != [] {
      EveryStepCounts(p, acts[0]);
      StepsAreSpent(Take(p, acts[0]), acts[1..]);
    }
  }

  lemma {:induction false} WorkOfIdle(ws: seq<Worker>, weight: nat)
    requires forall w | 0 <= w < |ws| :: Weight(ws[w]) == weight
    ensures Work(ws) == |ws| * weight
  {
    if ws != [] {
      WorkOfIdle(ws[1..], weight);
      assert |ws| * weight == (|ws| - 1) * weight + weight;
    }
  }

  lemma {:induction false} FreshWork<R>(c: nat, requests: nat)
    requires c >= 1
    ensures Work(Fresh<R>(c, requests).workers) == 3 * c + 2 * requests
  {
    var ws := Fresh<R>(c, requests).workers;
    if requests == 0 {
      WorkOfIdle(ws, 3);
    } else {
      var before, at := Fresh<R>(c, requests - 1).workers, (requests - 1) % c;
      FreshWork<R>(c, requests - 1);
      WorkLess(before, at, ws[at]);
      assert ws == before[at := ws[at]];
      assert Weight(ws[at]) == Weight(before[at]) + 2;
    }
  }

  /** Every run is bounded: three steps for each worker, two for each request, one for the releaser. A run that
      has reached the join has taken exactly these. */
  lemma RunsAreBounded<R>(concurrency: int, requests: int, acts: seq<Act<R>>)
    requires Legal(Fresh<R>(AtLeastOne(concurrency), AtLeastOne(requests)), acts)
    ensures |acts| <= 3 * AtLeastOne(concurrency) + 2 * AtLeastOne(requests) + 1
    ensures Joined(Perform(Fresh<R>(AtLeastOne(concurrency), AtLeastOne(requests)), acts)) ==>
      |acts| == 3 * AtLeastOne(concurrency) + 2 * AtLeastOne(requests) + 1
  {
    var c, n := AtLeastOne(concurrency), AtLeastOne(requests);
    StepsAreSpent(Fresh<R>(c, n), acts);
    FreshWork<R>(c, n);
    FreshInv<R>(c, n);
    RunInv(Fresh<R>(c, n), c, n, acts);
    var p := Perform(Fresh<R>(c, n), acts);
    if Joined(p) { JoinedIsSpent(p, c, n); }
  }

  lemma JoinedIsSpent<R>(p: Pool<R>, c: nat, n: nat)
    requires Inv(p, c, n) && Joined(p)
    ensures StepsLeft(p.workers, p.releaser) == 0
  {
    forall w | 0 <= w < |p.workers| ensures Weight(p.workers[w]) == 0 {
      assert WorkerOk(p, n, w);
    }
    WorkOfIdle(p.workers, 0);
    assert WorkerOk(p, n, 0);
  }
}
