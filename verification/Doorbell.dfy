/** probes/hip_atomic_doorbell_soak.cpp: a kernel fills a payload and rings a flag; the host polls the
    flag gate after gate and checks that the payload it then reads is the one published.

    Writes become visible to the host late and in any order: each thread's stores sit in its own pending
    set until they drain on their own or its system fence drains the rest. */
module Doorbell {
  import opened Division
  import opened Bits

  const SCRAMBLE: nat := 2654435761

  /** The payload pattern: the low 32 bits of the sequence number, xor the scrambled word index. */
  function Pattern(seqno: nat, word: nat): bv32 {
    Low(seqno) ^ Scrambled(word)
  }

  function Scrambled(word: nat): bv32 { Low(word * SCRAMBLE) }

  // ------------------------------------------------------------------ what the pattern tells apart

  lemma LowApart(gate: nat, other: nat, word: nat)
    requires Low(gate) != Low(other)
    ensures Pattern(gate, word) != Pattern(other, word)
  {
    XorCancels(Low(gate), Low(other), Scrambled(word));
  }

  lemma ScrambledApart(gate: nat, word: nat, other: nat)
    requires Scrambled(word) != Scrambled(other)
    ensures Pattern(gate, word) != Pattern(gate, other)
  {
    XorCancels(Scrambled(word), Scrambled(other), Low(gate));
  }

  /** In one word, two gates have the same pattern exactly when their numbers agree modulo 2^32. */
  lemma GatesDiffer(gate: nat, other: nat, word: nat)
    ensures Pattern(gate, word) == Pattern(other, word) <==> gate % WIDTH == other % WIDTH
  {
    if gate % WIDTH != other % WIDTH {
      LowIff(gate, other);
      LowApart(gate, other, word);
    }
  }

  /** So no two 32-bit gate numbers share a pattern anywhere. */
  lemma GatesOf32BitsDiffer(gate: bv32, other: bv32, word: nat)
    requires gate != other
    ensures Pattern(gate as nat, word) != Pattern(other as nat, word)
  {
    LowOfNumber(gate);
    LowOfNumber(other);
    LowApart(gate as nat, other as nat, word);
  }

  const UNSCRAMBLE: nat := 244002641

  /** The multiplier is odd, so scrambling keeps indices apart. */
  lemma ScrambleIff(word: nat, other: nat)
    ensures (word * SCRAMBLE) % WIDTH == (other * SCRAMBLE) % WIDTH <==> word % WIDTH == other % WIDTH
  {
    assert SCRAMBLE * UNSCRAMBLE == 1 + 150801925 * WIDTH;
    if (word * SCRAMBLE) % WIDTH == (other * SCRAMBLE) % WIDTH {
      var q := word * SCRAMBLE / WIDTH - other * SCRAMBLE / WIDTH;
      assert (word - other) * SCRAMBLE == q * WIDTH;
      WholeApart(word, other, q * UNSCRAMBLE - (word - other) * 150801925);
    }
    if word % WIDTH == other % WIDTH {
      WholeApart(word * SCRAMBLE, other * SCRAMBLE, (word / WIDTH - other / WIDTH) * SCRAMBLE);
    }
  }

  lemma WholeApart(a: nat, b: nat, q: int)
    requires a - b == q * WIDTH
    ensures a % WIDTH == b % WIDTH
  {
  }

  lemma SameScramble(word: nat, other: nat)
    requires word % WIDTH == other % WIDTH
    ensures Scrambled(word) == Scrambled(other)
  {
    ScrambleIff(word, other);
    LowIff(word * SCRAMBLE, other * SCRAMBLE);
  }

  /** One gate's pattern differs from word to word: words that have changed places do not pass for each other. */
  lemma WordsDiffer(gate: nat, word: nat, other: nat)
    ensures Pattern(gate, word) == Pattern(gate, other) <==> word % WIDTH == other % WIDTH
  {
    if word % WIDTH != other % WIDTH {
      ScrambleIff(word, other);
      LowIff(word * SCRAMBLE, other * SCRAMBLE);
      ScrambledApart(gate, word, other);
    } else {
      SameScramble(word, other);
    }
  }

  /** Grid and payload shape: blocks of `threads` threads each, `words` payload words. */
  datatype Grid = Grid(blocks: nat, threads: nat, words: nat)

  ghost predicate Shape(g: Grid) { g.blocks >= 1 && g.threads >= 1 }

  function Stride(g: Grid): nat { g.blocks * g.threads }

  datatype Stage = Writing | Arrived | Passed | Exited

  /** A thread of the kernel: how many words it has stored, which of them the host may not see yet. */
  datatype Thread = Thread(stored: nat, pending: map<nat, bv32>, stage: Stage)

  const FRESH := Thread(0, map[], Writing)

  datatype Host = Polling | Draining | Checking(k: nat) | Idle

  /** gate: the sequence number the host is on; kernel: the one the device is running or last ran. */
  datatype State = State(payload: seq<bv32>, flag: nat, threads: seq<Thread>, kernel: nat,
                         host: Host, gate: nat, arrived: nat, missed: nat, mismatches: nat)

  function Boot(g: Grid, payload: seq<bv32>): State {
    State(payload, 0, seq(Stride(g), i => FRESH.(stage := Exited)), 0, Idle, 0, 0, 0, 0)
  }

  /** The index of the next word thread t stores. */
  function NextWord(g: Grid, t: nat, stored: nat): nat { t + stored * Stride(g) }

  function Overlay(payload: seq<bv32>, pending: map<nat, bv32>): (p: seq<bv32>)
    ensures |p| == |payload|
  {
    seq(|payload|, i requires 0 <= i < |payload| => if i in pending then pending[i] else payload[i])
  }

  ghost predicate SameBlock(g: Grid, t: nat, u: nat)
    requires Shape(g)
  {
    t / g.threads == u / g.threads
  }

  datatype Step =
    | Store(t: nat)
    | Drain(t: nat, word: nat)
    | FenceAndArrive(t: nat)
    | Pass(t: nat)
    | Exit(t: nat)
    | Launch
    | KernelStart
    | Poll
    | Timeout
    | Drained
    | Check
    | Skip

  ghost predicate ThreadAt(s: State, t: nat, stage: Stage) { t < |s.threads| && s.threads[t].stage == stage }

  ghost predicate KernelDone(s: State) { forall t | 0 <= t < |s.threads| :: s.threads[t].stage == Exited }

  ghost predicate Enabled(g: Grid, s: State, a: Step)
    requires Shape(g)
  {
    match a
    case Store(t) => ThreadAt(s, t, Writing) && NextWord(g, t, s.threads[t].stored) < g.words
    case Drain(t, word) => t < |s.threads| && word in s.threads[t].pending
    case FenceAndArrive(t) => ThreadAt(s, t, Writing) && NextWord(g, t, s.threads[t].stored) >= g.words
    case Pass(t) => ThreadAt(s, t, Arrived) && forall u | 0 <= u < |s.threads| && SameBlock(g, t, u) :: s.threads[u].stage != Writing
    case Exit(t) => ThreadAt(s, t, Passed)
    case Launch => s.host == Idle
    case KernelStart => KernelDone(s) && s.kernel < s.gate
    case Poll => s.host == Polling && s.flag >= s.gate
    case Timeout => s.host == Polling
    case Drained => s.host == Draining && s.kernel == s.gate && KernelDone(s)
    case Check => s.host.Checking? && s.host.k < |s.payload|
    case Skip => s.host.Checking?
  }

  function SetThread(s: State, t: nat, th: Thread): State
    requires t < |s.threads|
  {
    s.(threads := s.threads[t := th])
  }

  function Take(g: Grid, s: State, a: Step): State
    requires (a.Store? || a.Drain? || a.FenceAndArrive? || a.Pass? || a.Exit?) ==> a.t < |s.threads|
    requires a.Drain? ==> a.word in s.threads[a.t].pending
    requires a.Check? ==> s.host.Checking? && s.host.k < |s.payload|
  {
    match a
    case Store(t) =>
      var th := s.threads[t];
      var w := NextWord(g, t, th.stored);
      SetThread(s, t, th.(stored := th.stored + 1, pending := th.pending[w := Pattern(s.kernel, w)]))
    case Drain(t, word) =>
      var th := s.threads[t];
      SetThread(s, t, th.(pending := th.pending - {word}))
        .(payload := Overlay(s.payload, map[word := th.pending[word]]))
    case FenceAndArrive(t) =>
      var th := s.threads[t];
      SetThread(s, t, th.(pending := map[], stage := Arrived)).(payload := Overlay(s.payload, th.pending))
    case Pass(t) => SetThread(s, t, s.threads[t].(stage := Passed))
    case Exit(t) =>
      SetThread(s, t, s.threads[t].(stage := Exited)).(flag := if t == 0 then s.kernel else s.flag)
    case Launch => s.(host := Polling, gate := s.gate + 1)
    case KernelStart => s.(kernel := s.kernel + 1, threads := seq(|s.threads|, i => FRESH))
    case Poll => s.(host := Checking(0), arrived := s.arrived + 1)
    case Timeout => s.(host := Draining, missed := s.missed + 1)
    case Drained => s.(host := Idle)
    case Check =>
      if s.payload[s.host.k] == Pattern(s.gate, s.host.k) then s.(host := Checking(s.host.k + 1))
      else s.(host := Idle, mismatches := s.mismatches + 1)
    case Skip => s.(host := Idle)
  }

  function Perform(g: Grid, s: State, steps: seq<Step>): (r: State)
    requires Shape(g) && Legal(g, s, steps)
    decreases |steps|
  {
    if steps == [] then s else Perform(g, Take(g, s, steps[0]), steps[1..])
  }

  ghost predicate Legal(g: Grid, s: State, steps: seq<Step>)
    requires Shape(g)
    decreases |steps|
  {
    steps == [] || (Enabled(g, s, steps[0]) && Legal(g, Take(g, s, steps[0]), steps[1..]))
  }

  lemma {:induction false} Snoc(g: Grid, s: State, steps: seq<Step>, a: Step)
    requires Shape(g) && Legal(g, s, steps) && Enabled(g, Perform(g, s, steps), a)
    ensures Legal(g, s, steps + [a])
    ensures Perform(g, s, steps + [a]) == Take(g, Perform(g, s, steps), a)
    decreases |steps|
  {
    if steps == [] {
      assert [] + [a] == [a] && [a][1..] == [];
    } else {
      Snoc(g, Take(g, s, steps[0]), steps[1..], a);
      assert (steps + [a])[1..] == steps[1..] + [a];
    }
  }

  // ------------------------------------------------------------------ strided writes cover each word once

  function Owner(g: Grid, word: nat): nat
    requires Shape(g)
  {
    word % Stride(g)
  }

  function Turn(g: Grid, word: nat): nat
    requires Shape(g)
  {
    word / Stride(g)
  }

  lemma StridePositive(g: Grid)
    requires Shape(g)
    ensures Stride(g) >= g.threads >= 1
  {
  }

  /** The i-th store of thread t is the one place that word is written, and every word has such a place. */
  lemma EachWordOnce(g: Grid, word: nat, t: nat, i: nat)
    requires Shape(g) && t < Stride(g)
    ensures NextWord(g, t, i) == word <==> Owner(g, word) == t && Turn(g, word) == i
    ensures Owner(g, word) < Stride(g) && NextWord(g, Owner(g, word), Turn(g, word)) == word
  {
    StridePositive(g);
    DivUnique(t + i * Stride(g), Stride(g), i, t);
    assert word == word / Stride(g) * Stride(g) + word % Stride(g);
  }

  lemma PastTheEnd(g: Grid, word: nat, stored: nat)
    requires Shape(g) && word < NextWord(g, Owner(g, word), stored)
    ensures Turn(g, word) < stored
  {
    StridePositive(g);
    EachWordOnce(g, word, Owner(g, word), Turn(g, word));
    if stored <= Turn(g, word) {
      MulMono(stored, Turn(g, word), Stride(g));
      assert false;
    }
  }

  // ------------------------------------------------------------------ the invariant

  /** The host would read the right value of this word. */
  ghost predicate Visible(s: State, word: nat) {
    word < |s.payload| && s.payload[word] == Pattern(s.kernel, word)
  }

  /** Thread t's own stores: each is visible or pending with its pattern, and none is pending once it has
      fenced. */
  ghost predicate ThreadOk(g: Grid, s: State, t: nat)
    requires Shape(g) && t < |s.threads|
  {
    var th := s.threads[t];
    && (forall w | w in th.pending :: w < g.words && Owner(g, w) == t && th.pending[w] == Pattern(s.kernel, w))
    && (forall w | 0 <= w < g.words && Owner(g, w) == t && Turn(g, w) < th.stored :: w in th.pending || Visible(s, w))
    && (th.stage != Writing ==> th.pending == map[] && NextWord(g, t, th.stored) >= g.words)
  }

  ghost predicate ThreadsOk(g: Grid, s: State)
    requires Shape(g)
  {
    forall t | 0 <= t < |s.threads| :: ThreadOk(g, s, t)
  }

  /** Nobody is past the barrier while somebody of the same block still writes. */
  ghost predicate BarrierOk(g: Grid, s: State)
    requires Shape(g)
  {
    forall t, u | 0 <= t < |s.threads| && 0 <= u < |s.threads| && SameBlock(g, t, u) ::
      s.threads[t].stage in {Passed, Exited} ==> s.threads[u].stage != Writing
  }

  /** Every word is stored by the block that rings: there is no other, or the others have nothing to store. */
  predicate Narrow(g: Grid) { g.blocks == 1 || g.words <= g.threads }

  lemma OwnerRings(g: Grid, word: nat)
    requires Shape(g) && Narrow(g) && word < g.words
    ensures Owner(g, word) < Stride(g) && SameBlock(g, 0, Owner(g, word))
  {
    StridePositive(g);
    EachWordOnce(g, word, Owner(g, word), Turn(g, word));
    if g.blocks == 1 {
      assert Stride(g) == g.threads;
    } else {
      DivUnique(word, Stride(g), 0, word);
    }
    DivUnique(0, g.threads, 0, 0);
    DivUnique(Owner(g, word), g.threads, 0, Owner(g, word));
  }

  ghost predicate HostOk(g: Grid, s: State) {
    && |s.threads| == Stride(g) && |s.payload| == g.words
    && s.kernel <= s.gate <= s.kernel + 1
    && s.flag <= s.kernel
    && (|s.threads| > 0 ==> (s.threads[0].stage == Exited <==> s.flag == s.kernel))
    && (s.host in {Idle} || s.host.Checking? ==> s.flag == s.gate)
    && (s.host.Checking? ==> s.gate >= 1)
    && s.mismatches == 0
    && s.arrived + s.missed + (if s.host == Polling then 1 else 0) == s.gate
  }

  ghost predicate Inv(g: Grid, s: State)
    requires Shape(g)
  {
    HostOk(g, s) && BarrierOk(g, s) && (s.kernel >= 1 ==> ThreadsOk(g, s))
  }

  /** A rung flag means a complete payload. */
  lemma RungMeansComplete(g: Grid, s: State, word: nat)
    requires Shape(g) && Narrow(g) && Inv(g, s) && s.flag == s.kernel >= 1 && word < g.words
    ensures Visible(s, word)
  {
    StridePositive(g);
    var t := Owner(g, word);
    OwnerRings(g, word);
    assert s.threads[0].stage == Exited;
    assert ThreadOk(g, s, t);
    PastTheEnd(g, word, s.threads[t].stored);
  }

  lemma StoreKeepsThreads(g: Grid, s: State, t: nat)
    requires Shape(g) && Inv(g, s) && s.kernel >= 1 && Enabled(g, s, Store(t))
    ensures ThreadsOk(g, Take(g, s, Store(t)))
  {
    var r := Take(g, s, Store(t));
    var th := s.threads[t];
    var w := NextWord(g, t, th.stored);
    EachWordOnce(g, w, t, th.stored);
    forall u | 0 <= u < |r.threads| ensures ThreadOk(g, r, u) {
      assert ThreadOk(g, s, u);
      if u == t {
        forall v | 0 <= v < g.words && Owner(g, v) == t && Turn(g, v) < th.stored + 1
          ensures v in r.threads[t].pending || Visible(r, v)
        {
          if Turn(g, v) == th.stored { EachWordOnce(g, v, t, th.stored); } else { assert v in th.pending || Visible(s, v); }
        }
      } else {
        forall v | 0 <= v < g.words && Owner(g, v) == u && Turn(g, v) < s.threads[u].stored
          ensures v in r.threads[u].pending || Visible(r, v)
        {
          assert v in s.threads[u].pending || Visible(s, v);
        }
      }
    }
  }

  /** Making some of a thread's own pending stores visible keeps every thread's account. */
  lemma FlushKeepsThreads(g: Grid, s: State, t: nat, out: map<nat, bv32>, kept: map<nat, bv32>, stage: Stage)
    requires Shape(g) && Inv(g, s) && s.kernel >= 1 && t < |s.threads|
    requires forall w :: w in s.threads[t].pending <==> w in out || w in kept
    requires (forall w | w in out :: out[w] == s.threads[t].pending[w]) && (forall w | w in kept :: kept[w] == s.threads[t].pending[w])
    requires stage == s.threads[t].stage || (kept == map[] && NextWord(g, t, s.threads[t].stored) >= g.words)
    ensures ThreadsOk(g, SetThread(s, t, s.threads[t].(pending := kept, stage := stage)).(payload := Overlay(s.payload, out)))
  {
    var r := SetThread(s, t, s.threads[t].(pending := kept, stage := stage)).(payload := Overlay(s.payload, out));
    assert ThreadOk(g, s, t);
    forall v | Visible(s, v) ensures Visible(r, v) {
      if v in out { assert out[v] == Pattern(s.kernel, v); }
    }
    forall v | v in out ensures Visible(r, v) {
      assert v in s.threads[t].pending;
    }
    forall u | 0 <= u < |r.threads| ensures ThreadOk(g, r, u) {
      assert ThreadOk(g, s, u);
      forall v | 0 <= v < g.words && Owner(g, v) == u && Turn(g, v) < r.threads[u].stored
        ensures v in r.threads[u].pending || Visible(r, v)
      {
        assert v in s.threads[u].pending || Visible(s, v);
      }
    }
  }

  lemma OthersKeepThreads(g: Grid, s: State, a: Step)
    requires Shape(g) && Inv(g, s) && s.kernel >= 1 && Enabled(g, s, a)
    requires !a.Store? && !a.Drain? && !a.FenceAndArrive? && !a.KernelStart?
    ensures ThreadsOk(g, Take(g, s, a))
  {
    var r := Take(g, s, a);
    forall u | 0 <= u < |r.threads| ensures ThreadOk(g, r, u) {
      assert ThreadOk(g, s, u);
      forall v | 0 <= v < g.words && Owner(g, v) == u && Turn(g, v) < r.threads[u].stored
        ensures v in r.threads[u].pending || Visible(r, v)
      {
        assert v in s.threads[u].pending || Visible(s, v);
      }
    }
  }

  lemma FreshThreadsOk(g: Grid, s: State)
    requires Shape(g) && forall t | 0 <= t < |s.threads| :: s.threads[t] == FRESH
    ensures ThreadsOk(g, s)
  {
  }

  lemma StepKeepsThreads(g: Grid, s: State, a: Step)
    requires Shape(g) && Inv(g, s) && Enabled(g, s, a)
    ensures Take(g, s, a).kernel >= 1 ==> ThreadsOk(g, Take(g, s, a))
  {
    if a.KernelStart? {
      FreshThreadsOk(g, Take(g, s, a));
    } else if s.kernel >= 1 {
      match a
      case Store(t) => StoreKeepsThreads(g, s, t);
      case Drain(t, word) =>
        var p := s.threads[t].pending;
        FlushKeepsThreads(g, s, t, map[word := p[word]], p - {word}, s.threads[t].stage);
      case FenceAndArrive(t) => FlushKeepsThreads(g, s, t, s.threads[t].pending, map[], Arrived);
      case _ => OthersKeepThreads(g, s, a);
    }
  }

  lemma StepKeepsBarrier(g: Grid, s: State, a: Step)
    requires Shape(g) && Inv(g, s) && Enabled(g, s, a)
    ensures BarrierOk(g, Take(g, s, a))
  {
  }

  lemma StepKeepsHost(g: Grid, s: State, a: Step)
    requires Shape(g) && Narrow(g) && Inv(g, s) && Enabled(g, s, a)
    ensures HostOk(g, Take(g, s, a))
  {
    StridePositive(g);
    if a.Check? {
      RungMeansComplete(g, s, s.host.k);
    }
  }

  lemma {:induction false} RunKeepsInv(g: Grid, s: State, steps: seq<Step>)
    requires Shape(g) && Narrow(g) && Inv(g, s) && Legal(g, s, steps)
    ensures Inv(g, Perform(g, s, steps))
    decreases |steps|
  {
    if steps != [] {
      StepKeepsThreads(g, s, steps[0]);
      StepKeepsBarrier(g, s, steps[0]);
      StepKeepsHost(g, s, steps[0]);
      RunKeepsInv(g, Take(g, s, steps[0]), steps[1..]);
    }
  }

  /** One block of any thread count over any payload, or more blocks over a payload the first one covers, in any run:
      a host that sees its gate's flag reads that gate's pattern in every word, whatever gates were missed and drained
      before; so no check ever fails, and every finished gate is counted once, as arrived or as missed. */
  lemma FlagImpliesPayload(g: Grid, payload: seq<bv32>, steps: seq<Step>)
    requires Shape(g) && Narrow(g) && |payload| == g.words && Legal(g, Boot(g, payload), steps)
    ensures var s := Perform(g, Boot(g, payload), steps);
      && |s.payload| == g.words
      && (s.gate >= 1 && s.flag >= s.gate ==> forall w | 0 <= w < g.words :: s.payload[w] == Pattern(s.gate, w))
      && s.mismatches == 0
      && s.arrived + s.missed + (if s.host == Polling then 1 else 0) == s.gate
  {
    StridePositive(g);
    RunKeepsInv(g, Boot(g, payload), steps);
    var s := Perform(g, Boot(g, payload), steps);
    if s.gate >= 1 && s.flag >= s.gate {
      forall w | 0 <= w < g.words ensures s.payload[w] == Pattern(s.gate, w) {
        RungMeansComplete(g, s, w);
      }
    }
  }

  /** A checked word that still holds another gate's pattern counts a mismatch, and one that holds its own does not. */
  lemma StaleWordCounts(g: Grid, s: State, other: nat)
    requires Shape(g) && Enabled(g, s, Check) && s.payload[s.host.k] == Pattern(other, s.host.k)
    ensures Take(g, s, Check).mismatches == s.mismatches + (if other % WIDTH == s.gate % WIDTH then 0 else 1)
    ensures Take(g, s, Check).host == if other % WIDTH == s.gate % WIDTH then Checking(s.host.k + 1) else Idle
  {
    GatesDiffer(s.gate, other, s.host.k);
  }

  // ------------------------------------------------------------------ two blocks tear

  /** While block 0 works on the first gate: threads before t have arrived, those after have not begun,
      and word `late` (block 1's first) is as it was. */
  ghost predicate Block0At(g: Grid, s: State, payload: seq<bv32>, t: nat) {
    && Shape(g) && g.blocks >= 2 && g.words > g.threads && |payload| == g.words
    && |s.threads| == Stride(g) && t < |s.threads| && t <= g.threads && |s.payload| == g.words
    && s.kernel == 1 && s.gate == 1 && s.host == Polling && s.flag == 0 && s.mismatches == 0 && s.missed == 0
    && (forall u | 0 <= u < t :: s.threads[u].stage == Arrived)
    && s.threads[t].stage == Writing
    && (forall u | t < u < |s.threads| :: s.threads[u] == FRESH)
    && g.threads !in s.threads[t].pending
    && s.payload[g.threads] == payload[g.threads]
  }

  lemma NotTheLateWord(g: Grid, t: nat, i: nat)
    requires Shape(g) && g.blocks >= 2 && t < g.threads
    ensures NextWord(g, t, i) != g.threads && t / g.threads == 0
  {
    WideStride(g);
    if i > 0 { MulMono(1, i, Stride(g)); }
    DivUnique(t, g.threads, 0, t);
  }

  lemma WideStride(g: Grid)
    requires Shape(g) && g.blocks >= 2
    ensures Stride(g) >= 2 * g.threads
  {
    MulMono(2, g.blocks, g.threads);
  }

  lemma StoreOnce(g: Grid, payload: seq<bv32>, s: State, t: nat)
    requires t < g.threads && Block0At(g, s, payload, t) && Enabled(g, s, Store(t))
    ensures Block0At(g, Take(g, s, Store(t)), payload, t)
    ensures NextWord(g, t, Take(g, s, Store(t)).threads[t].stored) > NextWord(g, t, s.threads[t].stored)
  {
    NotTheLateWord(g, t, s.threads[t].stored);
    StridePositive(g);
    NextIsFurther(t, s.threads[t].stored, Stride(g));
  }

  lemma NextIsFurther(t: nat, i: nat, n: nat)
    requires n >= 1
    ensures t + (i + 1) * n > t + i * n
  {
  }

  lemma StoresDone(g: Grid, payload: seq<bv32>, steps: seq<Step>, t: nat) returns (more: seq<Step>)
    requires Shape(g) && |payload| == g.words && Legal(g, Boot(g, payload), steps)
    requires t < g.threads && Block0At(g, Perform(g, Boot(g, payload), steps), payload, t)
    ensures Legal(g, Boot(g, payload), more)
    ensures Block0At(g, Perform(g, Boot(g, payload), more), payload, t)
    ensures NextWord(g, t, Perform(g, Boot(g, payload), more).threads[t].stored) >= g.words
    decreases g.words - NextWord(g, t, Perform(g, Boot(g, payload), steps).threads[t].stored)
  {
    var s := Perform(g, Boot(g, payload), steps);
    if NextWord(g, t, s.threads[t].stored) >= g.words {
      more := steps;
    } else {
      Snoc(g, Boot(g, payload), steps, Store(t));
      StoreOnce(g, payload, s, t);
      more := StoresDone(g, payload, steps + [Store(t)], t);
    }
  }

  lemma Block0Arrives(g: Grid, payload: seq<bv32>, steps: seq<Step>, t: nat) returns (more: seq<Step>)
    requires Shape(g) && |payload| == g.words && Legal(g, Boot(g, payload), steps)
    requires t <= g.threads && Block0At(g, Perform(g, Boot(g, payload), steps), payload, t)
    ensures Legal(g, Boot(g, payload), more)
    ensures Block0At(g, Perform(g, Boot(g, payload), more), payload, g.threads)
    decreases g.threads - t
  {
    if t == g.threads {
      more := steps;
    } else {
      WideStride(g);
      more := StoresDone(g, payload, steps, t);
      Snoc(g, Boot(g, payload), more, FenceAndArrive(t));
      more := Block0Arrives(g, payload, more + [FenceAndArrive(t)], t + 1);
    }
  }

  /** The host reads on from word k until a word is wrong. */
  lemma CheckFinds(g: Grid, s0: State, steps: seq<Step>, bad: nat) returns (more: seq<Step>)
    requires Shape(g) && Legal(g, s0, steps)
    requires var s := Perform(g, s0, steps);
      s.host.Checking? && s.host.k <= bad < |s.payload| && s.payload[bad] != Pattern(s.gate, bad)
    ensures Legal(g, s0, more)
    ensures Perform(g, s0, more).mismatches == Perform(g, s0, steps).mismatches + 1
    ensures Perform(g, s0, more).missed == Perform(g, s0, steps).missed
    decreases bad - Perform(g, s0, steps).host.k
  {
    var s := Perform(g, s0, steps);
    Snoc(g, s0, steps, Check);
    more := steps + [Check];
    if s.payload[s.host.k] == Pattern(s.gate, s.host.k) {
      more := CheckFinds(g, s0, more, bad);
    }
  }

  /** With two or more blocks the barrier is not grid-wide: whenever the payload reaches past the first
      block and its first such word does not already hold the pattern, some run rings the bell over an
      unwritten word and the host counts a mismatch without having missed a gate. */
  lemma TwoBlocksTear(g: Grid, payload: seq<bv32>) returns (steps: seq<Step>)
    requires Shape(g) && g.blocks >= 2 && g.words > g.threads && |payload| == g.words
    requires payload[g.threads] != Pattern(1, g.threads)
    ensures Legal(g, Boot(g, payload), steps)
    ensures Perform(g, Boot(g, payload), steps).mismatches == 1 && Perform(g, Boot(g, payload), steps).missed == 0
  {
    var s0 := Boot(g, payload);
    WideStride(g);
    Snoc(g, s0, [], Launch);
    Snoc(g, s0, [] + [Launch], KernelStart);
    steps := [] + [Launch] + [KernelStart];
    steps := Block0Arrives(g, payload, steps, 0);
    steps := RingEarly(g, payload, steps);
    steps := CheckFinds(g, s0, steps, g.threads);
  }

  /** Some run over some payload shows the host a word that is not the one published. */
  ghost predicate CanTear(g: Grid)
    requires Shape(g)
  {
    exists payload: seq<bv32>, steps: seq<Step> :: Tears(g, payload, steps)
  }

  ghost predicate Tears(g: Grid, payload: seq<bv32>, steps: seq<Step>)
    requires Shape(g)
  {
    |payload| == g.words && Legal(g, Boot(g, payload), steps) && Perform(g, Boot(g, payload), steps).mismatches > 0
  }

  /** A grid can tear exactly when it has two or more blocks and more words than one block has threads. */
  lemma CanTearIff(g: Grid)
    requires Shape(g)
    ensures CanTear(g) <==> g.blocks >= 2 && g.words > g.threads
  {
    if Narrow(g) {
      forall payload: seq<bv32>, steps: seq<Step> ensures !Tears(g, payload, steps) {
        if |payload| == g.words && Legal(g, Boot(g, payload), steps) { FlagImpliesPayload(g, payload, steps); }
      }
    } else {
      var wrong := Pattern(1, g.threads) ^ 1;
      var payload := seq(g.words, i => wrong);
      var steps := TwoBlocksTear(g, payload);
      assert Tears(g, payload, steps);
    }
  }

  lemma RingEarly(g: Grid, payload: seq<bv32>, steps: seq<Step>) returns (more: seq<Step>)
    requires Shape(g) && |payload| == g.words && Legal(g, Boot(g, payload), steps)
    requires Block0At(g, Perform(g, Boot(g, payload), steps), payload, g.threads)
    ensures Legal(g, Boot(g, payload), more)
    ensures var s := Perform(g, Boot(g, payload), more);
      && s.host == Checking(0) && s.gate == 1 && s.mismatches == 0 && s.missed == Perform(g, Boot(g, payload), steps).missed
      && |s.payload| == g.words > g.threads && s.payload[g.threads] == payload[g.threads]
  {
    var s0 := Boot(g, payload);
    var s := Perform(g, s0, steps);
    assert Enabled(g, s, Pass(0)) by {
      forall u | 0 <= u < |s.threads| && SameBlock(g, 0, u) ensures s.threads[u].stage != Writing {
        DivUnique(0, g.threads, 0, 0);
        if u >= g.threads { DivAtLeastOne(u, g.threads); }
      }
    }
    Snoc(g, s0, steps, Pass(0));
    more := steps + [Pass(0)];
    Snoc(g, s0, more, Exit(0));
    more := more + [Exit(0)];
    Snoc(g, s0, more, Poll);
    more := more + [Poll];
  }

  lemma DivAtLeastOne(u: nat, n: nat)
    requires u >= n >= 1
    ensures u / n >= 1
  {
  }

  /** The probe's own launch is one block; two of the same size, on its zeroed 4096-word payload, tear. */
  lemma TwoBlocksOf256Tear() returns (steps: seq<Step>)
    ensures Legal(Grid(2, 256, 4096), Boot(Grid(2, 256, 4096), seq(4096, i => 0)), steps)
    ensures Perform(Grid(2, 256, 4096), Boot(Grid(2, 256, 4096), seq(4096, i => 0)), steps).mismatches == 1
  {
    var g := Grid(2, 256, 4096);
    assert Pattern(1, 256) != 0 by {
      assert (256 * SCRAMBLE) % WIDTH == 930722048 by { assert 256 * SCRAMBLE == 158 * WIDTH + 930722048; }
      LowIff(1, 256 * SCRAMBLE);
      XorCancels(Low(1), Low(256 * SCRAMBLE), Low(256 * SCRAMBLE));
    }
    steps := TwoBlocksTear(g, seq(4096, i => 0));
  }
}
