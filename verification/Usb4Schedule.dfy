/** The fixed first-light schedule of bench/usb4stream-bench.py: the transfer loops, the two mirrored
    schedules driving them, and what deadlock freedom means for its exchange sizes. */
module Usb4Schedule {
  import opened Duplex

  /** The schedule's constants, identical on both sides. */
  datatype Params = Params(
    handshake: nat, warmupIters: nat, warmupBytes: nat,
    rttSizes: seq<nat>, rttIters: nat,
    exchangeSizes: seq<nat>, exchangeIters: nat,
    throughputBytes: nat, chunk: nat)

  const FIRST_LIGHT := Params(64, 50, 4096, [64, 4096, 16384, 65536], 500, [8192, 16384, 65536], 500,
                              256 * 1024 * 1024, 1024 * 1024)

  /** One buffer long enough for every transfer, and a throughput total that is whole chunks. */
  ghost predicate Sound(p: Params, payload: seq<Byte>) {
    && p.handshake <= |payload| && p.warmupBytes <= |payload|
    && (forall s | s in p.rttSizes :: s <= |payload|)
    && (forall s | s in p.exchangeSizes :: s <= |payload|)
    && 0 < p.chunk <= |payload| && p.throughputBytes % p.chunk == 0
  }

  // ------------------------------------------------------------------ the schedule as phases

  function Repeat<T>(xs: seq<T>, k: nat): seq<T> {
    if k == 0 then [] else xs + Repeat(xs, k - 1)
  }

  function RoundTrip(d: seq<Byte>): seq<Phase> { [AtoB(d), BtoA(d)] }

  function Take(payload: seq<Byte>, n: nat): seq<Byte> {
    if n <= |payload| then payload[..n] else payload
  }

  function RttPhases(sizes: seq<nat>, iters: nat, payload: seq<Byte>): seq<Phase> {
    if sizes == [] then [] else
      Repeat(RoundTrip(Take(payload, sizes[0])), iters) + RttPhases(sizes[1..], iters, payload)
  }

  function ExchangePhases(sizes: seq<nat>, iters: nat, payload: seq<Byte>): seq<Phase> {
    if sizes == [] then [] else
      Repeat([Exchange(Take(payload, sizes[0]), Take(payload, sizes[0]))], iters)
      + ExchangePhases(sizes[1..], iters, payload)
  }

  function Bulk(p: Params, payload: seq<Byte>): seq<Byte>
    requires p.chunk > 0
  {
    Repeat(Take(payload, p.chunk), p.throughputBytes / p.chunk)
  }

  function Schedule(p: Params, payload: seq<Byte>): seq<Phase>
    requires p.chunk > 0
  {
    RoundTrip(Take(payload, p.handshake))
    + (Repeat(RoundTrip(Take(payload, p.warmupBytes)), p.warmupIters)
    + (RttPhases(p.rttSizes, p.rttIters, payload)
    + (ExchangePhases(p.exchangeSizes, p.exchangeIters, payload)
    + (RoundTrip(Bulk(p, payload))
    + RoundTrip(Take(payload, p.handshake))))))
  }

  // ------------------------------------------------------------------ one side's stream

  /** What a stretch of code did to a stream: t0/i0 are the actions performed and the bytes still to
      come before it, t1/i1 after it. It did all of p, or the peer closed inside p and it did a
      proper prefix of p. */
  ghost predicate Performed(t0: Program, i0: seq<Byte>, t1: Program, i1: seq<Byte>, p: Program, ok: bool) {
    && (ok <==> Wants(p) <= |i0|)
    && (ok ==> t1 == t0 + p && i1 == i0[Wants(p)..])
    && (!ok ==> t0 <= t1 <= t0 + p && |t1| < |t0 + p| && i1 == [])
  }

  lemma Sequenced(t0: Program, i0: seq<Byte>, t1: Program, i1: seq<Byte>, t2: Program, i2: seq<Byte>,
                  p: Program, q: Program, ok: bool)
    requires Performed(t0, i0, t1, i1, p, true) && Performed(t1, i1, t2, i2, q, ok)
    ensures Performed(t0, i0, t2, i2, p + q, ok)
  {
    AppendLaws(p, q);
    Associative(t0, p, q);
  }

  lemma CutShort(t0: Program, i0: seq<Byte>, t1: Program, i1: seq<Byte>, p: Program, q: Program)
    requires Performed(t0, i0, t1, i1, p, false)
    ensures Performed(t0, i0, t1, i1, p + q, false)
  {
    AppendLaws(p, q);
    Associative(t0, p, q);
  }

  class Stream {
    /** Every byte the peer will deliver before it closes. */
    var inbox: seq<Byte>
    /** Every byte moved so far, in order. */
    ghost var trace: Program

    constructor (inbox: seq<Byte>)
      ensures this.inbox == inbox && trace == []
    {
      this.inbox := inbox;
      trace := [];
    }

    /** One write call: the kernel takes any non-empty part of the slice. */
    method OsWrite(slice: seq<Byte>) returns (n: nat)
      requires slice != []
      modifies `trace
      ensures 1 <= n <= |slice|
      ensures trace == old(trace) + Puts(slice[..n])
    {
      n :| 1 <= n <= |slice|;
      trace := trace + Puts(slice[..n]);
    }

    /** One read call: any non-empty part of what the peer still delivers, or nothing once it closed. */
    method OsRead(max: nat) returns (data: seq<Byte>)
      requires max > 0
      modifies this
      ensures data + inbox == old(inbox) && |data| <= max
      ensures data == [] <==> old(inbox) == []
      ensures trace == old(trace) + Gets(|data|)
    {
      if inbox == [] {
        data := [];
      } else {
        var k :| 1 <= k <= max && k <= |inbox|;
        data, inbox := inbox[..k], inbox[k..];
      }
      trace := trace + Gets(|data|);
    }

    method WriteAll(buf: seq<Byte>, chunk: nat)
      requires chunk > 0
      modifies `trace
      ensures Performed(old(trace), inbox, trace, inbox, Puts(buf), true)
    {
      PutsLaws(buf);
      var off, total := 0, |buf|;
      while off < total
        invariant off <= total
        invariant trace == old(trace) + Puts(buf[..off])
      {
        var slice := if off + chunk <= total then buf[off..off + chunk] else buf[off..];
        var n := OsWrite(slice);
        assert Puts(buf[..off]) + Puts(slice[..n]) == Puts(buf[..off + n]);
        Associative(old(trace), Puts(buf[..off]), Puts(slice[..n]));
        off := off + n;
      }
      assert buf[..off] == buf;
    }

    method ReadExact(size: nat) returns (ok: bool)
      modifies this
      ensures Performed(old(trace), old(inbox), trace, inbox, Gets(size), ok)
    {
      GetsLaws(size);
      var remaining := size;
      while remaining > 0
        invariant 0 <= remaining <= size
        invariant size - remaining <= |old(inbox)| && inbox == old(inbox)[size - remaining..]
        invariant trace == old(trace) + Gets(size - remaining)
      {
        var chunk := OsRead(remaining);
        assert Gets(size - remaining) + Gets(|chunk|) == Gets(size - remaining + |chunk|);
        Associative(old(trace), Gets(size - remaining), Gets(|chunk|));
        if chunk == [] {
          assert Gets(size) == Gets(size - remaining) + Gets(remaining);
          return false;
        }
        remaining := remaining - |chunk|;
      }
      return true;
    }
  }

  // ------------------------------------------------------------------ the two schedules

  function WriteRead(d: seq<Byte>): Program { Puts(d) + Gets(|d|) }
  function ReadWrite(d: seq<Byte>): Program { Gets(|d|) + Puts(d) }

  function PerSize(sizes: seq<nat>, iters: nat, payload: seq<Byte>, answer: bool): Program {
    if sizes == [] then [] else
      Repeat(Round(Take(payload, sizes[0]), answer), iters) + PerSize(sizes[1..], iters, payload, answer)
  }

  /** What each side performs, transfer by transfer. */
  function CoordinatorProgram(p: Params, payload: seq<Byte>): Program
    requires p.chunk > 0
  {
    WriteRead(Take(payload, p.handshake))
    + (Repeat(WriteRead(Take(payload, p.warmupBytes)), p.warmupIters)
    + (PerSize(p.rttSizes, p.rttIters, payload, false)
    + (PerSize(p.exchangeSizes, p.exchangeIters, payload, false)
    + (Repeat(Puts(Take(payload, p.chunk)), p.throughputBytes / p.chunk)
    + (Gets(p.throughputBytes)
    + WriteRead(Take(payload, p.handshake)))))))
  }

  function PeerProgram(p: Params, payload: seq<Byte>): Program
    requires p.chunk > 0
  {
    ReadWrite(Take(payload, p.handshake))
    + (Repeat(ReadWrite(Take(payload, p.warmupBytes)), p.warmupIters)
    + (PerSize(p.rttSizes, p.rttIters, payload, true)
    + (PerSize(p.exchangeSizes, p.exchangeIters, payload, false)
    + (Gets(p.throughputBytes)
    + (Repeat(Puts(Take(payload, p.chunk)), p.throughputBytes / p.chunk)
    + ReadWrite(Take(payload, p.handshake)))))))
  }

  lemma RepeatSnoc<T>(xs: seq<T>, k: nat)
    ensures Repeat(xs, k + 1) == Repeat(xs, k) + xs
  {
    if k == 0 {
      assert Repeat(xs, 1) == xs + [];
    } else {
      RepeatSnoc(xs, k - 1);
      Associative(xs, Repeat(xs, k - 1), xs);
    }
  }

  lemma RepeatSplit<T>(xs: seq<T>, i: nat, k: nat)
    requires i < k
    ensures Repeat(xs, k) == (Repeat(xs, i) + xs) + Repeat(xs, k - i - 1)
  {
    if i == 0 {
      assert [] + xs == xs;
    } else {
      RepeatSplit(xs, i - 1, k - 1);
      Associative(xs, Repeat(xs, i - 1), xs);
      Associative(xs, Repeat(xs, i - 1) + xs, Repeat(xs, k - i - 1));
    }
  }

  function Round(d: seq<Byte>, answer: bool): Program {
    if answer then ReadWrite(d) else WriteRead(d)
  }

  /** Write d and read as many bytes back, or the other way round to answer. */
  method OneRound(st: Stream, d: seq<Byte>, chunk: nat, answer: bool) returns (ok: bool)
    requires chunk > 0
    modifies st
    ensures Performed(old(st.trace), old(st.inbox), st.trace, st.inbox, Round(d, answer), ok)
  {
    ghost var t0, i0 := st.trace, st.inbox;
    if answer {
      ok := st.ReadExact(|d|);
      Then(t0, i0, st.trace, st.inbox, Gets(|d|), Puts(d), ok);
      if !ok { return; }
      st.WriteAll(d, chunk);
    } else {
      st.WriteAll(d, chunk);
      Then(t0, i0, st.trace, st.inbox, Puts(d), Gets(|d|), true);
      ok := st.ReadExact(|d|);
    }
  }

  /** iters rounds of size bytes. */
  method Rounds(st: Stream, payload: seq<Byte>, size: nat, iters: nat, chunk: nat, answer: bool) returns (ok: bool)
    requires size <= |payload| && chunk > 0
    modifies st
    ensures Performed(old(st.trace), old(st.inbox), st.trace, st.inbox, Repeat(Round(payload[..size], answer), iters), ok)
  {
    ghost var t0, i0 := st.trace, st.inbox;
    ghost var round := Round(payload[..size], answer);
    for i := 0 to iters
      invariant Performed(t0, i0, st.trace, st.inbox, Repeat(round, i), true)
    {
      ghost var t1, i1 := st.trace, st.inbox;
      ok := OneRound(st, payload[..size], chunk, answer);
      Sequenced(t0, i0, t1, i1, st.trace, st.inbox, Repeat(round, i), round, ok);
      if !ok {
        RepeatSplit(round, i, iters);
        CutShort(t0, i0, st.trace, st.inbox, Repeat(round, i) + round, Repeat(round, iters - i - 1));
        return;
      }
      RepeatSnoc(round, i);
    }
    ok := true;
  }

  lemma PerSizeSplit(sizes: seq<nat>, i: nat, iters: nat, payload: seq<Byte>, answer: bool)
    requires i < |sizes|
    ensures PerSize(sizes, iters, payload, answer)
         == (PerSize(sizes[..i], iters, payload, answer) + PerSize(sizes[i..i + 1], iters, payload, answer))
            + PerSize(sizes[i + 1..], iters, payload, answer)
    ensures PerSize(sizes[..i + 1], iters, payload, answer)
         == PerSize(sizes[..i], iters, payload, answer) + PerSize(sizes[i..i + 1], iters, payload, answer)
  {
    PerSizeAppend(sizes[..i], sizes[i..i + 1], iters, payload, answer);
    PerSizeAppend(sizes[..i + 1], sizes[i + 1..], iters, payload, answer);
    assert sizes[..i] + sizes[i..i + 1] == sizes[..i + 1];
    assert sizes[..i + 1] + sizes[i + 1..] == sizes;
  }

  function Batches(sizes: seq<nat>, iters: nat, payload: seq<Byte>, answer: bool): seq<Program> {
    seq(|sizes|, i requires 0 <= i < |sizes| => Repeat(Round(Take(payload, sizes[i]), answer), iters))
  }

  lemma {:induction false} PerSizeIsFlat(sizes: seq<nat>, iters: nat, payload: seq<Byte>, answer: bool)
    ensures PerSize(sizes, iters, payload, answer) == Flat(Batches(sizes, iters, payload, answer))
  {
    if sizes != [] {
      PerSizeIsFlat(sizes[1..], iters, payload, answer);
      assert Batches(sizes, iters, payload, answer)[1..] == Batches(sizes[1..], iters, payload, answer);
    }
  }

  lemma BatchesAppend(xs: seq<nat>, ys: seq<nat>, iters: nat, payload: seq<Byte>, answer: bool)
    ensures Batches(xs + ys, iters, payload, answer) == Batches(xs, iters, payload, answer) + Batches(ys, iters, payload, answer)
  {
  }

  lemma PerSizeAppend(xs: seq<nat>, ys: seq<nat>, iters: nat, payload: seq<Byte>, answer: bool)
    ensures PerSize(xs + ys, iters, payload, answer)
         == PerSize(xs, iters, payload, answer) + PerSize(ys, iters, payload, answer)
  {
    PerSizeIsFlat(xs, iters, payload, answer);
    PerSizeIsFlat(ys, iters, payload, answer);
    PerSizeIsFlat(xs + ys, iters, payload, answer);
    BatchesAppend(xs, ys, iters, payload, answer);
    FlatAppend(Batches(xs, iters, payload, answer), Batches(ys, iters, payload, answer));
  }

  /** The loop over sizes around the rounds. */
  method RoundsPerSize(st: Stream, payload: seq<Byte>, sizes: seq<nat>, iters: nat, chunk: nat, answer: bool)
    returns (ok: bool)
    requires (forall s | s in sizes :: s <= |payload|) && chunk > 0
    modifies st
    ensures Performed(old(st.trace), old(st.inbox), st.trace, st.inbox, PerSize(sizes, iters, payload, answer), ok)
  {
    ghost var t0, i0 := st.trace, st.inbox;
    for i := 0 to |sizes|
      invariant Performed(t0, i0, st.trace, st.inbox, PerSize(sizes[..i], iters, payload, answer), true)
    {
      ghost var t1, i1 := st.trace, st.inbox;
      assert sizes[i] in sizes;
      ok := Rounds(st, payload, sizes[i], iters, chunk, answer);
      ghost var one := PerSize(sizes[i..i + 1], iters, payload, answer);
      assert sizes[i..i + 1][1..] == [];
      assert Take(payload, sizes[i]) == payload[..sizes[i]];
      ghost var batch := Repeat(Round(payload[..sizes[i]], answer), iters);
      assert one == batch by { assert one == batch + []; assert batch + [] == batch; }
      Sequenced(t0, i0, t1, i1, st.trace, st.inbox, PerSize(sizes[..i], iters, payload, answer), one, ok);
      PerSizeSplit(sizes, i, iters, payload, answer);
      if !ok {
        CutShort(t0, i0, st.trace, st.inbox, PerSize(sizes[..i], iters, payload, answer) + one,
                 PerSize(sizes[i + 1..], iters, payload, answer));
        return;
      }
    }
    assert sizes[..|sizes|] == sizes;
    ok := true;
  }

  /** The throughput sender: whole chunks, one write_all each. */
  method SendChunks(st: Stream, payload: seq<Byte>, chunk: nat, chunks: nat)
    requires 0 < chunk <= |payload|
    modifies st
    ensures Performed(old(st.trace), old(st.inbox), st.trace, st.inbox, Repeat(Puts(payload[..chunk]), chunks), true)
  {
    ghost var t0, i0 := st.trace, st.inbox;
    for i := 0 to chunks
      invariant Performed(t0, i0, st.trace, st.inbox, Repeat(Puts(payload[..chunk]), i), true)
    {
      ghost var t1, i1 := st.trace, st.inbox;
      st.WriteAll(payload[..chunk], chunk);
      Sequenced(t0, i0, t1, i1, st.trace, st.inbox, Repeat(Puts(payload[..chunk]), i), Puts(payload[..chunk]), true);
      RepeatSnoc(Puts(payload[..chunk]), i);
    }
  }

  /** Each stage either completes and hands over to the rest, or ends the schedule. */
  lemma Then(t0: Program, i0: seq<Byte>, t1: Program, i1: seq<Byte>, p: Program, q: Program, ok: bool)
    requires Performed(t0, i0, t1, i1, p, ok)
    ensures !ok ==> Performed(t0, i0, t1, i1, p + q, false)
    ensures ok ==> forall t2, i2, r | Performed(t1, i1, t2, i2, q, r) :: Performed(t0, i0, t2, i2, p + q, r)
  {
    if ok {
      forall t2, i2, r | Performed(t1, i1, t2, i2, q, r) ensures Performed(t0, i0, t2, i2, p + q, r) {
        Sequenced(t0, i0, t1, i1, t2, i2, p, q, r);
      }
    } else {
      CutShort(t0, i0, t1, i1, p, q);
    }
  }

  method CoordinatorThroughput(st: Stream, p: Params, payload: seq<Byte>) returns (ok: bool)
    requires Sound(p, payload)
    modifies st
    ensures Performed(old(st.trace), old(st.inbox), st.trace, st.inbox,
                      Repeat(Puts(Take(payload, p.chunk)), p.throughputBytes / p.chunk)
                      + (Gets(p.throughputBytes) + WriteRead(Take(payload, p.handshake))), ok)
  {
    ghost var t0, i0 := st.trace, st.inbox;
    ghost var last := WriteRead(Take(payload, p.handshake));
    SendChunks(st, payload, p.chunk, p.throughputBytes / p.chunk);
    Then(t0, i0, st.trace, st.inbox, Repeat(Puts(payload[..p.chunk]), p.throughputBytes / p.chunk),
         Gets(p.throughputBytes) + last, true);
    ghost var t1, i1 := st.trace, st.inbox;
    ok := st.ReadExact(p.throughputBytes);
    Then(t1, i1, st.trace, st.inbox, Gets(p.throughputBytes), last, ok);
    if !ok { return; }
    ok := Rounds(st, payload, p.handshake, 1, p.chunk, false);
    assert Repeat(last, 1) == last + [] == last;
  }

  method PeerThroughput(st: Stream, p: Params, payload: seq<Byte>) returns (ok: bool)
    requires Sound(p, payload)
    modifies st
    ensures Performed(old(st.trace), old(st.inbox), st.trace, st.inbox,
                      Gets(p.throughputBytes)
                      + (Repeat(Puts(Take(payload, p.chunk)), p.throughputBytes / p.chunk)
                      + ReadWrite(Take(payload, p.handshake))), ok)
  {
    ghost var t0, i0 := st.trace, st.inbox;
    ghost var last := ReadWrite(Take(payload, p.handshake));
    ghost var bulk := Repeat(Puts(payload[..p.chunk]), p.throughputBytes / p.chunk);
    ok := st.ReadExact(p.throughputBytes);
    Then(t0, i0, st.trace, st.inbox, Gets(p.throughputBytes), bulk + last, ok);
    if !ok { return; }
    ghost var t1, i1 := st.trace, st.inbox;
    SendChunks(st, payload, p.chunk, p.throughputBytes / p.chunk);
    Then(t1, i1, st.trace, st.inbox, bulk, last, true);
    ok := Rounds(st, payload, p.handshake, 1, p.chunk, true);
    assert Repeat(last, 1) == last + [] == last;
  }

  /** The coordinator's schedule performs exactly its side of the schedule's phases, or stops inside
      it when the peer closes early. */
  method RunCoordinatorSchedule(st: Stream, p: Params, payload: seq<Byte>) returns (ok: bool)
    requires Sound(p, payload)
    modifies st
    ensures Performed(old(st.trace), old(st.inbox), st.trace, st.inbox, SideA(Schedule(p, payload)), ok)
  {
    ScheduleSides(p, payload);
    ghost var h := WriteRead(Take(payload, p.handshake));
    ghost var w := Repeat(WriteRead(Take(payload, p.warmupBytes)), p.warmupIters);
    ghost var r := PerSize(p.rttSizes, p.rttIters, payload, false);
    ghost var x := PerSize(p.exchangeSizes, p.exchangeIters, payload, false);
    ghost var z := Repeat(Puts(Take(payload, p.chunk)), p.throughputBytes / p.chunk)
                   + (Gets(p.throughputBytes) + WriteRead(Take(payload, p.handshake)));
    ghost var t0, i0 := st.trace, st.inbox;
    ok := Rounds(st, payload, p.handshake, 1, p.chunk, false);
    assert Repeat(h, 1) == h + [] == h;
    Then(t0, i0, st.trace, st.inbox, h, w + (r + (x + z)), ok);
    if !ok { return; }
    ghost var t1, i1 := st.trace, st.inbox;
    ok := Rounds(st, payload, p.warmupBytes, p.warmupIters, p.chunk, false);
    Then(t1, i1, st.trace, st.inbox, w, r + (x + z), ok);
    if !ok { return; }
    ghost var t2, i2 := st.trace, st.inbox;
    ok := RoundsPerSize(st, payload, p.rttSizes, p.rttIters, p.chunk, false);
    Then(t2, i2, st.trace, st.inbox, r, x + z, ok);
    if !ok { return; }
    ghost var t3, i3 := st.trace, st.inbox;
    ok := RoundsPerSize(st, payload, p.exchangeSizes, p.exchangeIters, p.chunk, false);
    Then(t3, i3, st.trace, st.inbox, x, z, ok);
    if !ok { return; }
    ok := CoordinatorThroughput(st, p, payload);
  }

  /** The mirror: every phase answers, except the exchange, which writes first on both sides. */
  method RunPeerSchedule(st: Stream, p: Params, payload: seq<Byte>) returns (ok: bool)
    requires Sound(p, payload)
    modifies st
    ensures Performed(old(st.trace), old(st.inbox), st.trace, st.inbox, SideB(Schedule(p, payload)), ok)
  {
    ScheduleSides(p, payload);
    ghost var h := ReadWrite(Take(payload, p.handshake));
    ghost var w := Repeat(ReadWrite(Take(payload, p.warmupBytes)), p.warmupIters);
    ghost var r := PerSize(p.rttSizes, p.rttIters, payload, true);
    ghost var x := PerSize(p.exchangeSizes, p.exchangeIters, payload, false);
    ghost var z := Gets(p.throughputBytes)
                   + (Repeat(Puts(Take(payload, p.chunk)), p.throughputBytes / p.chunk)
                   + ReadWrite(Take(payload, p.handshake)));
    ghost var t0, i0 := st.trace, st.inbox;
    ok := Rounds(st, payload, p.handshake, 1, p.chunk, true);
    assert Repeat(h, 1) == h + [] == h;
    Then(t0, i0, st.trace, st.inbox, h, w + (r + (x + z)), ok);
    if !ok { return; }
    ghost var t1, i1 := st.trace, st.inbox;
    ok := Rounds(st, payload, p.warmupBytes, p.warmupIters, p.chunk, true);
    Then(t1, i1, st.trace, st.inbox, w, r + (x + z), ok);
    if !ok { return; }
    ghost var t2, i2 := st.trace, st.inbox;
    ok := RoundsPerSize(st, payload, p.rttSizes, p.rttIters, p.chunk, true);
    Then(t2, i2, st.trace, st.inbox, r, x + z, ok);
    if !ok { return; }
    ghost var t3, i3 := st.trace, st.inbox;
    ok := RoundsPerSize(st, payload, p.exchangeSizes, p.exchangeIters, p.chunk, false);
    Then(t3, i3, st.trace, st.inbox, x, z, ok);
    if !ok { return; }
    ok := PeerThroughput(st, p, payload);
  }

  // ------------------------------------------------------------------ programs are the phases' sides

  lemma {:induction false} RepeatSides(ps: seq<Phase>, k: nat)
    ensures SideA(Repeat(ps, k)) == Repeat(SideA(ps), k)
    ensures SideB(Repeat(ps, k)) == Repeat(SideB(ps), k)
  {
    if k > 0 {
      RepeatSides(ps, k - 1);
      SidesAppend(ps, Repeat(ps, k - 1));
    }
  }

  lemma RoundTripSides(d: seq<Byte>)
    ensures SideA(RoundTrip(d)) == WriteRead(d) && SideB(RoundTrip(d)) == ReadWrite(d)
  {
    var rt := RoundTrip(d);
    assert rt[1..] == [BtoA(d)] && rt[1..][1..] == [];
    assert SideA(rt[1..]) == Gets(|d|) + [] == Gets(|d|);
    assert SideB(rt[1..]) == Puts(d) + [] == Puts(d);
  }

  lemma ExchangeSides(d: seq<Byte>)
    ensures SideA([Exchange(d, d)]) == WriteRead(d) && SideB([Exchange(d, d)]) == WriteRead(d)
  {
    assert [Exchange(d, d)][1..] == [];
    assert WriteRead(d) + [] == WriteRead(d);
  }

  lemma {:induction false} RttSides(sizes: seq<nat>, iters: nat, payload: seq<Byte>)
    ensures SideA(RttPhases(sizes, iters, payload)) == PerSize(sizes, iters, payload, false)
    ensures SideB(RttPhases(sizes, iters, payload)) == PerSize(sizes, iters, payload, true)
  {
    if sizes != [] {
      var d := Take(payload, sizes[0]);
      RttSides(sizes[1..], iters, payload);
      RoundTripSides(d);
      RepeatSides(RoundTrip(d), iters);
      SidesAppend(Repeat(RoundTrip(d), iters), RttPhases(sizes[1..], iters, payload));
    }
  }

  lemma {:induction false} ExchangePhasesSides(sizes: seq<nat>, iters: nat, payload: seq<Byte>)
    ensures SideA(ExchangePhases(sizes, iters, payload)) == PerSize(sizes, iters, payload, false)
    ensures SideB(ExchangePhases(sizes, iters, payload)) == PerSize(sizes, iters, payload, false)
  {
    if sizes != [] {
      var d := Take(payload, sizes[0]);
      ExchangePhasesSides(sizes[1..], iters, payload);
      ExchangeSides(d);
      RepeatSides([Exchange(d, d)], iters);
      SidesAppend(Repeat([Exchange(d, d)], iters), ExchangePhases(sizes[1..], iters, payload));
    }
  }

  lemma {:induction false} PutsRepeat(d: seq<Byte>, k: nat)
    ensures Puts(Repeat(d, k)) == Repeat(Puts(d), k)
    ensures |Repeat(d, k)| == |d| * k
  {
    if k > 0 {
      PutsRepeat(d, k - 1);
      assert Puts(d + Repeat(d, k - 1)) == Puts(d) + Puts(Repeat(d, k - 1));
      assert |d| * k == |d| + |d| * (k - 1);
    }
  }

  lemma BulkSides(p: Params, payload: seq<Byte>)
    requires Sound(p, payload)
    ensures SideA(RoundTrip(Bulk(p, payload)))
         == Repeat(Puts(Take(payload, p.chunk)), p.throughputBytes / p.chunk) + Gets(p.throughputBytes)
    ensures SideB(RoundTrip(Bulk(p, payload)))
         == Gets(p.throughputBytes) + Repeat(Puts(Take(payload, p.chunk)), p.throughputBytes / p.chunk)
  {
    RoundTripSides(Bulk(p, payload));
    PutsRepeat(Take(payload, p.chunk), p.throughputBytes / p.chunk);
    assert p.throughputBytes == p.chunk * (p.throughputBytes / p.chunk);
  }

  lemma SixSides(h: seq<Phase>, w: seq<Phase>, r: seq<Phase>, x: seq<Phase>, u: seq<Phase>, e: seq<Phase>)
    ensures SideA(h + (w + (r + (x + (u + e))))) == SideA(h) + (SideA(w) + (SideA(r) + (SideA(x) + (SideA(u) + SideA(e)))))
    ensures SideB(h + (w + (r + (x + (u + e))))) == SideB(h) + (SideB(w) + (SideB(r) + (SideB(x) + (SideB(u) + SideB(e)))))
  {
    SidesAppend(u, e);
    SidesAppend(x, u + e);
    SidesAppend(r, x + (u + e));
    SidesAppend(w, r + (x + (u + e)));
    SidesAppend(h, w + (r + (x + (u + e))));
  }

  lemma ScheduleSides(p: Params, payload: seq<Byte>)
    requires Sound(p, payload)
    ensures SideA(Schedule(p, payload)) == CoordinatorProgram(p, payload)
    ensures SideB(Schedule(p, payload)) == PeerProgram(p, payload)
  {
    var hs, bulk := RoundTrip(Take(payload, p.handshake)), RoundTrip(Bulk(p, payload));
    var warm := RoundTrip(Take(payload, p.warmupBytes));
    var w := Repeat(warm, p.warmupIters);
    var r := RttPhases(p.rttSizes, p.rttIters, payload);
    var x := ExchangePhases(p.exchangeSizes, p.exchangeIters, payload);
    RoundTripSides(Take(payload, p.handshake));
    RoundTripSides(Take(payload, p.warmupBytes));
    RepeatSides(warm, p.warmupIters);
    RttSides(p.rttSizes, p.rttIters, payload);
    ExchangePhasesSides(p.exchangeSizes, p.exchangeIters, payload);
    BulkSides(p, payload);
    SixSides(hs, w, r, x, bulk, hs);
    var c := Repeat(Puts(Take(payload, p.chunk)), p.throughputBytes / p.chunk);
    Associative(c, Gets(p.throughputBytes), WriteRead(Take(payload, p.handshake)));
    Associative(Gets(p.throughputBytes), c, ReadWrite(Take(payload, p.handshake)));
  }

  // ------------------------------------------------------------------ which capacities are safe

  lemma FitAppend(ps: seq<Phase>, qs: seq<Phase>, cap: nat)
    ensures AllFit(ps + qs, cap) <==> AllFit(ps, cap) && AllFit(qs, cap)
  {
    if AllFit(ps + qs, cap) {
      forall i | 0 <= i < |ps| ensures Fits(ps[i], cap) { assert ps[i] == (ps + qs)[i]; }
      forall i | 0 <= i < |qs| ensures Fits(qs[i], cap) { assert qs[i] == (ps + qs)[|ps| + i]; }
    }
  }

  lemma {:induction false} FitRepeat(ps: seq<Phase>, k: nat, cap: nat)
    ensures AllFit(Repeat(ps, k), cap) <==> k == 0 || AllFit(ps, cap)
  {
    if k > 0 {
      FitRepeat(ps, k - 1, cap);
      FitAppend(ps, Repeat(ps, k - 1), cap);
    }
  }

  lemma {:induction false} FitRtt(sizes: seq<nat>, iters: nat, payload: seq<Byte>, cap: nat)
    ensures AllFit(RttPhases(sizes, iters, payload), cap)
  {
    if sizes != [] {
      var d := Take(payload, sizes[0]);
      FitRtt(sizes[1..], iters, payload, cap);
      FitRepeat(RoundTrip(d), iters, cap);
      FitAppend(Repeat(RoundTrip(d), iters), RttPhases(sizes[1..], iters, payload), cap);
    }
  }

  lemma {:induction false} FitExchanges(sizes: seq<nat>, iters: nat, payload: seq<Byte>, cap: nat)
    requires iters > 0 && forall s | s in sizes :: s <= |payload|
    ensures AllFit(ExchangePhases(sizes, iters, payload), cap) <==> forall s | s in sizes :: s <= cap
  {
    if sizes != [] {
      var d := Take(payload, sizes[0]);
      var rest := sizes[1..];
      assert sizes == [sizes[0]] + rest && sizes[0] in sizes;
      assert forall s | s in rest :: s in sizes;
      FitExchanges(rest, iters, payload, cap);
      var one := [Exchange(d, d)];
      FitRepeat(one, iters, cap);
      assert AllFit(one, cap) <==> Fits(one[0], cap);
      FitAppend(Repeat([Exchange(d, d)], iters), ExchangePhases(rest, iters, payload), cap);
    }
  }

  lemma FitSchedule(p: Params, payload: seq<Byte>, cap: nat)
    requires Sound(p, payload) && p.exchangeIters > 0
    ensures AllFit(Schedule(p, payload), cap) <==> forall s | s in p.exchangeSizes :: s <= cap
  {
    var hs, bulk := RoundTrip(Take(payload, p.handshake)), RoundTrip(Bulk(p, payload));
    var warm := RoundTrip(Take(payload, p.warmupBytes));
    var w := Repeat(warm, p.warmupIters);
    var r := RttPhases(p.rttSizes, p.rttIters, payload);
    var x := ExchangePhases(p.exchangeSizes, p.exchangeIters, payload);
    FitRepeat(warm, p.warmupIters, cap);
    FitRtt(p.rttSizes, p.rttIters, payload, cap);
    FitExchanges(p.exchangeSizes, p.exchangeIters, payload, cap);
    FitAppend(bulk, hs, cap);
    FitAppend(x, bulk + hs, cap);
    FitAppend(r, x + (bulk + hs), cap);
    FitAppend(w, r + (x + (bulk + hs)), cap);
    FitAppend(hs, w + (r + (x + (bulk + hs))), cap);
  }

  /** For any constants: the two schedules can never jam exactly when the pipe holds the largest
      exchange. */
  lemma ScheduleNeverSticksIff(p: Params, payload: seq<Byte>, cap: nat)
    requires cap >= 1 && Sound(p, payload) && p.exchangeIters > 0
    ensures (forall s | s in p.exchangeSizes :: s <= cap)
            <==> forall t | Reaches(cap, Opening(Schedule(p, payload)), t) :: !Stuck(cap, t)
  {
    FitSchedule(p, payload, cap);
    NeverSticksIffAllFit(Schedule(p, payload), cap);
  }

  /** The bench's own constants: 64 KiB per direction is enough, and one byte less is not. */
  lemma FirstLightNeedsExactly64KiB(payload: seq<Byte>, cap: nat)
    requires cap >= 1 && |payload| >= FIRST_LIGHT.chunk
    ensures cap >= 65536 <==> forall t | Reaches(cap, Opening(Schedule(FIRST_LIGHT, payload)), t) :: !Stuck(cap, t)
  {
    var sizes := FIRST_LIGHT.exchangeSizes;
    assert sizes[2] in sizes;
    assert forall s | s in sizes :: s <= 65536;
    assert FIRST_LIGHT.throughputBytes % FIRST_LIGHT.chunk == 0;
    assert Sound(FIRST_LIGHT, payload);
    ScheduleNeverSticksIff(FIRST_LIGHT, payload, cap);
  }

  /** Every run of a schedule whose exchanges fit ends, with each side holding the other's bytes. */
  lemma ScheduleRunsComplete(p: Params, payload: seq<Byte>, cap: nat, tr: seq<Net>)
    requires cap >= 1 && Sound(p, payload) && p.exchangeIters > 0
    requires forall s | s in p.exchangeSizes :: s <= cap
    requires IsRun(cap, tr) && tr[0] == Opening(Schedule(p, payload))
    ensures |tr| - 1 <= |CoordinatorProgram(p, payload)| + |PeerProgram(p, payload)|
    ensures (forall t :: !Step(cap, Last(tr), t)) ==>
              && Finished(Last(tr)) && Last(tr).ab == [] && Last(tr).ba == []
              && Last(tr).gotB == Payload(CoordinatorProgram(p, payload))
              && Last(tr).gotA == Payload(PeerProgram(p, payload))
  {
    FitSchedule(p, payload, cap);
    ScheduleSides(p, payload);
    EveryRunCompletes(Schedule(p, payload), cap, tr);
  }

  // ------------------------------------------------------------------ the buffer

  /** The buffer: the magic marker repeated past the longest transfer and cut there. */
  function PayloadBuffer(magic: seq<Byte>, p: Params): seq<Byte>
    requires magic != []
  {
    var top := MaxOf(p.rttSizes, if p.handshake > p.chunk then p.handshake else p.chunk);
    Take(Repeat(magic, p.chunk / |magic| + 1), top)
  }

  function MaxOf(xs: seq<nat>, least: nat): (m: nat)
    ensures m >= least && forall x | x in xs :: x <= m
    ensures m == least || m in xs
  {
    if xs == [] then least else
      var rest := MaxOf(xs[1..], least);
      assert xs == [xs[0]] + xs[1..];
      if xs[0] > rest then xs[0] else rest
  }

  /** The buffer covers every transfer as long as no other size passes the throughput chunk. */
  lemma BufferIsSound(magic: seq<Byte>, p: Params)
    requires magic != [] && 0 < p.chunk && p.throughputBytes % p.chunk == 0
    requires p.handshake <= p.chunk && p.warmupBytes <= p.chunk
    requires (forall s | s in p.rttSizes :: s <= p.chunk) && (forall s | s in p.exchangeSizes :: s <= p.chunk)
    ensures Sound(p, PayloadBuffer(magic, p)) && |PayloadBuffer(magic, p)| == p.chunk
  {
    var k := p.chunk / |magic| + 1;
    PutsRepeat(magic, k);
    assert p.chunk == |magic| * (p.chunk / |magic|) + p.chunk % |magic|;
    assert |magic| * k == |magic| * (p.chunk / |magic|) + |magic|;
  }
}
