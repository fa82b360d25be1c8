/** The open barrier of bench/usb4stream-bench.py. A byte written before the far end has opened its
    device is dropped, not queued; the peer announces its own open with a marker line, and the
    coordinator opens nothing until it has read that line. */
module OpenBarrier {
  import opened Duplex
  import opened Usb4Schedule

  /** A is the coordinator, B the peer. `lostA` is what A wrote into the void; `dead` is a side that
      aborted (alarm, error, closed far end) and has closed its device. */
  datatype Wire = Wire(net: Net, openA: bool, openB: bool, marked: bool, deadA: bool, deadB: bool,
                       lostA: seq<Byte>, lostB: seq<Byte>)

  function Unopened(ps: seq<Phase>): Wire {
    Wire(Opening(ps), false, false, false, false, false, [], [])
  }

  /** A's transfers: into the pipe when the far end is open, nowhere when it is not. */
  ghost predicate Transfer(cap: nat, s: Net, farOpen: bool, farDead: bool, t: Net, dropped: seq<Byte>) {
    exists m: Move ::
      && 1 <= m.k <= |s.a|
      && (m.Write? && !farOpen ==> AllPuts(s.a[..m.k]) && t == s.(a := s.a[m.k..]) && dropped == Payload(s.a[..m.k]))
      && (m.Write? && farOpen ==> !farDead && CanMove(cap, s, m) && t == Moved(s, m) && dropped == [])
      && (m.Read? ==> CanMove(cap, s, m) && t == Moved(s, m) && dropped == [])
  }

  ghost predicate Opens(barrier: bool, w: Wire, v: Wire) {
    || (!w.openB && !w.deadB && v == w.(openB := true))
    || (w.openB && !w.marked && !w.deadB && v == w.(marked := true))
    || (!w.openA && !w.deadA && (barrier ==> w.marked) && v == w.(openA := true))
  }

  ghost predicate MovesA(cap: nat, w: Wire, v: Wire) {
    w.openA && !w.deadA && exists t, d :: Transfer(cap, w.net, w.openB, w.deadB, t, d) && v == w.(net := t, lostA := w.lostA + d)
  }

  ghost predicate MovesB(cap: nat, w: Wire, v: Wire) {
    w.marked && !w.deadB
    && exists t, d :: Transfer(cap, Mirror(w.net), w.openA, w.deadA, t, d) && v == w.(net := Mirror(t), lostB := w.lostB + d)
  }

  /** A step of a side that is alive. */
  ghost predicate Live(cap: nat, barrier: bool, w: Wire, v: Wire) {
    Opens(barrier, w, v) || MovesA(cap, w, v) || MovesB(cap, w, v)
  }

  ghost predicate Aborts(w: Wire, v: Wire) {
    (!w.deadA && v == w.(deadA := true)) || (!w.deadB && v == w.(deadB := true))
  }

  ghost predicate WireStep(cap: nat, barrier: bool, w: Wire, v: Wire) {
    Live(cap, barrier, w, v) || Aborts(w, v)
  }

  ghost predicate WireRun(cap: nat, barrier: bool, ps: seq<Phase>, tr: seq<Wire>) {
    |tr| > 0 && tr[0] == Unopened(ps) && forall i | 0 <= i < |tr| - 1 :: WireStep(cap, barrier, tr[i], tr[i + 1])
  }

  function End(tr: seq<Wire>): Wire
    requires |tr| > 0
  {
    tr[|tr| - 1]
  }

  /** The peer's schedule does not begin by writing. */
  predicate CoordinatorSpeaksFirst(ps: seq<Phase>) {
    SideB(ps) == [] || SideB(ps)[0].Get?
  }

  /** Peer open, then marker, then coordinator open, then bytes; and no byte gone. */
  ghost predicate Ordered(a0: Program, b0: Program, w: Wire) {
    && (w.openA ==> w.marked) && (w.marked ==> w.openB)
    && (!w.openA ==> w.net == Start(a0, b0))
    && w.lostA == [] && w.lostB == []
  }

  ghost predicate Good(cap: nat, a0: Program, b0: Program, w: Wire) {
    Ordered(a0, b0, w) && Inv(cap, a0, b0, w.net)
  }

  lemma RunPrefix(cap: nat, barrier: bool, ps: seq<Phase>, tr: seq<Wire>) returns (init: seq<Wire>)
    requires WireRun(cap, barrier, ps, tr) && |tr| > 1
    ensures init == tr[..|tr| - 1] && WireRun(cap, barrier, ps, init) && WireStep(cap, barrier, End(init), End(tr))
  {
    init := tr[..|tr| - 1];
    var n := |tr| - 2;
    assert WireStep(cap, barrier, tr[n], tr[n + 1]);
  }

  lemma {:induction false} WireInv(cap: nat, ps: seq<Phase>, tr: seq<Wire>)
    requires WireRun(cap, true, ps, tr) && CoordinatorSpeaksFirst(ps)
    ensures Good(cap, SideA(ps), SideB(ps), End(tr))
    ensures |tr| - 1 + Left(End(tr)) <= |SideA(ps)| + |SideB(ps)| + 5
  {
    if |tr| == 1 {
      InvStart(cap, SideA(ps), SideB(ps));
    } else {
      var init := RunPrefix(cap, true, ps, tr);
      WireInv(cap, ps, init);
      WireInvStep(cap, SideA(ps), SideB(ps), End(init), End(tr));
    }
  }

  /** What is left to happen: bytes to move and flags to raise. */
  function Left(w: Wire): nat {
    |w.net.a| + |w.net.b|
    + (if w.openA then 0 else 1) + (if w.openB then 0 else 1) + (if w.marked then 0 else 1)
    + (if w.deadA then 0 else 1) + (if w.deadB then 0 else 1)
  }

  lemma GoodMovesA(cap: nat, a0: Program, b0: Program, w: Wire, v: Wire)
    requires Good(cap, a0, b0, w) && MovesA(cap, w, v)
    ensures Good(cap, a0, b0, v) && Left(v) < Left(w)
  {
    var t, d :| Transfer(cap, w.net, w.openB, w.deadB, t, d) && v == w.(net := t, lostA := w.lostA + d);
    OpenTransfer(cap, w.net, w.deadB, t, d);
    InvStepA(cap, a0, b0, w.net, t);
  }

  lemma GoodMovesB(cap: nat, a0: Program, b0: Program, w: Wire, v: Wire)
    requires (b0 == [] || b0[0].Get?) && Good(cap, a0, b0, w) && MovesB(cap, w, v)
    ensures Good(cap, a0, b0, v) && Left(v) < Left(w)
  {
    var t, d :| Transfer(cap, Mirror(w.net), w.openA, w.deadA, t, d) && v == w.(net := Mirror(t), lostB := w.lostB + d);
    if w.openA {
      OpenTransfer(cap, Mirror(w.net), w.deadA, t, d);
      InvStepA(cap, b0, a0, Mirror(w.net), t);
    } else {
      PeerWaits(cap, a0, b0, w.deadA, t, d);
    }
  }

  lemma OpenTransfer(cap: nat, s: Net, farDead: bool, t: Net, d: seq<Byte>)
    requires Transfer(cap, s, true, farDead, t, d)
    ensures d == [] && StepA(cap, s, t)
  {
  }

  lemma GoodOpensOrAborts(cap: nat, a0: Program, b0: Program, w: Wire, v: Wire)
    requires Good(cap, a0, b0, w) && (Opens(true, w, v) || Aborts(w, v))
    ensures Good(cap, a0, b0, v) && Left(v) < Left(w)
  {
    assert v.net == w.net;
  }

  lemma WireInvStep(cap: nat, a0: Program, b0: Program, w: Wire, v: Wire)
    requires (b0 == [] || b0[0].Get?) && Good(cap, a0, b0, w) && WireStep(cap, true, w, v)
    ensures Good(cap, a0, b0, v) && Left(v) < Left(w)
  {
    if Opens(true, w, v) || Aborts(w, v) {
      GoodOpensOrAborts(cap, a0, b0, w, v);
    } else if MovesA(cap, w, v) {
      GoodMovesA(cap, a0, b0, w, v);
    } else {
      GoodMovesB(cap, a0, b0, w, v);
    }
  }

  /** Before the coordinator opens, the peer sits at its first read on an empty pipe. */
  lemma PeerWaits(cap: nat, a0: Program, b0: Program, farDead: bool, t: Net, d: seq<Byte>)
    requires b0 == [] || b0[0].Get?
    ensures !Transfer(cap, Mirror(Start(a0, b0)), false, farDead, t, d)
  {
    var s := Mirror(Start(a0, b0));
    forall m: Move | 1 <= m.k <= |s.a| ensures !(m.Write? && AllPuts(s.a[..m.k])) && !(m.Read? && CanMove(cap, s, m)) {
      assert s.a[..m.k][0] == s.a[0];
    }
  }

  /** In every run under the barrier: the two opens happen in order, bytes move only when both ends are
      open, nothing is ever lost, and what each side holds is a prefix of what the other was to send. */
  lemma BarrierOrdersEverything(cap: nat, ps: seq<Phase>, tr: seq<Wire>)
    requires WireRun(cap, true, ps, tr) && CoordinatorSpeaksFirst(ps)
    ensures var w := End(tr);
      && (w.openA ==> w.marked) && (w.marked ==> w.openB)
      && (w.net != Opening(ps) ==> w.openA && w.openB)
      && w.lostA == [] && w.lostB == []
      && w.net.gotB + w.net.ab + Payload(w.net.a) == Payload(SideA(ps))
      && w.net.gotA + w.net.ba + Payload(w.net.b) == Payload(SideB(ps))
  {
    WireInv(cap, ps, tr);
  }

  /** A peer that writes first loses its first byte to the gap before the coordinator opens. */
  lemma PeerFirstLoses(cap: nat, ps: seq<Phase>) returns (tr: seq<Wire>)
    requires !CoordinatorSpeaksFirst(ps)
    ensures WireRun(cap, true, ps, tr) && End(tr).lostB != []
  {
    var w0 := Unopened(ps);
    var w1 := w0.(openB := true);
    var w2 := w1.(marked := true);
    var s := Mirror(w2.net);
    var t := s.(a := s.a[1..]);
    var d := Payload(s.a[..1]);
    var m := Write(1);
    PureLaws(s.a[..m.k]);
    assert 1 <= m.k <= |s.a| && AllPuts(s.a[..m.k]) && t == s.(a := s.a[m.k..]) && d == Payload(s.a[..m.k]);
    assert Transfer(cap, s, false, false, t, d);
    var w3 := w2.(net := Mirror(t), lostB := w2.lostB + d);
    assert MovesB(cap, w2, w3);
    tr := [w0, w1, w2, w3];
    assert WireStep(cap, true, w0, w1) && WireStep(cap, true, w1, w2) && WireStep(cap, true, w2, w3);
  }

  /** The barrier loses no byte in any run exactly when the coordinator speaks first. */
  lemma NoLossIffCoordinatorSpeaksFirst(cap: nat, ps: seq<Phase>)
    ensures CoordinatorSpeaksFirst(ps)
            <==> forall tr | WireRun(cap, true, ps, tr) :: End(tr).lostA == [] && End(tr).lostB == []
  {
    if CoordinatorSpeaksFirst(ps) {
      forall tr | WireRun(cap, true, ps, tr) ensures End(tr).lostA == [] && End(tr).lostB == [] {
        WireInv(cap, ps, tr);
      }
    } else {
      var tr := PeerFirstLoses(cap, ps);
    }
  }

  // ------------------------------------------------------------------ completion

  /** No side that is alive can act. */
  ghost predicate Quiet(cap: nat, barrier: bool, w: Wire) {
    forall v :: !Live(cap, barrier, w, v)
  }

  lemma OpenPairMoves(cap: nat, w: Wire, t: Net)
    requires w.openA && w.openB && w.marked && !w.deadA && !w.deadB && Step(cap, w.net, t)
    ensures !Quiet(cap, true, w)
  {
    if StepA(cap, w.net, t) {
      var m :| CanMove(cap, w.net, m) && t == Moved(w.net, m);
      assert Transfer(cap, w.net, true, false, t, []);
      assert MovesA(cap, w, w.(net := t, lostA := w.lostA + []));
      assert Live(cap, true, w, w.(net := t, lostA := w.lostA + []));
    } else {
      var m :| CanMove(cap, Mirror(w.net), m) && Mirror(t) == Moved(Mirror(w.net), m);
      assert Transfer(cap, Mirror(w.net), true, false, Mirror(t), []);
      var v := w.(net := Mirror(Mirror(t)), lostB := w.lostB + []);
      assert MovesB(cap, w, v);
      assert Live(cap, true, w, v);
    }
  }

  /** Under the barrier every run is bounded, and one in which nobody aborted can only come to rest
      with both schedules finished, both pipes empty and every byte delivered. */
  lemma BarrierRunsComplete(cap: nat, ps: seq<Phase>, tr: seq<Wire>)
    requires cap >= 1 && AllFit(ps, cap) && CoordinatorSpeaksFirst(ps) && WireRun(cap, true, ps, tr)
    ensures |tr| - 1 <= |SideA(ps)| + |SideB(ps)| + 5
    ensures var w := End(tr); !w.deadA && !w.deadB && Quiet(cap, true, w) ==>
              Finished(w.net) && w.net.ab == [] && w.net.ba == []
              && w.net.gotB == Payload(SideA(ps)) && w.net.gotA == Payload(SideB(ps))
  {
    WireInv(cap, ps, tr);
    var w := End(tr);
    if !w.deadA && !w.deadB && Quiet(cap, true, w) {
      assert !Live(cap, true, w, w.(openB := true));
      assert !Live(cap, true, w, w.(marked := true));
      assert !Live(cap, true, w, w.(openA := true));
      InvNotStuck(ps, cap, w.net);
      if !Finished(w.net) {
        var t :| Step(cap, w.net, t);
        OpenPairMoves(cap, w, t);
      }
      FinishedIsClean(ps, cap, w.net);
    }
  }

  // ------------------------------------------------------------------ without the barrier

  /** Without the barrier the handshake can fall into the gap: all of it is lost, both sides then read
      from empty pipes, and nothing but an alarm ends the run. */
  lemma WithoutBarrierHandshakeSticks(cap: nat, d: seq<Byte>, e: seq<Byte>, rest: seq<Phase>) returns (tr: seq<Wire>)
    requires d != [] && e != []
    ensures WireRun(cap, false, [AtoB(d), BtoA(e)] + rest, tr)
    ensures End(tr).lostA == d && End(tr).openA && End(tr).openB && !End(tr).deadA && !End(tr).deadB
    ensures !Finished(End(tr).net) && Quiet(cap, false, End(tr))
  {
    var ps := [AtoB(d), BtoA(e)] + rest;
    var tail := ps[1..];
    assert tail == [BtoA(e)] + rest && tail[1..] == rest;
    assert SideA(ps) == Puts(d) + SideA(tail) && SideB(ps) == Gets(|d|) + SideB(tail);
    var w0 := Unopened(ps);
    var w1 := w0.(openA := true);
    WriteIntoTheGap(cap, w1, d, SideA(tail));
    var w2 := w1.(net := w1.net.(a := SideA(tail)), lostA := w1.lostA + d);
    var w3 := w2.(openB := true);
    var w4 := w3.(marked := true);
    tr := [w0, w1, w2, w3, w4];
    assert WireStep(cap, false, w0, w1) && WireStep(cap, false, w1, w2) && WireStep(cap, false, w2, w3) && WireStep(cap, false, w3, w4);
    assert w4.net.a[0].Get? && w4.net.b[0].Get?;
    BothReadingIsQuiet(cap, w4);
  }

  /** A coordinator alone on the wire can write all of d, and all of it is lost. */
  lemma WriteIntoTheGap(cap: nat, w: Wire, d: seq<Byte>, rest: Program)
    requires d != [] && w.net.a == Puts(d) + rest && w.openA && !w.deadA && !w.openB && !w.deadB
    ensures MovesA(cap, w, w.(net := w.net.(a := rest), lostA := w.lostA + d))
  {
    var s, m := w.net, Write(|d|);
    var t := s.(a := rest);
    PutsLaws(d);
    assert s.a[..m.k] == Puts(d) && s.a[m.k..] == rest;
    assert 1 <= m.k <= |s.a| && AllPuts(s.a[..m.k]) && t == s.(a := s.a[m.k..]) && d == Payload(s.a[..m.k]);
    assert Transfer(cap, s, false, false, t, d);
  }

  lemma BothReadingIsQuiet(cap: nat, w: Wire)
    requires w.openA && w.openB && w.marked && !w.deadA && !w.deadB && w.net.ab == [] && w.net.ba == []
    requires w.net.a != [] && w.net.a[0].Get? && w.net.b != [] && w.net.b[0].Get?
    ensures Quiet(cap, false, w)
  {
    StuckIsHeads(cap, w.net);
    forall v ensures !Live(cap, false, w, v) {
      if MovesA(cap, w, v) {
        var t, d :| Transfer(cap, w.net, w.openB, w.deadB, t, d) && v == w.(net := t, lostA := w.lostA + d);
        assert StepA(cap, w.net, t);
        assert Step(cap, w.net, t);
      } else if MovesB(cap, w, v) {
        var t, d :| Transfer(cap, Mirror(w.net), w.openA, w.deadA, t, d) && v == w.(net := Mirror(t), lostB := w.lostB + d);
        assert StepA(cap, Mirror(w.net), t);
        assert Step(cap, w.net, Mirror(t));
      }
    }
  }

  /** The shipped schedule opens with the coordinator's handshake, so the barrier loses nothing on it;
      dropped into the gap without the barrier, the same handshake jams it, whatever the pipe holds. */
  lemma FirstLightSpeaksFirst(p: Params, payload: seq<Byte>, cap: nat)
    requires Sound(p, payload) && p.handshake > 0
    ensures CoordinatorSpeaksFirst(Schedule(p, payload))
    ensures exists tr :: WireRun(cap, false, Schedule(p, payload), tr) && End(tr).lostA != [] && Quiet(cap, false, End(tr))
                         && !Finished(End(tr).net)
  {
    var ps := Schedule(p, payload);
    var d := Take(payload, p.handshake);
    assert ps == RoundTrip(d) + ps[2..];
    assert ps[0] == AtoB(d);
    var tr := WithoutBarrierHandshakeSticks(cap, d, d, ps[2..]);
  }
}
