/** Two sequential programs, A and B, joined by a pair of bounded byte pipes.

    A program is written out byte by byte: a `write_all` of n bytes is n `Put`s, a `read_exact` of n
    bytes is n `Get`s. One step of a run moves any positive number of consecutive bytes, so every
    partial read, partial write and interleaving is a run. */
module Duplex {
  type Byte = b: int | 0 <= b < 256

  datatype Act = Put(b: Byte) | Get

  type Program = seq<Act>

  function Puts(data: seq<Byte>): Program {
    seq(|data|, i requires 0 <= i < |data| => Put(data[i]))
  }

  function Gets(n: nat): Program {
    seq(n, i => Get)
  }

  /** The bytes a program has still to write, in order. */
  function Payload(p: Program): seq<Byte> {
    if p == [] then [] else (if p[0].Put? then [p[0].b] else []) + Payload(p[1..])
  }

  /** The number of bytes a program has still to read. */
  function Wants(p: Program): nat {
    if p == [] then 0 else (if p[0].Get? then 1 else 0) + Wants(p[1..])
  }

  lemma {:induction false} AppendLaws(p: Program, q: Program)
    ensures Payload(p + q) == Payload(p) + Payload(q)
    ensures Wants(p + q) == Wants(p) + Wants(q)
  {
    if p == [] {
      assert p + q == q;
      assert [] + Payload(q) == Payload(q);
    } else {
      AppendLaws(p[1..], q);
      assert (p + q)[1..] == p[1..] + q && (p + q)[0] == p[0];
      Associative(if p[0].Put? then [p[0].b] else [], Payload(p[1..]), Payload(q));
    }
  }

  lemma {:induction false} LengthLaw(p: Program)
    ensures |p| == |Payload(p)| + Wants(p)
  {
    if p != [] {
      LengthLaw(p[1..]);
    }
  }

  lemma {:induction false} PutsLaws(data: seq<Byte>)
    ensures Payload(Puts(data)) == data && Wants(Puts(data)) == 0
  {
    if data != [] {
      PutsLaws(data[1..]);
      assert Puts(data)[1..] == Puts(data[1..]);
    }
  }

  lemma {:induction false} GetsLaws(n: nat)
    ensures Payload(Gets(n)) == [] && Wants(Gets(n)) == n
  {
    if n != 0 {
      GetsLaws(n - 1);
      assert Gets(n)[1..] == Gets(n - 1);
    }
  }

  ghost predicate AllPuts(p: Program) { forall i | 0 <= i < |p| :: p[i].Put? }
  ghost predicate AllGets(p: Program) { forall i | 0 <= i < |p| :: p[i].Get? }

  lemma {:induction false} PureLaws(p: Program)
    ensures AllPuts(p) ==> |Payload(p)| == |p| && Wants(p) == 0
    ensures AllGets(p) ==> Payload(p) == [] && Wants(p) == |p|
  {
    if p != [] {
      PureLaws(p[1..]);
    }
  }

  // ------------------------------------------------------------------ states, steps and runs

  /** Residual programs, bytes in flight in each direction, and everything each side has read. */
  datatype Net = Net(a: Program, b: Program, ab: seq<Byte>, ba: seq<Byte>, gotA: seq<Byte>, gotB: seq<Byte>)

  function Mirror(s: Net): Net {
    Net(s.b, s.a, s.ba, s.ab, s.gotB, s.gotA)
  }

  function Start(a: Program, b: Program): Net {
    Net(a, b, [], [], [], [])
  }

  datatype Move = Write(k: nat) | Read(k: nat)

  /** Side A may transfer m.k consecutive bytes: room in the pipe for a write, data in it for a read. */
  ghost predicate CanMove(cap: nat, s: Net, m: Move) {
    && 1 <= m.k <= |s.a|
    && match m {
         case Write(k) => AllPuts(s.a[..k]) && |s.ab| + k <= cap
         case Read(k) => AllGets(s.a[..k]) && k <= |s.ba|
       }
  }

  function Moved(s: Net, m: Move): Net
    requires m.k <= |s.a| && (m.Read? ==> m.k <= |s.ba|)
  {
    match m
    case Write(k) => s.(a := s.a[k..], ab := s.ab + Payload(s.a[..k]))
    case Read(k) => s.(a := s.a[k..], ba := s.ba[k..], gotA := s.gotA + s.ba[..k])
  }

  ghost predicate StepA(cap: nat, s: Net, t: Net) {
    exists m :: CanMove(cap, s, m) && t == Moved(s, m)
  }

  ghost predicate StepB(cap: nat, s: Net, t: Net) {
    StepA(cap, Mirror(s), Mirror(t))
  }

  ghost predicate Step(cap: nat, s: Net, t: Net) {
    StepA(cap, s, t) || StepB(cap, s, t)
  }

  ghost predicate Finished(s: Net) { s.a == [] && s.b == [] }

  /** No byte can move although a side has work left. */
  ghost predicate Stuck(cap: nat, s: Net) {
    !Finished(s) && forall t :: !Step(cap, s, t)
  }

  ghost predicate IsRun(cap: nat, tr: seq<Net>) {
    |tr| > 0 && forall i | 0 <= i < |tr| - 1 :: Step(cap, tr[i], tr[i + 1])
  }

  function Last(tr: seq<Net>): Net
    requires |tr| > 0
  {
    tr[|tr| - 1]
  }

  ghost predicate Reaches(cap: nat, s: Net, t: Net) {
    exists tr :: IsRun(cap, tr) && tr[0] == s && Last(tr) == t
  }

  lemma ReachesSelf(cap: nat, s: Net)
    ensures Reaches(cap, s, s)
  {
    assert IsRun(cap, [s]);
    assert Last([s]) == s && [s][0] == s;
  }

  lemma ReachesStep(cap: nat, s: Net, t: Net, u: Net)
    requires Reaches(cap, s, t) && Step(cap, t, u)
    ensures Reaches(cap, s, u)
  {
    var tr :| IsRun(cap, tr) && tr[0] == s && Last(tr) == t;
    var tr' := tr + [u];
    assert IsRun(cap, tr') && tr'[0] == s && Last(tr') == u;
  }

  /** Whether some side can move, decided from the heads of the programs and the pipe levels alone. */
  ghost predicate HeadsEnabled(cap: nat, a: Program, b: Program, ab: nat, ba: nat) {
    || (a != [] && a[0].Put? && ab < cap)
    || (a != [] && a[0].Get? && ba > 0)
    || (b != [] && b[0].Put? && ba < cap)
    || (b != [] && b[0].Get? && ab > 0)
  }

  lemma HeadMove(cap: nat, s: Net)
    requires s.a != [] && (if s.a[0].Put? then |s.ab| < cap else |s.ba| > 0)
    ensures exists t :: StepA(cap, s, t)
  {
    var m := if s.a[0].Put? then Write(1) else Read(1);
    assert CanMove(cap, s, m);
    assert StepA(cap, s, Moved(s, m));
  }

  lemma NoMove(cap: nat, s: Net, m: Move)
    requires s.a == [] || (if s.a[0].Put? then |s.ab| >= cap else s.ba == [])
    ensures !CanMove(cap, s, m)
  {
    if 1 <= m.k <= |s.a| {
      assert s.a[..m.k][0] == s.a[0];
    }
  }

  lemma StuckIsHeads(cap: nat, s: Net)
    ensures Stuck(cap, s) <==> !Finished(s) && !HeadsEnabled(cap, s.a, s.b, |s.ab|, |s.ba|)
  {
    if HeadsEnabled(cap, s.a, s.b, |s.ab|, |s.ba|) {
      if s.a != [] && (if s.a[0].Put? then |s.ab| < cap else |s.ba| > 0) {
        HeadMove(cap, s);
        var t :| StepA(cap, s, t);
        assert Step(cap, s, t);
      } else {
        HeadMove(cap, Mirror(s));
        var t :| StepA(cap, Mirror(s), t);
        assert Mirror(Mirror(t)) == t;
        assert Step(cap, s, Mirror(t));
      }
    } else {
      forall m ensures !CanMove(cap, s, m) && !CanMove(cap, Mirror(s), m) {
        NoMove(cap, s, m);
        NoMove(cap, Mirror(s), m);
      }
    }
  }

  // ------------------------------------------------------------------ schedules

  /** One phase of a mirrored schedule: a one-way transfer, or an exchange in which both sides write
      first and read second. */
  datatype Phase =
    | AtoB(data: seq<Byte>)
    | BtoA(data: seq<Byte>)
    | Exchange(fromA: seq<Byte>, fromB: seq<Byte>)

  function PhaseA(p: Phase): Program {
    match p
    case AtoB(d) => Puts(d)
    case BtoA(d) => Gets(|d|)
    case Exchange(x, y) => Puts(x) + Gets(|y|)
  }

  function PhaseB(p: Phase): Program {
    match p
    case AtoB(d) => Gets(|d|)
    case BtoA(d) => Puts(d)
    case Exchange(x, y) => Puts(y) + Gets(|x|)
  }

  function SideA(ps: seq<Phase>): Program {
    if ps == [] then [] else PhaseA(ps[0]) + SideA(ps[1..])
  }

  function SideB(ps: seq<Phase>): Program {
    if ps == [] then [] else PhaseB(ps[0]) + SideB(ps[1..])
  }

  function Opening(ps: seq<Phase>): Net {
    Start(SideA(ps), SideB(ps))
  }

  /** The pipe holds the smaller half of the exchange. */
  predicate Fits(p: Phase, cap: nat) {
    p.Exchange? ==> |p.fromA| <= cap || |p.fromB| <= cap
  }

  predicate AllFit(ps: seq<Phase>, cap: nat) {
    forall i | 0 <= i < |ps| :: Fits(ps[i], cap)
  }

  lemma PhaseLaws(p: Phase)
    ensures Wants(PhaseB(p)) == |Payload(PhaseA(p))|
    ensures Wants(PhaseA(p)) == |Payload(PhaseB(p))|
  {
    match p
    case AtoB(d) => PutsLaws(d); GetsLaws(|d|);
    case BtoA(d) => PutsLaws(d); GetsLaws(|d|);
    case Exchange(x, y) =>
      PutsLaws(x); GetsLaws(|y|); AppendLaws(Puts(x), Gets(|y|));
      PutsLaws(y); GetsLaws(|x|); AppendLaws(Puts(y), Gets(|x|));
  }

  /** Each side reads exactly as many bytes as the other writes. */
  lemma {:induction false} Balanced(ps: seq<Phase>)
    ensures Wants(SideB(ps)) == |Payload(SideA(ps))|
    ensures Wants(SideA(ps)) == |Payload(SideB(ps))|
  {
    if ps != [] {
      Balanced(ps[1..]);
      PhaseLaws(ps[0]);
      AppendLaws(PhaseA(ps[0]), SideA(ps[1..]));
      AppendLaws(PhaseB(ps[0]), SideB(ps[1..]));
    }
  }

  lemma Associative<T>(p: seq<T>, q: seq<T>, r: seq<T>)
    ensures p + (q + r) == p + q + r
  {
  }

  function Flat<T>(xs: seq<seq<T>>): seq<T> {
    if xs == [] then [] else xs[0] + Flat(xs[1..])
  }

  lemma {:induction false} FlatAppend<T>(xs: seq<seq<T>>, ys: seq<seq<T>>)
    ensures Flat(xs + ys) == Flat(xs) + Flat(ys)
  {
    if xs == [] {
      assert xs + ys == ys;
      assert [] + Flat(ys) == Flat(ys);
    } else {
      FlatAppend(xs[1..], ys);
      assert (xs + ys)[1..] == xs[1..] + ys && (xs + ys)[0] == xs[0];
      Associative(xs[0], Flat(xs[1..]), Flat(ys));
    }
  }

  function ProgramsA(ps: seq<Phase>): seq<Program> {
    seq(|ps|, i requires 0 <= i < |ps| => PhaseA(ps[i]))
  }

  lemma {:induction false} SideAIsFlat(ps: seq<Phase>)
    ensures SideA(ps) == Flat(ProgramsA(ps))
  {
    if ps != [] {
      SideAIsFlat(ps[1..]);
      assert ProgramsA(ps)[1..] == ProgramsA(ps[1..]);
    }
  }

  lemma ProgramsAppend(ps: seq<Phase>, qs: seq<Phase>)
    ensures ProgramsA(ps + qs) == ProgramsA(ps) + ProgramsA(qs)
  {
  }

  lemma SideAAppend(ps: seq<Phase>, qs: seq<Phase>)
    ensures SideA(ps + qs) == SideA(ps) + SideA(qs)
  {
    SideAIsFlat(ps);
    SideAIsFlat(qs);
    SideAIsFlat(ps + qs);
    ProgramsAppend(ps, qs);
    FlatAppend(ProgramsA(ps), ProgramsA(qs));
  }

  function MirrorPhase(p: Phase): Phase {
    match p
    case AtoB(d) => BtoA(d)
    case BtoA(d) => AtoB(d)
    case Exchange(x, y) => Exchange(y, x)
  }

  function MirrorAll(ps: seq<Phase>): seq<Phase> {
    seq(|ps|, i requires 0 <= i < |ps| => MirrorPhase(ps[i]))
  }

  lemma {:induction false} MirrorSides(ps: seq<Phase>)
    ensures SideB(ps) == SideA(MirrorAll(ps))
  {
    if ps != [] {
      MirrorSides(ps[1..]);
      assert MirrorAll(ps)[1..] == MirrorAll(ps[1..]);
      assert PhaseB(ps[0]) == PhaseA(MirrorAll(ps)[0]);
    }
  }

  lemma SideBAppend(ps: seq<Phase>, qs: seq<Phase>)
    ensures SideB(ps + qs) == SideB(ps) + SideB(qs)
  {
    MirrorAppend(ps, qs);
    MirrorSides(ps + qs);
    MirrorSides(ps);
    MirrorSides(qs);
    SideAAppend(MirrorAll(ps), MirrorAll(qs));
  }

  lemma MirrorAppend(ps: seq<Phase>, qs: seq<Phase>)
    ensures MirrorAll(ps + qs) == MirrorAll(ps) + MirrorAll(qs)
  {
  }

  lemma SidesAppend(ps: seq<Phase>, qs: seq<Phase>)
    ensures SideA(ps + qs) == SideA(ps) + SideA(qs)
    ensures SideB(ps + qs) == SideB(ps) + SideB(qs)
  {
    SideAAppend(ps, qs);
    SideBAppend(ps, qs);
  }

  // ------------------------------------------------------------------ the invariant of a run

  ghost predicate IsSuffix(p: Program, full: Program) {
    |p| <= |full| && p == full[|full| - |p|..]
  }

  /** What every reachable state of the pair (a0, b0) satisfies: nothing lost, nothing reordered. */
  ghost predicate Inv(cap: nat, a0: Program, b0: Program, s: Net) {
    && IsSuffix(s.a, a0) && IsSuffix(s.b, b0)
    && Payload(a0) == s.gotB + s.ab + Payload(s.a)
    && Payload(b0) == s.gotA + s.ba + Payload(s.b)
    && |s.gotA| + Wants(s.a) == Wants(a0)
    && |s.gotB| + Wants(s.b) == Wants(b0)
    && |s.ab| <= cap && |s.ba| <= cap
  }

  lemma InvWrite(cap: nat, a0: Program, b0: Program, s: Net, k: nat)
    requires Inv(cap, a0, b0, s) && CanMove(cap, s, Write(k))
    ensures Inv(cap, a0, b0, Moved(s, Write(k)))
  {
    var done, rest := s.a[..k], s.a[k..];
    assert s.a == done + rest;
    AppendLaws(done, rest);
    PureLaws(done);
    SuffixOfSuffix(s.a, a0, k);
    var x := Payload(done);
    assert s.gotB + s.ab + Payload(s.a) == s.gotB + (s.ab + x) + Payload(rest) by {
      Regroup(s.gotB, s.ab, x, Payload(rest));
    }
  }

  lemma InvRead(cap: nat, a0: Program, b0: Program, s: Net, k: nat)
    requires Inv(cap, a0, b0, s) && CanMove(cap, s, Read(k))
    ensures Inv(cap, a0, b0, Moved(s, Read(k)))
  {
    var done, rest := s.a[..k], s.a[k..];
    assert s.a == done + rest;
    AppendLaws(done, rest);
    PureLaws(done);
    SuffixOfSuffix(s.a, a0, k);
    assert Payload(s.a) == Payload(rest);
    assert s.gotA + s.ba + Payload(s.b) == s.gotA + s.ba[..k] + s.ba[k..] + Payload(s.b) by {
      assert s.ba == s.ba[..k] + s.ba[k..];
      Regroup(s.gotA, s.ba[..k], s.ba[k..], Payload(s.b));
      Associative(s.gotA, s.ba[..k], s.ba[k..]);
    }
  }

  lemma InvStepA(cap: nat, a0: Program, b0: Program, s: Net, t: Net)
    requires Inv(cap, a0, b0, s) && StepA(cap, s, t)
    ensures Inv(cap, a0, b0, t) && |t.a| < |s.a| && t.b == s.b
  {
    var m :| CanMove(cap, s, m) && t == Moved(s, m);
    match m {
      case Write(k) => InvWrite(cap, a0, b0, s, k);
      case Read(k) => InvRead(cap, a0, b0, s, k);
    }
  }

  lemma SuffixOfSuffix(p: Program, full: Program, k: nat)
    requires IsSuffix(p, full) && k <= |p|
    ensures IsSuffix(p[k..], full)
  {
  }

  lemma Regroup<T>(p: seq<T>, q: seq<T>, r: seq<T>, t: seq<T>)
    ensures p + q + (r + t) == p + (q + r) + t
    ensures p + (q + r) + t == p + q + r + t
  {
  }

  lemma InvStep(cap: nat, a0: Program, b0: Program, s: Net, t: Net)
    requires Inv(cap, a0, b0, s) && Step(cap, s, t)
    ensures Inv(cap, a0, b0, t)
    ensures |t.a| + |t.b| < |s.a| + |s.b|
  {
    if StepA(cap, s, t) {
      InvStepA(cap, a0, b0, s, t);
    } else {
      InvStepA(cap, b0, a0, Mirror(s), Mirror(t));
    }
  }

  lemma RunPrefix(cap: nat, tr: seq<Net>) returns (init: seq<Net>)
    requires IsRun(cap, tr) && |tr| > 1
    ensures init == tr[..|tr| - 1] && IsRun(cap, init) && Step(cap, Last(init), Last(tr))
  {
    init := tr[..|tr| - 1];
    var n := |tr| - 2;
    assert Step(cap, tr[n], tr[n + 1]);
  }

  /** Wherever a run stops, the invariant holds, and the number of steps is bounded by the bytes the two
      programs started with. */
  lemma {:induction false} RunInv(cap: nat, a0: Program, b0: Program, tr: seq<Net>)
    requires IsRun(cap, tr) && tr[0] == Start(a0, b0)
    ensures Inv(cap, a0, b0, Last(tr))
    ensures |tr| - 1 + |Last(tr).a| + |Last(tr).b| <= |a0| + |b0|
  {
    if |tr| > 1 {
      var init := RunPrefix(cap, tr);
      RunInv(cap, a0, b0, init);
      InvStep(cap, a0, b0, Last(init), Last(tr));
    } else {
      InvStart(cap, a0, b0);
    }
  }

  lemma InvStart(cap: nat, a0: Program, b0: Program)
    ensures Inv(cap, a0, b0, Start(a0, b0))
  {
  }

  // ------------------------------------------------------------------ deadlock freedom, exactly

  /** A suffix of `head + tail` either lies inside `tail` or is a suffix of `head` followed by `tail`. */
  lemma SplitSuffix(p: Program, head: Program, tail: Program) returns (cut: Program)
    requires IsSuffix(p, head + tail)
    ensures IsSuffix(p, tail) || (cut != [] && IsSuffix(cut, head) && p == cut + tail)
    ensures !IsSuffix(p, tail) ==> Payload(p) == Payload(cut) + Payload(tail) && Wants(p) == Wants(cut) + Wants(tail)
  {
    if |p| <= |tail| {
      cut := [];
      assert (head + tail)[|head + tail| - |p|..] == tail[|tail| - |p|..];
    } else {
      cut := head[|head| - (|p| - |tail|)..];
      assert p == cut + tail;
      AppendLaws(cut, tail);
    }
  }

  lemma SuffixLaws(p: Program, full: Program)
    requires IsSuffix(p, full)
    ensures |Payload(p)| <= |Payload(full)| && Wants(p) <= Wants(full)
  {
    AppendLaws(full[..|full| - |p|], p);
    assert full == full[..|full| - |p|] + p;
  }

  /** A suffix of one phase's program: counts by the kind of its first action. */
  lemma CutLaws(cut: Program, x: seq<Byte>, n: nat)
    requires cut != [] && IsSuffix(cut, Puts(x) + Gets(n))
    ensures cut[0].Get? ==> Payload(cut) == [] && Wants(cut) == |cut|
    ensures cut[0].Put? ==> 1 <= |Payload(cut)| <= |x| && Wants(cut) == n
  {
    var full := Puts(x) + Gets(n);
    var at := |full| - |cut|;
    if at < |x| {
      var front := Puts(x)[at..];
      assert cut == front + Gets(n);
      AppendLaws(front, Gets(n));
      PureLaws(front);
      GetsLaws(n);
    } else {
      PureLaws(cut);
    }
  }

  lemma PhaseShape(p: Phase)
    ensures PhaseA(p) == match p { case AtoB(d) => Puts(d) + Gets(0) case BtoA(d) => Puts([]) + Gets(|d|) case Exchange(x, y) => Puts(x) + Gets(|y|) }
    ensures PhaseB(p) == match p { case AtoB(d) => Puts([]) + Gets(|d|) case BtoA(d) => Puts(d) + Gets(0) case Exchange(x, y) => Puts(y) + Gets(|x|) }
  {
  }

  /** Both sides are inside phase p: one of them can move. */
  lemma BothInPhase(p: Phase, cap: nat, ca: Program, cb: Program, ab: nat, ba: nat)
    requires cap >= 1 && Fits(p, cap)
    requires ca != [] && IsSuffix(ca, PhaseA(p)) && cb != [] && IsSuffix(cb, PhaseB(p))
    requires |Payload(ca)| + ab == Wants(cb) && |Payload(cb)| + ba == Wants(ca)
    ensures HeadsEnabled(cap, ca, cb, ab, ba)
  {
    PhaseShape(p);
    match p {
      case AtoB(d) => CutLaws(ca, d, 0); CutLaws(cb, [], |d|);
      case BtoA(d) => CutLaws(ca, [], |d|); CutLaws(cb, d, 0);
      case Exchange(x, y) => CutLaws(ca, x, |y|); CutLaws(cb, y, |x|);
    }
  }

  /** Side A is inside phase p and side B is past it: what A still does in p is read, and its bytes
      are already in the pipe. */
  lemma OneInPhase(p: Phase, ca: Program)
    requires ca != [] && IsSuffix(ca, PhaseA(p))
    ensures |Payload(ca)| > 0 || (ca[0].Get? && Wants(ca) > 0)
  {
    PhaseShape(p);
    match p {
      case AtoB(d) => CutLaws(ca, d, 0);
      case BtoA(d) => CutLaws(ca, [], |d|);
      case Exchange(x, y) => CutLaws(ca, x, |y|);
    }
  }

  /** The heart of deadlock freedom: at any two positions of the two programs whose pipe levels
      balance, some side can move. */
  lemma {:induction false} SomeoneMoves(ps: seq<Phase>, cap: nat, a: Program, b: Program, ab: nat, ba: nat)
    requires cap >= 1 && AllFit(ps, cap)
    requires IsSuffix(a, SideA(ps)) && IsSuffix(b, SideB(ps))
    requires |Payload(a)| + ab == Wants(b) && |Payload(b)| + ba == Wants(a)
    ensures (a == [] && b == []) || HeadsEnabled(cap, a, b, ab, ba)
  {
    if ps != [] {
      var p, rest := ps[0], ps[1..];
      var ra, rb := SideA(rest), SideB(rest);
      var ca := SplitSuffix(a, PhaseA(p), ra);
      var cb := SplitSuffix(b, PhaseB(p), rb);
      Balanced(rest);
      assert Fits(p, cap);
      if IsSuffix(a, ra) {
        SuffixLaws(a, ra);
        if IsSuffix(b, rb) {
          assert AllFit(rest, cap) by {
            forall i | 0 <= i < |rest| ensures Fits(rest[i], cap) { assert rest[i] == ps[i + 1]; }
          }
          SomeoneMoves(rest, cap, a, b, ab, ba);
        } else {
          OneInPhase(MirrorPhase(p), cb);
        }
      } else if IsSuffix(b, rb) {
        SuffixLaws(b, rb);
        OneInPhase(p, ca);
      } else {
        BothInPhase(p, cap, ca, cb, ab, ba);
      }
    }
  }

  lemma InvNotStuck(ps: seq<Phase>, cap: nat, s: Net)
    requires cap >= 1 && AllFit(ps, cap)
    requires Inv(cap, SideA(ps), SideB(ps), s)
    ensures !Stuck(cap, s)
  {
    Balanced(ps);
    SomeoneMoves(ps, cap, s.a, s.b, |s.ab|, |s.ba|);
    StuckIsHeads(cap, s);
  }

  /** Whatever a finished state looks like was fixed by the schedule: both pipes are empty and each
      side holds exactly what the other wrote. */
  lemma FinishedIsClean(ps: seq<Phase>, cap: nat, s: Net)
    requires Inv(cap, SideA(ps), SideB(ps), s) && Finished(s)
    ensures s.ab == [] && s.ba == []
    ensures s.gotB == Payload(SideA(ps)) && s.gotA == Payload(SideB(ps))
  {
    Balanced(ps);
  }

  /** A text cut at a known length on both sides. */
  lemma SamePrefix(x: seq<Byte>, x': seq<Byte>, y: seq<Byte>, y': seq<Byte>)
    requires x + x' == y + y' && |x| == |y|
    ensures x == y && x' == y'
  {
    assert x == (x + x')[..|x|] && y == (y + y')[..|y|];
    assert x' == (x + x')[|x|..] && y' == (y + y')[|y|..];
  }

  /** At a boundary of the schedule: a side that stands there has received all that the phases before it send its
      way, and no more. */
  lemma BoundaryA(ps: seq<Phase>, qs: seq<Phase>, cap: nat, s: Net)
    requires Inv(cap, SideA(ps + qs), SideB(ps + qs), s) && s.a == SideA(qs)
    ensures s.gotA == Payload(SideB(ps)) && s.ba + Payload(s.b) == Payload(SideB(qs))
  {
    SidesAppend(ps, qs);
    AppendLaws(SideA(ps), SideA(qs));
    AppendLaws(SideB(ps), SideB(qs));
    Balanced(ps);
    Associative(s.gotA, s.ba, Payload(s.b));
    SamePrefix(s.gotA, s.ba + Payload(s.b), Payload(SideB(ps)), Payload(SideB(qs)));
  }

  lemma BoundaryB(ps: seq<Phase>, qs: seq<Phase>, cap: nat, s: Net)
    requires Inv(cap, SideA(ps + qs), SideB(ps + qs), s) && s.b == SideB(qs)
    ensures s.gotB == Payload(SideA(ps)) && s.ab + Payload(s.a) == Payload(SideA(qs))
  {
    SidesAppend(ps, qs);
    AppendLaws(SideA(ps), SideA(qs));
    AppendLaws(SideB(ps), SideB(qs));
    Balanced(ps);
    Associative(s.gotB, s.ab, Payload(s.a));
    SamePrefix(s.gotB, s.ab + Payload(s.a), Payload(SideA(ps)), Payload(SideA(qs)));
  }

  /** Where both sides stand at the same boundary, both pipes are empty. */
  lemma BoundaryIsClean(ps: seq<Phase>, qs: seq<Phase>, cap: nat, s: Net)
    requires Inv(cap, SideA(ps + qs), SideB(ps + qs), s) && s.a == SideA(qs) && s.b == SideB(qs)
    ensures s.ab == [] && s.ba == [] && s.gotA == Payload(SideB(ps)) && s.gotB == Payload(SideA(ps))
  {
    BoundaryA(ps, qs, cap, s);
    BoundaryB(ps, qs, cap, s);
    assert |s.ab| == 0 && |s.ba| == 0;
  }

  /** Every run of a fitting schedule is bounded, never sticks, and when it cannot be extended it has
      delivered every byte in order and left both pipes empty. */
  lemma EveryRunCompletes(ps: seq<Phase>, cap: nat, tr: seq<Net>)
    requires cap >= 1 && AllFit(ps, cap)
    requires IsRun(cap, tr) && tr[0] == Opening(ps)
    ensures |tr| - 1 <= |SideA(ps)| + |SideB(ps)|
    ensures !Stuck(cap, Last(tr))
    ensures (forall t :: !Step(cap, Last(tr), t)) ==>
              Finished(Last(tr)) && Last(tr).ab == [] && Last(tr).ba == []
              && Last(tr).gotB == Payload(SideA(ps)) && Last(tr).gotA == Payload(SideB(ps))
  {
    RunInv(cap, SideA(ps), SideB(ps), tr);
    InvNotStuck(ps, cap, Last(tr));
    if Finished(Last(tr)) {
      FinishedIsClean(ps, cap, Last(tr));
    }
  }

  // ------------------------------------------------------------------ the bound is tight

  /** From any good state some run reaches the end. */
  lemma {:induction false} RunToEnd(ps: seq<Phase>, cap: nat, s: Net) returns (e: Net)
    requires cap >= 1 && AllFit(ps, cap)
    requires Inv(cap, SideA(ps), SideB(ps), s) && Reaches(cap, Opening(ps), s)
    ensures Finished(e) && Inv(cap, SideA(ps), SideB(ps), e) && Reaches(cap, Opening(ps), e)
    decreases |s.a| + |s.b|
  {
    if Finished(s) {
      e := s;
    } else {
      InvNotStuck(ps, cap, s);
      var t :| Step(cap, s, t);
      InvStep(cap, SideA(ps), SideB(ps), s, t);
      ReachesStep(cap, Opening(ps), s, t);
      e := RunToEnd(ps, cap, t);
    }
  }

  function Extend(s: Net, a: Program, b: Program): Net {
    s.(a := s.a + a, b := s.b + b)
  }

  lemma FrameStepA(cap: nat, s: Net, t: Net, a: Program, b: Program)
    requires StepA(cap, s, t)
    ensures StepA(cap, Extend(s, a, b), Extend(t, a, b))
  {
    var m :| CanMove(cap, s, m) && t == Moved(s, m);
    assert (s.a + a)[..m.k] == s.a[..m.k];
    assert (s.a + a)[m.k..] == s.a[m.k..] + a;
    assert CanMove(cap, Extend(s, a, b), m);
    assert Extend(t, a, b) == Moved(Extend(s, a, b), m);
  }

  /** A run is still a run when more work is appended to both programs. */
  lemma FrameReaches(cap: nat, s: Net, t: Net, a: Program, b: Program)
    requires Reaches(cap, s, t)
    ensures Reaches(cap, Extend(s, a, b), Extend(t, a, b))
  {
    var tr :| IsRun(cap, tr) && tr[0] == s && Last(tr) == t;
    var tr' := seq(|tr|, i requires 0 <= i < |tr| => Extend(tr[i], a, b));
    forall i | 0 <= i < |tr'| - 1 ensures Step(cap, tr'[i], tr'[i + 1]) {
      assert Step(cap, tr[i], tr[i + 1]);
      if StepA(cap, tr[i], tr[i + 1]) {
        FrameStepA(cap, tr[i], tr[i + 1], a, b);
      } else {
        FrameStepA(cap, Mirror(tr[i]), Mirror(tr[i + 1]), b, a);
        assert Mirror(tr'[i]) == Extend(Mirror(tr[i]), b, a);
        assert Mirror(tr'[i + 1]) == Extend(Mirror(tr[i + 1]), b, a);
      }
    }
    assert IsRun(cap, tr') && tr'[0] == Extend(s, a, b) && Last(tr') == Extend(t, a, b);
  }

  /** An exchange that overfills both pipes jams: each side fills its pipe and waits for the other. */
  lemma BothWritersJam(cap: nat, s0: Net, s: Net, x: seq<Byte>, y: seq<Byte>, a: Program, b: Program)
    requires cap >= 1 && |x| > cap && |y| > cap
    requires s.a == Puts(x) + a && s.b == Puts(y) + b && s.ab == [] && s.ba == []
    requires Reaches(cap, s0, s)
    ensures exists t :: Reaches(cap, s0, t) && Stuck(cap, t)
  {
    var t := Moved(s, Write(cap));
    assert CanMove(cap, s, Write(cap));
    PureLaws(s.a[..cap]);
    assert Step(cap, s, t);
    ReachesStep(cap, s0, s, t);
    var u := Mirror(Moved(Mirror(t), Write(cap)));
    assert CanMove(cap, Mirror(t), Write(cap));
    PureLaws(s.b[..cap]);
    assert Mirror(u) == Moved(Mirror(t), Write(cap));
    assert Step(cap, t, u);
    ReachesStep(cap, s0, t, u);
    assert u.a[0].Put? && u.b[0].Put? && |u.ab| == cap && |u.ba| == cap;
    StuckIsHeads(cap, u);
  }

  lemma FirstOverfull(ps: seq<Phase>, cap: nat) returns (i: nat)
    requires !AllFit(ps, cap)
    ensures i < |ps| && !Fits(ps[i], cap) && AllFit(ps[..i], cap)
  {
    i :| 0 <= i < |ps| && !Fits(ps[i], cap);
    while exists j :: 0 <= j < i && !Fits(ps[j], cap)
      invariant i < |ps| && !Fits(ps[i], cap)
      decreases i
    {
      var j: nat :| j < i && !Fits(ps[j], cap);
      i := j;
    }
  }

  /** Once the fitting phases before it have run, an overfull exchange starts on empty pipes. */
  lemma ReachesPhase(before: seq<Phase>, p: Phase, rest: seq<Phase>, cap: nat) returns (s: Net)
    requires cap >= 1 && AllFit(before, cap)
    ensures Reaches(cap, Opening(before + ([p] + rest)), s)
    ensures s.a == PhaseA(p) + SideA(rest) && s.b == PhaseB(p) + SideB(rest) && s.ab == [] && s.ba == []
  {
    SidesAppend(before, [p] + rest);
    assert ([p] + rest)[1..] == rest;
    var a, b := SideA([p] + rest), SideB([p] + rest);
    InvStart(cap, SideA(before), SideB(before));
    ReachesSelf(cap, Opening(before));
    var e := RunToEnd(before, cap, Opening(before));
    FinishedIsClean(before, cap, e);
    FrameReaches(cap, Opening(before), e, a, b);
    s := Extend(e, a, b);
    assert [] + a == a && [] + b == b;
  }

  lemma OverfullExchangeSticks(ps: seq<Phase>, cap: nat)
    requires cap >= 1 && !AllFit(ps, cap)
    ensures exists t :: Reaches(cap, Opening(ps), t) && Stuck(cap, t)
  {
    var i := FirstOverfull(ps, cap);
    var p, rest := ps[i], ps[i + 1..];
    assert ps == ps[..i] + ([p] + rest);
    var s := ReachesPhase(ps[..i], p, rest, cap);
    var x, y := p.fromA, p.fromB;
    Associative(Puts(x), Gets(|y|), SideA(rest));
    Associative(Puts(y), Gets(|x|), SideB(rest));
    BothWritersJam(cap, Opening(ps), s, x, y, Gets(|y|) + SideA(rest), Gets(|x|) + SideB(rest));
  }

  /** Deadlock freedom holds exactly when every exchange has a half that fits the pipe. */
  lemma NeverSticksIffAllFit(ps: seq<Phase>, cap: nat)
    requires cap >= 1
    ensures AllFit(ps, cap) <==> forall t | Reaches(cap, Opening(ps), t) :: !Stuck(cap, t)
  {
    if AllFit(ps, cap) {
      forall t | Reaches(cap, Opening(ps), t) ensures !Stuck(cap, t) {
        var tr :| IsRun(cap, tr) && tr[0] == Opening(ps) && Last(tr) == t;
        EveryRunCompletes(ps, cap, tr);
      }
    } else {
      OverfullExchangeSticks(ps, cap);
    }
  }
}
