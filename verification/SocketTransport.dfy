/** bench/socket-transport-bench.py: a client and a server over one TCP connection, length-prefixed
    commands followed by raw payload. The server learns what to do only from the bytes it receives. */
module SocketTransport {
  import opened Decimals
  import opened Duplex
  import opened Usb4Schedule
  import opened Optional

  const HDR := 8
  const BUFFER := 1048576

  datatype Cmd =
    | Echo(size: nat, iters: nat)
    | Sink(bytes: nat, chunk: nat)
    | Source(bytes: nat, chunk: nat)
    | Quit

  /** The JSON text of a command and its parser: any pair that undoes itself. */
  datatype Codec = Codec(enc: Cmd -> seq<Byte>, dec: seq<Byte> -> Option<Cmd>)

  ghost predicate Faithful(c: Codec) {
    forall cmd :: c.dec(c.enc(cmd)) == Some(cmd)
  }

  // ------------------------------------------------------------------ the eight-digit header

  /** Digits as ASCII bytes. */
  function Ascii(d: seq<nat>): (bytes: seq<Byte>)
    requires forall i | 0 <= i < |d| :: d[i] < 10
    ensures |bytes| == |d|
  {
    seq(|d|, i requires 0 <= i < |d| => 48 + d[i])
  }

  /** "%08d": padded to eight digits, longer when eight are not enough. */
  function Header(n: nat): seq<Byte> {
    Ascii(Digits(n, if Width(n) <= HDR then HDR else Width(n)))
  }

  /** What int() makes of received bytes, or that it refuses them. */
  function ReadNumber(d: seq<Byte>): Option<nat> {
    if d == [] then Some(0) else
      var front := ReadNumber(d[..|d| - 1]);
      var last := d[|d| - 1];
      if front.Some? && 48 <= last <= 57 then Some(10 * front.value + (last - 48)) else None
  }

  lemma {:induction false} AsciiReads(d: seq<nat>)
    requires forall i | 0 <= i < |d| :: d[i] < 10
    ensures ReadNumber(Ascii(d)) == Some(Value(d))
  {
    if d != [] {
      AsciiReads(d[..|d| - 1]);
      assert Ascii(d)[..|d| - 1] == Ascii(d[..|d| - 1]);
    }
  }

  lemma {:induction false} NumberBound(d: seq<Byte>)
    ensures ReadNumber(d).Some? ==> ReadNumber(d).value < Pow10(|d|)
  {
    if d != [] {
      NumberBound(d[..|d| - 1]);
    }
  }

  function Frame(body: seq<Byte>): seq<Byte> { Header(|body|) + body }

  /** What recv_cmd takes off the front of a stream: the body, and what follows it. */
  function Unframe(r: seq<Byte>): Option<(seq<Byte>, seq<Byte>)> {
    if |r| < HDR then None else
      match ReadNumber(r[..HDR])
      case None => None
      case Some(n) => if |r| < HDR + n then None else Some((r[HDR..HDR + n], r[HDR + n..]))
  }

  /** A frame is taken off exactly, whatever follows it, just when its body is under 10^8 bytes. */
  lemma FrameRoundTripIff(body: seq<Byte>, rest: seq<Byte>)
    ensures |body| < 100000000 <==> Unframe(Frame(body) + rest) == Some((body, rest))
  {
    var n, r := |body|, Frame(body) + rest;
    Pow10Of8();
    WidthBound(n, HDR);
    if n < 100000000 {
      DigitsValue(n, HDR);
      AsciiReads(Digits(n, HDR));
      assert r[..HDR] == Header(n);
      assert r[HDR..HDR + n] == body && r[HDR + n..] == rest;
    } else {
      NumberBound(r[..HDR]);
    }
  }

  lemma Pow10Of8()
    ensures Pow10(HDR) == 100000000
  {
    assert Pow10(1) == 10 && Pow10(2) == 100 && Pow10(3) == 1000 && Pow10(4) == 10000;
    assert Pow10(5) == 100000 && Pow10(6) == 1000000 && Pow10(7) == 10000000;
  }

  // ------------------------------------------------------------------ the server, byte by byte

  const ACK: seq<Byte> := [65, 67, 75, 65, 67, 75, 65, 67]

  function Zeros(n: nat): seq<Byte> { seq(n, i => 0) }

  /** A command the server can carry out: its buffer holds every slice it asks for, and no chunk of
      zero bytes is asked to make progress. */
  predicate Supported(cmd: Cmd) {
    match cmd
    case Echo(size, iters) => iters > 0 ==> size <= BUFFER
    case Sink(bytes, chunk) => bytes > 0 ==> 0 < chunk && (if chunk < bytes then chunk else bytes) <= BUFFER
    case Source(bytes, chunk) => bytes > 0 ==> 0 < chunk
    case Quit => true
  }

  /** Everything the server commits to once it has received r. */
  function Serve(c: Codec, r: seq<Byte>): Program
    decreases |r|, 0, 0
  {
    if |r| < HDR then Gets(HDR) else
      match ReadNumber(r[..HDR])
      case None => Gets(HDR)
      case Some(n) =>
        if |r| < HDR + n then Gets(HDR + n) else
          match c.dec(r[HDR..HDR + n])
          case None => Gets(HDR + n)
          case Some(cmd) => Gets(HDR + n) + Exec(c, cmd, r[HDR + n..])
  }

  function Exec(c: Codec, cmd: Cmd, r: seq<Byte>): Program
    decreases |r|, 2, 0
  {
    if !Supported(cmd) then [] else
      match cmd
      case Quit => []
      case Echo(size, iters) => EchoRounds(c, size, iters, r)
      case Sink(bytes, _) => if |r| < bytes then Gets(bytes) else Gets(bytes) + (Puts(ACK) + Serve(c, r[bytes..]))
      case Source(bytes, _) =>
        if |r| < HDR then Puts(Zeros(bytes)) + Gets(HDR)
        else Puts(Zeros(bytes)) + (Gets(HDR) + Serve(c, r[HDR..]))
  }

  function EchoRounds(c: Codec, size: nat, k: nat, r: seq<Byte>): Program
    decreases |r|, 1, k
  {
    if k == 0 then Serve(c, r)
    else if |r| < size then Gets(size)
    else Gets(size) + (Puts(r[..size]) + EchoRounds(c, size, k - 1, r[size..]))
  }

  lemma PrefixUnder<T>(p: seq<T>, q: seq<T>, r: seq<T>)
    requires q <= r
    ensures p + q <= p + r && p <= p + r
  {
  }

  lemma GetsPrefix(n: nat, m: nat, p: Program)
    requires n <= m
    ensures Gets(n) <= Gets(m) && Gets(n) <= Gets(m) + p
  {
  }

  /** More input changes nothing of what lies within the old. */
  lemma Extended<T>(r: seq<T>, more: seq<T>, i: nat, j: nat)
    requires i <= j <= |r|
    ensures (r + more)[i..j] == r[i..j] && (r + more)[j..] == r[j..] + more
  {
  }

  /** The server never acts on a byte it has not received: more input only extends what it does. */
  lemma {:induction false} ServeIsCausal(c: Codec, r: seq<Byte>, more: seq<Byte>)
    ensures Serve(c, r) <= Serve(c, r + more)
    decreases |r|, 0, 0
  {
    var s := r + more;
    if |r| >= HDR {
      assert s[..HDR] == r[..HDR];
      match ReadNumber(r[..HDR])
      case None =>
      case Some(n) =>
        if |r| >= HDR + n {
          Extended(r, more, HDR, HDR + n);
          match c.dec(r[HDR..HDR + n])
          case None =>
          case Some(cmd) =>
            ExecIsCausal(c, cmd, r[HDR + n..], more);
            PrefixUnder(Gets(HDR + n), Exec(c, cmd, r[HDR + n..]), Exec(c, cmd, s[HDR + n..]));
        }
    } else if |s| >= HDR {
      match ReadNumber(s[..HDR]) {
        case None =>
        case Some(n) => GetsPrefix(HDR, HDR + n, []);
      }
    }
  }

  lemma {:induction false} ExecIsCausal(c: Codec, cmd: Cmd, r: seq<Byte>, more: seq<Byte>)
    ensures Exec(c, cmd, r) <= Exec(c, cmd, r + more)
    decreases |r|, 2, 0
  {
    if Supported(cmd) {
      match cmd
      case Quit =>
      case Echo(size, iters) => EchoIsCausal(c, size, iters, r, more);
      case Sink(bytes, _) =>
        if |r| >= bytes {
          assert (r + more)[bytes..] == r[bytes..] + more;
          ServeIsCausal(c, r[bytes..], more);
          PrefixUnder(Puts(ACK), Serve(c, r[bytes..]), Serve(c, r[bytes..] + more));
          PrefixUnder(Gets(bytes), Puts(ACK) + Serve(c, r[bytes..]), Puts(ACK) + Serve(c, r[bytes..] + more));
        }
      case Source(bytes, _) =>
        if |r| >= HDR {
          assert (r + more)[HDR..] == r[HDR..] + more;
          ServeIsCausal(c, r[HDR..], more);
          PrefixUnder(Gets(HDR), Serve(c, r[HDR..]), Serve(c, r[HDR..] + more));
          PrefixUnder(Puts(Zeros(bytes)), Gets(HDR) + Serve(c, r[HDR..]), Gets(HDR) + Serve(c, r[HDR..] + more));
        } else if |r + more| >= HDR {
          PrefixUnder(Puts(Zeros(bytes)), Gets(HDR), Gets(HDR) + Serve(c, (r + more)[HDR..]));
        }
    }
  }

  lemma {:induction false} EchoIsCausal(c: Codec, size: nat, k: nat, r: seq<Byte>, more: seq<Byte>)
    ensures EchoRounds(c, size, k, r) <= EchoRounds(c, size, k, r + more)
    decreases |r|, 1, k
  {
    if k == 0 {
      ServeIsCausal(c, r, more);
    } else if |r| >= size {
      assert (r + more)[..size] == r[..size] && (r + more)[size..] == r[size..] + more;
      EchoIsCausal(c, size, k - 1, r[size..], more);
      var p, q := EchoRounds(c, size, k - 1, r[size..]), EchoRounds(c, size, k - 1, r[size..] + more);
      PrefixUnder(Puts(r[..size]), p, q);
      PrefixUnder(Gets(size), Puts(r[..size]) + p, Puts(r[..size]) + q);
    }
  }

  /** The server stops only to wait: if more input would make it do more, then what it has committed to
      so far already asks for a byte it has not received. */
  lemma {:induction false} ServeWaits(c: Codec, r: seq<Byte>, more: seq<Byte>)
    ensures Serve(c, r) == Serve(c, r + more) || Wants(Serve(c, r)) > |r|
    decreases |r|, 0, 0
  {
    var s := r + more;
    GetsLaws(HDR);
    if |r| >= HDR {
      assert s[..HDR] == r[..HDR];
      match ReadNumber(r[..HDR])
      case None =>
      case Some(n) =>
        GetsLaws(HDR + n);
        if |r| >= HDR + n {
          assert s[HDR..HDR + n] == r[HDR..HDR + n];
          assert s[HDR + n..] == r[HDR + n..] + more;
          match c.dec(r[HDR..HDR + n])
          case None =>
          case Some(cmd) =>
            ExecWaits(c, cmd, r[HDR + n..], more);
            AppendLaws(Gets(HDR + n), Exec(c, cmd, r[HDR + n..]));
        }
    }
  }

  lemma {:induction false} ExecWaits(c: Codec, cmd: Cmd, r: seq<Byte>, more: seq<Byte>)
    ensures Exec(c, cmd, r) == Exec(c, cmd, r + more) || Wants(Exec(c, cmd, r)) > |r|
    decreases |r|, 2, 0
  {
    if Supported(cmd) {
      match cmd
      case Quit =>
      case Echo(size, iters) => EchoWaits(c, size, iters, r, more);
      case Sink(bytes, _) =>
        GetsLaws(bytes);
        PutsLaws(ACK);
        if |r| >= bytes {
          assert (r + more)[bytes..] == r[bytes..] + more;
          ServeWaits(c, r[bytes..], more);
          AppendLaws(Puts(ACK), Serve(c, r[bytes..]));
          AppendLaws(Gets(bytes), Puts(ACK) + Serve(c, r[bytes..]));
        }
      case Source(bytes, _) =>
        GetsLaws(HDR);
        PutsLaws(Zeros(bytes));
        AppendLaws(Puts(Zeros(bytes)), Gets(HDR));
        if |r| >= HDR {
          assert (r + more)[HDR..] == r[HDR..] + more;
          ServeWaits(c, r[HDR..], more);
          AppendLaws(Gets(HDR), Serve(c, r[HDR..]));
          AppendLaws(Puts(Zeros(bytes)), Gets(HDR) + Serve(c, r[HDR..]));
        }
    }
  }

  lemma {:induction false} EchoWaits(c: Codec, size: nat, k: nat, r: seq<Byte>, more: seq<Byte>)
    ensures EchoRounds(c, size, k, r) == EchoRounds(c, size, k, r + more) || Wants(EchoRounds(c, size, k, r)) > |r|
    decreases |r|, 1, k
  {
    GetsLaws(size);
    if k == 0 {
      ServeWaits(c, r, more);
    } else if |r| >= size {
      assert (r + more)[..size] == r[..size] && (r + more)[size..] == r[size..] + more;
      EchoWaits(c, size, k - 1, r[size..], more);
      var p := EchoRounds(c, size, k - 1, r[size..]);
      PutsLaws(r[..size]);
      AppendLaws(Puts(r[..size]), p);
      AppendLaws(Gets(size), Puts(r[..size]) + p);
    }
  }

  // ------------------------------------------------------------------ the client's operations

  datatype Op =
    | EchoPhase(payload: seq<Byte>, iters: nat, warmup: nat)
    | ThroughputTx(total: nat, chunk: nat)
    | ThroughputRx(total: nat, chunk: nat)

  function Command(op: Op): Cmd {
    match op
    case EchoPhase(payload, iters, warmup) => Echo(|payload|, iters + warmup)
    case ThroughputTx(total, chunk) => Sink(total, chunk)
    case ThroughputRx(total, chunk) => Source(total, chunk)
  }

  function CommandFrame(c: Codec, cmd: Cmd): seq<Byte> { Frame(c.enc(cmd)) }

  function OpPhases(c: Codec, op: Op): seq<Phase> {
    [AtoB(CommandFrame(c, Command(op)))]
    + match op {
        case EchoPhase(payload, iters, warmup) => Repeat(RoundTrip(payload), iters + warmup)
        case ThroughputTx(total, _) => [AtoB(Zeros(total)), BtoA(ACK)]
        case ThroughputRx(total, _) => [BtoA(Zeros(total)), AtoB(ACK)]
      }
  }

  function Session(c: Codec, ops: seq<Op>): seq<Phase> {
    if ops == [] then [AtoB(CommandFrame(c, Quit))] else OpPhases(c, ops[0]) + Session(c, ops[1..])
  }

  ghost predicate Usable(c: Codec, ops: seq<Op>) {
    && Faithful(c)
    && |c.enc(Quit)| < 100000000
    && forall op | op in ops :: Supported(Command(op)) && |c.enc(Command(op))| < 100000000
  }

  lemma ServeCommand(c: Codec, cmd: Cmd, rest: seq<Byte>)
    requires Faithful(c) && |c.enc(cmd)| < 100000000
    ensures Serve(c, CommandFrame(c, cmd) + rest) == Gets(|CommandFrame(c, cmd)|) + Exec(c, cmd, rest)
  {
    var body := c.enc(cmd);
    FrameRoundTripIff(body, rest);
    Pow10Of8();
    WidthBound(|body|, HDR);
    assert Unframe(CommandFrame(c, cmd) + rest) == Some((body, rest));
  }

  lemma {:induction false} EchoMirrors(c: Codec, payload: seq<Byte>, k: nat, rest: seq<Byte>)
    ensures EchoRounds(c, |payload|, k, Repeat(payload, k) + rest)
         == Repeat(ReadWrite(payload), k) + Serve(c, rest)
  {
    if k == 0 {
      assert [] + rest == rest && [] + Serve(c, rest) == Serve(c, rest);
    } else {
      EchoMirrors(c, payload, k - 1, rest);
      var r := Repeat(payload, k) + rest;
      assert r == payload + (Repeat(payload, k - 1) + rest);
      assert r[..|payload|] == payload && r[|payload|..] == Repeat(payload, k - 1) + rest;
      var tail := Repeat(ReadWrite(payload), k - 1);
      Associative(Gets(|payload|), Puts(payload), tail + Serve(c, rest));
      Associative(ReadWrite(payload), tail, Serve(c, rest));
    }
  }

  lemma {:induction false} PayloadRepeat(p: Program, k: nat)
    ensures Payload(Repeat(p, k)) == Repeat(Payload(p), k)
  {
    if k > 0 {
      PayloadRepeat(p, k - 1);
      AppendLaws(p, Repeat(p, k - 1));
    }
  }

  lemma PayloadOfRounds(d: seq<Byte>, k: nat)
    ensures Payload(SideA(Repeat(RoundTrip(d), k))) == Repeat(d, k)
    ensures SideB(Repeat(RoundTrip(d), k)) == Repeat(ReadWrite(d), k)
  {
    RepeatSides(RoundTrip(d), k);
    RoundTripSides(d);
    PayloadRepeat(WriteRead(d), k);
    AppendLaws(Puts(d), Gets(|d|));
    PutsLaws(d);
    GetsLaws(|d|);
    assert d + [] == d;
  }

  lemma OnePhaseSides(p: Phase)
    ensures SideA([p]) == PhaseA(p) && SideB([p]) == PhaseB(p)
  {
    assert [p][1..] == [];
    assert PhaseA(p) + [] == PhaseA(p) && PhaseB(p) + [] == PhaseB(p);
  }

  lemma TwoPhaseSides(p: Phase, q: Phase)
    ensures SideA([p, q]) == PhaseA(p) + PhaseA(q) && SideB([p, q]) == PhaseB(p) + PhaseB(q)
  {
    OnePhaseSides(q);
    assert [p, q][1..] == [q];
  }

  /** One operation: the server, fed what the client writes, does the mirror of the client's phases and
      then faces whatever follows. */
  lemma ServeOp(c: Codec, op: Op, rest: seq<Byte>)
    requires Faithful(c) && Supported(Command(op)) && |c.enc(Command(op))| < 100000000
    ensures Serve(c, Payload(SideA(OpPhases(c, op))) + rest) == SideB(OpPhases(c, op)) + Serve(c, rest)
  {
    var f := CommandFrame(c, Command(op));
    var tail := OpPhases(c, op)[1..];
    assert OpPhases(c, op) == [AtoB(f)] + tail;
    SidesAppend([AtoB(f)], tail);
    OnePhaseSides(AtoB(f));
    AppendLaws(Puts(f), SideA(tail));
    PutsLaws(f);
    var data := Payload(SideA(tail));
    Associative(f, data, rest);
    ServeCommand(c, Command(op), data + rest);
    ExecOp(c, op, rest, tail);
    Associative(Gets(|f|), SideB(tail), Serve(c, rest));
  }

  lemma ExecOp(c: Codec, op: Op, rest: seq<Byte>, tail: seq<Phase>)
    requires Supported(Command(op)) && tail == OpPhases(c, op)[1..]
    ensures Exec(c, Command(op), Payload(SideA(tail)) + rest) == SideB(tail) + Serve(c, rest)
  {
    match op {
      case EchoPhase(payload, iters, warmup) =>
        assert tail == Repeat(RoundTrip(payload), iters + warmup);
        PayloadOfRounds(payload, iters + warmup);
        EchoMirrors(c, payload, iters + warmup, rest);
      case ThroughputTx(total, chunk) =>
        ServeSink(c, total, chunk, rest, tail);
      case ThroughputRx(total, chunk) =>
        ServeSource(c, total, chunk, rest, tail);
    }
  }

  lemma ServeSink(c: Codec, total: nat, chunk: nat, rest: seq<Byte>, tail: seq<Phase>)
    requires Supported(Sink(total, chunk)) && tail == [AtoB(Zeros(total)), BtoA(ACK)]
    ensures Exec(c, Sink(total, chunk), Payload(SideA(tail)) + rest) == SideB(tail) + Serve(c, rest)
  {
    TwoPhaseSides(AtoB(Zeros(total)), BtoA(ACK));
    AppendLaws(Puts(Zeros(total)), Gets(|ACK|));
    PutsLaws(Zeros(total));
    GetsLaws(|ACK|);
    assert (Zeros(total) + rest)[total..] == rest;
    Associative(Gets(total), Puts(ACK), Serve(c, rest));
  }

  lemma ServeSource(c: Codec, total: nat, chunk: nat, rest: seq<Byte>, tail: seq<Phase>)
    requires Supported(Source(total, chunk)) && tail == [BtoA(Zeros(total)), AtoB(ACK)]
    ensures Exec(c, Source(total, chunk), Payload(SideA(tail)) + rest) == SideB(tail) + Serve(c, rest)
  {
    TwoPhaseSides(BtoA(Zeros(total)), AtoB(ACK));
    AppendLaws(Gets(total), Puts(ACK));
    PutsLaws(ACK);
    GetsLaws(total);
    assert |Zeros(total)| == total;
    assert (ACK + rest)[HDR..] == rest;
    Associative(Puts(Zeros(total)), Gets(HDR), Serve(c, rest));
  }

  /** The data-driven server, fed a whole session, performs exactly the mirrored schedule. */
  lemma {:induction false} ServerStaysInStep(c: Codec, ops: seq<Op>)
    requires Usable(c, ops)
    ensures Serve(c, Payload(SideA(Session(c, ops)))) == SideB(Session(c, ops))
  {
    if ops == [] {
      var f := CommandFrame(c, Quit);
      OnePhaseSides(AtoB(f));
      PutsLaws(f);
      ServeCommand(c, Quit, []);
      assert f + [] == f && Gets(|f|) + [] == Gets(|f|);
    } else {
      var op, rest := ops[0], ops[1..];
      assert op in ops && forall o | o in rest :: o in ops;
      ServerStaysInStep(c, rest);
      SidesAppend(OpPhases(c, op), Session(c, rest));
      AppendLaws(SideA(OpPhases(c, op)), SideA(Session(c, rest)));
      ServeOp(c, op, Payload(SideA(Session(c, rest))));
    }
  }

  lemma {:induction false} SessionFits(c: Codec, ops: seq<Op>, cap: nat)
    ensures AllFit(Session(c, ops), cap)
  {
    if ops != [] {
      SessionFits(c, ops[1..], cap);
      FitAppend(OpPhases(c, ops[0]), Session(c, ops[1..]), cap);
      var tail := OpPhases(c, ops[0])[1..];
      match ops[0] {
        case EchoPhase(payload, iters, warmup) =>
          FitRepeat(RoundTrip(payload), iters + warmup, cap);
          assert tail == Repeat(RoundTrip(payload), iters + warmup);
        case ThroughputTx(_, _) =>
        case ThroughputRx(_, _) =>
      }
      FitAppend([AtoB(CommandFrame(c, Command(ops[0])))], tail, cap);
      assert OpPhases(c, ops[0]) == [AtoB(CommandFrame(c, Command(ops[0])))] + tail;
    }
  }

  /** Any session over any pipe of at least one byte, under any interleaving and fragmentation: bounded,
      never jammed, and over only with both sides done and both pipes empty at a frame boundary. */
  lemma SessionCompletes(c: Codec, ops: seq<Op>, cap: nat, tr: seq<Net>)
    requires cap >= 1 && Usable(c, ops)
    requires IsRun(cap, tr)
    requires tr[0] == Start(SideA(Session(c, ops)), Serve(c, Payload(SideA(Session(c, ops)))))
    ensures |tr| - 1 <= |SideA(Session(c, ops))| + |SideB(Session(c, ops))|
    ensures !Stuck(cap, Last(tr))
    ensures (forall t :: !Step(cap, Last(tr), t)) ==>
              Finished(Last(tr)) && Last(tr).ab == [] && Last(tr).ba == []
              && Last(tr).gotB == Payload(SideA(Session(c, ops))) && Last(tr).gotA == Payload(SideB(Session(c, ops)))
  {
    ServerStaysInStep(c, ops);
    SessionFits(c, ops, cap);
    EveryRunCompletes(Session(c, ops), cap, tr);
  }

  /** The phases of some operations, without the quit that ends a session. */
  function Ops(c: Codec, ops: seq<Op>): seq<Phase> {
    if ops == [] then [] else OpPhases(c, ops[0]) + Ops(c, ops[1..])
  }

  lemma {:induction false} SessionSplits(c: Codec, done: seq<Op>, rest: seq<Op>)
    ensures Session(c, done + rest) == Ops(c, done) + Session(c, rest)
  {
    if done == [] {
      assert [] + rest == rest && [] + Session(c, rest) == Session(c, rest);
    } else {
      assert (done + rest)[1..] == done[1..] + rest;
      SessionSplits(c, done[1..], rest);
      Associative(OpPhases(c, done[0]), Ops(c, done[1..]), Session(c, rest));
    }
  }

  /** Every operation ends clean. In any run, a client back from its operations so far holds exactly what the server
      sends in them, a server at that point exactly what the client sends in them, and with both there, both pipes
      are empty: the next byte either side reads is the first of the next frame. */
  lemma EveryOperationEndsClean(c: Codec, done: seq<Op>, rest: seq<Op>, cap: nat, tr: seq<Net>)
    requires Usable(c, done + rest) && IsRun(cap, tr)
    requires tr[0] == Start(SideA(Session(c, done + rest)), Serve(c, Payload(SideA(Session(c, done + rest)))))
    ensures var s := Last(tr);
      && (s.a == SideA(Session(c, rest)) ==> s.gotA == Payload(SideB(Ops(c, done))))
      && (s.b == SideB(Session(c, rest)) ==> s.gotB == Payload(SideA(Ops(c, done))))
      && (s.a == SideA(Session(c, rest)) && s.b == SideB(Session(c, rest)) ==> s.ab == [] && s.ba == [])
  {
    var s, ps, qs := Last(tr), Ops(c, done), Session(c, rest);
    ServerStaysInStep(c, done + rest);
    SessionSplits(c, done, rest);
    RunInv(cap, SideA(ps + qs), SideB(ps + qs), tr);
    if s.a == SideA(qs) { BoundaryA(ps, qs, cap, s); }
    if s.b == SideB(qs) { BoundaryB(ps, qs, cap, s); }
    if s.a == SideA(qs) && s.b == SideB(qs) { BoundaryIsClean(ps, qs, cap, s); }
  }

  /** A run against the schedule's fixed mirror is a run of the data-driven server: at every point of it
      what the server has done, and what it does next, is what the bytes it holds commit it to. */
  lemma NextActionIsDecidedByReceivedBytes(c: Codec, r: seq<Byte>, cap: nat, a0: Program, s: Net)
    requires r == Payload(a0) && Inv(cap, a0, Serve(c, r), s)
    ensures var all := Serve(c, r); var done := |all| - |s.b|;
      done <= |Serve(c, s.gotB)| && all[..done] == Serve(c, s.gotB)[..done]
      && (s.b != [] ==> done < |Serve(c, s.gotB)| && s.b[0] == Serve(c, s.gotB)[done])
  {
    var all := Serve(c, r);
    var done := |all| - |s.b|;
    var more := r[|s.gotB|..];
    assert r == s.gotB + (s.ab + Payload(s.a));
    assert r == s.gotB + more;
    ServeIsCausal(c, s.gotB, more);
    ServeWaits(c, s.gotB, more);
    StaysWithin(all, Serve(c, s.gotB), s.b, |s.gotB|);
  }

  /** A known part of a program that is all of it, or asks for more than was received, is not yet used up. */
  lemma StaysWithin(all: Program, known: Program, rest: Program, received: nat)
    requires known <= all && IsSuffix(rest, all) && received + Wants(rest) == Wants(all)
    requires known == all || Wants(known) > received
    ensures |all| - |rest| <= |known| && (rest != [] ==> |all| - |rest| < |known|)
  {
    if known != all && |all| - |rest| >= |known| {
      ApartWants(all, known, rest);
      assert false;
    }
  }

  lemma ThreeParts<T>(all: seq<T>, known: seq<T>, rest: seq<T>)
    requires known <= all && |known| + |rest| <= |all| && rest == all[|all| - |rest|..]
    ensures all == known + all[|known|..|all| - |rest|] + rest
  {
  }

  /** A front and a back that do not overlap want no more than the whole. */
  lemma ApartWants(all: Program, known: Program, rest: Program)
    requires known <= all && IsSuffix(rest, all) && |known| + |rest| <= |all|
    ensures Wants(known) + Wants(rest) <= Wants(all)
  {
    ThreeParts(all, known, rest);
    var mid := all[|known|..|all| - |rest|];
    AppendLaws(known + mid, rest);
    AppendLaws(known, mid);
  }

  // ------------------------------------------------------------------ the loops themselves

  /** recv_exact: fill the first n bytes of the reused buffer, in place. */
  method RecvExact(st: Stream, buf: array<Byte>, n: nat) returns (ok: bool)
    requires n <= buf.Length
    modifies st, buf
    ensures Performed(old(st.trace), old(st.inbox), st.trace, st.inbox, Gets(n), ok)
    ensures ok ==> n <= |old(st.inbox)| && buf[..n] == old(st.inbox)[..n]
    ensures buf[n..] == old(buf[n..])
  {
    GetsLaws(n);
    var got := 0;
    while got < n
      invariant 0 <= got <= n && got <= |old(st.inbox)|
      invariant st.inbox == old(st.inbox)[got..]
      invariant st.trace == old(st.trace) + Gets(got)
      invariant buf[..got] == old(st.inbox)[..got]
      invariant buf[n..] == old(buf[n..])
    {
      var data := st.OsRead(n - got);
      assert Gets(got) + Gets(|data|) == Gets(got + |data|);
      Associative(old(st.trace), Gets(got), Gets(|data|));
      assert data == old(st.inbox)[got..got + |data|];
      if data == [] {
        assert Gets(n) == Gets(got) + Gets(n - got);
        return false;
      }
      forall i | 0 <= i < |data| { buf[got + i] := data[i]; }
      got := got + |data|;
    }
    return true;
  }

  lemma Regrouped<T>(p: seq<T>, q: seq<T>, r: seq<T>, t: seq<T>)
    ensures p + q + r + t == p + (q + (r + t))
  {
  }

  /** One echo: receive into the buffer, send the buffer back. */
  method EchoOnce(st: Stream, c: Codec, buf: array<Byte>, size: nat, ghost k: nat) returns (ok: bool)
    requires size <= buf.Length && k > 0
    modifies st, buf
    ensures |st.inbox| <= |old(st.inbox)|
    ensures ok ==> st.trace + EchoRounds(c, size, k - 1, st.inbox) == old(st.trace) + EchoRounds(c, size, k, old(st.inbox))
    ensures !ok ==> st.trace <= old(st.trace) + EchoRounds(c, size, k, old(st.inbox))
  {
    ghost var t0, i0 := st.trace, st.inbox;
    ok := RecvExact(st, buf, size);
    GetsLaws(size);
    if ok {
      st.WriteAll(buf[..size], BUFFER);
      PutsLaws(buf[..size]);
      ghost var more := EchoRounds(c, size, k - 1, st.inbox);
      assert EchoRounds(c, size, k, i0) == Gets(size) + (Puts(i0[..size]) + more);
      Regrouped(t0, Gets(size), Puts(i0[..size]), more);
    }
  }

  /** The server's echo loop. */
  method EchoLoop(st: Stream, c: Codec, buf: array<Byte>, size: nat, iters: nat) returns (ok: bool)
    requires size <= buf.Length
    modifies st, buf
    ensures |st.inbox| <= |old(st.inbox)|
    ensures ok ==> st.trace + Serve(c, st.inbox) == old(st.trace) + EchoRounds(c, size, iters, old(st.inbox))
    ensures !ok ==> st.trace <= old(st.trace) + EchoRounds(c, size, iters, old(st.inbox))
  {
    ghost var all := old(st.trace) + EchoRounds(c, size, iters, old(st.inbox));
    for i := 0 to iters
      invariant |st.inbox| <= |old(st.inbox)|
      invariant st.trace + EchoRounds(c, size, iters - i, st.inbox) == all
    {
      ok := EchoOnce(st, c, buf, size, iters - i);
      if !ok { return; }
    }
    ok := true;
  }

  /** The server: whatever bytes arrive, in whatever pieces, it performs a prefix of what they commit
      it to, and all of it when it returns normally. */
  method RunServer(st: Stream, c: Codec) returns (ok: bool)
    modifies st
    ensures st.trace <= old(st.trace) + Serve(c, old(st.inbox))
    ensures ok ==> st.trace == old(st.trace) + Serve(c, old(st.inbox))
  {
    ghost var all := old(st.trace) + Serve(c, old(st.inbox));
    var buf := new Byte[BUFFER](_ => 0);
    while true
      invariant st.trace + Serve(c, st.inbox) == all
      decreases |st.inbox|
    {
      ghost var t0, i0 := st.trace, st.inbox;
      var head := new Byte[HDR](_ => 0);
      ok := RecvExact(st, head, HDR);
      GetsLaws(HDR);
      if !ok {
        HeaderFirst(c, i0);
        return;
      }
      assert head[..] == head[..HDR] == i0[..HDR];
      var n := ReadNumber(head[..]);
      if n == None { return true; }
      ghost var t1, i1 := st.trace, st.inbox;
      var bodyBuf := new Byte[n.value](_ => 0);
      ok := RecvExact(st, bodyBuf, n.value);
      GetsLaws(n.value);
      assert Gets(HDR) + Gets(n.value) == Gets(HDR + n.value);
      Associative(t0, Gets(HDR), Gets(n.value));
      if !ok { return; }
      assert bodyBuf[..] == bodyBuf[..n.value] == i0[HDR..HDR + n.value];
      var cmd := c.dec(bodyBuf[..]);
      if cmd == None { return true; }
      Associative(t0, Gets(HDR + n.value), Exec(c, cmd.value, st.inbox));
      assert st.trace + Exec(c, cmd.value, st.inbox) == all;
      if !Supported(cmd.value) || cmd.value.Quit? { return true; }
      ok := Carry(st, c, buf, cmd.value);
      if !ok { return; }
    }
  }

  lemma HeaderFirst(c: Codec, r: seq<Byte>)
    requires |r| < HDR
    ensures Serve(c, r) == Gets(HDR)
  {
  }

  /** One supported command that is not quit. */
  method Carry(st: Stream, c: Codec, buf: array<Byte>, cmd: Cmd) returns (ok: bool)
    requires Supported(cmd) && !cmd.Quit? && buf.Length == BUFFER
    modifies st, buf
    ensures |st.inbox| <= |old(st.inbox)|
    ensures ok ==> st.trace + Serve(c, st.inbox) == old(st.trace) + Exec(c, cmd, old(st.inbox))
    ensures !ok ==> st.trace <= old(st.trace) + Exec(c, cmd, old(st.inbox))
  {
    ghost var t0, i0 := st.trace, st.inbox;
    match cmd {
      case Echo(size, iters) =>
        if iters == 0 { return true; }
        ok := EchoLoop(st, c, buf, size, iters);
      case Sink(bytes, chunk) =>
        ok := st.ReadExact(bytes);
        GetsLaws(bytes);
        if !ok { return; }
        st.WriteAll(ACK, BUFFER);
        Associative(t0, Gets(bytes), Puts(ACK) + Serve(c, st.inbox));
        Associative(t0 + Gets(bytes), Puts(ACK), Serve(c, st.inbox));
      case Source(bytes, chunk) =>
        SendZeros(st, bytes, chunk);
        PutsLaws(Zeros(bytes));
        ghost var t1 := st.trace;
        ok := RecvExact(st, buf, HDR);
        GetsLaws(HDR);
        Associative(t0, Puts(Zeros(bytes)), Gets(HDR));
        if !ok { return; }
        Associative(t0, Puts(Zeros(bytes)), Gets(HDR) + Serve(c, st.inbox));
        Associative(t0 + Puts(Zeros(bytes)), Gets(HDR), Serve(c, st.inbox));
    }
  }

  /** The chunked sender of both throughput directions. */
  method SendZeros(st: Stream, total: nat, chunk: nat)
    requires total > 0 ==> chunk > 0
    modifies st
    ensures Performed(old(st.trace), old(st.inbox), st.trace, st.inbox, Puts(Zeros(total)), true)
  {
    PutsLaws(Zeros(total));
    var sent := 0;
    while sent < total
      invariant 0 <= sent <= total
      invariant st.inbox == old(st.inbox) && st.trace == old(st.trace) + Puts(Zeros(sent))
    {
      var m := if chunk < total - sent then chunk else total - sent;
      st.WriteAll(Zeros(m), BUFFER);
      ZerosAppend(sent, m);
      Associative(old(st.trace), Puts(Zeros(sent)), Puts(Zeros(m)));
      sent := sent + m;
    }
  }

  lemma ZerosAppend(n: nat, m: nat)
    ensures Puts(Zeros(n)) + Puts(Zeros(m)) == Puts(Zeros(n + m))
  {
  }

  method ClientTx(st: Stream, total: nat, chunk: nat) returns (ok: bool)
    requires total > 0 ==> chunk > 0
    modifies st
    ensures Performed(old(st.trace), old(st.inbox), st.trace, st.inbox, Puts(Zeros(total)) + Gets(HDR), ok)
  {
    ghost var t0, i0 := st.trace, st.inbox;
    SendZeros(st, total, chunk);
    Then(t0, i0, st.trace, st.inbox, Puts(Zeros(total)), Gets(HDR), true);
    ok := st.ReadExact(HDR);
  }

  method ClientRx(st: Stream, total: nat) returns (ok: bool)
    modifies st
    ensures Performed(old(st.trace), old(st.inbox), st.trace, st.inbox, Gets(total) + Puts(ACK), ok)
  {
    ghost var t0, i0 := st.trace, st.inbox;
    ok := st.ReadExact(total);
    Then(t0, i0, st.trace, st.inbox, Gets(total), Puts(ACK), ok);
    if !ok { return; }
    st.WriteAll(ACK, BUFFER);
  }

  /** What each client operation does after its command frame. */
  function OpBody(op: Op): Program {
    match op
    case EchoPhase(payload, iters, warmup) => Repeat(WriteRead(payload), iters + warmup)
    case ThroughputTx(total, _) => Puts(Zeros(total)) + Gets(HDR)
    case ThroughputRx(total, _) => Gets(total) + Puts(ACK)
  }

  lemma OpSides(c: Codec, op: Op)
    ensures SideA(OpPhases(c, op)) == Puts(CommandFrame(c, Command(op))) + OpBody(op)
  {
    var f := CommandFrame(c, Command(op));
    var tail := OpPhases(c, op)[1..];
    assert OpPhases(c, op) == [AtoB(f)] + tail;
    SidesAppend([AtoB(f)], tail);
    OnePhaseSides(AtoB(f));
    match op {
      case EchoPhase(payload, iters, warmup) =>
        assert tail == Repeat(RoundTrip(payload), iters + warmup);
        RepeatSides(RoundTrip(payload), iters + warmup);
        RoundTripSides(payload);
      case ThroughputTx(total, chunk) =>
        TwoPhaseSides(AtoB(Zeros(total)), BtoA(ACK));
      case ThroughputRx(total, chunk) =>
        TwoPhaseSides(BtoA(Zeros(total)), AtoB(ACK));
        assert |Zeros(total)| == total;
    }
  }

  method PerformBody(st: Stream, op: Op) returns (ok: bool)
    requires Supported(Command(op))
    modifies st
    ensures Performed(old(st.trace), old(st.inbox), st.trace, st.inbox, OpBody(op), ok)
  {
    match op {
      case EchoPhase(payload, iters, warmup) =>
        assert payload[..|payload|] == payload;
        ok := Rounds(st, payload, |payload|, iters + warmup, BUFFER, false);
      case ThroughputTx(total, chunk) => ok := ClientTx(st, total, chunk);
      case ThroughputRx(total, chunk) => ok := ClientRx(st, total);
    }
  }

  /** The client's three operations perform their side of the operation's phases. */
  method PerformOp(st: Stream, c: Codec, op: Op) returns (ok: bool)
    requires Supported(Command(op))
    modifies st
    ensures Performed(old(st.trace), old(st.inbox), st.trace, st.inbox, SideA(OpPhases(c, op)), ok)
  {
    ghost var t0, i0 := st.trace, st.inbox;
    var f := CommandFrame(c, Command(op));
    ghost var body := OpBody(op);
    st.WriteAll(f, BUFFER);
    Then(t0, i0, st.trace, st.inbox, Puts(f), body, true);
    ok := PerformBody(st, op);
    assert Performed(t0, i0, st.trace, st.inbox, Puts(f) + body, ok);
    OpSides(c, op);
  }
}
