/** container/rootfs/fn_offload_batch.py: how many tokens one all-or-nothing store call may ask for, and
    the store loop its documentation describes: block cursors per group over one token position. */
module OffloadBudget {
  import opened Division
  import opened Optional

  /** An environment variable: absent (or empty), a number, or text that is not one. */
  datatype EnvRead = Unset | Number(r: real) | Garbage

  const DEFAULT_FRAC := 0.25
  const DEFAULT_PROMOTE_FRAC := 0.5

  function ReadFrac(frac: Option<real>, env: EnvRead, default: real): real {
    match frac
    case Some(f) => f
    case None => match env
                 case Number(r) => r
                 case _ => default
  }

  /** Truncation toward zero of a quantity known not to be negative. */
  function Trunc(x: real): nat
    requires x >= 0.0
  {
    x.Floor
  }

  function MinR(x: real, y: real): real { if x <= y then x else y }

  type Size = s: int | s > 0 witness 1

  /** The usable group sizes: absent and non-positive entries are dropped. */
  function Usable(sizes: seq<Option<int>>): seq<Size> {
    if sizes == [] then [] else
      (match sizes[0] case Some(s) => (if s > 0 then [s] else []) case None => []) + Usable(sizes[1..])
  }

  /** Keys produced per token: one key per block of every group. */
  function Rate(sizes: seq<Size>): (r: real)
    ensures r >= 0.0 && (sizes != [] ==> r > 0.0)
  {
    if sizes == [] then 0.0 else 1.0 / sizes[0] as real + Rate(sizes[1..])
  }

  function Coarsest(sizes: seq<Size>): (m: Size)
    requires sizes != []
    ensures m in sizes && forall s | s in sizes :: s <= m
  {
    if |sizes| == 1 then sizes[0] else
      var rest := Coarsest(sizes[1..]);
      assert sizes == [sizes[0]] + sizes[1..];
      if sizes[0] >= rest then sizes[0] else rest
  }

  function BudgetBlocks(blocks: int, frac: real): (n: nat)
    requires blocks > 0 && frac > 0.0
    ensures 1 <= n <= blocks
  {
    FracBound(blocks, MinR(frac, 1.0));
    Max(1, Trunc(blocks as real * MinR(frac, 1.0)))
  }

  lemma FracBound(blocks: int, f: real)
    requires blocks > 0 && 0.0 < f <= 1.0
    ensures 0.0 <= blocks as real * f <= blocks as real
  {
  }

  /** Token budget of one call, None for unbounded. */
  function Budget(blocks: Option<int>, sizes: seq<Option<int>>, frac: Option<real>, env: EnvRead, default: real): Option<nat> {
    if blocks == None || blocks.value <= 0 then None else
      var usable := Usable(sizes);
      var f := ReadFrac(frac, env, default);
      if usable == [] || f <= 0.0 then None else
        Some(TokenBudget(BudgetBlocks(blocks.value, f), usable))
  }

  function TokenBudget(blocks: nat, sizes: seq<Size>): nat
    requires sizes != []
  {
    Max(RawTokens(blocks, sizes), Coarsest(sizes))
  }

  function RawTokens(blocks: nat, sizes: seq<Size>): nat
    requires sizes != []
  {
    Trunc(blocks as real / Rate(sizes))
  }

  /** Unbounded exactly on a tier or group list of no size, or a fraction switched off; bounded, never
      under one block of the coarsest group. */
  function StoreBatchTokens(blocks: Option<int>, sizes: seq<Option<int>>, frac: Option<real>, env: EnvRead): (b: Option<nat>)
    ensures b.None? <==> blocks.None? || blocks.value <= 0 || Usable(sizes) == [] || ReadFrac(frac, env, DEFAULT_FRAC) <= 0.0
    ensures b.Some? ==> b.value >= Coarsest(Usable(sizes))
  {
    Budget(blocks, sizes, frac, env, DEFAULT_FRAC)
  }

  function PromoteBlockBudget(blocks: Option<int>, frac: Option<real>, env: EnvRead): (r: Option<nat>)
    ensures r.Some? <==> blocks.Some? && blocks.value > 0 && ReadFrac(frac, env, DEFAULT_PROMOTE_FRAC) > 0.0
    ensures r.Some? ==> 1 <= r.value <= blocks.value
  {
    if blocks == None || blocks.value <= 0 then None else
      var f := ReadFrac(frac, env, DEFAULT_PROMOTE_FRAC);
      if f <= 0.0 then None else Some(BudgetBlocks(blocks.value, f))
  }

  // ------------------------------------------------------------------ the store loop

  /** Per group, the index of the next block not yet stored. */
  type Cursors = seq<nat>

  /** Every cursor is the floor of one shared token position. */
  predicate Aligned(sizes: seq<Size>, cursors: Cursors, pos: nat) {
    |cursors| == |sizes| && forall g | 0 <= g < |sizes| :: cursors[g] == pos / sizes[g]
  }

  function AlignedAt(sizes: seq<Size>, pos: nat): (c: Cursors)
    ensures Aligned(sizes, c, pos)
  {
    seq(|sizes|, g requires 0 <= g < |sizes| => pos / sizes[g])
  }

  /** The laggard's position in tokens. */
  function Laggard(sizes: seq<Size>, cursors: Cursors): nat
    requires sizes != [] && |cursors| == |sizes|
  {
    var first := cursors[0] * sizes[0];
    if |sizes| == 1 then first else Min(first, Laggard(sizes[1..], cursors[1..]))
  }

  lemma {:induction false} LaggardIsLeast(sizes: seq<Size>, cursors: Cursors) returns (at: nat)
    requires sizes != [] && |cursors| == |sizes|
    ensures at < |sizes| && Laggard(sizes, cursors) == cursors[at] * sizes[at]
    ensures AllPast(sizes, cursors, Laggard(sizes, cursors))
  {
    at := 0;
    if |sizes| > 1 {
      var rest := LaggardIsLeast(sizes[1..], cursors[1..]);
      if Laggard(sizes[1..], cursors[1..]) < cursors[0] * sizes[0] { at := rest + 1; }
      forall g | 0 <= g < |sizes| ensures Past(cursors[g], sizes[g], Laggard(sizes, cursors)) {
        if g > 0 {
          assert cursors[g] == cursors[1..][g - 1] && sizes[g] == sizes[1..][g - 1];
          assert Past(cursors[1..][g - 1], sizes[1..][g - 1], Laggard(sizes[1..], cursors[1..]));
        }
      }
    }
  }

  /** Where one step aims: the laggard plus the budget (no budget: everything), capped by the tokens. */
  function Target(sizes: seq<Size>, cursors: Cursors, budget: Option<nat>, tokens: nat): nat
    requires sizes != [] && |cursors| == |sizes|
  {
    match budget
    case None => tokens
    case Some(b) => Min(Laggard(sizes, cursors) + b, tokens)
  }

  /** The keys of one call: each group's blocks from its own cursor up to the target. */
  function Ask(sizes: seq<Size>, cursors: Cursors, target: nat): int
    requires |cursors| == |sizes|
  {
    if sizes == [] then 0 else (target / sizes[0] - cursors[0]) + Ask(sizes[1..], cursors[1..], target)
  }

  /** One step. The call is all-or-nothing: with `room` free slots it either stages every key, and every
      cursor is assigned outright, or nothing advances. */
  function StoreStep(sizes: seq<Size>, cursors: Cursors, budget: Option<nat>, tokens: nat, room: int): Cursors
    requires sizes != [] && |cursors| == |sizes|
  {
    var target := Target(sizes, cursors, budget, tokens);
    if Ask(sizes, cursors, target) <= room then AlignedAt(sizes, target) else cursors
  }

  lemma DivMono(n: nat, m: nat, d: Size)
    requires n <= m
    ensures n / d <= m / d
  {
    DivMod(n, d);
    DivMod(m, d);
    MulLess(n / d, m / d + 1, d);
  }

  /** The laggard trails the shared position by less than one block of the coarsest group. */
  lemma LaggardGap(sizes: seq<Size>, cursors: Cursors, pos: nat)
    requires sizes != [] && Aligned(sizes, cursors, pos)
    ensures Laggard(sizes, cursors) <= pos < Laggard(sizes, cursors) + Coarsest(sizes)
  {
    var g := LaggardIsLeast(sizes, cursors);
    DivMod(pos, sizes[g]);
    assert sizes[g] in sizes;
  }

  /** Where a step lands when the floor is respected: at or past the shared position, and short of the
      cap a whole budget past the laggard. */
  lemma TargetAdvances(sizes: seq<Size>, cursors: Cursors, pos: nat, b: nat, tokens: nat)
    requires sizes != [] && Aligned(sizes, cursors, pos) && pos <= tokens && b >= Coarsest(sizes)
    ensures var t := Target(sizes, cursors, Some(b), tokens);
      && pos <= t <= tokens
      && (t < tokens ==> pos + (b - Coarsest(sizes)) < t && t == Laggard(sizes, cursors) + b)
  {
    LaggardGap(sizes, cursors, pos);
  }

  lemma GroupAdvances(cursor: nat, size: Size, t: nat, b: nat)
    requires t == cursor * size + b && size <= b
    ensures cursor < t / size
  {
    DivMod(t, size);
    MulLess(cursor + 1, t / size + 1, size);
  }

  /** With the floor respected a step from an aligned state never rewinds a cursor, and short of the cap
      it moves every group that was at the laggard's position. */
  lemma StepNeverRewinds(sizes: seq<Size>, cursors: Cursors, pos: nat, b: nat, tokens: nat, g: nat)
    requires sizes != [] && Aligned(sizes, cursors, pos) && pos <= tokens && b >= Coarsest(sizes)
    requires g < |sizes|
    ensures var t := Target(sizes, cursors, Some(b), tokens);
      && cursors[g] <= t / sizes[g]
      && (t < tokens && cursors[g] * sizes[g] == Laggard(sizes, cursors) ==> cursors[g] < t / sizes[g])
  {
    TargetAdvances(sizes, cursors, pos, b, tokens);
    var t := Target(sizes, cursors, Some(b), tokens);
    DivMono(pos, t, sizes[g]);
    if t < tokens && cursors[g] * sizes[g] == Laggard(sizes, cursors) {
      assert sizes[g] in sizes;
      GroupAdvances(cursors[g], sizes[g], t, b);
    }
  }

  // ------------------------------------------------------------------ runs of the loop

  /** One scheduling step: the tokens available now, and the free slots of the tier. */
  datatype Turn = Turn(tokens: nat, room: int)

  function Run(sizes: seq<Size>, cursors: Cursors, budget: Option<nat>, turns: seq<Turn>): Cursors
    requires sizes != [] && |cursors| == |sizes|
    decreases |turns|
  {
    if turns == [] then cursors else
      Run(sizes, StoreStep(sizes, cursors, budget, turns[0].tokens, turns[0].room), budget, turns[1..])
  }

  ghost predicate Growing(turns: seq<Turn>, from: nat) {
    (forall i | 0 <= i < |turns| :: from <= turns[i].tokens)
    && forall i, j | 0 <= i < j < |turns| :: turns[i].tokens <= turns[j].tokens
  }

  lemma StepAligned(sizes: seq<Size>, pos: nat, b: nat, turn: Turn) returns (next: nat)
    requires sizes != [] && b >= Coarsest(sizes) && pos <= turn.tokens
    ensures StoreStep(sizes, AlignedAt(sizes, pos), Some(b), turn.tokens, turn.room) == AlignedAt(sizes, next)
    ensures pos <= next <= turn.tokens
    ensures NotBehind(AlignedAt(sizes, pos), AlignedAt(sizes, next))
  {
    var c := AlignedAt(sizes, pos);
    var t := Target(sizes, c, Some(b), turn.tokens);
    TargetAdvances(sizes, c, pos, b, turn.tokens);
    forall g | 0 <= g < |sizes| ensures c[g] <= AlignedAt(sizes, t)[g] {
      StepNeverRewinds(sizes, c, pos, b, turn.tokens, g);
    }
    next := if Ask(sizes, c, t) <= turn.room then t else pos;
  }

  ghost predicate NotBehind(c: Cursors, d: Cursors) {
    |c| == |d| && forall g | 0 <= g < |c| :: c[g] <= d[g]
  }

  /** Over any run, refusals included: always aligned, never rewound, never past the tokens. */
  lemma {:induction false} RunStaysAligned(sizes: seq<Size>, pos: nat, b: nat, turns: seq<Turn>) returns (end: nat)
    requires sizes != [] && b >= Coarsest(sizes) && Growing(turns, pos)
    ensures Run(sizes, AlignedAt(sizes, pos), Some(b), turns) == AlignedAt(sizes, end)
    ensures pos <= end && if turns == [] then end == pos else end <= turns[|turns| - 1].tokens
    ensures NotBehind(AlignedAt(sizes, pos), Run(sizes, AlignedAt(sizes, pos), Some(b), turns))
    decreases |turns|
  {
    if turns == [] {
      end := pos;
    } else {
      var next := StepAligned(sizes, pos, b, turns[0]);
      var rest := turns[1..];
      forall i | 0 <= i < |rest| ensures next <= rest[i].tokens { assert rest[i] == turns[i + 1]; }
      end := RunStaysAligned(sizes, next, b, rest);
      if rest != [] { assert rest[|rest| - 1] == turns[|turns| - 1]; }
    }
  }

  /** The call is accepted: the tier has room for every key asked for. */
  predicate Accepts(sizes: seq<Size>, cursors: Cursors, b: nat, turn: Turn)
    requires sizes != [] && |cursors| == |sizes|
  {
    Ask(sizes, cursors, Target(sizes, cursors, Some(b), turn.tokens)) <= turn.room
  }

  /** The step aims short of what there is to store. */
  predicate Short(sizes: seq<Size>, cursors: Cursors, b: nat, turn: Turn)
    requires sizes != [] && |cursors| == |sizes|
  {
    Target(sizes, cursors, Some(b), turn.tokens) < turn.tokens
  }

  /** Over a run: accepted steps that stop short of their tokens, and accepted steps that store all of them. */
  function ShortSteps(sizes: seq<Size>, cursors: Cursors, b: nat, turns: seq<Turn>): nat
    requires sizes != [] && |cursors| == |sizes|
    decreases |turns|
  {
    if turns == [] then 0 else
      (if Accepts(sizes, cursors, b, turns[0]) && Short(sizes, cursors, b, turns[0]) then 1 else 0)
      + ShortSteps(sizes, StoreStep(sizes, cursors, Some(b), turns[0].tokens, turns[0].room), b, turns[1..])
  }

  function FullSteps(sizes: seq<Size>, cursors: Cursors, b: nat, turns: seq<Turn>): nat
    requires sizes != [] && |cursors| == |sizes|
    decreases |turns|
  {
    if turns == [] then 0 else
      (if Accepts(sizes, cursors, b, turns[0]) && !Short(sizes, cursors, b, turns[0]) then 1 else 0)
      + FullSteps(sizes, StoreStep(sizes, cursors, Some(b), turns[0].tokens, turns[0].room), b, turns[1..])
  }

  /** What one turn does to the shared position: nothing if refused, all there is if not short, else more than the
      slack over the floor. */
  lemma TurnGains(sizes: seq<Size>, pos: nat, b: nat, turn: Turn) returns (next: nat)
    requires sizes != [] && b >= Coarsest(sizes) && pos <= turn.tokens
    ensures var c := AlignedAt(sizes, pos);
      && StoreStep(sizes, c, Some(b), turn.tokens, turn.room) == AlignedAt(sizes, next)
      && pos <= next <= turn.tokens
      && (!Accepts(sizes, c, b, turn) ==> next == pos)
      && (Accepts(sizes, c, b, turn) && !Short(sizes, c, b, turn) ==> next == turn.tokens)
      && (Accepts(sizes, c, b, turn) && Short(sizes, c, b, turn) ==> next >= pos + (b - Coarsest(sizes) + 1))
  {
    var c := AlignedAt(sizes, pos);
    TargetAdvances(sizes, c, pos, b, turn.tokens);
    next := if Accepts(sizes, c, b, turn) then Target(sizes, c, Some(b), turn.tokens) else pos;
  }

  lemma GrowingTail(turns: seq<Turn>, from: nat, next: nat)
    requires turns != [] && Growing(turns, from) && next <= turns[0].tokens
    ensures Growing(turns[1..], next)
    ensures |turns| > 1 ==> turns[1..][|turns| - 2] == turns[|turns| - 1]
  {
    var rest := turns[1..];
    forall i | 0 <= i < |rest| ensures next <= rest[i].tokens { assert rest[i] == turns[i + 1]; }
    forall i, j | 0 <= i < j < |rest| ensures rest[i].tokens <= rest[j].tokens {
      assert rest[i] == turns[i + 1] && rest[j] == turns[j + 1];
    }
  }

  /** Any run, whatever the refusals and however the token count grows: every accepted step that stops short gains
      more than the slack over the floor, so there are only so many of them. */
  lemma {:induction false} RunCompletes(sizes: seq<Size>, pos: nat, b: nat, turns: seq<Turn>) returns (end: nat)
    requires sizes != [] && b >= Coarsest(sizes) && Growing(turns, pos)
    ensures Run(sizes, AlignedAt(sizes, pos), Some(b), turns) == AlignedAt(sizes, end)
    ensures pos <= end && if turns == [] then end == pos else end <= turns[|turns| - 1].tokens
    ensures pos + Times(ShortSteps(sizes, AlignedAt(sizes, pos), b, turns), b - Coarsest(sizes) + 1) <= end
    decreases |turns|
  {
    if turns == [] {
      end := pos;
    } else {
      var next := TurnGains(sizes, pos, b, turns[0]);
      GrowingTail(turns, pos, next);
      end := RunCompletes(sizes, next, b, turns[1..]);
    }
  }

  /** k times d, by repeated addition. */
  function Times(k: nat, d: nat): (r: nat)
    ensures r == k * d
  {
    if k == 0 then 0 else d + Times(k - 1, d)
  }

  /** So in any run with more accepted steps than tokens missing, some step has stored all there was at its time. */
  lemma EnoughStepsStoreEverything(sizes: seq<Size>, pos: nat, b: nat, turns: seq<Turn>) returns (i: nat)
    requires sizes != [] && b >= Coarsest(sizes) && Growing(turns, pos) && turns != []
    requires ShortSteps(sizes, AlignedAt(sizes, pos), b, turns) + FullSteps(sizes, AlignedAt(sizes, pos), b, turns)
             > turns[|turns| - 1].tokens - pos
    ensures i < |turns|
    ensures Run(sizes, AlignedAt(sizes, pos), Some(b), turns[..i + 1]) == AlignedAt(sizes, turns[i].tokens)
  {
    var end := RunCompletes(sizes, pos, b, turns);
    AtLeast(ShortSteps(sizes, AlignedAt(sizes, pos), b, turns), b - Coarsest(sizes) + 1);
    i := FullStepStoresAll(sizes, AlignedAt(sizes, pos), b, turns);
  }

  lemma {:induction false} FullStepStoresAll(sizes: seq<Size>, cursors: Cursors, b: nat, turns: seq<Turn>) returns (i: nat)
    requires sizes != [] && |cursors| == |sizes| && FullSteps(sizes, cursors, b, turns) > 0
    ensures i < |turns| && Run(sizes, cursors, Some(b), turns[..i + 1]) == AlignedAt(sizes, turns[i].tokens)
    decreases |turns|
  {
    var next := StoreStep(sizes, cursors, Some(b), turns[0].tokens, turns[0].room);
    if Accepts(sizes, cursors, b, turns[0]) && !Short(sizes, cursors, b, turns[0]) {
      i := 0;
      RunOne(sizes, cursors, b, turns[0]);
      assert turns[..1] == [turns[0]];
    } else {
      i := FullStepStoresAll(sizes, next, b, turns[1..]);
      assert turns[..i + 2][1..] == turns[1..][..i + 1];
      i := i + 1;
    }
  }

  lemma RunOne(sizes: seq<Size>, cursors: Cursors, b: nat, turn: Turn)
    requires sizes != [] && |cursors| == |sizes|
    ensures Run(sizes, cursors, Some(b), [turn]) == StoreStep(sizes, cursors, Some(b), turn.tokens, turn.room)
  {
    assert [turn][1..] == [];
  }

  /** At a token count that stands still, as many accepted steps as tokens missing store everything, and keep it
      stored, however many refusals come between. */
  lemma {:induction false} FixedCountIsStored(sizes: seq<Size>, pos: nat, b: nat, tokens: nat, turns: seq<Turn>)
    requires sizes != [] && b >= Coarsest(sizes) && pos <= tokens && forall i | 0 <= i < |turns| :: turns[i].tokens == tokens
    requires ShortSteps(sizes, AlignedAt(sizes, pos), b, turns) + FullSteps(sizes, AlignedAt(sizes, pos), b, turns) >= tokens - pos
    ensures Run(sizes, AlignedAt(sizes, pos), Some(b), turns) == AlignedAt(sizes, tokens)
    decreases |turns|
  {
    if turns != [] {
      var next := TurnGains(sizes, pos, b, turns[0]);
      FixedCountIsStored(sizes, next, b, tokens, turns[1..]);
    }
  }

  lemma {:induction false} AtLeast(k: nat, d: nat)
    requires d >= 1
    ensures Times(k, d) >= k
  {
    if k > 0 { AtLeast(k - 1, d); }
  }

  // ------------------------------------------------------------------ how much one step asks for

  /** The most keys a span of tokens can produce, in whole keys. */
  function AskBound(sizes: seq<Size>, span: nat): nat {
    Trunc(Scaled(span, Rate(sizes)))
  }

  lemma AskBoundMono(sizes: seq<Size>, n: nat, m: nat)
    requires n <= m
    ensures AskBound(sizes, n) <= AskBound(sizes, m)
  {
    ScaleMono(n, m, Rate(sizes));
    FloorMono(Scaled(n, Rate(sizes)), Scaled(m, Rate(sizes)));
  }

  lemma ScaleMono(n: int, m: int, x: real)
    requires n <= m && x >= 0.0
    ensures Scaled(n, x) <= Scaled(m, x)
  {
    ScaleDown(n as real, m as real, x);
  }

  lemma FloorMono(x: real, y: real)
    requires x <= y
    ensures x.Floor <= y.Floor
  {
  }

  /** Every group's cursor is at or past this token position. */
  ghost predicate AllPast(sizes: seq<Size>, cursors: Cursors, lag: nat)
    requires |cursors| == |sizes|
  {
    forall g | 0 <= g < |sizes| :: Past(cursors[g], sizes[g], lag)
  }

  predicate Past(cursor: nat, size: Size, lag: nat) { lag <= cursor * size }

  lemma {:induction false} AskReal(sizes: seq<Size>, cursors: Cursors, lag: nat, target: nat)
    requires |cursors| == |sizes| && AllPast(sizes, cursors, lag)
    ensures Ask(sizes, cursors, target) as real <= Scaled(target - lag, Rate(sizes))
  {
    if sizes == [] {
      ScaleZero(target - lag);
    } else {
      assert Past(cursors[0], sizes[0], lag);
      assert AllPast(sizes[1..], cursors[1..], lag) by {
        forall g | 0 <= g < |sizes[1..]| ensures Past(cursors[1..][g], sizes[1..][g], lag) {
          assert cursors[1..][g] == cursors[g + 1] && sizes[1..][g] == sizes[g + 1];
          assert Past(cursors[g + 1], sizes[g + 1], lag);
        }
      }
      AskReal(sizes[1..], cursors[1..], lag, target);
      OneGroup(target, lag, sizes[0], cursors[0]);
      ScaleSum(target - lag, 1.0 / sizes[0] as real, Rate(sizes[1..]));
    }
  }

  /** A whole number times a real. */
  function Scaled(n: int, x: real): real { n as real * x }

  lemma ScaleZero(n: int)
    ensures Scaled(n, 0.0) == 0.0
  {
  }

  lemma ScaleSum(n: int, x: real, y: real)
    ensures Scaled(n, x + y) == Scaled(n, x) + Scaled(n, y)
  {
  }

  lemma OneGroup(target: nat, lag: nat, s: Size, c: nat)
    requires Past(c, s, lag)
    ensures (target / s - c) as real <= Scaled(target - lag, 1.0 / s as real)
  {
    DivMod(target, s);
    BlocksOfSpan(target - lag, s, target / s - c, c);
  }

  lemma BlocksOfSpan(d: int, s: Size, k: int, c: nat)
    requires k * s <= d
    ensures k as real <= Scaled(d, 1.0 / s as real)
  {
    var inv := 1.0 / s as real;
    assert s as real * inv == 1.0;
    assert (k * s) as real == k as real * s as real;
    assert k as real == k as real * (s as real * inv) == (k as real * s as real) * inv;
    ScaleDown((k * s) as real, d as real, inv);
  }

  lemma ScaleDown(x: real, y: real, k: real)
    requires x <= y && k >= 0.0
    ensures x * k <= y * k
  {
  }

  lemma AskWithinRate(sizes: seq<Size>, cursors: Cursors, lag: nat, target: nat)
    requires |cursors| == |sizes| && lag <= target && AllPast(sizes, cursors, lag)
    ensures Ask(sizes, cursors, target) <= AskBound(sizes, target - lag)
  {
    AskReal(sizes, cursors, lag, target);
    FloorOver(Ask(sizes, cursors, target), Scaled(target - lag, Rate(sizes)));
  }

  lemma FloorOver(n: int, x: real)
    requires n as real <= x
    ensures n <= x.Floor
  {
  }

  /** When the floor does not bite, one step never asks for more than its share of the tier, whatever
      state it starts from and however far the token count has grown: a drained tier always accepts. */
  lemma AskNeverExceedsShare(blocks: nat, sizes: seq<Size>, cursors: Cursors, tokens: nat)
    requires sizes != [] && |cursors| == |sizes|
    requires Coarsest(sizes) <= RawTokens(blocks, sizes)
    requires Laggard(sizes, cursors) <= tokens
    ensures Ask(sizes, cursors, Target(sizes, cursors, Some(TokenBudget(blocks, sizes)), tokens)) <= blocks
  {
    var at := LaggardIsLeast(sizes, cursors);
    AskOfSpan(blocks, sizes, cursors, Laggard(sizes, cursors), Target(sizes, cursors, Some(TokenBudget(blocks, sizes)), tokens));
  }

  lemma AskOfSpan(blocks: nat, sizes: seq<Size>, cursors: Cursors, lag: nat, t: nat)
    requires sizes != [] && |cursors| == |sizes| && AllPast(sizes, cursors, lag)
    requires lag <= t <= lag + RawTokens(blocks, sizes)
    ensures Ask(sizes, cursors, t) <= blocks
  {
    AskReal(sizes, cursors, lag, t);
    WithinShare(blocks as real, Rate(sizes), RawTokens(blocks, sizes), t - lag);
    FloorOver(Ask(sizes, cursors, t), blocks as real);
  }

  lemma WithinShare(share: real, rate: real, raw: nat, span: nat)
    requires rate > 0.0 && share >= 0.0 && raw == (share / rate).Floor && span <= raw
    ensures Scaled(span, rate) <= share
  {
    assert share / rate * rate == share;
    ScaleDown(span as real, share / rate, rate);
  }

  /** In the resolver's terms: the share is at most the tier, so the ask is too. */
  lemma AskNeverExceedsTier(num: int, sizes: seq<Option<int>>, frac: Option<real>, env: EnvRead, cursors: Cursors, tokens: nat)
    requires num > 0 && Usable(sizes) != [] && ReadFrac(frac, env, DEFAULT_FRAC) > 0.0
    requires |cursors| == |Usable(sizes)| && Laggard(Usable(sizes), cursors) <= tokens
    requires Coarsest(Usable(sizes)) <= RawTokens(BudgetBlocks(num, ReadFrac(frac, env, DEFAULT_FRAC)), Usable(sizes))
    ensures var budget := StoreBatchTokens(Some(num), sizes, frac, env);
      && budget.Some?
      && Ask(Usable(sizes), cursors, Target(Usable(sizes), cursors, budget, tokens)) <= num
      && StoreStep(Usable(sizes), cursors, budget, tokens, num)
         == AlignedAt(Usable(sizes), Target(Usable(sizes), cursors, budget, tokens))
  {
    AskNeverExceedsShare(BudgetBlocks(num, ReadFrac(frac, env, DEFAULT_FRAC)), Usable(sizes), cursors, tokens);
  }

  /** The whole budget, over all groups, fits the share it was cut from. */
  lemma AskBoundWithinShare(blocks: nat, sizes: seq<Size>)
    requires sizes != [] && Coarsest(sizes) <= RawTokens(blocks, sizes)
    ensures AskBound(sizes, TokenBudget(blocks, sizes)) <= blocks
  {
    var raw := RawTokens(blocks, sizes);
    WithinShare(blocks as real, Rate(sizes), raw, raw);
    FloorUnder(Scaled(raw, Rate(sizes)), blocks);
  }

  lemma FloorUnder(x: real, n: int)
    requires x <= n as real
    ensures x.Floor <= n
  {
  }

  // ------------------------------------------------------------------ the budget is the most the share allows

  lemma FloorIff(k: int, x: real)
    ensures k <= x.Floor <==> k as real <= x
  {
  }

  /** A number of tokens is within the budget exactly when its keys fit the share, or one coarsest block holds it. */
  lemma BudgetIsTheMost(blocks: nat, sizes: seq<Size>, n: nat)
    requires sizes != []
    ensures n <= TokenBudget(blocks, sizes) <==> n <= Coarsest(sizes) || Scaled(n, Rate(sizes)) <= blocks as real
  {
    var raw := RawTokens(blocks, sizes);
    if n <= raw {
      WithinShare(blocks as real, Rate(sizes), raw, n);
    } else {
      OverShare(blocks as real, Rate(sizes), n);
    }
  }

  /** One token more would not fit. */
  lemma OneMoreIsTooMany(blocks: nat, sizes: seq<Size>)
    requires sizes != []
    ensures Scaled(TokenBudget(blocks, sizes) + 1, Rate(sizes)) > blocks as real
  {
    BudgetIsTheMost(blocks, sizes, TokenBudget(blocks, sizes) + 1);
  }

  /** So many blocks may be spent: at most one, or within the fraction of the tier. */
  ghost predicate MaySpend(blocks: int, frac: real, k: int) { k <= 1 || k as real <= blocks as real * MinR(frac, 1.0) }

  /** The share is the most blocks that may be spent. */
  lemma ShareIsTheMost(blocks: int, frac: real, k: int)
    requires blocks > 0 && frac > 0.0
    ensures k <= BudgetBlocks(blocks, frac) <==> MaySpend(blocks, frac, k)
  {
    FracBound(blocks, MinR(frac, 1.0));
    FloorIff(k, blocks as real * MinR(frac, 1.0));
  }

  /** The keys fit into blocks that may be spent. */
  ghost predicate Affordable(blocks: int, frac: real, keys: real) {
    exists k: int :: MaySpend(blocks, frac, k) && keys <= k as real
  }

  lemma AffordableIff(blocks: int, frac: real, keys: real)
    requires blocks > 0 && frac > 0.0
    ensures Affordable(blocks, frac, keys) <==> keys <= BudgetBlocks(blocks, frac) as real
  {
    var share := BudgetBlocks(blocks, frac);
    ShareIsTheMost(blocks, frac, share);
    assert MaySpend(blocks, frac, share);
    if k: int :| MaySpend(blocks, frac, k) && keys <= k as real { ShareIsTheMost(blocks, frac, k); }
  }

  /** The usable sizes are the positive ones, each as often as it was given. */
  lemma {:induction false} UsableIff(sizes: seq<Option<int>>, s: Size)
    ensures multiset(Usable(sizes))[s] == multiset(sizes)[Some(s as int)]
  {
    if sizes != [] {
      assert sizes == [sizes[0]] + sizes[1..];
      UsableIff(sizes[1..], s);
      CountHead(sizes[0], sizes[1..], Some(s as int));
      var first := sizes[0];
      if first.Some? && first.value > 0 { CountHead(first.value as Size, Usable(sizes[1..]), s); }
    }
  }

  lemma CountHead<T>(head: T, rest: seq<T>, x: T)
    ensures multiset([head] + rest)[x] == (if head == x then 1 else 0) + multiset(rest)[x]
  {
  }

  /** An explicit fraction silences the environment; without one a number there is the fraction, and anything else
      leaves the default. */
  lemma FractionRead(env: EnvRead, other: EnvRead, default: real)
    ensures forall f :: ReadFrac(Some(f), env, default) == ReadFrac(Some(f), other, default)
    ensures env.Number? ==> ReadFrac(None, env, default) == ReadFrac(Some(env.r), other, default)
    ensures !env.Number? ==> ReadFrac(None, env, default) == ReadFrac(Some(default), other, default)
  {
  }

  /** The token budget in the resolver's terms: the most tokens whose keys fit the blocks that may be spent, and never
      under one coarsest block. */
  lemma StoreBudgetIsTheMost(num: int, sizes: seq<Option<int>>, frac: Option<real>, env: EnvRead, n: nat)
    requires num > 0 && Usable(sizes) != [] && ReadFrac(frac, env, DEFAULT_FRAC) > 0.0
    ensures StoreBatchTokens(Some(num), sizes, frac, env).Some?
    ensures n <= StoreBatchTokens(Some(num), sizes, frac, env).value <==>
      n <= Coarsest(Usable(sizes)) || Affordable(num, ReadFrac(frac, env, DEFAULT_FRAC), Scaled(n, Rate(Usable(sizes))))
  {
    var f := ReadFrac(frac, env, DEFAULT_FRAC);
    BudgetIsTheMost(BudgetBlocks(num, f), Usable(sizes), n);
    AffordableIff(num, f, Scaled(n, Rate(Usable(sizes))));
  }

  /** The promotion budget likewise. */
  lemma PromoteBudgetIsTheMost(num: int, frac: Option<real>, env: EnvRead, k: int)
    requires num > 0 && ReadFrac(frac, env, DEFAULT_PROMOTE_FRAC) > 0.0
    ensures PromoteBlockBudget(Some(num), frac, env).Some?
    ensures k <= PromoteBlockBudget(Some(num), frac, env).value <==> MaySpend(num, ReadFrac(frac, env, DEFAULT_PROMOTE_FRAC), k)
  {
    ShareIsTheMost(num, ReadFrac(frac, env, DEFAULT_PROMOTE_FRAC), k);
  }

  /** Room for the whole budget is room for any step from an aligned state. */
  lemma RoomAccepts(sizes: seq<Size>, pos: nat, b: nat, turn: Turn)
    requires sizes != [] && pos <= turn.tokens && turn.room >= AskBound(sizes, b)
    ensures Accepts(sizes, AlignedAt(sizes, pos), b, turn)
  {
    var c := AlignedAt(sizes, pos);
    var t := Target(sizes, c, Some(b), turn.tokens);
    LaggardGap(sizes, c, pos);
    var at := LaggardIsLeast(sizes, c);
    AskWithinRate(sizes, c, Laggard(sizes, c), t);
    AskBoundMono(sizes, t - Laggard(sizes, c), b);
  }

  lemma {:induction false} AllAccepted(sizes: seq<Size>, pos: nat, b: nat, turns: seq<Turn>)
    requires sizes != [] && b >= Coarsest(sizes) && Growing(turns, pos)
    requires forall i | 0 <= i < |turns| :: turns[i].room >= AskBound(sizes, b)
    ensures ShortSteps(sizes, AlignedAt(sizes, pos), b, turns) + FullSteps(sizes, AlignedAt(sizes, pos), b, turns) == |turns|
    decreases |turns|
  {
    if turns != [] {
      RoomAccepts(sizes, pos, b, turns[0]);
      var next := TurnGains(sizes, pos, b, turns[0]);
      GrowingTail(turns, pos, next);
      forall i | 0 <= i < |turns[1..]| ensures turns[1..][i].room >= AskBound(sizes, b) { assert turns[1..][i] == turns[i + 1]; }
      AllAccepted(sizes, next, b, turns[1..]);
    }
  }

  /** Completion tied to the tier. With the resolver's budget and the floor not biting, a tier that drains before
      every step accepts every step, so a run of more steps than tokens missing has stored all there was. */
  lemma DrainedTierStoresEverything(num: int, sizes: seq<Option<int>>, frac: Option<real>, env: EnvRead, pos: nat, turns: seq<Turn>)
    returns (i: nat)
    requires num > 0 && Usable(sizes) != [] && ReadFrac(frac, env, DEFAULT_FRAC) > 0.0
    requires Coarsest(Usable(sizes)) <= RawTokens(BudgetBlocks(num, ReadFrac(frac, env, DEFAULT_FRAC)), Usable(sizes))
    requires Growing(turns, pos) && turns != [] && |turns| > turns[|turns| - 1].tokens - pos
    requires forall i | 0 <= i < |turns| :: turns[i].room >= num
    ensures i < |turns|
    ensures Run(Usable(sizes), AlignedAt(Usable(sizes), pos), StoreBatchTokens(Some(num), sizes, frac, env), turns[..i + 1])
      == AlignedAt(Usable(sizes), turns[i].tokens)
  {
    var share := BudgetBlocks(num, ReadFrac(frac, env, DEFAULT_FRAC));
    var b := TokenBudget(share, Usable(sizes));
    AskBoundWithinShare(share, Usable(sizes));
    AllAccepted(Usable(sizes), pos, b, turns);
    i := EnoughStepsStoreEverything(Usable(sizes), pos, b, turns);
  }

  // ------------------------------------------------------------------ both conditions are needed

  /** From the start, with budget b: the loop gets off the ground for every token count exactly when the
      budget reaches the coarsest block. Below it, the coarsest group never stores anything. */
  lemma LoopLeavesZeroIff(sizes: seq<Size>, b: nat, tokens: nat)
    requires sizes != [] && tokens >= Coarsest(sizes)
    ensures b >= Coarsest(sizes) <==> Laggard(sizes, AlignedAt(sizes, Target(sizes, AlignedAt(sizes, 0), Some(b), tokens))) > 0
  {
    ZeroStart(sizes);
    LaggardPositiveIff(sizes, Min(b, tokens));
  }

  lemma LaggardPositiveIff(sizes: seq<Size>, t: nat)
    requires sizes != []
    ensures t >= Coarsest(sizes) <==> Laggard(sizes, AlignedAt(sizes, t)) > 0
  {
    var c := AlignedAt(sizes, t);
    var at := LaggardIsLeast(sizes, c);
    var g :| 0 <= g < |sizes| && sizes[g] == Coarsest(sizes);
    assert sizes[at] in sizes;
    FloorPositiveIff(t, sizes[at]);
    FloorPositiveIff(t, sizes[g]);
  }

  lemma FloorPositiveIff(t: nat, s: Size)
    ensures t >= s <==> t / s * s > 0
  {
    DivMod(t, s);
    if t >= s {
      MulLess(1, t / s + 1, s);
    } else {
      MulLess(t / s, 1, s);
    }
  }

  lemma ZeroStart(sizes: seq<Size>)
    ensures forall g | 0 <= g < |sizes| :: AlignedAt(sizes, 0)[g] == 0
    ensures sizes != [] ==> Laggard(sizes, AlignedAt(sizes, 0)) == 0
  {
    forall g | 0 <= g < |sizes| ensures AlignedAt(sizes, 0)[g] == 0 {
      DivMod(0, sizes[g]);
    }
    if sizes != [] { var at := LaggardIsLeast(sizes, AlignedAt(sizes, 0)); }
  }

  function Finest(sizes: seq<Size>): (m: Size)
    requires sizes != []
    ensures m in sizes && forall s | s in sizes :: m <= s
  {
    if |sizes| == 1 then sizes[0] else
      var rest := Finest(sizes[1..]);
      assert sizes == [sizes[0]] + sizes[1..];
      if sizes[0] <= rest then sizes[0] else rest
  }

  /** Every group's block divides the coarsest one. */
  ghost predicate Nested(sizes: seq<Size>)
    requires sizes != []
  {
    forall s | s in sizes :: Divides(s, Coarsest(sizes))
  }

  predicate Divides(s: Size, m: nat) { m % s == 0 }

  /** A step from this aligned state takes no cursor back. */
  ghost predicate Keeps(sizes: seq<Size>, b: nat, pos: nat, tokens: nat)
    requires sizes != []
  {
    NotBehind(AlignedAt(sizes, pos), AlignedAt(sizes, Target(sizes, AlignedAt(sizes, pos), Some(b), tokens)))
  }

  /** The budget bridges every pair of groups: the widest one cursor can stand past another. */
  ghost predicate Bridges(sizes: seq<Size>, b: nat) {
    forall g, h | 0 <= g < |sizes| && 0 <= h < |sizes| :: BridgesPair(sizes[g], sizes[h], b)
  }

  predicate BridgesPair(s: Size, lag: Size, b: nat) { b >= lag - Gcd(s, lag) }

  /** No aligned state is ever rewound exactly when the budget reaches, for every two groups, the block of the one
      less the greatest divisor it shares with the other's. */
  lemma NoRewindIff(sizes: seq<Size>, b: nat)
    requires sizes != []
    ensures Bridges(sizes, b) <==> forall pos: nat, tokens: nat | pos <= tokens :: Keeps(sizes, b, pos, tokens)
  {
    if Bridges(sizes, b) {
      forall pos: nat, tokens: nat | pos <= tokens ensures Keeps(sizes, b, pos, tokens) {
        BridgedKeeps(sizes, b, pos, tokens);
      }
    } else {
      var g, h :| 0 <= g < |sizes| && 0 <= h < |sizes| && !BridgesPair(sizes[g], sizes[h], b);
      var pos := UnbridgedRewinds(sizes, b, g, h);
    }
  }

  lemma BridgedKeeps(sizes: seq<Size>, b: nat, pos: nat, tokens: nat)
    requires sizes != [] && Bridges(sizes, b) && pos <= tokens
    ensures Keeps(sizes, b, pos, tokens)
  {
    var c := AlignedAt(sizes, pos);
    var t := Target(sizes, c, Some(b), tokens);
    var h := LaggardIsLeast(sizes, c);
    CursorWithin(sizes, pos, h);
    forall g | 0 <= g < |sizes| ensures c[g] <= AlignedAt(sizes, t)[g] {
      CursorWithin(sizes, pos, g);
      assert BridgesPair(sizes[g], sizes[h], b);
      if t == tokens { DivMono(pos, t, sizes[g]); } else { PairReaches(pos, c[g], c[h], t, sizes[g], sizes[h], b); }
    }
  }

  /** A cursor's block holds the shared position. */
  lemma CursorWithin(sizes: seq<Size>, pos: nat, g: nat)
    requires g < |sizes|
    ensures AlignedAt(sizes, pos)[g] * sizes[g] <= pos
    ensures pos < (AlignedAt(sizes, pos)[g] + 1) * sizes[g]
  {
    DivMod(pos, sizes[g]);
    Distribute(AlignedAt(sizes, pos)[g], sizes[g]);
  }

  lemma PairReaches(pos: nat, i: nat, j: nat, t: nat, s: Size, lag: Size, b: nat)
    requires BridgesPair(s, lag, b) && t == j * lag + b
    requires i * s <= pos
    requires pos < (j + 1) * lag
    ensures i <= t / s
  {
    AtMostOneShort(s, lag, i, j);
    DivAgainst(t, s, i);
  }

  lemma UnbridgedRewinds(sizes: seq<Size>, b: nat, g: nat, h: nat) returns (pos: nat)
    requires g < |sizes| && h < |sizes| && !BridgesPair(sizes[g], sizes[h], b)
    ensures !Keeps(sizes, b, pos, pos)
  {
    var s, lag := sizes[g], sizes[h];
    var i, k := OneDivisorShort(s, lag);
    pos := i * s;
    var c := AlignedAt(sizes, pos);
    var t := Target(sizes, c, Some(b), pos);
    DivUnique(pos, lag, k, lag - Gcd(s, lag));
    DivUnique(pos, s, i, 0);
    var at := LaggardIsLeast(sizes, c);
    assert Past(c[h], sizes[h], Laggard(sizes, c));
    DivAgainst(t, s, i);
    StepFallsBack(sizes, b, pos, pos, t, g);
  }

  /** A target under a cursor is a rewind. */
  lemma StepFallsBack(sizes: seq<Size>, b: nat, pos: nat, tokens: nat, t: nat, g: nat)
    requires g < |sizes| && t == Target(sizes, AlignedAt(sizes, pos), Some(b), tokens) && t / sizes[g] < pos / sizes[g]
    ensures !Keeps(sizes, b, pos, tokens)
  {
    GroupFallsBack(sizes, pos, t, g);
  }

  /** Where every group's block divides the coarsest one, no aligned state is ever rewound exactly when the budget
      reaches the coarsest block less the finest. The floor is one finest block more than that needs: it is
      progress from the start that takes the whole of it. */
  lemma NoRewindNestedIff(sizes: seq<Size>, b: nat)
    requires sizes != [] && Nested(sizes)
    ensures b >= Coarsest(sizes) - Finest(sizes) <==> forall pos: nat, tokens: nat | pos <= tokens :: Keeps(sizes, b, pos, tokens)
  {
    NoRewindIff(sizes, b);
    if b >= Coarsest(sizes) - Finest(sizes) {
      forall g, h | 0 <= g < |sizes| && 0 <= h < |sizes| ensures BridgesPair(sizes[g], sizes[h], b) {
        assert sizes[g] in sizes && sizes[h] in sizes;
        assert Divides(sizes[g], Coarsest(sizes)) && Divides(sizes[h], Coarsest(sizes));
        NestedBridges(sizes[g], sizes[h], Coarsest(sizes), Finest(sizes), b);
      }
    }
    if Bridges(sizes, b) {
      var g :| 0 <= g < |sizes| && sizes[g] == Finest(sizes);
      var h :| 0 <= h < |sizes| && sizes[h] == Coarsest(sizes);
      assert BridgesPair(sizes[g], sizes[h], b);
      GcdAtMost(sizes[h], sizes[g]);
      GcdSwaps(sizes[g], sizes[h]);
    }
  }

  /** A pair under a common multiple of both is bridged by that multiple less any block no larger than the two. */
  lemma NestedBridges(s: Size, lag: Size, m: Size, f: Size, b: nat)
    requires Divides(s, m) && Divides(lag, m) && f <= s && f <= lag && b >= m - f
    ensures BridgesPair(s, lag, b)
  {
    if lag == m {
      GcdOfDivisor(s, m);
    } else {
      ProperDivisor(lag, m);
    }
  }

  lemma GroupFallsBack(sizes: seq<Size>, pos: nat, t: nat, g: nat)
    requires g < |sizes| && t / sizes[g] < pos / sizes[g]
    ensures !NotBehind(AlignedAt(sizes, pos), AlignedAt(sizes, t))
  {
    assert AlignedAt(sizes, pos)[g] > AlignedAt(sizes, t)[g];
  }

  /** Under the floor a cursor does rewind: groups of 128 and 16 tokens at position 120, budget 14. */
  lemma UnderTheFloorACursorRewinds()
    ensures Aligned([128, 16], [0, 7], 120)
    ensures StoreStep([128, 16], [0, 7], Some(14), 4096, 256) == [0, 0]
  {
    var sizes: seq<Size> := [128, 16];
    var c: Cursors := [0, 7];
    assert sizes[1..] == [16] && c[1..] == [7] && sizes[1..][1..] == [] && c[1..][1..] == [];
    assert Laggard(sizes, c) == 0;
    assert Target(sizes, c, Some(14), 4096) == 14;
    assert Ask(sizes[1..], c[1..], 14) == (14 / 16 - 7) + Ask([], [], 14);
    assert AlignedAt(sizes, 14) == [0, 0];
  }

  /** The keys of the whole blocks of a span, over the groups. */
  function WholeKeys(sizes: seq<Size>, b: nat): nat {
    if sizes == [] then 0 else b / sizes[0] + WholeKeys(sizes[1..], b)
  }

  lemma GroupAsk(t: nat, s: Size, c: nat, lag: nat, b: nat)
    requires Past(c, s, lag) && t <= lag + b
    ensures t / s - c <= b / s
  {
    DivMod(b, s);
    assert (c + b / s + 1) * s == c * s + b / s * s + s;
    DivAgainst(t, s, c + b / s + 1);
  }

  lemma {:induction false} AskAtMostWholeKeys(sizes: seq<Size>, cursors: Cursors, lag: nat, t: nat, b: nat)
    requires |cursors| == |sizes| && AllPast(sizes, cursors, lag) && t <= lag + b
    ensures Ask(sizes, cursors, t) <= WholeKeys(sizes, b)
  {
    if sizes != [] {
      assert Past(cursors[0], sizes[0], lag);
      GroupAsk(t, sizes[0], cursors[0], lag, b);
      AllPastTail(sizes, cursors, lag);
      AskAtMostWholeKeys(sizes[1..], cursors[1..], lag, t, b);
    }
  }

  lemma AllPastTail(sizes: seq<Size>, cursors: Cursors, lag: nat)
    requires sizes != [] && |cursors| == |sizes| && AllPast(sizes, cursors, lag)
    ensures AllPast(sizes[1..], cursors[1..], lag)
  {
    forall g | 0 <= g < |sizes[1..]| ensures Past(cursors[1..][g], sizes[1..][g], lag) {
      assert cursors[1..][g] == cursors[g + 1] && sizes[1..][g] == sizes[g + 1];
      assert Past(cursors[g + 1], sizes[g + 1], lag);
    }
  }

  lemma {:induction false} StartAsksWholeKeys(sizes: seq<Size>, c: Cursors, b: nat)
    requires |c| == |sizes| && forall g | 0 <= g < |c| :: c[g] == 0
    ensures Ask(sizes, c, b) == WholeKeys(sizes, b)
  {
    if sizes != [] { StartAsksWholeKeys(sizes[1..], c[1..], b); }
  }

  /** A step from these cursors, aligned or not, asks for no more than this many keys. */
  ghost predicate AsksWithin(sizes: seq<Size>, b: nat, blocks: nat, cursors: Cursors, tokens: nat)
    requires sizes != [] && |cursors| == |sizes|
  {
    Ask(sizes, cursors, Target(sizes, cursors, Some(b), tokens)) <= blocks
  }

  /** Whatever the sizes, the budget and the share: no state and no token count ever makes one step ask for more than
      the share exactly when the whole blocks of the budget, summed over the groups, are within it. */
  lemma AskWithinShareIff(blocks: nat, sizes: seq<Size>, b: nat)
    requires sizes != []
    ensures WholeKeys(sizes, b) <= blocks <==>
      forall cursors: Cursors, tokens: nat | |cursors| == |sizes| :: AsksWithin(sizes, b, blocks, cursors, tokens)
  {
    if WholeKeys(sizes, b) <= blocks {
      forall cursors: Cursors, tokens: nat | |cursors| == |sizes| ensures AsksWithin(sizes, b, blocks, cursors, tokens) {
        var at := LaggardIsLeast(sizes, cursors);
        AskAtMostWholeKeys(sizes, cursors, Laggard(sizes, cursors), Target(sizes, cursors, Some(b), tokens), b);
      }
    } else {
      var start := AlignedAt(sizes, 0);
      ZeroStart(sizes);
      StartAsksWholeKeys(sizes, start, b);
      assert !AsksWithin(sizes, b, blocks, start, b);
    }
  }

  /** The floor may bite and nothing be over-asked: groups of 3 and 2 tokens, a share of two blocks. */
  lemma FloorMayBiteHarmlessly()
    ensures RawTokens(2, [3, 2]) < Coarsest([3, 2])
    ensures WholeKeys([3, 2], TokenBudget(2, [3, 2])) <= 2
  {
    var sizes: seq<Size> := [3, 2];
    assert sizes[1..] == [2] && sizes[1..][1..] == [];
    assert Rate(sizes[1..]) == 1.0 / 2.0;
    assert Rate(sizes) == 5.0 / 6.0;
    assert 2.0 / Rate(sizes) == 2.4;
    assert RawTokens(2, sizes) == 2;
    assert Coarsest(sizes) == 3;
    assert WholeKeys(sizes[1..], 3) == 1;
  }

  /** Where every group's block divides the coarsest one, a step from the start asks for more than its
      share exactly when the floor bites. */
  lemma FloorBitesIffFirstAskIsTooBig(blocks: nat, sizes: seq<Size>, tokens: nat)
    requires sizes != [] && Nested(sizes)
    requires tokens >= TokenBudget(blocks, sizes)
    ensures RawTokens(blocks, sizes) < Coarsest(sizes)
            <==> Ask(sizes, AlignedAt(sizes, 0), Target(sizes, AlignedAt(sizes, 0), Some(TokenBudget(blocks, sizes)), tokens)) > blocks
  {
    var c, m := AlignedAt(sizes, 0), Coarsest(sizes);
    ZeroStart(sizes);
    if RawTokens(blocks, sizes) < m {
      AskAtMultiple(sizes, c, m);
      OverShare(blocks as real, Rate(sizes), m);
    } else {
      AskNeverExceedsShare(blocks, sizes, c, tokens);
    }
  }

  lemma OverShare(share: real, rate: real, m: nat)
    requires rate > 0.0 && share >= 0.0 && (share / rate).Floor < m
    ensures Scaled(m, rate) > share
  {
    assert share / rate * rate == share;
    assert (m as real - share / rate) * rate > 0.0;
  }

  lemma {:induction false} AskAtMultiple(sizes: seq<Size>, c: Cursors, m: nat)
    requires |c| == |sizes| && (forall g | 0 <= g < |c| :: c[g] == 0) && forall s | s in sizes :: Divides(s, m)
    ensures Ask(sizes, c, m) as real == Scaled(m, Rate(sizes))
  {
    if sizes == [] {
      ScaleZero(m);
    } else {
      assert forall s | s in sizes[1..] :: s in sizes;
      AskAtMultiple(sizes[1..], c[1..], m);
      assert sizes[0] in sizes && Divides(sizes[0], m);
      Exact(m, sizes[0]);
      ScaleSum(m, 1.0 / sizes[0] as real, Rate(sizes[1..]));
    }
  }

  lemma Exact(m: nat, s: Size)
    requires m % s == 0
    ensures (m / s) as real == Scaled(m, 1.0 / s as real)
  {
    var n := m / s;
    assert m == n * s;
    assert m as real == n as real * s as real;
    assert s as real * (1.0 / s as real) == 1.0;
  }

  /** Unbounded, the ask only grows: once it is more than the whole tier, every later attempt from the
      same cursors is refused too, however well the tier has drained. */
  lemma UnboundedAskRatchets(sizes: seq<Size>, cursors: Cursors, num: nat, tokens: nat, later: nat)
    requires sizes != [] && |cursors| == |sizes| && tokens <= later
    requires Ask(sizes, cursors, Target(sizes, cursors, None, tokens)) > num
    ensures StoreStep(sizes, cursors, None, later, num) == cursors
    ensures Ask(sizes, cursors, Target(sizes, cursors, None, later)) >= Ask(sizes, cursors, Target(sizes, cursors, None, tokens))
  {
    AskMono(sizes, cursors, tokens, later);
  }

  lemma {:induction false} AskMono(sizes: seq<Size>, cursors: Cursors, t: nat, u: nat)
    requires |cursors| == |sizes| && t <= u
    ensures Ask(sizes, cursors, t) <= Ask(sizes, cursors, u)
  {
    if sizes != [] {
      DivMono(t, u, sizes[0]);
      AskMono(sizes[1..], cursors[1..], t, u);
    }
  }
}
