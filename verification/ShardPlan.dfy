/** The expert shard plan of host/fn-tp2-guards.py: which rank holds which tensor, and what each rank's
    memory then is. */
module ShardPlan {
  import opened Division
  import opened TpSharding
  import opened Optional

  /** How many distinct experts each stack has. */
  type Stacks = map<string, nat>

  function ExpertIds(header: seq<Tensor>, stack: string): set<nat> {
    set t | t in header && t.expert.Some? && t.expert.value.stack == stack :: t.expert.value.id
  }

  /** The stacks found in the header, with their expert ids. */
  method ExpertStacks(header: seq<Tensor>) returns (stacks: map<string, set<nat>>)
    ensures forall s :: s in stacks <==> exists t :: t in header && t.expert.Some? && t.expert.value.stack == s
    ensures forall s | s in stacks :: stacks[s] == ExpertIds(header, s)
  {
    stacks := map[];
    for i := 0 to |header|
      invariant forall s :: s in stacks <==> exists t :: t in header[..i] && t.expert.Some? && t.expert.value.stack == s
      invariant forall s | s in stacks :: stacks[s] == ExpertIds(header[..i], s)
    {
      var t := header[i];
      assert header[..i + 1] == header[..i] + [t];
      if t.expert.Some? {
        var e := t.expert.value;
        ghost var before := stacks;
        stacks := stacks[e.stack := (if e.stack in stacks then stacks[e.stack] else {}) + {e.id}];
        forall s | s in stacks ensures stacks[s] == ExpertIds(header[..i + 1], s) {
          if s !in before { assert ExpertIds(header[..i], s) == {}; }
        }
      } else {
        forall s | s in stacks ensures stacks[s] == ExpertIds(header[..i + 1], s) {
          assert ExpertIds(header[..i + 1], s) == ExpertIds(header[..i], s);
        }
      }
    }
    assert header[..|header|] == header;
  }

  // ------------------------------------------------------------------ placement

  datatype Place = Table | Replicated | Rank(r: nat)

  /** The plan divides a stack's expert count by the rank count; a stack smaller than that has no plan. */
  predicate Plannable(stacks: Stacks, tp: nat, t: Tensor) {
    tp > 0 && (!t.table && t.expert.Some? ==> t.expert.value.stack in stacks && stacks[t.expert.value.stack] >= tp)
  }

  function Placed(stacks: Stacks, tp: nat, t: Tensor): (p: Place)
    requires Plannable(stacks, tp, t)
    ensures p.Rank? ==> p.r < tp
  {
    if t.table then Table
    else if t.expert.None? then Replicated
    else
      var share := stacks[t.expert.value.stack] / tp;
      PositiveShare(stacks[t.expert.value.stack], tp);
      var rank := t.expert.value.id / share;
      Rank(if rank < tp then rank else tp - 1)
  }

  lemma PositiveShare(n: nat, tp: nat)
    requires tp > 0 && n >= tp
    ensures n / tp >= 1
  {
    DivMod(n, tp);
  }

  function Pick(stacks: Stacks, tp: nat, ts: seq<Tensor>, p: Place): seq<Tensor>
    requires forall t | t in ts :: Plannable(stacks, tp, t)
  {
    if ts == [] then [] else
      var front := ts[..|ts| - 1];
      var last := ts[|ts| - 1];
      Pick(stacks, tp, front, p) + (if Placed(stacks, tp, last) == p then [last] else [])
  }

  lemma PickSnoc(stacks: Stacks, tp: nat, ts: seq<Tensor>, t: Tensor, p: Place)
    requires (forall u | u in ts :: Plannable(stacks, tp, u)) && Plannable(stacks, tp, t)
    ensures forall u | u in ts + [t] :: Plannable(stacks, tp, u)
    ensures Pick(stacks, tp, ts + [t], p) == Pick(stacks, tp, ts, p) + (if Placed(stacks, tp, t) == p then [t] else [])
  {
    assert (ts + [t])[..|ts|] == ts;
  }

  datatype Plan = Plan(owned: seq<seq<Tensor>>, replicated: seq<Tensor>, table: seq<Tensor>)

  /** The three kinds of list hold what has been placed in them, in order. */
  ghost predicate Lists(stacks: Stacks, tp: nat, ts: seq<Tensor>, plan: Plan) {
    && (forall t | t in ts :: Plannable(stacks, tp, t))
    && |plan.owned| == tp && (forall r | 0 <= r < tp :: plan.owned[r] == Pick(stacks, tp, ts, Rank(r)))
    && plan.replicated == Pick(stacks, tp, ts, Replicated)
    && plan.table == Pick(stacks, tp, ts, Table)
  }

  lemma ListsSnoc(stacks: Stacks, tp: nat, ts: seq<Tensor>, t: Tensor, plan: Plan)
    requires tp > 0 && Lists(stacks, tp, ts, plan) && Plannable(stacks, tp, t)
    ensures match Placed(stacks, tp, t)
      case Rank(to) => to < tp && Lists(stacks, tp, ts + [t], plan.(owned := plan.owned[to := plan.owned[to] + [t]]))
      case Replicated => Lists(stacks, tp, ts + [t], plan.(replicated := plan.replicated + [t]))
      case Table => Lists(stacks, tp, ts + [t], plan.(table := plan.table + [t]))
  {
    forall p: Place { PickSnoc(stacks, tp, ts, t, p); }
  }

  /** The plan's loop over the sorted names; it has no result when a stack has fewer experts than ranks. */
  method MakePlan(header: seq<Tensor>, stacks: Stacks, tp: nat) returns (plan: Option<Plan>)
    requires tp > 0
    requires forall t | t in header && t.expert.Some? :: t.expert.value.stack in stacks
    ensures plan.Some? <==> forall t | t in header :: Plannable(stacks, tp, t)
    ensures plan.Some? ==> Lists(stacks, tp, header, plan.value)
  {
    var owned: seq<seq<Tensor>> := seq(tp, i => []);
    var replicated, table := [], [];
    for i := 0 to |header|
      invariant Lists(stacks, tp, header[..i], Plan(owned, replicated, table))
    {
      var t := header[i];
      assert t in header && header[..i + 1] == header[..i] + [t];
      if !t.table && t.expert.Some? && stacks[t.expert.value.stack] < tp {
        return None;
      }
      ListsSnoc(stacks, tp, header[..i], t, Plan(owned, replicated, table));
      if t.table {
        table := table + [t];
      } else if t.expert.None? {
        replicated := replicated + [t];
      } else {
        var e := t.expert.value;
        PositiveShare(stacks[e.stack], tp);
        var rank := e.id / (stacks[e.stack] / tp);
        var to := if rank < tp then rank else tp - 1;
        owned := owned[to := owned[to] + [t]];
      }
    }
    assert header[..|header|] == header;
    plan := Some(Plan(owned, replicated, table));
  }

  // ------------------------------------------------------------------ every tensor once, every byte once

  /** A list holds a tensor exactly when the tensor is in the header and placed there. */
  lemma {:induction false} PickedIff(stacks: Stacks, tp: nat, ts: seq<Tensor>, p: Place, t: Tensor)
    requires forall u | u in ts :: Plannable(stacks, tp, u)
    ensures t in Pick(stacks, tp, ts, p) <==> t in ts && Placed(stacks, tp, t) == p
    ensures multiset(Pick(stacks, tp, ts, p))[t] == if t in ts && Placed(stacks, tp, t) == p then multiset(ts)[t] else 0
  {
    if ts != [] {
      var front, last := ts[..|ts| - 1], ts[|ts| - 1];
      assert ts == front + [last];
      PickedIff(stacks, tp, front, p, t);
      CountSnoc(front, last, t);
      if Placed(stacks, tp, last) == p { CountSnoc(Pick(stacks, tp, front, p), last, t); }
    }
  }

  lemma CountSnoc(ts: seq<Tensor>, last: Tensor, t: Tensor)
    ensures t in ts + [last] <==> t in ts || t == last
    ensures multiset(ts + [last])[t] == multiset(ts)[t] + (if t == last then 1 else 0)
  {
  }

  /** Contiguous ids, evenly many: rank r owns exactly experts r*n/tp up to (r+1)*n/tp of the stack. */
  lemma RankOwnsItsRange(stacks: Stacks, tp: nat, t: Tensor, r: nat)
    requires Plannable(stacks, tp, t) && !t.table && t.expert.Some? && r < tp
    requires var n := stacks[t.expert.value.stack]; n % tp == 0 && t.expert.value.id < n
    ensures var share := stacks[t.expert.value.stack] / tp;
      Placed(stacks, tp, t) == Rank(r) <==> r * share <= t.expert.value.id < (r + 1) * share
  {
    var n, id := stacks[t.expert.value.stack], t.expert.value.id;
    var share := n / tp;
    PositiveShare(n, tp);
    DivMod(n, tp);
    DivMod(id, share);
    var q := id / share;
    if q >= tp { MulMono(tp, q, share); }
    if r * share <= id < (r + 1) * share {
      assert (r + 1) * share == r * share + share;
      DivUnique(id, share, r, id - r * share);
    }
    assert (q + 1) * share == q * share + share;
  }

  function Bytes(ts: seq<Tensor>): nat {
    if ts == [] then 0 else Bytes(ts[..|ts| - 1]) + ts[|ts| - 1].bytes
  }

  /** Bytes the plan puts at one place. */
  function BytesAt(stacks: Stacks, tp: nat, ts: seq<Tensor>, p: Place): nat
    requires forall t | t in ts :: Plannable(stacks, tp, t)
  {
    Bytes(Pick(stacks, tp, ts, p))
  }

  function Sum(xs: seq<nat>): nat {
    if xs == [] then 0 else Sum(xs[..|xs| - 1]) + xs[|xs| - 1]
  }

  function RankBytes(stacks: Stacks, tp: nat, ts: seq<Tensor>): seq<nat>
    requires forall t | t in ts :: Plannable(stacks, tp, t)
  {
    seq(tp, r requires 0 <= r < tp => BytesAt(stacks, tp, ts, Rank(r)))
  }

  lemma BytesSnoc(ts: seq<Tensor>, t: Tensor)
    ensures Bytes(ts + [t]) == Bytes(ts) + t.bytes
  {
    assert (ts + [t])[..|ts|] == ts;
  }

  lemma {:induction false} SumOneMore(xs: seq<nat>, ys: seq<nat>, at: nat, d: nat)
    requires |xs| == |ys| && at < |xs| && ys == xs[at := xs[at] + d]
    ensures Sum(ys) == Sum(xs) + d
  {
    var n := |xs| - 1;
    if at == n {
      assert ys[..n] == xs[..n];
    } else {
      assert ys[..n] == xs[..n][at := xs[at] + d];
      SumOneMore(xs[..n], ys[..n], at, d);
    }
  }

  lemma BytesAtSnoc(stacks: Stacks, tp: nat, ts: seq<Tensor>, p: Place)
    requires ts != [] && forall t | t in ts :: Plannable(stacks, tp, t)
    ensures forall t | t in ts[..|ts| - 1] :: Plannable(stacks, tp, t)
    ensures BytesAt(stacks, tp, ts, p) == BytesAt(stacks, tp, ts[..|ts| - 1], p)
                                          + (if Placed(stacks, tp, ts[|ts| - 1]) == p then ts[|ts| - 1].bytes else 0)
  {
    var front, last := ts[..|ts| - 1], ts[|ts| - 1];
    BytesSnoc(Pick(stacks, tp, front, p), last);
    assert Pick(stacks, tp, front, p) + [] == Pick(stacks, tp, front, p);
  }

  /** Every byte of the checkpoint is in the table, replicated, or at exactly one rank. */
  lemma {:induction false} BytesConserved(stacks: Stacks, tp: nat, ts: seq<Tensor>)
    requires tp > 0 && forall t | t in ts :: Plannable(stacks, tp, t)
    ensures Bytes(ts) == Sum(RankBytes(stacks, tp, ts)) + BytesAt(stacks, tp, ts, Replicated) + BytesAt(stacks, tp, ts, Table)
  {
    if ts == [] {
      SumZeros(RankBytes(stacks, tp, ts));
    } else {
      var front, last := ts[..|ts| - 1], ts[|ts| - 1];
      assert last in ts;
      BytesConserved(stacks, tp, front);
      BytesAtSnoc(stacks, tp, ts, Replicated);
      BytesAtSnoc(stacks, tp, ts, Table);
      RankBytesSnoc(stacks, tp, ts);
    }
  }

  lemma RankBytesSnoc(stacks: Stacks, tp: nat, ts: seq<Tensor>)
    requires tp > 0 && ts != [] && forall t | t in ts :: Plannable(stacks, tp, t)
    ensures var last := ts[|ts| - 1];
      Sum(RankBytes(stacks, tp, ts)) == Sum(RankBytes(stacks, tp, ts[..|ts| - 1])) + (if Placed(stacks, tp, last).Rank? then last.bytes else 0)
  {
    var front, last := ts[..|ts| - 1], ts[|ts| - 1];
    var xs, ys := RankBytes(stacks, tp, front), RankBytes(stacks, tp, ts);
    assert last in ts;
    var p := Placed(stacks, tp, last);
    forall r | 0 <= r < tp ensures ys[r] == xs[r] + (if p == Rank(r) then last.bytes else 0) {
      BytesAtSnoc(stacks, tp, ts, Rank(r));
    }
    if p.Rank? {
      assert ys == xs[p.r := xs[p.r] + last.bytes];
      SumOneMore(xs, ys, p.r, last.bytes);
    } else {
      assert ys == xs;
    }
  }

  lemma {:induction false} SumZeros(xs: seq<nat>)
    requires forall i | 0 <= i < |xs| :: xs[i] == 0
    ensures Sum(xs) == 0
  {
    if xs != [] { SumZeros(xs[..|xs| - 1]); }
  }

  // ------------------------------------------------------------------ the residency prediction

  function EvenShare(total: nat, tp: nat): nat
    requires tp > 0
  {
    total / tp
  }

  /** The prediction before rounding: an even share of the expert bytes, and everything replicated. */
  function Predicted(stacks: Stacks, tp: nat, ts: seq<Tensor>, kv: nat): nat
    requires tp > 0 && forall t | t in ts :: Plannable(stacks, tp, t)
  {
    EvenShare(Sum(RankBytes(stacks, tp, ts)), tp) + BytesAt(stacks, tp, ts, Replicated) + kv
  }

  /** What rank r really holds. */
  function Resident(stacks: Stacks, tp: nat, ts: seq<Tensor>, kv: nat, r: nat): nat
    requires tp > 0 && r < tp && forall t | t in ts :: Plannable(stacks, tp, t)
  {
    BytesAt(stacks, tp, ts, Rank(r)) + BytesAt(stacks, tp, ts, Replicated) + kv
  }

  ghost predicate AllEqual(xs: seq<nat>) {
    forall i, j | 0 <= i < |xs| && 0 <= j < |xs| :: xs[i] == xs[j]
  }

  lemma {:induction false} SumOfEqual(xs: seq<nat>, v: nat)
    requires forall i | 0 <= i < |xs| :: xs[i] == v
    ensures Sum(xs) == |xs| * v
  {
    if xs != [] {
      SumOfEqual(xs[..|xs| - 1], v);
      assert |xs| * v == (|xs| - 1) * v + v;
    }
  }

  lemma {:induction false} SumAtMost(xs: seq<nat>, v: nat)
    requires forall i | 0 <= i < |xs| :: xs[i] <= v
    ensures Sum(xs) <= |xs| * v
    ensures Sum(xs) == |xs| * v ==> forall i | 0 <= i < |xs| :: xs[i] == v
  {
    if xs != [] {
      SumAtMost(xs[..|xs| - 1], v);
      assert |xs| * v == (|xs| - 1) * v + v;
    }
  }

  /** Read off the header: the expert falls in rank r's stretch of its stack; the last rank takes what is left over. */
  predicate InStretch(stacks: Stacks, tp: nat, t: Tensor, r: nat)
    requires Plannable(stacks, tp, t)
  {
    && !t.table && t.expert.Some?
    && var share := stacks[t.expert.value.stack] / tp;
       r * share <= t.expert.value.id && (r == tp - 1 || t.expert.value.id < (r + 1) * share)
  }

  /** The header's expert bytes in rank r's stretches. */
  function StretchBytes(stacks: Stacks, tp: nat, ts: seq<Tensor>, r: nat): nat
    requires forall t | t in ts :: Plannable(stacks, tp, t)
  {
    if ts == [] then 0 else
      StretchBytes(stacks, tp, ts[..|ts| - 1], r) + (if InStretch(stacks, tp, ts[|ts| - 1], r) then ts[|ts| - 1].bytes else 0)
  }

  /** The plan gives rank r exactly its stretches, even or not. */
  lemma PlacedInStretch(stacks: Stacks, tp: nat, t: Tensor, r: nat)
    requires Plannable(stacks, tp, t) && r < tp
    ensures Placed(stacks, tp, t) == Rank(r) <==> InStretch(stacks, tp, t, r)
  {
    if !t.table && t.expert.Some? {
      var id, share := t.expert.value.id, stacks[t.expert.value.stack] / tp;
      PositiveShare(stacks[t.expert.value.stack], tp);
      DivAgainst(id, share, r);
      DivAgainst(id, share, r + 1);
    }
  }

  lemma {:induction false} RankIsItsStretches(stacks: Stacks, tp: nat, ts: seq<Tensor>, r: nat)
    requires r < tp && forall t | t in ts :: Plannable(stacks, tp, t)
    ensures BytesAt(stacks, tp, ts, Rank(r)) == StretchBytes(stacks, tp, ts, r)
  {
    if ts != [] {
      assert ts[|ts| - 1] in ts;
      RankIsItsStretches(stacks, tp, ts[..|ts| - 1], r);
      BytesAtSnoc(stacks, tp, ts, Rank(r));
      PlacedInStretch(stacks, tp, ts[|ts| - 1], r);
    }
  }

  // ------------------------------------------------------------------ table, shared weights and experts, by the header

  predicate IsTable(t: Tensor) { t.table }

  /** Neither the table nor a routed expert: every rank needs it. */
  predicate IsShared(t: Tensor) { !t.table && t.expert.None? }

  predicate IsRouted(t: Tensor) { !t.table && t.expert.Some? }

  /** Bytes of the header's tensors of one kind. */
  function BytesOf(ts: seq<Tensor>, kind: Tensor -> bool): nat {
    if ts == [] then 0 else BytesOf(ts[..|ts| - 1], kind) + (if kind(ts[|ts| - 1]) then ts[|ts| - 1].bytes else 0)
  }

  /** Where a tensor goes, read off the header. */
  ghost predicate BelongsAt(stacks: Stacks, tp: nat, t: Tensor, p: Place)
    requires Plannable(stacks, tp, t)
  {
    match p
    case Table => IsTable(t)
    case Replicated => IsShared(t)
    case Rank(r) => r < tp && InStretch(stacks, tp, t, r)
  }

  lemma PlacedIff(stacks: Stacks, tp: nat, t: Tensor, p: Place)
    requires Plannable(stacks, tp, t)
    ensures Placed(stacks, tp, t) == p <==> BelongsAt(stacks, tp, t, p)
  {
    if p.Rank? && p.r < tp { PlacedInStretch(stacks, tp, t, p.r); }
  }

  /** The plan's lists hold exactly what the header says belongs there, as often as in the header: the table apart,
      what every rank needs, and each rank's stretches of the experts. */
  lemma ListsFollowTheHeader(stacks: Stacks, tp: nat, ts: seq<Tensor>, plan: Plan, t: Tensor)
    requires Lists(stacks, tp, ts, plan)
    ensures multiset(plan.table)[t] == if t in ts && IsTable(t) then multiset(ts)[t] else 0
    ensures multiset(plan.replicated)[t] == if t in ts && IsShared(t) then multiset(ts)[t] else 0
    ensures forall r | 0 <= r < tp ::
      multiset(plan.owned[r])[t] == if t in ts && InStretch(stacks, tp, t, r) then multiset(ts)[t] else 0
  {
    forall p: Place
      ensures multiset(Pick(stacks, tp, ts, p))[t] == if t in ts && BelongsAt(stacks, tp, t, p) then multiset(ts)[t] else 0
    {
      PickedIff(stacks, tp, ts, p, t);
      if t in ts { PlacedIff(stacks, tp, t, p); }
    }
  }

  lemma {:induction false} TableBytes(stacks: Stacks, tp: nat, ts: seq<Tensor>)
    requires forall t | t in ts :: Plannable(stacks, tp, t)
    ensures BytesAt(stacks, tp, ts, Table) == BytesOf(ts, IsTable)
  {
    if ts != [] {
      assert ts[|ts| - 1] in ts;
      TableBytes(stacks, tp, ts[..|ts| - 1]);
      BytesAtSnoc(stacks, tp, ts, Table);
      PlacedIff(stacks, tp, ts[|ts| - 1], Table);
    }
  }

  lemma {:induction false} SharedBytes(stacks: Stacks, tp: nat, ts: seq<Tensor>)
    requires forall t | t in ts :: Plannable(stacks, tp, t)
    ensures BytesAt(stacks, tp, ts, Replicated) == BytesOf(ts, IsShared)
  {
    if ts != [] {
      assert ts[|ts| - 1] in ts;
      SharedBytes(stacks, tp, ts[..|ts| - 1]);
      BytesAtSnoc(stacks, tp, ts, Replicated);
      PlacedIff(stacks, tp, ts[|ts| - 1], Replicated);
    }
  }

  lemma {:induction false} KindsAddUp(ts: seq<Tensor>)
    ensures Bytes(ts) == BytesOf(ts, IsTable) + BytesOf(ts, IsShared) + BytesOf(ts, IsRouted)
  {
    if ts != [] { KindsAddUp(ts[..|ts| - 1]); }
  }

  /** Prediction and residency in the header's terms. A rank holds its stretches, everything shared and the KV pool;
      the prediction puts an even share of all routed experts in place of the stretches. The table counts in neither. */
  lemma ResidencyFromTheHeader(stacks: Stacks, tp: nat, ts: seq<Tensor>, kv: nat)
    requires tp > 0 && forall t | t in ts :: Plannable(stacks, tp, t)
    ensures Predicted(stacks, tp, ts, kv) == BytesOf(ts, IsRouted) / tp + BytesOf(ts, IsShared) + kv
    ensures forall r | 0 <= r < tp ::
      Resident(stacks, tp, ts, kv, r) == StretchBytes(stacks, tp, ts, r) + BytesOf(ts, IsShared) + kv
  {
    BytesConserved(stacks, tp, ts);
    KindsAddUp(ts);
    TableBytes(stacks, tp, ts);
    SharedBytes(stacks, tp, ts);
    forall r | 0 <= r < tp
      ensures Resident(stacks, tp, ts, kv, r) == StretchBytes(stacks, tp, ts, r) + BytesOf(ts, IsShared) + kv
    {
      RankIsItsStretches(stacks, tp, ts, r);
    }
  }

  // ------------------------------------------------------------------ when the prediction covers every rank

  /** Every rank's stretches weigh the same, by the header. */
  ghost predicate Balanced(stacks: Stacks, tp: nat, ts: seq<Tensor>)
    requires forall t | t in ts :: Plannable(stacks, tp, t)
  {
    forall r, q | 0 <= r < tp && 0 <= q < tp :: StretchBytes(stacks, tp, ts, r) == StretchBytes(stacks, tp, ts, q)
  }

  lemma BalancedIff(stacks: Stacks, tp: nat, ts: seq<Tensor>)
    requires forall t | t in ts :: Plannable(stacks, tp, t)
    ensures Balanced(stacks, tp, ts) <==> AllEqual(RankBytes(stacks, tp, ts))
  {
    var xs := RankBytes(stacks, tp, ts);
    forall r | 0 <= r < tp ensures xs[r] == StretchBytes(stacks, tp, ts, r) {
      RankIsItsStretches(stacks, tp, ts, r);
    }
    if Balanced(stacks, tp, ts) {
      forall i, j | 0 <= i < |xs| && 0 <= j < |xs| ensures xs[i] == xs[j] {
        assert StretchBytes(stacks, tp, ts, i) == StretchBytes(stacks, tp, ts, j);
      }
    }
    if AllEqual(xs) {
      forall r, q | 0 <= r < tp && 0 <= q < tp ensures StretchBytes(stacks, tp, ts, r) == StretchBytes(stacks, tp, ts, q) {
        assert xs[r] == xs[q];
      }
    }
  }

  /** The prediction never under-states any rank exactly when the ranks' stretches of the header weigh the same,
      and then it is every rank's exact figure. */
  lemma PredictionCoversIffBalanced(stacks: Stacks, tp: nat, ts: seq<Tensor>, kv: nat)
    requires tp > 0 && forall t | t in ts :: Plannable(stacks, tp, t)
    ensures (forall r | 0 <= r < tp :: Resident(stacks, tp, ts, kv, r) <= Predicted(stacks, tp, ts, kv))
            <==> Balanced(stacks, tp, ts)
    ensures Balanced(stacks, tp, ts) ==>
              forall r | 0 <= r < tp :: Resident(stacks, tp, ts, kv, r) == Predicted(stacks, tp, ts, kv)
  {
    BalancedIff(stacks, tp, ts);
    PredictionCoversIffEqual(stacks, tp, ts, kv);
  }

  lemma PredictionCoversIffEqual(stacks: Stacks, tp: nat, ts: seq<Tensor>, kv: nat)
    requires tp > 0 && forall t | t in ts :: Plannable(stacks, tp, t)
    ensures (forall r | 0 <= r < tp :: Resident(stacks, tp, ts, kv, r) <= Predicted(stacks, tp, ts, kv))
            <==> AllEqual(RankBytes(stacks, tp, ts))
    ensures AllEqual(RankBytes(stacks, tp, ts)) ==>
              forall r | 0 <= r < tp :: Resident(stacks, tp, ts, kv, r) == Predicted(stacks, tp, ts, kv)
  {
    var xs := RankBytes(stacks, tp, ts);
    AverageCoversIff(xs);
    forall r | 0 <= r < tp
      ensures Resident(stacks, tp, ts, kv, r) <= Predicted(stacks, tp, ts, kv) <==> xs[r] <= Sum(xs) / |xs|
      ensures Resident(stacks, tp, ts, kv, r) == Predicted(stacks, tp, ts, kv) <==> xs[r] == Sum(xs) / |xs|
    {
      assert xs[r] == BytesAt(stacks, tp, ts, Rank(r));
    }
  }

  predicate IsExpert(t: Tensor, stack: string, id: nat) {
    !t.table && t.expert.Some? && t.expert.value.stack == stack && t.expert.value.id == id
  }

  lemma StretchSnoc(stacks: Stacks, tp: nat, ts: seq<Tensor>, t: Tensor, r: nat)
    requires (forall u | u in ts :: Plannable(stacks, tp, u)) && Plannable(stacks, tp, t)
    ensures forall u | u in ts + [t] :: Plannable(stacks, tp, u)
    ensures StretchBytes(stacks, tp, ts + [t], r)
      == StretchBytes(stacks, tp, ts, r) + (if InStretch(stacks, tp, t, r) then t.bytes else 0)
  {
    assert (ts + [t])[..|ts|] == ts;
  }

  lemma SumOfTwo(xs: seq<nat>)
    requires |xs| == 2
    ensures Sum(xs) == xs[0] + xs[1]
  {
    assert xs[..1][..0] == [];
    assert Sum(xs[..1]) == xs[0];
  }

  /** Over two ranks: who holds what against the prediction. */
  lemma TwoRanks(stacks: Stacks, ts: seq<Tensor>, kv: nat)
    requires forall t | t in ts :: Plannable(stacks, 2, t)
    ensures Predicted(stacks, 2, ts, kv) + StretchBytes(stacks, 2, ts, 1)
      == Resident(stacks, 2, ts, kv, 1) + (StretchBytes(stacks, 2, ts, 0) + StretchBytes(stacks, 2, ts, 1)) / 2
  {
    RankIsItsStretches(stacks, 2, ts, 0);
    RankIsItsStretches(stacks, 2, ts, 1);
    SumOfTwo(RankBytes(stacks, 2, ts));
  }

  /** A stack of three over two ranks: the last rank holds two experts and the prediction counts one and a half,
      rounded down. */
  lemma ThreeExpertsOverTwoRanks(stack: string, t0: Tensor, t1: Tensor, t2: Tensor, kv: nat)
    requires IsExpert(t0, stack, 0) && IsExpert(t1, stack, 1) && IsExpert(t2, stack, 2)
    requires t0.bytes == 1 && t1.bytes == 1 && t2.bytes == 1
    ensures var stacks, ts: seq<Tensor> := map[stack := 3], [t0] + [t1] + [t2];
      && (forall t | t in ts :: Plannable(stacks, 2, t))
      && Resident(stacks, 2, ts, kv, 1) == Predicted(stacks, 2, ts, kv) + 1
  {
    var stacks: Stacks := map[stack := 3];
    assert [] + [t0] == [t0];
    forall r | 0 <= r < 2 ensures StretchBytes(stacks, 2, [t0] + [t1] + [t2], r) == r + 1 {
      StretchSnoc(stacks, 2, [], t0, r);
      StretchSnoc(stacks, 2, [t0], t1, r);
      StretchSnoc(stacks, 2, [t0] + [t1], t2, r);
    }
    TwoRanks(stacks, [t0] + [t1] + [t2], kv);
  }

  /** As many experts on each rank is not enough either: two of unequal size, and one rank is over. */
  lemma TwoUnequalExperts(stack: string, t0: Tensor, t1: Tensor, kv: nat)
    requires IsExpert(t0, stack, 0) && IsExpert(t1, stack, 1) && t0.bytes < t1.bytes
    ensures var stacks, ts: seq<Tensor> := map[stack := 2], [t0] + [t1];
      && (forall t | t in ts :: Plannable(stacks, 2, t))
      && Resident(stacks, 2, ts, kv, 1) > Predicted(stacks, 2, ts, kv)
  {
    var stacks: Stacks := map[stack := 2];
    assert [] + [t0] == [t0];
    forall r | 0 <= r < 2 ensures StretchBytes(stacks, 2, [t0] + [t1], r) == if r == 0 then t0.bytes else t1.bytes {
      StretchSnoc(stacks, 2, [], t0, r);
      StretchSnoc(stacks, 2, [t0], t1, r);
    }
    TwoRanks(stacks, [t0] + [t1], kv);
  }

  /** A whole-number average is no smaller than any entry exactly when all entries are equal. */
  lemma AverageCoversIff(xs: seq<nat>)
    requires xs != []
    ensures AllEqual(xs) <==> forall r | 0 <= r < |xs| :: xs[r] <= Sum(xs) / |xs|
    ensures AllEqual(xs) ==> forall r | 0 <= r < |xs| :: xs[r] == Sum(xs) / |xs|
  {
    if AllEqual(xs) {
      SumOfEqual(xs, xs[0]);
      DivUnique(Sum(xs), |xs|, xs[0], 0);
    }
    var avg := Sum(xs) / |xs|;
    if forall r | 0 <= r < |xs| :: xs[r] <= avg {
      SumAtMost(xs, avg);
      DivMod(Sum(xs), |xs|);
    }
  }

  // ------------------------------------------------------------------ uniform experts balance the ranks

  /** Bytes of the stack's (non-table) experts with lo <= id < hi. */
  function RangeBytes(ts: seq<Tensor>, stack: string, lo: nat, hi: nat): nat {
    if ts == [] then 0 else
      var t := ts[|ts| - 1];
      RangeBytes(ts[..|ts| - 1], stack, lo, hi)
      + (if InRange(t, stack, lo, hi) then t.bytes else 0)
  }

  predicate InRange(t: Tensor, stack: string, lo: nat, hi: nat) {
    !t.table && t.expert.Some? && t.expert.value.stack == stack && lo <= t.expert.value.id < hi
  }

  lemma {:induction false} RangeSplits(ts: seq<Tensor>, stack: string, lo: nat, mid: nat, hi: nat)
    requires lo <= mid <= hi
    ensures RangeBytes(ts, stack, lo, hi) == RangeBytes(ts, stack, lo, mid) + RangeBytes(ts, stack, mid, hi)
  {
    if ts != [] { RangeSplits(ts[..|ts| - 1], stack, lo, mid, hi); }
  }

  ghost predicate Uniform(ts: seq<Tensor>, stack: string, n: nat, each: nat) {
    forall e | 0 <= e < n :: ExpertBytes(ts, stack, e) == each
  }

  function ExpertBytes(ts: seq<Tensor>, stack: string, e: nat): nat {
    RangeBytes(ts, stack, e, e + 1)
  }

  lemma {:induction false} UniformRange(ts: seq<Tensor>, stack: string, n: nat, each: nat, lo: nat, k: nat)
    requires Uniform(ts, stack, n, each) && lo + k <= n
    ensures RangeBytes(ts, stack, lo, lo + k) == k * each
  {
    if k == 0 {
      EmptyRange(ts, stack, lo);
    } else {
      UniformRange(ts, stack, n, each, lo, k - 1);
      RangeSplits(ts, stack, lo, lo + k - 1, lo + k);
      assert ExpertBytes(ts, stack, lo + k - 1) == each;
      assert k * each == (k - 1) * each + each;
    }
  }

  lemma {:induction false} EmptyRange(ts: seq<Tensor>, stack: string, lo: nat)
    ensures RangeBytes(ts, stack, lo, lo) == 0
  {
    if ts != [] { EmptyRange(ts[..|ts| - 1], stack, lo); }
  }

  /** The rank's range of a stack. */
  function ShareBytes(ts: seq<Tensor>, stacks: Stacks, tp: nat, stack: string, r: nat): nat
    requires tp > 0 && stack in stacks
  {
    RangeBytes(ts, stack, r * (stacks[stack] / tp), (r + 1) * (stacks[stack] / tp))
  }

  function AllShares(ts: seq<Tensor>, stacks: Stacks, tp: nat, names: seq<string>, r: nat): nat
    requires tp > 0 && forall s | s in names :: s in stacks
  {
    if names == [] then 0 else
      AllShares(ts, stacks, tp, names[..|names| - 1], r) + ShareBytes(ts, stacks, tp, names[|names| - 1], r)
  }

  ghost predicate Distinct(names: seq<string>) {
    forall i, j | 0 <= i < j < |names| :: names[i] != names[j]
  }

  /** Contiguous stacks whose size the rank count divides. */
  ghost predicate Even(stacks: Stacks, tp: nat, ts: seq<Tensor>) {
    tp > 0 && (forall s | s in stacks :: stacks[s] % tp == 0)
    && forall t | t in ts && !t.table && t.expert.Some? :: t.expert.value.stack in stacks && t.expert.value.id < stacks[t.expert.value.stack]
  }

  /** One more tensor adds its bytes to the share of its own stack and rank, and to no other. */
  lemma ShareSnoc(ts: seq<Tensor>, t: Tensor, stacks: Stacks, tp: nat, stack: string, r: nat)
    requires stack in stacks && r < tp && Plannable(stacks, tp, t)
    requires !t.table && t.expert.Some? ==> stacks[t.expert.value.stack] % tp == 0 && t.expert.value.id < stacks[t.expert.value.stack]
    ensures ShareBytes(ts + [t], stacks, tp, stack, r) == ShareBytes(ts, stacks, tp, stack, r)
              + (if Placed(stacks, tp, t) == Rank(r) && t.expert.value.stack == stack then t.bytes else 0)
  {
    assert (ts + [t])[..|ts|] == ts;
    if !t.table && t.expert.Some? && t.expert.value.stack == stack {
      RankOwnsItsRange(stacks, tp, t, r);
    }
  }

  lemma DistinctFront(names: seq<string>)
    requires names != [] && Distinct(names)
    ensures Distinct(names[..|names| - 1]) && names[|names| - 1] !in names[..|names| - 1]
    ensures forall s :: s in names <==> s in names[..|names| - 1] || s == names[|names| - 1]
  {
    var front, last := names[..|names| - 1], names[|names| - 1];
    forall i, j | 0 <= i < j < |front| ensures front[i] != front[j] { assert names[i] != names[j]; }
    forall i | 0 <= i < |front| ensures front[i] != last { assert names[i] != names[|names| - 1]; }
    assert names == front + [last];
  }

  lemma {:induction false} SharesSnoc(ts: seq<Tensor>, t: Tensor, stacks: Stacks, tp: nat, names: seq<string>, r: nat)
    requires Distinct(names) && (forall s | s in names :: s in stacks) && r < tp
    requires Plannable(stacks, tp, t)
    requires !t.table && t.expert.Some? ==> stacks[t.expert.value.stack] % tp == 0 && t.expert.value.id < stacks[t.expert.value.stack]
    ensures AllShares(ts + [t], stacks, tp, names, r) == AllShares(ts, stacks, tp, names, r)
              + (if Placed(stacks, tp, t) == Rank(r) && t.expert.value.stack in names then t.bytes else 0)
  {
    if names != [] {
      DistinctFront(names);
      SharesSnoc(ts, t, stacks, tp, names[..|names| - 1], r);
      ShareSnoc(ts, t, stacks, tp, names[|names| - 1], r);
    }
  }

  /** A rank's expert bytes are the sum of its ranges over the stacks. */
  lemma {:induction false} RankIsItsShares(ts: seq<Tensor>, stacks: Stacks, tp: nat, names: seq<string>, r: nat)
    requires Even(stacks, tp, ts) && (forall t | t in ts :: Plannable(stacks, tp, t)) && r < tp
    requires Distinct(names) && forall s :: s in names <==> s in stacks
    ensures BytesAt(stacks, tp, ts, Rank(r)) == AllShares(ts, stacks, tp, names, r)
  {
    if ts == [] {
      NoShares(stacks, tp, names, r);
    } else {
      var front, last := ts[..|ts| - 1], ts[|ts| - 1];
      assert last in ts && ts == front + [last];
      RankIsItsShares(front, stacks, tp, names, r);
      SharesSnoc(front, last, stacks, tp, names, r);
      BytesAtSnoc(stacks, tp, ts, Rank(r));
    }
  }

  lemma {:induction false} NoShares(stacks: Stacks, tp: nat, names: seq<string>, r: nat)
    requires tp > 0 && forall s | s in names :: s in stacks
    ensures AllShares([], stacks, tp, names, r) == 0
  {
    if names != [] { NoShares(stacks, tp, names[..|names| - 1], r); }
  }

  lemma {:induction false} SharesBalance(ts: seq<Tensor>, stacks: Stacks, tp: nat, names: seq<string>, each: map<string, nat>, r: nat, q: nat)
    requires Even(stacks, tp, ts) && r < tp && q < tp
    requires forall s | s in names :: s in stacks && s in each && Uniform(ts, s, stacks[s], each[s])
    ensures AllShares(ts, stacks, tp, names, r) == AllShares(ts, stacks, tp, names, q)
  {
    if names != [] {
      var front, last := names[..|names| - 1], names[|names| - 1];
      assert names == front + [last];
      SharesBalance(ts, stacks, tp, front, each, r, q);
      OneShare(ts, stacks, tp, last, each[last], r);
      OneShare(ts, stacks, tp, last, each[last], q);
    }
  }

  lemma OneShare(ts: seq<Tensor>, stacks: Stacks, tp: nat, stack: string, each: nat, r: nat)
    requires tp > 0 && stack in stacks && stacks[stack] % tp == 0 && r < tp && Uniform(ts, stack, stacks[stack], each)
    ensures ShareBytes(ts, stacks, tp, stack, r) == stacks[stack] / tp * each
  {
    var n, share := stacks[stack], stacks[stack] / tp;
    DivMod(n, tp);
    Shares(r, tp, share);
    assert (r + 1) * share == r * share + share;
    UniformRange(ts, stack, n, each, r * share, share);
  }

  /** With contiguous, evenly divisible stacks whose experts weigh the same within a stack, the prediction
      is each rank's exact weight bytes plus the KV pool. */
  lemma PredictionIsExact(stacks: Stacks, tp: nat, ts: seq<Tensor>, names: seq<string>, each: map<string, nat>, kv: nat, r: nat)
    requires Even(stacks, tp, ts) && (forall t | t in ts :: Plannable(stacks, tp, t)) && r < tp
    requires Distinct(names) && forall s :: s in names <==> s in stacks
    requires forall s | s in stacks :: s in each && Uniform(ts, s, stacks[s], each[s])
    ensures Resident(stacks, tp, ts, kv, r) == Predicted(stacks, tp, ts, kv)
  {
    var xs := RankBytes(stacks, tp, ts);
    BalancedIff(stacks, tp, ts);
    forall i, j | 0 <= i < |xs| && 0 <= j < |xs| ensures xs[i] == xs[j] {
      RankIsItsShares(ts, stacks, tp, names, i);
      RankIsItsShares(ts, stacks, tp, names, j);
      SharesBalance(ts, stacks, tp, names, each, i, j);
    }
    PredictionCoversIffBalanced(stacks, tp, ts, kv);
  }

  // ------------------------------------------------------------------ from the header alone

  /** The counts the plan divides are those of the distinct ids the header shows. */
  ghost predicate CountedFrom(stacks: Stacks, header: seq<Tensor>) {
    && (forall s :: s in stacks <==> exists t :: t in header && t.expert.Some? && t.expert.value.stack == s)
    && forall s | s in stacks :: stacks[s] == |ExpertIds(header, s)|
  }

  /** Stacks counted and plan made from one header. */
  method PlanHeader(header: seq<Tensor>, tp: nat) returns (stacks: Stacks, plan: Option<Plan>)
    requires tp > 0
    ensures CountedFrom(stacks, header)
    ensures plan.Some? <==> forall t | t in header :: Plannable(stacks, tp, t)
    ensures plan.Some? ==> Lists(stacks, tp, header, plan.value)
  {
    var ids := ExpertStacks(header);
    stacks := map s | s in ids :: |ids[s]|;
    plan := MakePlan(header, stacks, tp);
  }

  /** The stack's ids are 0, 1, 2 and so on without a gap. */
  ghost predicate Contiguous(header: seq<Tensor>, stack: string) {
    ExpertIds(header, stack) == UpTo(|ExpertIds(header, stack)|)
  }

  /** Every stack of the header is contiguous, and the rank count divides it. */
  ghost predicate EvenHeader(header: seq<Tensor>, tp: nat) {
    tp > 0 && forall t | t in header && t.expert.Some? :: EvenStack(header, tp, t.expert.value.stack)
  }

  ghost predicate EvenStack(header: seq<Tensor>, tp: nat, stack: string)
    requires tp > 0
  {
    Contiguous(header, stack) && |ExpertIds(header, stack)| % tp == 0
  }

  /** An expert of such a header is below its stack's count, and the stack is large enough to plan. */
  lemma EvenHeaderIsPlannable(header: seq<Tensor>, stacks: Stacks, tp: nat, t: Tensor)
    requires CountedFrom(stacks, header) && EvenHeader(header, tp) && t in header
    ensures Plannable(stacks, tp, t)
    ensures t.expert.Some? ==> Counted(stacks, header, tp, t.expert.value)
  {
    if t.expert.Some? {
      var s := t.expert.value.stack;
      assert s in stacks;
      assert EvenStack(header, tp, s);
      assert t.expert.value.id in ExpertIds(header, s);
      WholeShares(stacks[s], tp);
    }
  }

  /** The expert lies below its stack's count, which the ranks divide. */
  ghost predicate Counted(stacks: Stacks, header: seq<Tensor>, tp: nat, e: Expert)
    requires tp > 0
  {
    && e.stack in stacks && stacks[e.stack] == |ExpertIds(header, e.stack)|
    && e.id < stacks[e.stack] && stacks[e.stack] % tp == 0
  }

  lemma WholeShares(n: nat, tp: nat)
    requires tp > 0 && n % tp == 0 && n > 0
    ensures n >= tp
  {
    DivMod(n, tp);
  }

  /** The ids of a stack that the plan puts on a rank. */
  function OwnedIds(header: seq<Tensor>, stacks: Stacks, tp: nat, stack: string, r: nat): set<nat>
    requires forall t | t in header :: Plannable(stacks, tp, t)
  {
    set t | t in header && t.expert.Some? && t.expert.value.stack == stack && Placed(stacks, tp, t) == Rank(r) :: t.expert.value.id
  }

  /** Of n experts, those from r*n/tp up to (r+1)*n/tp. */
  predicate InShare(n: nat, tp: nat, r: nat, id: nat)
    requires tp > 0
  {
    r * (n / tp) <= id < (r + 1) * (n / tp)
  }

  /** Contiguous ids and a count the ranks divide, both read off the header: of every stack, rank r owns exactly
      experts r*n/tp up to (r+1)*n/tp. */
  lemma HeaderRanges(header: seq<Tensor>, stacks: Stacks, tp: nat, stack: string, r: nat)
    requires CountedFrom(stacks, header) && EvenHeader(header, tp) && stack in stacks && r < tp
    requires forall t | t in header && t.expert.Some? :: !t.table
    ensures forall t | t in header :: Plannable(stacks, tp, t)
    ensures forall id: nat :: id in OwnedIds(header, stacks, tp, stack, r) <==> InShare(|ExpertIds(header, stack)|, tp, r, id)
  {
    forall t | t in header ensures Plannable(stacks, tp, t) { EvenHeaderIsPlannable(header, stacks, tp, t); }
    forall id: nat ensures id in OwnedIds(header, stacks, tp, stack, r) <==> InShare(|ExpertIds(header, stack)|, tp, r, id) {
      if id in OwnedIds(header, stacks, tp, stack, r) { OwnedIsInRange(header, stacks, tp, stack, r, id); }
      if InShare(|ExpertIds(header, stack)|, tp, r, id) { InRangeIsOwned(header, stacks, tp, stack, r, id); }
    }
  }

  lemma OwnedIsInRange(header: seq<Tensor>, stacks: Stacks, tp: nat, stack: string, r: nat, id: nat)
    requires CountedFrom(stacks, header) && EvenHeader(header, tp) && r < tp
    requires forall t | t in header && t.expert.Some? :: !t.table
    requires forall t | t in header :: Plannable(stacks, tp, t)
    requires id in OwnedIds(header, stacks, tp, stack, r)
    ensures InShare(|ExpertIds(header, stack)|, tp, r, id)
  {
    var t :| t in header && t.expert.Some? && t.expert.value.stack == stack && Placed(stacks, tp, t) == Rank(r)
      && t.expert.value.id == id;
    OwnerIff(header, stacks, tp, t, r);
  }

  lemma InRangeIsOwned(header: seq<Tensor>, stacks: Stacks, tp: nat, stack: string, r: nat, id: nat)
    requires CountedFrom(stacks, header) && EvenHeader(header, tp) && stack in stacks && r < tp
    requires forall t | t in header && t.expert.Some? :: !t.table
    requires forall t | t in header :: Plannable(stacks, tp, t)
    requires InShare(|ExpertIds(header, stack)|, tp, r, id)
    ensures id in OwnedIds(header, stacks, tp, stack, r)
  {
    var t := InRangeIsInTheHeader(header, stacks, tp, stack, r, id);
    OwnerIff(header, stacks, tp, t, r);
  }

  lemma OwnerIff(header: seq<Tensor>, stacks: Stacks, tp: nat, t: Tensor, r: nat)
    requires CountedFrom(stacks, header) && EvenHeader(header, tp) && r < tp
    requires t in header && t.expert.Some? && !t.table
    ensures Plannable(stacks, tp, t)
    ensures var share := |ExpertIds(header, t.expert.value.stack)| / tp;
      Placed(stacks, tp, t) == Rank(r) <==> r * share <= t.expert.value.id < (r + 1) * share
  {
    EvenHeaderIsPlannable(header, stacks, tp, t);
    RankOwnsItsRange(stacks, tp, t, r);
  }

  lemma InRangeIsInTheHeader(header: seq<Tensor>, stacks: Stacks, tp: nat, stack: string, r: nat, id: nat) returns (t: Tensor)
    requires CountedFrom(stacks, header) && EvenHeader(header, tp) && stack in stacks && r < tp
    requires id < (r + 1) * (|ExpertIds(header, stack)| / tp)
    ensures t in header && t.expert.Some? && t.expert.value.stack == stack && t.expert.value.id == id
  {
    var any :| any in header && any.expert.Some? && any.expert.value.stack == stack;
    assert EvenStack(header, tp, stack);
    BelowTheLast(|ExpertIds(header, stack)|, tp, r, id);
    assert id in ExpertIds(header, stack);
    t :| t in header && t.expert.Some? && t.expert.value.stack == stack && t.expert.value.id == id;
  }

  lemma BelowTheLast(n: nat, tp: nat, r: nat, id: nat)
    requires tp > 0 && n % tp == 0 && r < tp && id < (r + 1) * (n / tp)
    ensures id < n
  {
    DivMod(n, tp);
    MulMono(r + 1, tp, n / tp);
  }

  /** And if experts weigh the same within a stack, the prediction is each rank's exact bytes plus the KV pool. */
  lemma HeaderPredictionIsExact(header: seq<Tensor>, stacks: Stacks, tp: nat, names: seq<string>, each: map<string, nat>, kv: nat, r: nat)
    requires CountedFrom(stacks, header) && EvenHeader(header, tp) && r < tp
    requires Distinct(names) && forall s :: s in names <==> s in stacks
    requires forall s | s in stacks :: s in each && Uniform(header, s, |ExpertIds(header, s)|, each[s])
    ensures forall t | t in header :: Plannable(stacks, tp, t)
    ensures Resident(stacks, tp, header, kv, r) == Predicted(stacks, tp, header, kv)
  {
    forall t | t in header
      ensures Plannable(stacks, tp, t) && (t.expert.Some? ==> Counted(stacks, header, tp, t.expert.value))
    {
      EvenHeaderIsPlannable(header, stacks, tp, t);
    }
    forall s | s in stacks ensures stacks[s] % tp == 0 {
      var t :| t in header && t.expert.Some? && t.expert.value.stack == s;
      assert Counted(stacks, header, tp, t.expert.value);
    }
    PredictionIsExact(stacks, tp, header, names, each, kv, r);
  }
}
