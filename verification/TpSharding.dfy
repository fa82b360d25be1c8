/** host/fn-tp2-guards.py: divisibility checks over a checkpoint's tensor headers, and the sharding
    facts they stand for. */
module TpSharding {
  import opened Division
  import opened Optional

  // ------------------------------------------------------------------ division

  /** Shifting by whole blocks shifts the block index and nothing else. */
  lemma BlockShift(k: nat, i: nat, b: nat)
    requires b > 0
    ensures (k * b + i) / b == k + i / b
  {
    DivMod(i, b);
    assert k * b + i == (k + i / b) * b + i % b;
    DivUnique(k * b + i, b, k + i / b, i % b);
  }

  lemma DivBound(i: nat, n: nat, b: nat)
    requires b > 0 && i < n && n % b == 0
    ensures i / b < n / b
  {
    DivMod(i, b);
    DivMod(n, b);
    if i / b >= n / b { MulMono(n / b, i / b, b); }
  }

  function CeilDiv(n: nat, d: nat): nat
    requires d > 0
  {
    (n + d - 1) / d
  }

  lemma CeilBound(i: nat, n: nat, d: nat)
    requires d > 0 && i < n
    ensures i / d < CeilDiv(n, d)
  {
    DivMod(i, d);
    DivMod(n + d - 1, d);
    var c := CeilDiv(n, d);
    if i / d >= c { MulMono(c, i / d, d); }
  }

  // ------------------------------------------------------------------ block-quantised weights

  type Matrix = seq<seq<real>>

  ghost predicate IsMatrix(m: Matrix, rows: nat, cols: nat) {
    |m| == rows && forall i | 0 <= i < rows :: |m[i]| == cols
  }

  /** The scale of element (i, j): that of the block it lies in. */
  function ScaleAt(s: Matrix, i: nat, j: nat, rows: nat, cols: nat, b0: nat, b1: nat): real
    requires b0 > 0 && b1 > 0 && i < rows && j < cols && IsMatrix(s, CeilDiv(rows, b0), CeilDiv(cols, b1))
  {
    CeilBound(i, rows, b0);
    CeilBound(j, cols, b1);
    s[i / b0][j / b1]
  }

  function Times(x: real, y: real): real { x * y }

  /** Every element times its scale. */
  function Dequant(w: Matrix, s: Matrix, rows: nat, cols: nat, b0: nat, b1: nat): Matrix
    requires b0 > 0 && b1 > 0 && IsMatrix(w, rows, cols)
    requires IsMatrix(s, CeilDiv(rows, b0), CeilDiv(cols, b1))
  {
    seq(rows, i requires 0 <= i < rows =>
      seq(cols, j requires 0 <= j < cols => Times(w[i][j], ScaleAt(s, i, j, rows, cols, b0, b1))))
  }

  function Rows(m: Matrix, lo: nat, hi: nat): Matrix
    requires lo <= hi <= |m|
  {
    m[lo..hi]
  }

  function Cols(m: Matrix, lo: nat, hi: nat): Matrix
    requires lo <= hi && forall i | 0 <= i < |m| :: hi <= |m[i]|
  {
    seq(|m|, i requires 0 <= i < |m| => m[i][lo..hi])
  }

  function PerRank(dim: nat, tp: nat): nat
    requires tp > 0
  {
    dim / tp
  }

  /** Where rank r's share begins, and the block it begins in. */
  function ShareStart(dim: nat, tp: nat, r: nat): nat
    requires tp > 0
  {
    r * PerRank(dim, tp)
  }

  function ScaleStart(dim: nat, tp: nat, r: nat, b: nat): nat
    requires tp > 0 && b > 0
  {
    r * (PerRank(dim, tp) / b)
  }

  lemma Assoc(x: nat, y: nat, z: nat)
    ensures x * (y * z) == (x * y) * z
  {
  }

  lemma CeilExact(k: nat, b: nat)
    requires b > 0
    ensures CeilDiv(k * b, b) == k && (k * b) / b == k
  {
    BlockShift(k, b - 1, b);
    BlockShift(k, 0, b);
    DivUnique(b - 1, b, 0, b - 1);
    DivUnique(0, b, 0, 0);
  }

  /** The bounds of rank r's share of a dimension, in elements and in blocks. */
  lemma ShareBounds(dim: nat, tp: nat, r: nat, b: nat)
    requires tp > 0 && r < tp && b > 0 && dim % tp == 0 && PerRank(dim, tp) % b == 0
    ensures var per, k := PerRank(dim, tp), PerRank(dim, tp) / b;
      && ShareStart(dim, tp, r) + per <= dim && ShareStart(dim, tp, r) == ScaleStart(dim, tp, r, b) * b
      && ScaleStart(dim, tp, r, b) + k <= CeilDiv(dim, b) && CeilDiv(per, b) == k
  {
    var per, k := PerRank(dim, tp), PerRank(dim, tp) / b;
    DivMod(dim, tp);
    DivMod(per, b);
    Shares(r, tp, per);
    Shares(r, tp, k);
    Assoc(r, k, b);
    Assoc(tp, k, b);
    CeilExact(k, b);
    CeilExact(tp * k, b);
  }

  lemma Shares(r: nat, tp: nat, per: nat)
    requires r < tp
    ensures r * per + per <= tp * per
  {
    MulMono(r + 1, tp, per);
  }

  /** Element lo + i lies in the block k0 on from the block i lies in. */
  predicate SameBlock(lo: nat, k0: nat, i: nat, b: nat)
    requires b > 0
  {
    (lo + i) / b == k0 + i / b
  }

  /** A stretch of `per` elements from lo lies in the blocks from k0 on, block for block. */
  ghost predicate Shifted(lo: nat, k0: nat, per: nat, b: nat)
    requires b > 0
  {
    forall i | 0 <= i < per :: SameBlock(lo, k0, i, b)
  }

  lemma ShareShifts(dim: nat, tp: nat, r: nat, b: nat)
    requires tp > 0 && r < tp && b > 0 && dim % tp == 0 && PerRank(dim, tp) % b == 0
    ensures Shifted(ShareStart(dim, tp, r), ScaleStart(dim, tp, r, b), PerRank(dim, tp), b)
  {
    ShareBounds(dim, tp, r, b);
    forall i | 0 <= i < PerRank(dim, tp) ensures SameBlock(ShareStart(dim, tp, r), ScaleStart(dim, tp, r, b), i, b) {
      BlockShift(ScaleStart(dim, tp, r, b), i, b);
    }
  }

  /** Dequantising the rows from lo with the scale rows from k0 is slicing the dequantised tensor. */
  ghost predicate RowSliceAgrees(w: Matrix, s: Matrix, rows: nat, cols: nat, b0: nat, b1: nat, lo: nat, per: nat, k0: nat, k: nat)
    requires b0 > 0 && b1 > 0
    requires IsMatrix(w, rows, cols) && IsMatrix(s, CeilDiv(rows, b0), CeilDiv(cols, b1))
  {
    && lo + per <= rows && k0 + k <= |s| && CeilDiv(per, b0) == k
    && Dequant(Rows(w, lo, lo + per), Rows(s, k0, k0 + k), per, cols, b0, b1)
       == Rows(Dequant(w, s, rows, cols, b0, b1), lo, lo + per)
  }

  ghost predicate ColSliceAgrees(w: Matrix, s: Matrix, rows: nat, cols: nat, b0: nat, b1: nat, lo: nat, per: nat, k0: nat, k: nat)
    requires b0 > 0 && b1 > 0
    requires IsMatrix(w, rows, cols) && IsMatrix(s, CeilDiv(rows, b0), CeilDiv(cols, b1))
  {
    && lo + per <= cols && k0 + k <= CeilDiv(cols, b1) && CeilDiv(per, b1) == k
    && Dequant(Cols(w, lo, lo + per), Cols(s, k0, k0 + k), rows, per, b0, b1)
       == Cols(Dequant(w, s, rows, cols, b0, b1), lo, lo + per)
  }

  lemma RowScaleAgrees(s: Matrix, i: nat, j: nat, rows: nat, cols: nat, b0: nat, b1: nat, lo: nat, per: nat, k0: nat, k: nat)
    requires b0 > 0 && b1 > 0 && IsMatrix(s, CeilDiv(rows, b0), CeilDiv(cols, b1))
    requires lo + per <= rows && k0 + k <= |s| && CeilDiv(per, b0) == k && Shifted(lo, k0, per, b0)
    requires i < per && j < cols
    ensures ScaleAt(Rows(s, k0, k0 + k), i, j, per, cols, b0, b1) == ScaleAt(s, lo + i, j, rows, cols, b0, b1)
  {
    CeilBound(i, per, b0);
    CeilBound(j, cols, b1);
    RowEntry(s, k0, k, i / b0, (lo + i) / b0, j / b1) by {
      assert SameBlock(lo, k0, i, b0);
    }
  }

  lemma RowEntry(s: Matrix, k0: nat, k: nat, p: nat, p': nat, q: nat)
    requires k0 + k <= |s| && p < k && p' == k0 + p && q < |s[p']|
    ensures Rows(s, k0, k0 + k)[p][q] == s[p'][q]
  {
  }

  lemma ColEntry(s: Matrix, k0: nat, k: nat, p: nat, q: nat, q': nat)
    requires p < |s| && (forall i | 0 <= i < |s| :: k0 + k <= |s[i]|) && q < k && q' == k0 + q
    ensures Cols(s, k0, k0 + k)[p][q] == s[p][q']
  {
  }

  lemma ColScaleAgrees(s: Matrix, i: nat, j: nat, rows: nat, cols: nat, b0: nat, b1: nat, lo: nat, per: nat, k0: nat, k: nat)
    requires b0 > 0 && b1 > 0 && IsMatrix(s, CeilDiv(rows, b0), CeilDiv(cols, b1))
    requires lo + per <= cols && k0 + k <= CeilDiv(cols, b1) && CeilDiv(per, b1) == k && Shifted(lo, k0, per, b1)
    requires i < rows && j < per
    ensures ScaleAt(Cols(s, k0, k0 + k), i, j, rows, per, b0, b1) == ScaleAt(s, i, lo + j, rows, cols, b0, b1)
  {
    CeilBound(i, rows, b0);
    CeilBound(j, per, b1);
    ColEntry(s, k0, k, i / b0, j / b1, (lo + j) / b1) by {
      assert SameBlock(lo, k0, j, b1);
    }
  }

  lemma RowAgrees(w: Matrix, s: Matrix, rows: nat, cols: nat, b0: nat, b1: nat, lo: nat, per: nat, k0: nat, k: nat, i: nat)
    requires b0 > 0 && b1 > 0
    requires IsMatrix(w, rows, cols) && IsMatrix(s, CeilDiv(rows, b0), CeilDiv(cols, b1))
    requires lo + per <= rows && k0 + k <= |s| && CeilDiv(per, b0) == k && Shifted(lo, k0, per, b0) && i < per
    ensures Dequant(Rows(w, lo, lo + per), Rows(s, k0, k0 + k), per, cols, b0, b1)[i]
         == Dequant(w, s, rows, cols, b0, b1)[lo + i]
  {
    var x := Dequant(Rows(w, lo, lo + per), Rows(s, k0, k0 + k), per, cols, b0, b1)[i];
    var y := Dequant(w, s, rows, cols, b0, b1)[lo + i];
    forall j | 0 <= j < cols ensures x[j] == y[j] {
      RowScaleAgrees(s, i, j, rows, cols, b0, b1, lo, per, k0, k);
    }
  }

  lemma RowsAgree(w: Matrix, s: Matrix, rows: nat, cols: nat, b0: nat, b1: nat, lo: nat, per: nat, k0: nat, k: nat)
    requires b0 > 0 && b1 > 0
    requires IsMatrix(w, rows, cols) && IsMatrix(s, CeilDiv(rows, b0), CeilDiv(cols, b1))
    requires lo + per <= rows && k0 + k <= |s| && CeilDiv(per, b0) == k && Shifted(lo, k0, per, b0)
    ensures RowSliceAgrees(w, s, rows, cols, b0, b1, lo, per, k0, k)
  {
    var left := Dequant(Rows(w, lo, lo + per), Rows(s, k0, k0 + k), per, cols, b0, b1);
    var right := Rows(Dequant(w, s, rows, cols, b0, b1), lo, lo + per);
    forall i | 0 <= i < per ensures left[i] == right[i] {
      RowAgrees(w, s, rows, cols, b0, b1, lo, per, k0, k, i);
    }
  }

  lemma ColAgrees(w: Matrix, s: Matrix, rows: nat, cols: nat, b0: nat, b1: nat, lo: nat, per: nat, k0: nat, k: nat, i: nat)
    requires b0 > 0 && b1 > 0
    requires IsMatrix(w, rows, cols) && IsMatrix(s, CeilDiv(rows, b0), CeilDiv(cols, b1))
    requires lo + per <= cols && k0 + k <= CeilDiv(cols, b1) && CeilDiv(per, b1) == k && Shifted(lo, k0, per, b1) && i < rows
    ensures Dequant(Cols(w, lo, lo + per), Cols(s, k0, k0 + k), rows, per, b0, b1)[i]
         == Dequant(w, s, rows, cols, b0, b1)[i][lo..lo + per]
  {
    var x := Dequant(Cols(w, lo, lo + per), Cols(s, k0, k0 + k), rows, per, b0, b1)[i];
    var y := Dequant(w, s, rows, cols, b0, b1)[i];
    forall j | 0 <= j < per ensures x[j] == y[lo + j] {
      ColScaleAgrees(s, i, j, rows, cols, b0, b1, lo, per, k0, k);
    }
  }

  lemma ColsAgree(w: Matrix, s: Matrix, rows: nat, cols: nat, b0: nat, b1: nat, lo: nat, per: nat, k0: nat, k: nat)
    requires b0 > 0 && b1 > 0
    requires IsMatrix(w, rows, cols) && IsMatrix(s, CeilDiv(rows, b0), CeilDiv(cols, b1))
    requires lo + per <= cols && k0 + k <= CeilDiv(cols, b1) && CeilDiv(per, b1) == k && Shifted(lo, k0, per, b1)
    ensures ColSliceAgrees(w, s, rows, cols, b0, b1, lo, per, k0, k)
  {
    forall i | 0 <= i < rows
      ensures Dequant(Cols(w, lo, lo + per), Cols(s, k0, k0 + k), rows, per, b0, b1)[i]
           == Dequant(w, s, rows, cols, b0, b1)[i][lo..lo + per]
    {
      ColAgrees(w, s, rows, cols, b0, b1, lo, per, k0, k, i);
    }
  }

  /** Column-parallel (leading dimension), rank r of tp: slicing commutes with dequantising. */
  lemma RowSliceCommutes(w: Matrix, s: Matrix, rows: nat, cols: nat, b0: nat, b1: nat, tp: nat, r: nat)
    requires b0 > 0 && b1 > 0 && tp > 0 && r < tp
    requires IsMatrix(w, rows, cols) && IsMatrix(s, CeilDiv(rows, b0), CeilDiv(cols, b1))
    requires rows % tp == 0 && PerRank(rows, tp) % b0 == 0
    ensures RowSliceAgrees(w, s, rows, cols, b0, b1, ShareStart(rows, tp, r), PerRank(rows, tp), ScaleStart(rows, tp, r, b0), PerRank(rows, tp) / b0)
  {
    ShareBounds(rows, tp, r, b0);
    ShareShifts(rows, tp, r, b0);
    RowsAgree(w, s, rows, cols, b0, b1, ShareStart(rows, tp, r), PerRank(rows, tp), ScaleStart(rows, tp, r, b0), PerRank(rows, tp) / b0);
  }

  /** Row-parallel (trailing dimension). */
  lemma ColSliceCommutes(w: Matrix, s: Matrix, rows: nat, cols: nat, b0: nat, b1: nat, tp: nat, r: nat)
    requires b0 > 0 && b1 > 0 && tp > 0 && r < tp
    requires IsMatrix(w, rows, cols) && IsMatrix(s, CeilDiv(rows, b0), CeilDiv(cols, b1))
    requires cols % tp == 0 && PerRank(cols, tp) % b1 == 0
    ensures ColSliceAgrees(w, s, rows, cols, b0, b1, ShareStart(cols, tp, r), PerRank(cols, tp), ScaleStart(cols, tp, r, b1), PerRank(cols, tp) / b1)
  {
    ShareBounds(cols, tp, r, b1);
    ShareShifts(cols, tp, r, b1);
    ColsAgree(w, s, rows, cols, b0, b1, ShareStart(cols, tp, r), PerRank(cols, tp), ScaleStart(cols, tp, r, b1), PerRank(cols, tp) / b1);
  }

  /** Rank boundaries never cut a block exactly when the per-rank width is whole blocks. */
  lemma BoundariesWholeIff(per: nat, tp: nat, b: nat)
    requires tp > 0 && b > 0
    ensures per % b == 0 <==> forall r | 0 <= r <= tp :: BoundaryWhole(r, per, b)
  {
    if per % b == 0 {
      forall r | 0 <= r <= tp ensures BoundaryWhole(r, per, b) {
        DivMod(per, b);
        assert r * per == (r * (per / b)) * b + 0;
        DivUnique(r * per, b, r * (per / b), 0);
      }
    } else {
      assert 1 * per == per;
      assert !BoundaryWhole(1, per, b);
    }
  }

  predicate BoundaryWhole(r: nat, per: nat, b: nat)
    requires b > 0
  {
    (r * per) % b == 0
  }

  /** A share starting at `start` indexes its scales from the block holding `start`. Some element then
      gets a neighbour's scale exactly when the share starts inside a block and runs past its end. */
  lemma NeighbourScaleIff(start: nat, per: nat, b: nat)
    requires b > 0
    ensures (exists i :: 0 <= i < per && WrongScale(start, i, b)) <==> start % b != 0 && start % b + per > b
  {
    var m := start % b;
    if m != 0 && m + per > b {
      DivMod(start, b);
      DivUnique(b - m, b, 0, b - m);
      WrongScaleIff(start, b - m, b);
    }
    forall i | 0 <= i < per && WrongScale(start, i, b) ensures m != 0 && m + per > b {
      WrongScaleIff(start, i, b);
      RemainderBelow(i, b);
    }
  }

  lemma RemainderBelow(i: nat, b: nat)
    requires b > 0
    ensures i % b <= i
  {
    DivMod(i, b);
  }

  /** One element is wrong exactly when the two offsets into a block overflow it. */
  lemma WrongScaleIff(start: nat, i: nat, b: nat)
    requires b > 0
    ensures WrongScale(start, i, b) <==> start % b + i % b >= b
  {
    DivMod(start, b);
    DivMod(i, b);
    CarryIff(start, i, start / b, start % b, i / b, i % b, b);
  }

  lemma CarryIff(x: nat, y: nat, q1: nat, m1: nat, q2: nat, m2: nat, b: nat)
    requires x == q1 * b + m1 && y == q2 * b + m2 && m1 < b && m2 < b
    ensures (x + y) / b == q1 + q2 <==> m1 + m2 < b
  {
    var n := x + y;
    assert n == (q1 + q2) * b + (m1 + m2);
    if m1 + m2 < b {
      DivUnique(n, b, q1 + q2, m1 + m2);
    } else {
      assert (q1 + q2 + 1) * b == (q1 + q2) * b + b;
      DivUnique(n, b, q1 + q2 + 1, m1 + m2 - b);
    }
  }

  predicate WrongScale(start: nat, i: nat, b: nat)
    requires b > 0
  {
    (start + i) / b != start / b + i / b
  }

  /** So a share of at least one block that is not whole blocks gives rank 1 a wrong scale. */
  lemma MisalignedShareMixesScales(per: nat, b: nat)
    requires b > 0 && per >= b && per % b != 0
    ensures exists i :: 0 <= i < per && WrongScale(1 * per, i, b)
  {
    NeighbourScaleIff(1 * per, per, b);
  }

  // ------------------------------------------------------------------ the header and the alignment check

  datatype Leaf = ColumnParallel | RowParallel | NotSliced

  datatype Expert = Expert(stack: string, layer: nat, id: nat)

  /** A header entry, with what its name says of it, and the shape of the tensor registered under its
      scale name, if there is one. */
  datatype Tensor = Tensor(name: string, bytes: nat, fp8: bool, shape: seq<nat>, table: bool,
                           expert: Option<Expert>, leaf: Leaf, scale: Option<seq<nat>>)

  predicate GridChecked(t: Tensor) { t.fp8 && |t.shape| == 2 && t.scale.Some? }

  predicate GridGood(t: Tensor, b0: nat, b1: nat)
    requires b0 > 0 && b1 > 0 && GridChecked(t)
  {
    t.scale.value == [CeilDiv(t.shape[0], b0), CeilDiv(t.shape[1], b1)]
  }

  predicate Sliced(t: Tensor) { |t.shape| >= 2 && !t.table && t.expert.None? && !t.leaf.NotSliced? }

  predicate SliceGood(t: Tensor, tp: nat, b0: nat, b1: nat)
    requires tp > 0 && b0 > 0 && b1 > 0 && Sliced(t)
  {
    var dim := if t.leaf.ColumnParallel? then t.shape[0] else t.shape[|t.shape| - 1];
    var blk := if t.leaf.ColumnParallel? then b0 else b1;
    dim % tp == 0 && (t.fp8 ==> PerRank(dim, tp) % blk == 0)
  }

  ghost predicate A6Passes(header: seq<Tensor>, tp: nat, b0: nat, b1: nat)
    requires tp > 0 && b0 > 0 && b1 > 0
  {
    && (forall t | t in header && GridChecked(t) :: GridGood(t, b0, b1))
    && (forall t | t in header && Sliced(t) :: SliceGood(t, tp, b0, b1))
    && (exists t :: t in header && GridChecked(t))
    && (exists t :: t in header && Sliced(t))
  }

  /** The two walks of the check: it passes only if nothing is bad and each walk looked at something. */
  method CheckA6(header: seq<Tensor>, tp: nat, b0: nat, b1: nat) returns (ok: bool)
    requires tp > 0 && b0 > 0 && b1 > 0
    ensures ok <==> A6Passes(header, tp, b0, b1)
  {
    var gridChecked, gridBad := 0, [];
    for i := 0 to |header|
      invariant gridChecked >= 0
      invariant gridBad == [] <==> forall t | t in header[..i] && GridChecked(t) :: GridGood(t, b0, b1)
      invariant gridChecked > 0 <==> exists t :: t in header[..i] && GridChecked(t)
    {
      assert header[..i + 1] == header[..i] + [header[i]];
      if GridChecked(header[i]) {
        assert header[i] in header[..i + 1];
        gridChecked := gridChecked + 1;
        if !GridGood(header[i], b0, b1) {
          gridBad := gridBad + [header[i].name];
        }
      }
    }
    var slicedChecked, misaligned := 0, [];
    for i := 0 to |header|
      invariant slicedChecked >= 0
      invariant misaligned == [] <==> forall t | t in header[..i] && Sliced(t) :: SliceGood(t, tp, b0, b1)
      invariant slicedChecked > 0 <==> exists t :: t in header[..i] && Sliced(t)
    {
      assert header[..i + 1] == header[..i] + [header[i]];
      if Sliced(header[i]) {
        assert header[i] in header[..i + 1];
        slicedChecked := slicedChecked + 1;
        if !SliceGood(header[i], tp, b0, b1) {
          misaligned := misaligned + [header[i].name];
        }
      }
    }
    assert header[..|header|] == header;
    ok := misaligned == [] && gridBad == [] && gridChecked > 0 && slicedChecked > 0;
  }

  /** The dimension its leaf is sliced along, and the block size there. */
  ghost predicate SlicedAlong(t: Tensor, b0: nat, b1: nat, dim: nat, block: nat) {
    && |t.shape| >= 2
    && ((t.leaf == ColumnParallel && dim == t.shape[0] && block == b0)
        || (t.leaf == RowParallel && dim == t.shape[|t.shape| - 1] && block == b1))
  }

  /** The dimension divides by the ranks, and no rank boundary of an FP8 tensor cuts a block. */
  ghost predicate CutsCleanly(t: Tensor, tp: nat, dim: nat, block: nat)
    requires tp > 0 && block > 0
  {
    tp * (dim / tp) == dim && (t.fp8 ==> forall r | 0 <= r <= tp :: BoundaryWhole(r, dim / tp, block))
  }

  lemma SliceGoodIff(t: Tensor, tp: nat, b0: nat, b1: nat, dim: nat, block: nat)
    requires tp > 0 && b0 > 0 && b1 > 0 && !t.table && t.expert.None? && SlicedAlong(t, b0, b1, dim, block)
    ensures Sliced(t) && (SliceGood(t, tp, b0, b1) <==> CutsCleanly(t, tp, dim, block))
  {
    DivMod(dim, tp);
    BoundariesWholeIff(dim / tp, tp, block);
  }

  /** So many blocks cover the dimension, and one fewer does not. */
  ghost predicate CoveredBy(n: nat, dim: nat, block: nat) { dim <= n * block && n * block < dim + block }

  lemma CoveredIff(n: nat, dim: nat, block: nat)
    requires block > 0
    ensures n == CeilDiv(dim, block) <==> CoveredBy(n, dim, block)
  {
    var c := CeilDiv(dim, block);
    DivMod(dim + block - 1, block);
    if CoveredBy(n, dim, block) { DivUnique(dim + block - 1, block, n, dim + block - 1 - n * block); }
  }

  ghost predicate OnTheGrid(t: Tensor, b0: nat, b1: nat) {
    t.fp8 && |t.shape| == 2 && t.scale.Some? ==>
      && |t.scale.value| == 2
      && CoveredBy(t.scale.value[0], t.shape[0], b0) && CoveredBy(t.scale.value[1], t.shape[1], b1)
  }

  lemma GridGoodIff(t: Tensor, b0: nat, b1: nat)
    requires b0 > 0 && b1 > 0
    ensures (GridChecked(t) ==> GridGood(t, b0, b1)) <==> OnTheGrid(t, b0, b1)
  {
    if GridChecked(t) && |t.scale.value| == 2 {
      CoveredIff(t.scale.value[0], t.shape[0], b0);
      CoveredIff(t.scale.value[1], t.shape[1], b1);
    }
  }

  /** Every sliced dimension of the tensor is cut cleanly; the table and whole experts are not sliced. */
  ghost predicate CleanlyCut(t: Tensor, tp: nat, b0: nat, b1: nat)
    requires tp > 0 && b0 > 0 && b1 > 0
  {
    !t.table && t.expert.None? ==>
      forall dim, block | SlicedAlong(t, b0, b1, dim, block) :: CutsCleanly(t, tp, dim, block)
  }

  lemma CleanlyCutIff(t: Tensor, tp: nat, b0: nat, b1: nat)
    requires tp > 0 && b0 > 0 && b1 > 0
    ensures (Sliced(t) ==> SliceGood(t, tp, b0, b1)) <==> CleanlyCut(t, tp, b0, b1)
  {
    if |t.shape| >= 2 && !t.table && t.expert.None? && !t.leaf.NotSliced? {
      var dim := if t.leaf.ColumnParallel? then t.shape[0] else t.shape[|t.shape| - 1];
      var block := if t.leaf.ColumnParallel? then b0 else b1;
      SliceGoodIff(t, tp, b0, b1, dim, block);
      assert SlicedAlong(t, b0, b1, dim, block);
    }
  }

  /** What the check decides: every scale grid is the one the block size makes, every sliced dimension divides by the
      ranks, and no boundary between ranks cuts a block of an FP8 tensor. */
  lemma A6Iff(header: seq<Tensor>, tp: nat, b0: nat, b1: nat)
    requires tp > 0 && b0 > 0 && b1 > 0
    ensures A6Passes(header, tp, b0, b1) <==>
      && (forall t | t in header :: OnTheGrid(t, b0, b1)) && (forall t | t in header :: CleanlyCut(t, tp, b0, b1))
      && (exists t :: t in header && t.fp8 && |t.shape| == 2 && t.scale.Some?)
      && (exists t, dim, block :: t in header && !t.table && t.expert.None? && SlicedAlong(t, b0, b1, dim, block))
  {
    forall t | t in header
      ensures (GridChecked(t) ==> GridGood(t, b0, b1)) <==> OnTheGrid(t, b0, b1)
      ensures (Sliced(t) ==> SliceGood(t, tp, b0, b1)) <==> CleanlyCut(t, tp, b0, b1)
    {
      GridGoodIff(t, b0, b1);
      CleanlyCutIff(t, tp, b0, b1);
    }
    SomeSlicedIff(header, b0, b1);
  }

  lemma SomeSlicedIff(header: seq<Tensor>, b0: nat, b1: nat)
    ensures (exists t :: t in header && Sliced(t)) <==>
      exists t, dim, block :: t in header && !t.table && t.expert.None? && SlicedAlong(t, b0, b1, dim, block)
  {
    if t :| t in header && Sliced(t) {
      var dim := if t.leaf.ColumnParallel? then t.shape[0] else t.shape[|t.shape| - 1];
      assert SlicedAlong(t, b0, b1, dim, if t.leaf.ColumnParallel? then b0 else b1);
    }
  }

  /** What a passing check means: for every FP8 tensor it slices that carries scales, whatever the weights
      and scales are, every rank's slice dequantises to the slice of the dequantised tensor. */
  lemma A6MeansSlicingCommutes(header: seq<Tensor>, tp: nat, b0: nat, b1: nat, t: Tensor, r: nat, w: Matrix, s: Matrix)
    requires tp > 0 && b0 > 0 && b1 > 0 && r < tp && A6Passes(header, tp, b0, b1)
    requires t in header && t.fp8 && |t.shape| == 2 && Sliced(t) && t.scale.Some? && |t.scale.value| == 2
    requires IsMatrix(w, t.shape[0], t.shape[1]) && IsMatrix(s, t.scale.value[0], t.scale.value[1])
    ensures t.scale.value == [CeilDiv(t.shape[0], b0), CeilDiv(t.shape[1], b1)]
    ensures ShareAgrees(t, w, s, tp, b0, b1, r)
  {
    assert GridChecked(t) && GridGood(t, b0, b1) && SliceGood(t, tp, b0, b1);
    ShareOfGoodSlice(t, w, s, tp, b0, b1, r);
  }

  ghost predicate ShareAgrees(t: Tensor, w: Matrix, s: Matrix, tp: nat, b0: nat, b1: nat, r: nat)
    requires tp > 0 && b0 > 0 && b1 > 0 && |t.shape| == 2
    requires IsMatrix(w, t.shape[0], t.shape[1]) && IsMatrix(s, CeilDiv(t.shape[0], b0), CeilDiv(t.shape[1], b1))
  {
    match t.leaf
    case ColumnParallel =>
      RowSliceAgrees(w, s, t.shape[0], t.shape[1], b0, b1, ShareStart(t.shape[0], tp, r), PerRank(t.shape[0], tp),
                     ScaleStart(t.shape[0], tp, r, b0), PerRank(t.shape[0], tp) / b0)
    case RowParallel =>
      ColSliceAgrees(w, s, t.shape[0], t.shape[1], b0, b1, ShareStart(t.shape[1], tp, r), PerRank(t.shape[1], tp),
                     ScaleStart(t.shape[1], tp, r, b1), PerRank(t.shape[1], tp) / b1)
    case NotSliced => true
  }

  lemma ShareOfGoodSlice(t: Tensor, w: Matrix, s: Matrix, tp: nat, b0: nat, b1: nat, r: nat)
    requires tp > 0 && b0 > 0 && b1 > 0 && r < tp && t.fp8 && |t.shape| == 2 && Sliced(t) && SliceGood(t, tp, b0, b1)
    requires IsMatrix(w, t.shape[0], t.shape[1]) && IsMatrix(s, CeilDiv(t.shape[0], b0), CeilDiv(t.shape[1], b1))
    ensures ShareAgrees(t, w, s, tp, b0, b1, r)
  {
    if t.leaf.ColumnParallel? {
      RowSliceCommutes(w, s, t.shape[0], t.shape[1], b0, b1, tp, r);
    } else {
      ColSliceCommutes(w, s, t.shape[0], t.shape[1], b0, b1, tp, r);
    }
  }

  // ------------------------------------------------------------------ attention groups (A4, A5)

  /** The divisibility check, for n heads sharing g key/value heads: query heads over KV heads in A4,
      value heads over key heads in A5. */
  predicate GroupsOk(n: nat, g: nat, tp: nat)
    requires g > 0 && tp > 0
  {
    g % tp == 0 && n % g == 0 && (g / tp > 0 ==> (n / tp) % (g / tp) == 0)
  }

  /** A5 spells out one more divisibility, which the other conjuncts already imply. */
  predicate GdnOk(values: nat, keys: nat, tp: nat)
    requires keys > 0 && tp > 0
  {
    keys % tp == 0 && values % tp == 0 && values % keys == 0 && (keys / tp > 0 ==> (values / tp) % (keys / tp) == 0)
  }

  lemma GdnOkIsGroupsOk(values: nat, keys: nat, tp: nat)
    requires keys > 0 && tp > 0
    ensures GdnOk(values, keys, tp) <==> GroupsOk(values, keys, tp)
  {
    if GroupsOk(values, keys, tp) {
      DivMod(values, keys);
      DivMod(keys, tp);
      Assoc(values / keys, keys / tp, tp);
      DivUnique(values, tp, values / keys * (keys / tp), 0);
    }
  }

  /** A passing check: rank r's heads use exactly rank r's groups, by the global map shifted. */
  lemma GroupsStayWhole(n: nat, g: nat, tp: nat, r: nat, q: nat)
    requires g > 0 && tp > 0 && GroupsOk(n, g, tp) && r < tp && q < n / tp
    ensures n / g > 0 && g / tp > 0 && (n / tp) / (g / tp) == n / g
    ensures (r * (n / tp) + q) / (n / g) == r * (g / tp) + q / ((n / tp) / (g / tp))
    ensures q / ((n / tp) / (g / tp)) < g / tp
  {
    var k, size := g / tp, n / g;
    DivMod(g, tp);
    DivMod(n, g);
    assert n == (size * k) * tp + 0;
    DivUnique(n, tp, size * k, 0);
    DivUnique(n / tp, k, size, 0);
    assert r * (n / tp) == (r * k) * size;
    BlockShift(r * k, q, size);
    BlockShift(k, 0, size);
    DivUnique(size * k, size, k, 0);
    DivBound(q, size * k, size);
  }

  predicate SameGroup(h: nat, i: nat, n: nat, g: nat)
    requires g > 0 && n / g > 0
  {
    h / (n / g) == i / (n / g)
  }

  predicate SameRank(h: nat, i: nat, n: nat, tp: nat)
    requires tp > 0 && n / tp > 0
  {
    h / (n / tp) == i / (n / tp)
  }

  /** With both head counts divisible, no group straddles a rank boundary exactly when the groups
      themselves divide by the rank count. */
  lemma NoStraddleIff(n: nat, g: nat, tp: nat)
    requires g > 0 && tp > 0 && n > 0 && n % g == 0 && n % tp == 0 && n / g > 0 && n / tp > 0
    ensures g % tp == 0 <==> forall h, i | 0 <= h < n && 0 <= i < n && SameGroup(h, i, n, g) :: SameRank(h, i, n, tp)
  {
    var size, per := n / g, n / tp;
    DivMod(n, g);
    DivMod(n, tp);
    if g % tp == 0 {
      forall h, i | 0 <= h < n && 0 <= i < n && SameGroup(h, i, n, g) ensures SameRank(h, i, n, tp) {
        RankOfHead(n, g, tp, h);
        RankOfHead(n, g, tp, i);
      }
    } else {
      DivMod(per, size);
      if per % size == 0 {
        GroupsDivide(n, g, tp, size, per);
        assert false;
      }
      Neighbours(per, size);
      assert tp != 1;
      MulMono(2, tp, per);
      DivUnique(per, per, 1, 0);
      DivUnique(per - 1, per, 0, per - 1);
      assert SameGroup(per - 1, per, n, g) && !SameRank(per - 1, per, n, tp);
    }
  }

  /** A head's rank is its group's rank. */
  lemma RankOfHead(n: nat, g: nat, tp: nat, h: nat)
    requires g > 0 && tp > 0 && n > 0 && n % g == 0 && n % tp == 0 && n / g > 0 && n / tp > 0 && g % tp == 0 && h < n
    ensures g / tp > 0 && h / (n / tp) == (h / (n / g)) / (g / tp)
  {
    var size, k := n / g, g / tp;
    DivMod(n, g);
    DivMod(g, tp);
    assert n == (k * size) * tp + 0;
    DivUnique(n, tp, k * size, 0);
    var a := h / size;
    DivMod(h, size);
    DivMod(a, k);
    var c := a / k;
    assert h == c * (k * size) + ((a % k) * size + h % size) by {
      assert a * size == (c * k + a % k) * size == c * (k * size) + (a % k) * size;
    }
    MulMono(a % k + 1, k, size);
    DivUnique(h, k * size, c, (a % k) * size + h % size);
  }

  lemma GroupsDivide(n: nat, g: nat, tp: nat, size: nat, per: nat)
    requires tp > 0 && size > 0 && n == size * g && n == per * tp && per % size == 0
    ensures g % tp == 0
  {
    DivMod(per, size);
    var k := per / size;
    assert size * g == size * (k * tp);
    MulSame(size, g, k * tp);
    DivUnique(g, tp, k, 0);
  }

  /** A boundary inside a group has that group on both sides. */
  lemma Neighbours(per: nat, size: nat)
    requires size > 0 && per % size != 0
    ensures per >= 1 && (per - 1) / size == per / size
  {
    DivMod(per, size);
    DivUnique(per - 1, size, per / size, per % size - 1);
  }
}
