/** Sequence and collection helpers of utils/base.py.  A tensor is modelled by
    its rows along dimension 0 (a sequence); where a helper looks into a row,
    a row is a sequence of integer token ids. */
module UtilsBase {
  import opened Wrappers
  import Arith

  /* ---------- pad_tensors ---------- */

  /** The longest row length, 0 when there are no rows. */
  function MaxLen(rows: seq<seq<int>>): (m: nat)
    ensures forall i :: 0 <= i < |rows| ==> |rows[i]| <= m
    ensures rows != [] ==> exists i :: 0 <= i < |rows| && |rows[i]| == m
    ensures rows == [] ==> m == 0
  {
    if rows == [] then 0
    else
      var m' := MaxLen(rows[..|rows| - 1]);
      if |rows[|rows| - 1]| > m' then |rows[|rows| - 1]| else m'
  }

  /** `n` zero entries (`tensor.new_zeros`). */
  function Zeros(n: nat): (z: seq<int>)
    ensures |z| == n
  {
    seq(n, _ => 0)
  }

  /** pad_tensors: right-pad every row with zeros up to the longest row. */
  method PadTensors(rows: seq<seq<int>>) returns (r: seq<seq<int>>)
    ensures |r| == |rows|
    ensures forall i :: 0 <= i < |rows| ==>
      |r[i]| == MaxLen(rows) && r[i][..|rows[i]|] == rows[i]
    ensures forall i, j :: 0 <= i < |rows| && |rows[i]| <= j < |r[i]| ==> r[i][j] == 0
    ensures forall i :: 0 <= i < |rows| && |rows[i]| == MaxLen(rows) ==> r[i] == rows[i]
  {
    var maxlen := 0;
    for i := 0 to |rows|
      invariant forall j :: 0 <= j < i ==> |rows[j]| <= maxlen
      invariant maxlen == 0 || exists j :: 0 <= j < i && |rows[j]| == maxlen
    {
      if |rows[i]| > maxlen {
        maxlen := |rows[i]|;
      }
    }
    assert maxlen == MaxLen(rows);
    r := seq(|rows|, i requires 0 <= i < |rows| =>
      if |rows[i]| == maxlen then rows[i] else rows[i] + Zeros(maxlen - |rows[i]|));
  }

  /* ---------- clear_pad ---------- */

  /** Number of pad (0) entries in a row: the row's sum of `batch_in.eq(0)`. */
  function ZeroCount(row: seq<int>): (c: nat)
    ensures c <= |row|
  {
    if row == [] then 0
    else ZeroCount(row[..|row| - 1]) + (if row[|row| - 1] == 0 then 1 else 0)
  }

  /** The smallest pad count over a non-empty batch (`.min()`). */
  function MinZeroCount(batch: seq<seq<int>>): (m: nat)
    requires batch != []
    ensures forall i :: 0 <= i < |batch| ==> m <= ZeroCount(batch[i])
    ensures exists i :: 0 <= i < |batch| && m == ZeroCount(batch[i])
  {
    if |batch| == 1 then ZeroCount(batch[0])
    else
      var m' := MinZeroCount(batch[..|batch| - 1]);
      var c := ZeroCount(batch[|batch| - 1]);
      if c < m' then c else m'
  }

  /** A rectangular batch: every row has the width of the first. */
  ghost predicate Rectangular(batch: seq<seq<int>>)
  {
    forall i :: 0 <= i < |batch| ==> |batch[i]| == |batch[0]|
  }

  /** clear_pad (default mask): cut the `npad` last columns, npad being the
      fewest pads any row has; an empty batch makes `.min()` raise (None). */
  function ClearPad(batch: seq<seq<int>>): (r: Option<seq<seq<int>>>)
    requires Rectangular(batch)
    ensures r.None? <==> batch == []
    ensures r.Some? ==> |r.value| == |batch| && Rectangular(r.value)
    ensures r.Some? ==> forall i :: 0 <= i < |batch| ==>
      |r.value[i]| == |batch[i]| - MinZeroCount(batch) && r.value[i] == batch[i][..|r.value[i]|]
    ensures r.Some? && MinZeroCount(batch) == 0 ==> r.value == batch
  {
    if batch == [] then None
    else
      var npad := MinZeroCount(batch);
      if npad > 0 then
        Some(seq(|batch|, i requires 0 <= i < |batch| => batch[i][..|batch[i]| - npad]))
      else Some(batch)
  }

  /** A row made of non-pad tokens followed only by pads. */
  ghost predicate TrailingPads(row: seq<int>)
  {
    forall i, j :: 0 <= i < j < |row| && row[i] == 0 ==> row[j] == 0
  }

  lemma {:induction false} TrailingZeroCount(row: seq<int>, c: nat)
    requires TrailingPads(row)
    requires c <= ZeroCount(row)
    ensures forall j :: |row| - c <= j < |row| ==> row[j] == 0
    decreases |row|
  {
    if row != [] && c > 0 {
      var last := row[|row| - 1];
      var front := row[..|row| - 1];
      assert TrailingPads(front);
      if last == 0 {
        TrailingZeroCount(front, c - 1);
      } else {
        // a non-pad last token means the row has no pad at all
        assert forall i :: 0 <= i < |front| ==> front[i] != 0;
        NoZeroCount(front);
        assert false;
      }
    }
  }

  lemma {:induction false} NoZeroCount(row: seq<int>)
    requires forall i :: 0 <= i < |row| ==> row[i] != 0
    ensures ZeroCount(row) == 0
  {
    if row != [] {
      NoZeroCount(row[..|row| - 1]);
    }
  }

  /** When pads only ever trail, clear_pad removes nothing but pads. */
  lemma ClearPadDropsOnlyPads(batch: seq<seq<int>>)
    requires Rectangular(batch) && batch != []
    requires forall i :: 0 <= i < |batch| ==> TrailingPads(batch[i])
    ensures forall i, j :: 0 <= i < |batch| && |ClearPad(batch).value[i]| <= j < |batch[i]| ==> batch[i][j] == 0
  {
    var npad := MinZeroCount(batch);
    forall i | 0 <= i < |batch|
      ensures forall j :: |batch[i]| - npad <= j < |batch[i]| ==> batch[i][j] == 0
    {
      TrailingZeroCount(batch[i], npad);
    }
  }

  /* ---------- repeat_bsize_for_beam_tensor / index_select ---------- */

  /** `k` consecutive copies of one row. */
  function Copies<T>(x: T, k: nat): (r: seq<T>)
    ensures |r| == k && forall i :: 0 <= i < k ==> r[i] == x
  {
    if k == 0 then [] else Copies(x, k - 1) + [x]
  }

  /** repeat_bsize_for_beam_tensor: `repeat(1, k, ..)` then `view(bsize * k, ..)`
      lays out `k` copies of every row next to each other, so row r of the
      result belongs to example r div k. */
  function RepeatForBeam<T>(rows: seq<T>, k: nat): (r: seq<T>)
    requires k > 0
    ensures |r| == |rows| * k
    ensures forall i :: 0 <= i < |r| ==> i / k < |rows| && r[i] == rows[i / k]
  {
    if rows == [] then []
    else
      var rest := RepeatForBeam(rows[1..], k);
      RepeatStep(rows, k, rest);
      Copies(rows[0], k) + rest
  }

  /** The copies of the first row followed by the repeated remaining rows
      are the repeated rows. */
  lemma RepeatStep<T>(rows: seq<T>, k: nat, rest: seq<T>)
    requires k > 0 && rows != []
    requires |rest| == (|rows| - 1) * k
    requires forall j :: 0 <= j < |rest| ==> j / k < |rows| - 1 && rest[j] == rows[j / k + 1]
    ensures |Copies(rows[0], k) + rest| == |rows| * k
    ensures forall i :: 0 <= i < |rows| * k ==> i / k < |rows| && (Copies(rows[0], k) + rest)[i] == rows[i / k]
  {
    var r := Copies(rows[0], k) + rest;
    assert |rows| * k == (|rows| - 1) * k + k;
    forall i | 0 <= i < |r| ensures i / k < |rows| && r[i] == rows[i / k] {
      RepeatAt(rows, k, rest, i);
    }
  }

  /** One row of RepeatStep: row i comes from example i div k. */
  lemma RepeatAt<T>(rows: seq<T>, k: nat, rest: seq<T>, i: nat)
    requires k > 0 && rows != []
    requires |rest| == (|rows| - 1) * k
    requires forall j :: 0 <= j < |rest| ==> j / k < |rows| - 1 && rest[j] == rows[j / k + 1]
    requires i < k + |rest|
    ensures i / k < |rows| && (Copies(rows[0], k) + rest)[i] == rows[i / k]
  {
    var r := Copies(rows[0], k) + rest;
    if i < k {
      Arith.BlockIndex(0, k, i);
      assert r[i] == rows[0];
    } else {
      Arith.DivStep(i, k);
      var j := i - k;
      Arith.BlockBound(j, |rows| - 1, k);
      assert r[i] == rest[j];
    }
  }

  /** `index_select(0, inds)`: the rows named by `inds`, in that order. */
  function IndexSelect<T>(rows: seq<T>, inds: seq<nat>): (r: seq<T>)
    requires forall i :: 0 <= i < |inds| ==> inds[i] < |rows|
    ensures |r| == |inds|
  {
    seq(|inds|, i requires 0 <= i < |inds| => rows[inds[i]])
  }

  /* ---------- expand_bsize_for_beam / index_tensors ---------- */

  /** The nested containers the decoders keep their state in: tensors at the
      leaves, dicts, tuples and lists around them, and any other value. */
  datatype Nested<K, T, L> =
    | Tensor(rows: seq<T>)
    | Dict(entries: map<K, Nested<K, T, L>>)
    | Tuple(elems: seq<Nested<K, T, L>>)
    | List(elems: seq<Nested<K, T, L>>)
    | Other(leaf: L)

  /** Same containers with the same keys and lengths, and the same non-tensor
      leaves; tensors may differ. */
  ghost predicate SameShape<K, T, L>(x: Nested<K, T, L>, y: Nested<K, T, L>)
  {
    match x
    case Tensor(_) => y.Tensor?
    case Dict(m) => y.Dict? && m.Keys == y.entries.Keys && forall k :: k in m ==> SameShape(m[k], y.entries[k])
    case Tuple(s) => y.Tuple? && |s| == |y.elems| && forall i :: 0 <= i < |s| ==> SameShape(s[i], y.elems[i])
    case List(s) => y.List? && |s| == |y.elems| && forall i :: 0 <= i < |s| ==> SameShape(s[i], y.elems[i])
    case Other(a) => y == Other(a)
  }

  /** Every tensor of `y` has row r equal to row `src(r)` of the tensor at the
      same place in `x`, and `n` rows. */
  ghost predicate RowsFrom<K, T, L>(x: Nested<K, T, L>, y: Nested<K, T, L>, n: Nested<K, T, L> -> nat, src: (nat, nat) -> nat)
  {
    match x
    case Tensor(a) => y.Tensor? && |y.rows| == n(x) && forall r :: 0 <= r < |y.rows| ==> src(|a|, r) < |a| && y.rows[r] == a[src(|a|, r)]
    case Dict(m) => y.Dict? && forall k :: k in m && k in y.entries ==> RowsFrom(m[k], y.entries[k], n, src)
    case Tuple(s) => y.Tuple? && forall i :: 0 <= i < |s| && i < |y.elems| ==> RowsFrom(s[i], y.elems[i], n, src)
    case List(s) => y.List? && forall i :: 0 <= i < |s| && i < |y.elems| ==> RowsFrom(s[i], y.elems[i], n, src)
    case Other(_) => true
  }

  /** expand_bsize_for_beam: every tensor repeated for `k` beams, everything
      else rebuilt around it unchanged. */
  function ExpandForBeam<K, T, L>(x: Nested<K, T, L>, k: nat): (y: Nested<K, T, L>)
    requires k > 0
    ensures SameShape(x, y)
    ensures RowsFrom(x, y, (z: Nested<K, T, L>) => if z.Tensor? then |z.rows| * k else 0, (len: nat, r: nat) => r / k)
  {
    match x
    case Tensor(a) => Tensor(RepeatForBeam(a, k))
    case Dict(m) => Dict(map key | key in m :: ExpandForBeam(m[key], k))
    case Tuple(s) => Tuple(seq(|s|, i requires 0 <= i < |s| => ExpandForBeam(s[i], k)))
    case List(s) => List(seq(|s|, i requires 0 <= i < |s| => ExpandForBeam(s[i], k)))
    case Other(a) => x
  }

  /** Every tensor in `x` has more than `bound` rows... i.e. can be indexed by any index below `bound`. */
  ghost predicate TensorsHaveRows<K, T, L>(x: Nested<K, T, L>, bound: nat)
  {
    match x
    case Tensor(a) => bound <= |a|
    case Dict(m) => forall k :: k in m ==> TensorsHaveRows(m[k], bound)
    case Tuple(s) => forall i :: 0 <= i < |s| ==> TensorsHaveRows(s[i], bound)
    case List(s) => forall i :: 0 <= i < |s| ==> TensorsHaveRows(s[i], bound)
    case Other(_) => true
  }

  /** index_tensors (dim 0): every tensor row-selected by `inds`. */
  function IndexTensors<K, T, L>(x: Nested<K, T, L>, inds: seq<nat>, bound: nat): (y: Nested<K, T, L>)
    requires forall i :: 0 <= i < |inds| ==> inds[i] < bound
    requires TensorsHaveRows(x, bound)
    ensures SameShape(x, y)
    ensures RowsFrom(x, y, (z: Nested<K, T, L>) => |inds|, (len: nat, r: nat) => if r < |inds| then inds[r] else 0)
  {
    match x
    case Tensor(a) => Tensor(IndexSelect(a, inds))
    case Dict(m) => Dict(map key | key in m :: IndexTensors(m[key], inds, bound))
    case Tuple(s) => Tuple(seq(|s|, i requires 0 <= i < |s| => IndexTensors(s[i], inds, bound)))
    case List(s) => List(seq(|s|, i requires 0 <= i < |s| => IndexTensors(s[i], inds, bound)))
    case Other(a) => x
  }

  /* ---------- select_zero_ ---------- */

  /** select_zero_(x, -1, index) on a tensor stored row-major with last
      dimension `width`: every entry at position `index` of the last dimension
      is zeroed in place, nothing else changes. */
  method SelectZero<T>(x: array<T>, width: nat, index: nat, zero: T)
    requires index < width
    modifies x
    ensures forall t :: 0 <= t < x.Length ==> x[t] == (if t % width == index then zero else old(x[t]))
  {
    forall t | 0 <= t < x.Length && t % width == index {
      x[t] := zero;
    }
  }

  /* ---------- remove_layers ---------- */

  /** The positions below `n` that are not in `ltr`, ascending. */
  function KeptIndices(n: nat, ltr: set<nat>): (idx: seq<nat>)
    ensures forall a, b :: 0 <= a < b < |idx| ==> idx[a] < idx[b]
    ensures forall a :: 0 <= a < |idx| ==> idx[a] < n && idx[a] !in ltr
    ensures forall j: nat :: j < n && j !in ltr ==> j in idx
  {
    if n == 0 then []
    else
      var p := KeptIndices(n - 1, ltr);
      var last: seq<nat> := if n - 1 in ltr then [] else [n - 1];
      KeptStep(n, ltr, p, last);
      p + last
  }

  /** The kept positions below n - 1, then n - 1 unless it is removed, are
      the kept positions below n. */
  lemma KeptStep(n: nat, ltr: set<nat>, p: seq<nat>, last: seq<nat>)
    requires n > 0 && last == if n - 1 in ltr then [] else [n - 1]
    requires forall a, b :: 0 <= a < b < |p| ==> p[a] < p[b]
    requires forall a :: 0 <= a < |p| ==> p[a] < n - 1 && p[a] !in ltr
    requires forall j: nat :: j < n - 1 && j !in ltr ==> j in p
    ensures forall a, b :: 0 <= a < b < |p + last| ==> (p + last)[a] < (p + last)[b]
    ensures forall a :: 0 <= a < |p + last| ==> (p + last)[a] < n && (p + last)[a] !in ltr
    ensures forall j: nat :: j < n && j !in ltr ==> j in p + last
  {
    forall j: nat | j < n && j !in ltr ensures j in p + last {
      if j < n - 1 { assert j in p; } else { assert j in last; }
    }
  }

  /** remove_layers: the layers at the kept positions, in their order. */
  function RemoveLayers<T>(all: seq<T>, ltr: set<nat>): (r: seq<T>)
    ensures |r| == |KeptIndices(|all|, ltr)|
    ensures forall a :: 0 <= a < |r| ==> r[a] == all[KeptIndices(|all|, ltr)[a]]
  {
    if all == [] then []
    else
      var n := |all| - 1;
      var p := RemoveLayers(all[..n], ltr);
      assert KeptIndices(|all|, ltr) == KeptIndices(n, ltr) + (if n in ltr then [] else [n]);
      p + (if n in ltr then [] else [all[n]])
  }

  /** With nothing below n to remove, the kept positions are 0, 1, ..., n - 1. */
  lemma {:induction false} KeptAll(n: nat, ltr: set<nat>)
    requires forall i :: i in ltr ==> i >= n
    ensures |KeptIndices(n, ltr)| == n
    ensures forall a :: 0 <= a < n ==> KeptIndices(n, ltr)[a] == a
  {
    if n > 0 {
      KeptAll(n - 1, ltr);
      var p := KeptIndices(n - 1, ltr);
      var q := p + [n - 1];
      assert KeptIndices(n, ltr) == q;
      forall a | 0 <= a < n ensures q[a] == a {
        if a < n - 1 {
          assert q[a] == p[a];
        }
      }
    }
  }

  /** With nothing to remove (or only positions past the end), every layer is kept. */
  lemma RemoveNothing<T>(all: seq<T>, ltr: set<nat>)
    requires forall i :: i in ltr ==> i >= |all|
    ensures RemoveLayers(all, ltr) == all
  {
    KeptAll(|all|, ltr);
    var r := RemoveLayers(all, ltr);
    assert |r| == |all|;
    forall a | 0 <= a < |r| ensures r[a] == all[a] {
    }
  }

  /* ---------- eq_indexes ---------- */

  /** eq_indexes: entry-wise "equals one of `indexes`"; None when no index
      is given (the loop never assigns its result). */
  method EqIndexes(tensor: seq<int>, indexes: seq<int>) returns (r: Option<seq<bool>>)
    ensures r.None? <==> indexes == []
    ensures r.Some? ==> |r.value| == |tensor|
    ensures r.Some? ==> forall i :: 0 <= i < |tensor| ==> (r.value[i] <==> tensor[i] in indexes)
  {
    r := None;
    for n := 0 to |indexes|
      invariant r.None? <==> n == 0
      invariant r.Some? ==> |r.value| == |tensor|
      invariant r.Some? ==> forall i :: 0 <= i < |tensor| ==> (r.value[i] <==> tensor[i] in indexes[..n])
    {
      var ind := indexes[n];
      var eq := seq(|tensor|, i requires 0 <= i < |tensor| => tensor[i] == ind);
      if r.None? {
        r := Some(eq);
      } else {
        var prev := r.value;
        r := Some(seq(|tensor|, i requires 0 <= i < |tensor| => prev[i] || eq[i]));
      }
      assert indexes[..n + 1] == indexes[..n] + [ind];
    }
    assert indexes[..|indexes|] == indexes;
  }

  /* ---------- float2odd ---------- */

  /** math.ceil on a real. */
  function Ceil(x: real): (c: int)
    ensures (c - 1) as real < x <= c as real
  {
    -((-x).Floor)
  }

  /** float2odd: ceil(x), lowered by one when odd; the result is the largest
      even integer not above ceil(x) (Python's % makes odd negatives odd too). */
  function Float2Odd(x: real): (r: int)
    ensures r % 2 == 0
    ensures r <= Ceil(x) < r + 2
    ensures x - 2.0 < r as real
  {
    var c := Ceil(x);
    if c % 2 == 1 then c - 1 else c
  }

  /* ---------- divide_para_ind ---------- */

  function Sum(s: seq<nat>): nat
  {
    if s == [] then 0 else Sum(s[..|s| - 1]) + s[|s| - 1]
  }

  /** Python's ceil(a / b) for b > 0 (exact, not through a float). */
  function CeilDiv(a: nat, b: nat): (c: nat)
    requires b > 0
    ensures (c - 1) * b < a <= c * b
  {
    var q := a / b;
    if a % b == 0 then q else q + 1
  }

  /** `ranges` split [0, n) into consecutive, possibly empty, half-open ranges. */
  ghost predicate Covers(ranges: seq<(nat, nat)>, n: nat)
  {
    (ranges == [] <==> n == 0)
    && (ranges != [] ==> ranges[0].0 == 0 && ranges[|ranges| - 1].1 == n)
    && (forall i :: 0 <= i < |ranges| ==> ranges[i].0 <= ranges[i].1 <= n)
    && (forall i :: 0 < i < |ranges| ==> ranges[i - 1].1 == ranges[i].0)
  }

  function Singletons(n: nat): (ranges: seq<(nat, nat)>)
    ensures Covers(ranges, n)
  {
    seq(n, i requires 0 <= i < n => (i, i + 1))
  }

  /** The counters of the splitting loop: open range [lind, rind), its size pg,
      nd ranges closed so far, and the closed ranges. */
  datatype Grouping = Grouping(lind: nat, rind: nat, pg: nat, nd: nat, closed: seq<(nat, nat)>)

  /** After consuming i sizes: the closed ranges tile [0, lind) and rind == i. */
  ghost predicate GroupInv(g: Grouping, i: nat)
  {
    g.rind == i && g.lind <= i && |g.closed| == g.nd
    && (g.closed == [] ==> g.lind == 0)
    && (g.closed != [] ==> g.closed[0].0 == 0 && g.closed[|g.closed| - 1].1 == g.lind)
    && (forall j :: 0 <= j < |g.closed| ==> g.closed[j].0 <= g.closed[j].1)
    && (forall j :: 0 < j < |g.closed| ==> g.closed[j - 1].1 == g.closed[j].0)
  }

  /** One iteration of the loop body on size `elu`. */
  function GroupStep(g: Grouping, elu: nat, pGroup: nat): (r: Grouping)
    requires GroupInv(g, g.rind)
    ensures GroupInv(r, g.rind + 1)
    ensures r.nd == g.nd || r.nd == g.nd + 1
  {
    var npg := g.pg + elu;
    if npg < pGroup then g.(rind := g.rind + 1, pg := npg)
    else if npg + g.pg > pGroup + pGroup then
      Grouping(g.rind, g.rind + 1, elu, g.nd + 1, g.closed + [(g.lind, g.rind)])
    else
      Grouping(g.rind + 1, g.rind + 1, 0, g.nd + 1, g.closed + [(g.lind, g.rind + 1)])
  }

  /** The loop over sizes[i..]; it breaks right after the close that brings
      nd to nprevs. */
  function GroupLoop(sizes: seq<nat>, i: nat, g: Grouping, pGroup: nat, nprevs: nat): (r: Grouping)
    requires i <= |sizes| && GroupInv(g, i) && (g.nd == 0 || g.nd < nprevs)
    ensures r.rind <= |sizes| && GroupInv(r, r.rind)
    ensures r.nd <= nprevs || r.nd <= 1
    decreases |sizes| - i
  {
    if i == |sizes| then g
    else
      var g' := GroupStep(g, sizes[i], pGroup);
      if g'.nd > g.nd && g'.nd >= nprevs then g'
      else GroupLoop(sizes, i + 1, g', pGroup, nprevs)
  }

  /** The loop's ranges for budget pGroup, closed off by the last range up to n. */
  function LoopRanges(sizes: seq<nat>, pGroup: nat, nprevs: nat): (ranges: seq<(nat, nat)>)
    requires |sizes| > 0
    ensures Covers(ranges, |sizes|)
    ensures |ranges| <= nprevs + 1 || |ranges| <= 2
  {
    var g := GroupLoop(sizes, 0, Grouping(0, 0, 0, 0, []), pGroup, nprevs);
    CloseLast(g, |sizes|);
    g.closed + [(g.lind, |sizes|)]
  }

  /** divide_para_ind as written: singletons when there are at most ngroup
      sizes, otherwise the loop's ranges with budget ceil(sum / ngroup). */
  function DivideParaIndSpec(sizes: seq<nat>, ngroup: nat): (ranges: seq<(nat, nat)>)
    requires ngroup > 0
    ensures Covers(ranges, |sizes|)
    ensures |sizes| <= ngroup ==> ranges == Singletons(|sizes|)
    ensures ngroup >= 2 ==> |ranges| <= ngroup
    ensures |ranges| <= ngroup + 1
  {
    if |sizes| <= ngroup then Singletons(|sizes|)
    else LoopRanges(sizes, CeilDiv(Sum(sizes), ngroup), ngroup - 1)
  }

  /** Appending the last range [lind, n) completes the tiling of [0, n). */
  lemma CloseLast(g: Grouping, n: nat)
    requires GroupInv(g, g.rind) && g.rind <= n && n > 0
    ensures Covers(g.closed + [(g.lind, n)], n)
  {
    var r := g.closed + [(g.lind, n)];
    forall i | 0 < i < |r| ensures r[i - 1].1 == r[i].0 {
      if i < |r| - 1 { assert r[i - 1] == g.closed[i - 1] && r[i] == g.closed[i]; }
    }
    forall i | 0 <= i < |r| ensures r[i].0 <= r[i].1 <= n {
      if i < |r| - 1 {
        assert r[i] == g.closed[i];
        ClosedBelow(g, i);
      }
    }
  }

  /** Every closed range ends at or before lind. */
  lemma {:induction false} ClosedBelow(g: Grouping, i: nat)
    requires GroupInv(g, g.rind) && i < |g.closed|
    ensures g.closed[i].1 <= g.lind
    decreases |g.closed| - i
  {
    if i + 1 < |g.closed| {
      ClosedBelow(g, i + 1);
    }
  }

  /** One pass of the loop body: extend the open range or close it. */
  method ConsumeSize(g: Grouping, elu: nat, pGroup: nat) returns (r: Grouping)
    requires GroupInv(g, g.rind)
    ensures r == GroupStep(g, elu, pGroup)
  {
    var lind, rind, pg, nd, ranges := g.lind, g.rind, g.pg, g.nd, g.closed;
    var npg := pg + elu;
    if npg < pGroup {
      rind := rind + 1;
      pg := npg;
    } else {
      if npg + pg > pGroup + pGroup {
        ranges := ranges + [(lind, rind)];
        lind := rind;
        rind := rind + 1;
        pg := elu;
      } else {
        rind := rind + 1;
        ranges := ranges + [(lind, rind)];
        lind := rind;
        pg := 0;
      }
      nd := nd + 1;
    }
    r := Grouping(lind, rind, pg, nd, ranges);
  }

  /** The splitting loop of divide_para_ind over budget pGroup; it breaks once
      nprevs ranges are closed. */
  method SplitByBudget(sizes: seq<nat>, pGroup: nat, nprevs: nat) returns (ranges: seq<(nat, nat)>)
    requires |sizes| > 0
    ensures ranges == LoopRanges(sizes, pGroup, nprevs)
  {
    var g := GroupRun(sizes, Grouping(0, 0, 0, 0, []), pGroup, nprevs);
    ranges := g.closed + [(g.lind, |sizes|)];
  }

  /** The loop itself, from the counters `start` (all zero in the source). */
  method GroupRun(sizes: seq<nat>, start: Grouping, pGroup: nat, nprevs: nat) returns (g: Grouping)
    requires GroupInv(start, 0) && start.nd == 0
    ensures g == GroupLoop(sizes, 0, start, pGroup, nprevs)
  {
    g := start;
    ghost var final := GroupLoop(sizes, 0, g, pGroup, nprevs);
    var i := 0;
    while i < |sizes|
      invariant i <= |sizes| && GroupInv(g, i) && (g.nd == 0 || g.nd < nprevs)
      invariant GroupLoop(sizes, i, g, pGroup, nprevs) == final
    {
      var stop;
      g, stop := GroupTurn(sizes, i, g, pGroup, nprevs, final);
      if stop {
        break;
      }
      i := i + 1;
    }
  }

  /** One turn of the splitting loop on sizes[i]: consume it, and say whether
      that close brought nd to nprevs, which breaks the loop. */
  method GroupTurn(sizes: seq<nat>, i: nat, g: Grouping, pGroup: nat, nprevs: nat, ghost final: Grouping)
    returns (g': Grouping, stop: bool)
    requires i < |sizes| && GroupInv(g, i) && (g.nd == 0 || g.nd < nprevs)
    requires GroupLoop(sizes, i, g, pGroup, nprevs) == final
    ensures stop ==> g' == final
    ensures !stop ==> (GroupInv(g', i + 1) && (g'.nd == 0 || g'.nd < nprevs) &&
                       GroupLoop(sizes, i + 1, g', pGroup, nprevs) == final)
  {
    g' := ConsumeSize(g, sizes[i], pGroup);
    GroupLoopStep(sizes, i, g, g', pGroup, nprevs);
    stop := g'.nd > g.nd && g'.nd >= nprevs;
  }

  /** One turn of the loop: after the step to `g'` the loop either breaks
      with `g'` or goes on from `g'` at the next size. */
  lemma GroupLoopStep(sizes: seq<nat>, i: nat, g: Grouping, g': Grouping, pGroup: nat, nprevs: nat)
    requires i < |sizes| && GroupInv(g, i) && (g.nd == 0 || g.nd < nprevs)
    requires g' == GroupStep(g, sizes[i], pGroup)
    ensures g'.nd > g.nd && g'.nd >= nprevs ==> GroupLoop(sizes, i, g, pGroup, nprevs) == g'
    ensures !(g'.nd > g.nd && g'.nd >= nprevs) ==>
      GroupInv(g', i + 1) && (g'.nd == 0 || g'.nd < nprevs) &&
      GroupLoop(sizes, i, g, pGroup, nprevs) == GroupLoop(sizes, i + 1, g', pGroup, nprevs)
  {
  }

  /** The sizes summed over each range (the return_np part). */
  function RangeSums(sizes: seq<nat>, ranges: seq<(nat, nat)>): (np: seq<nat>)
    requires Covers(ranges, |sizes|)
    ensures |np| == |ranges|
    ensures forall i :: 0 <= i < |ranges| ==> np[i] == Sum(sizes[ranges[i].0..ranges[i].1])
  {
    seq(|ranges|, i requires 0 <= i < |ranges| => Sum(sizes[ranges[i].0..ranges[i].1]))
  }

  /** divide_para_ind (sizes are the parameters' numel): the ranges and, as
      with return_np, the sum of the sizes in each range. */
  method DivideParaInd(sizes: seq<nat>, ngroup: nat) returns (ranges: seq<(nat, nat)>, np: seq<nat>)
    requires ngroup > 0
    ensures ranges == DivideParaIndSpec(sizes, ngroup)
    ensures np == RangeSums(sizes, ranges)
  {
    if |sizes| <= ngroup {
      ranges := Singletons(|sizes|);
    } else {
      ranges := GroupedRanges(sizes, ngroup);
    }
    np := RangeSums(sizes, ranges);
  }

  /** The loop path of divide_para_ind: more sizes than groups, budget
      ceil(sum / ngroup), and a break once ngroup - 1 ranges are closed. */
  method GroupedRanges(sizes: seq<nat>, ngroup: nat) returns (ranges: seq<(nat, nat)>)
    requires ngroup > 0 && |sizes| > ngroup
    ensures ranges == DivideParaIndSpec(sizes, ngroup)
  {
    ranges := SplitByBudget(sizes, CeilDiv(Sum(sizes), ngroup), ngroup - 1);
  }

  /** With one group and two parameters the loop closes [0, 2) and then appends
      the empty range [2, 2): two ranges for one group. */
  lemma DivideParaIndOneGroup()
    ensures DivideParaIndSpec([1, 1], 1) == [(0, 2), (2, 2)]
  {
    var sizes: seq<nat> := [1, 1];
    assert Sum(sizes) == 2 by { assert sizes[..1] == [1]; assert sizes[..0] == []; }
    var g0 := Grouping(0, 0, 0, 0, []);
    var g1 := GroupStep(g0, 1, 2);
    assert g1 == Grouping(0, 1, 1, 0, []);
    var g2 := GroupStep(g1, 1, 2);
    assert g2 == Grouping(2, 2, 0, 1, [(0, 2)]);
    assert GroupLoop(sizes, 1, g1, 2, 0) == g2;
    assert GroupLoop(sizes, 0, g0, 2, 0) == g2;
    assert LoopRanges(sizes, 2, 0) == [(0, 2), (2, 2)];
  }

  /** divide_para_ind with the evident intent of at most ngroup ranges: one
      group takes every parameter. */
  function DivideParaIndFixed(sizes: seq<nat>, ngroup: nat): (ranges: seq<(nat, nat)>)
    requires ngroup > 0
    ensures Covers(ranges, |sizes|)
    ensures |ranges| <= ngroup
    ensures |sizes| <= ngroup ==> ranges == Singletons(|sizes|)
    ensures ngroup >= 2 ==> ranges == DivideParaIndSpec(sizes, ngroup)
  {
    if ngroup == 1 && |sizes| > 1 then [(0, |sizes|)] else DivideParaIndSpec(sizes, ngroup)
  }

  /* ---------- reorder_by_sort ---------- */

  /** The values of the first n pairs whose key is k, in input order. */
  function Bucket<T>(keys: seq<int>, vals: seq<T>, n: nat, k: int): seq<T>
    requires n <= |keys| && n <= |vals|
  {
    if n == 0 then []
    else Bucket(keys, vals, n - 1, k) + (if keys[n - 1] == k then [vals[n - 1]] else [])
  }

  /** The buckets of the keys ks, concatenated in the order of ks. */
  function Gather<T>(keys: seq<int>, vals: seq<T>, n: nat, ks: seq<int>): seq<T>
    requires n <= |keys| && n <= |vals|
  {
    if ks == [] then []
    else Gather(keys, vals, n, ks[..|ks| - 1]) + Bucket(keys, vals, n, ks[|ks| - 1])
  }

  /** a comes strictly before b: ascending, or descending with reverse. */
  predicate Before(a: int, b: int, reverse: bool)
  {
    if reverse then a > b else a < b
  }

  ghost predicate StrictlySorted(ks: seq<int>, reverse: bool)
  {
    forall i, j :: 0 <= i < j < |ks| ==> Before(ks[i], ks[j], reverse)
  }

  /** Insert x into a strictly sorted list (no-op when present). */
  function InsertKey(x: int, ks: seq<int>, reverse: bool): (r: seq<int>)
    requires StrictlySorted(ks, reverse)
    ensures StrictlySorted(r, reverse)
    ensures forall y :: y in r <==> y == x || y in ks
  {
    if ks == [] then [x]
    else if x == ks[0] then ks
    else if Before(x, ks[0], reverse) then [x] + ks
    else
      var rest := InsertKey(x, ks[1..], reverse);
      assert forall y :: y in rest ==> Before(ks[0], y, reverse) by {
        forall y | y in rest ensures Before(ks[0], y, reverse) {
          if y != x {
            var i :| 0 <= i < |ks[1..]| && ks[1..][i] == y;
            assert ks[i + 1] == y;
          }
        }
      }
      [ks[0]] + rest
  }

  /** sorted() over the distinct keys of ks. */
  function SortKeys(ks: seq<int>, reverse: bool): (r: seq<int>)
    ensures StrictlySorted(r, reverse)
    ensures forall y :: y in r <==> y in ks
  {
    if ks == [] then []
    else InsertKey(ks[|ks| - 1], SortKeys(ks[..|ks| - 1], reverse), reverse)
  }

  /** Two strictly sorted lists of the same keys are the same list. */
  lemma {:induction false} SortedUnique(a: seq<int>, b: seq<int>, reverse: bool)
    requires StrictlySorted(a, reverse) && StrictlySorted(b, reverse)
    requires forall y :: y in a <==> y in b
    ensures a == b
  {
    if a == [] {
      forall y ensures multiset(b)[y] == 0 {
        assert y !in a;
        assert y !in multiset(b);
      }
      assert multiset(b) == multiset{};
    } else {
      assert a[0] in a;
      assert b != [] && b[0] in b;
      assert forall y :: y in a ==> y == a[0] || Before(a[0], y, reverse);
      assert forall y :: y in b ==> y == b[0] || Before(b[0], y, reverse);
      assert a[0] == b[0];
      forall y ensures y in a[1..] <==> y in b[1..] {
        if y in a[1..] {
          var i :| 0 <= i < |a[1..]| && a[1..][i] == y;
          assert Before(a[0], a[i + 1], reverse);
          assert a[i + 1] in a;
          var j :| 0 <= j < |b| && b[j] == y;
          assert j != 0;
          assert b[1..][j - 1] == y;
        }
        if y in b[1..] {
          var j :| 0 <= j < |b[1..]| && b[1..][j] == y;
          assert Before(b[0], b[j + 1], reverse);
          assert b[j + 1] in b;
          var i :| 0 <= i < |a| && a[i] == y;
          assert i != 0;
          assert a[1..][i - 1] == y;
        }
      }
      SortedUnique(a[1..], b[1..], reverse);
      assert a == [a[0]] + a[1..] && b == [b[0]] + b[1..];
    }
  }

  /** The first `n` pairs: zip stops at the shorter input. */
  function PairCount<T>(keys: seq<int>, vals: seq<T>): nat
  {
    if |keys| <= |vals| then |keys| else |vals|
  }

  /** The reordering reorder_by_sort computes: the buckets in sorted key order. */
  function Reordered<T>(keys: seq<int>, vals: seq<T>, reverse: bool): seq<T>
  {
    var n := PairCount(keys, vals);
    Gather(keys, vals, n, SortKeys(keys[..n], reverse))
  }

  /** reorder_by_sort: values grouped by key, groups in (reverse) sorted key
      order; None where the source fails on an empty input. */
  method ReorderBySort<T>(keys: seq<int>, vals: seq<T>, reverse: bool) returns (r: Option<seq<T>>)
    ensures r.None? <==> PairCount(keys, vals) == 0
    ensures r.Some? ==> r.value == Reordered(keys, vals, reverse)
  {
    var n := PairCount(keys, vals);
    var td, order := GroupByKey(keys, vals, n);
    var sorted := SortKeys(order, reverse);
    SortedUnique(sorted, SortKeys(keys[..n], reverse), reverse);
    r := None;
    for j := 0 to |sorted|
      invariant r.None? <==> j == 0
      invariant r.Some? ==> r.value == Gather(keys, vals, n, sorted[..j])
    {
      assert sorted[..j + 1][..j] == sorted[..j];
      var bucket := td[sorted[j]];
      if r.None? {
        r := Some(bucket);
      } else {
        r := Some(r.value + bucket);
      }
    }
    if r.Some? {
      assert sorted[..|sorted|] == sorted;
    }
  }

  /** The dictionary of lists built by the first loop: each key of the first n
      pairs, in first-occurrence order, with its bucket. */
  method GroupByKey<T>(keys: seq<int>, vals: seq<T>, n: nat) returns (td: map<int, seq<T>>, order: seq<int>)
    requires n <= |keys| && n <= |vals|
    ensures forall k :: k in order <==> k in keys[..n]
    ensures forall k :: k in order ==> k in td && td[k] == Bucket(keys, vals, n, k)
  {
    td := map[];
    order := [];
    for i := 0 to n
      invariant forall k :: k in order <==> k in td
      invariant forall k :: k in td <==> k in keys[..i]
      invariant forall k :: k in td ==> td[k] == Bucket(keys, vals, i, k)
    {
      var lus := keys[i];
      if lus !in td {
        BucketAbsent(keys, vals, i, lus);
        td := td[lus := [vals[i]]];
        order := order + [lus];
      } else {
        td := td[lus := td[lus] + [vals[i]]];
      }
      assert keys[..i + 1] == keys[..i] + [lus];
    }
  }

  /** A key that does not occur among the first n pairs has an empty bucket. */
  lemma {:induction false} BucketAbsent<T>(keys: seq<int>, vals: seq<T>, n: nat, k: int)
    requires n <= |keys| && n <= |vals| && k !in keys[..n]
    ensures Bucket(keys, vals, n, k) == []
  {
    if n > 0 {
      assert keys[..n - 1] <= keys[..n];
      BucketAbsent(keys, vals, n - 1, k);
    }
  }

  /** No key is listed twice. */
  ghost predicate DistinctKeys(ks: seq<int>)
  {
    forall i, j :: 0 <= i < j < |ks| ==> ks[i] != ks[j]
  }

  /** With no pairs consumed every bucket is empty. */
  lemma {:induction false} GatherNone<T>(keys: seq<int>, vals: seq<T>, ks: seq<int>)
    ensures Gather(keys, vals, 0, ks) == []
  {
    if ks != [] {
      GatherNone(keys, vals, ks[..|ks| - 1]);
    }
  }

  /** Consuming pair n - 1 adds its value to exactly one bucket of ks (none if
      its key is not listed). */
  lemma {:induction false} GatherStep<T>(keys: seq<int>, vals: seq<T>, n: nat, ks: seq<int>)
    requires 0 < n <= |keys| && n <= |vals| && DistinctKeys(ks)
    ensures multiset(Gather(keys, vals, n, ks))
         == multiset(Gather(keys, vals, n - 1, ks)) + (if keys[n - 1] in ks then multiset{vals[n - 1]} else multiset{})
  {
    if ks != [] {
      var init := ks[..|ks| - 1];
      var last := ks[|ks| - 1];
      GatherStep(keys, vals, n, init);
      var x := keys[n - 1];
      var one: multiset<T> := multiset{vals[n - 1]};
      var none: multiset<T> := multiset{};
      var gAdd := if x in init then one else none;
      var bAdd := if x == last then one else none;
      assert (if x in ks then one else none) == gAdd + bAdd by {
        assert ks == init + [last];
        if x == last {
          assert x !in init;
        }
      }
      var g, b := Gather(keys, vals, n - 1, init), Bucket(keys, vals, n - 1, last);
      var g', b' := Gather(keys, vals, n, init), Bucket(keys, vals, n, last);
      assert multiset(b') == multiset(b) + bAdd;
      assert multiset(Gather(keys, vals, n, ks)) == multiset(g') + multiset(b');
      assert multiset(Gather(keys, vals, n - 1, ks)) == multiset(g) + multiset(b);
      SumShift(multiset(g'), multiset(g), gAdd, multiset(b'), multiset(b), bAdd);
    }
  }

  /** Adding to both parts of a sum adds to the sum. */
  lemma SumShift<T>(g': multiset<T>, g: multiset<T>, gAdd: multiset<T>, b': multiset<T>, b: multiset<T>, bAdd: multiset<T>)
    requires g' == g + gAdd && b' == b + bAdd
    ensures g' + b' == (g + b) + (gAdd + bAdd)
  {
  }

  /** Gathering the buckets of a list covering every key gives back all values. */
  lemma {:induction false} GatherAll<T>(keys: seq<int>, vals: seq<T>, n: nat, ks: seq<int>)
    requires n <= |keys| && n <= |vals| && DistinctKeys(ks)
    requires forall j :: 0 <= j < n ==> keys[j] in ks
    ensures multiset(Gather(keys, vals, n, ks)) == multiset(vals[..n])
  {
    if n == 0 {
      GatherNone(keys, vals, ks);
    } else {
      GatherAll(keys, vals, n - 1, ks);
      GatherStep(keys, vals, n, ks);
      PrefixSnoc(vals, n);
    }
  }

  /** The first n values are the first n - 1 and value n - 1. */
  lemma PrefixSnoc<T>(s: seq<T>, n: nat)
    requires 0 < n <= |s|
    ensures multiset(s[..n]) == multiset(s[..n - 1]) + multiset{s[n - 1]}
  {
    assert s[..n] == s[..n - 1] + [s[n - 1]];
  }

  /** reorder_by_sort is a permutation of the zipped values. */
  lemma ReorderPermutation<T>(keys: seq<int>, vals: seq<T>, reverse: bool)
    ensures multiset(Reordered(keys, vals, reverse)) == multiset(vals[..PairCount(keys, vals)])
  {
    var n := PairCount(keys, vals);
    var ks := SortKeys(keys[..n], reverse);
    assert DistinctKeys(ks) by {
      forall i, j | 0 <= i < j < |ks| ensures ks[i] != ks[j] {
        assert Before(ks[i], ks[j], reverse);
      }
    }
    forall j | 0 <= j < n ensures keys[j] in ks {
      assert keys[..n][j] == keys[j];
    }
    GatherAll(keys, vals, n, ks);
  }

  /** Every pair in the bucket of k carries key k. */
  lemma {:induction false} BucketKey<T>(pvs: seq<(int, T)>, n: nat, k: int)
    requires n <= |pvs|
    ensures forall p :: p in Bucket(Firsts(pvs), pvs, n, k) ==> p.0 == k
  {
    if n > 0 {
      BucketKey(pvs, n - 1, k);
    }
  }

  function Firsts<T>(pvs: seq<(int, T)>): (ks: seq<int>)
    ensures |ks| == |pvs| && forall i :: 0 <= i < |pvs| ==> ks[i] == pvs[i].0
  {
    seq(|pvs|, i requires 0 <= i < |pvs| => pvs[i].0)
  }

  /** Keys in (reverse) sorted order, equal keys adjacent. */
  ghost predicate GroupedByKey<T>(pvs: seq<(int, T)>, reverse: bool)
  {
    forall i, j :: 0 <= i < j < |pvs| ==> pvs[i].0 == pvs[j].0 || Before(pvs[i].0, pvs[j].0, reverse)
  }

  /** Gathering along a strictly sorted key list groups the pairs by key. */
  lemma {:induction false} GatherGrouped<T>(pvs: seq<(int, T)>, n: nat, ks: seq<int>, reverse: bool)
    requires n <= |pvs| && StrictlySorted(ks, reverse)
    ensures GroupedByKey(Gather(Firsts(pvs), pvs, n, ks), reverse)
    ensures forall p :: p in Gather(Firsts(pvs), pvs, n, ks) ==> p.0 in ks
  {
    if ks != [] {
      var init := ks[..|ks| - 1];
      var last := ks[|ks| - 1];
      GatherGrouped(pvs, n, init, reverse);
      BucketKey(pvs, n, last);
      var g: seq<(int, T)> := Gather(Firsts(pvs), pvs, n, init);
      var b: seq<(int, T)> := Bucket(Firsts(pvs), pvs, n, last);
      var gb: seq<(int, T)> := g + b;
      forall i, j | 0 <= i < j < |gb|
        ensures gb[i].0 == gb[j].0 || Before(gb[i].0, gb[j].0, reverse)
      {
        if j >= |g| {
          assert gb[j] == b[j - |g|];
          assert b[j - |g|] in b;
          if i < |g| {
            assert g[i] in g;
            var m :| 0 <= m < |init| && init[m] == g[i].0;
            assert ks[m] == init[m];
          } else {
            assert gb[i] == b[i - |g|];
            assert b[i - |g|] in b;
          }
        } else {
          assert gb[i] == g[i] && gb[j] == g[j];
        }
      }
      forall p | p in gb ensures p.0 in ks {
        if p in g {
          assert p.0 in init;
        }
      }
    }
  }

  /** reorder_by_sort groups the pairs by key in ascending order, or
      descending with reverse. */
  lemma ReorderGroupsByKey<T>(pvs: seq<(int, T)>, reverse: bool)
    ensures GroupedByKey(Reordered(Firsts(pvs), pvs, reverse), reverse)
  {
    var keys := Firsts(pvs);
    GatherGrouped(pvs, PairCount(keys, pvs), SortKeys(keys[..PairCount(keys, pvs)], reverse), reverse);
  }

  /* ---------- holder ---------- */

  /** holder: a dictionary whose get_hold inserts a default on a miss. */
  class Holder<K(==), V> {
    var store: map<K, V>

    constructor (init: map<K, V>)
      ensures store == init
    {
      store := init;
    }

    /** get_hold: the held value when k is present, otherwise sv, which is
        stored under k; the value returned is the one now held. */
    method GetHold(k: K, sv: V) returns (v: V)
      modifies this
      ensures k in old(store) ==> v == old(store)[k] && store == old(store)
      ensures k !in old(store) ==> v == sv && store == old(store)[k := sv]
      ensures k in store && store[k] == v
    {
      if k in store {
        v := store[k];
      } else {
        store := store[k := sv];
        v := sv;
      }
    }
  }

  /* ---------- bestfkeeper ---------- */

  /** The names clean() deletes when it drops all but the newest k of names
      (None entries are never deleted, nor is the protected name `last`). */
  function Doomed(names: seq<Option<string>>, k: nat, last: Option<string>): (d: set<string>)
    ensures last.Some? ==> last.value !in d
    ensures forall s :: s in d ==> Some(s) in names
  {
    set i | 0 <= i < |names| - k && names[i].Some? && names[i] != last :: names[i].value
  }

  /** The names clean() keeps: the newest min(k, |names|). */
  function Newest(names: seq<Option<string>>, k: nat): (r: seq<Option<string>>)
    ensures |r| == if |names| <= k then |names| else k
    ensures r == names[|names| - |r|..]
  {
    if |names| <= k then names else names[|names| - k..]
  }

  /** The newest name, None when there is none. */
  function LastName(names: seq<Option<string>>): Option<string>
  {
    if names == [] then None else names[|names| - 1]
  }

  /** bestfkeeper: the names of the kept checkpoints, newest last, and the
      files on disk it may delete. */
  class BestFKeeper {
    var fnames: seq<Option<string>>
    var k: nat
    var disk: set<string>

    /** __init__: takes the names and prunes them to the newest k. */
    constructor (names: seq<Option<string>>, keep: nat, onDisk: set<string>)
      ensures k == keep
      ensures fnames == Newest(names, keep)
      ensures disk == onDisk - Doomed(names, keep, LastName(names))
    {
      fnames, k, disk := names, keep, onDisk;
      new;
      Clean(None);
    }

    /** update: records a new name and prunes, protecting that name. */
    method Update(fname: Option<string>)
      modifies this
      ensures k == old(k)
      ensures fnames == Newest(old(fnames) + [fname], k)
      ensures disk == old(disk) - Doomed(old(fnames) + [fname], k, fname)
      ensures fname.Some? && fname.value in old(disk) ==> fname.value in disk
    {
      fnames := fnames + [fname];
      Clean(fname);
    }

    /** clean: pops the oldest names until at most k remain, deleting each
        popped file unless it is the protected name (last_fname, or else the
        newest name). */
    method Clean(lastFname: Option<string>)
      modifies this
      ensures k == old(k)
      ensures fnames == Newest(old(fnames), k)
      ensures disk == old(disk) - Doomed(old(fnames), k, if lastFname.None? then LastName(old(fnames)) else lastFname)
    {
      var nFiles := |fnames|;
      var protect := if lastFname.None? then LastName(fnames) else lastFname;
      ghost var names := fnames;
      var popped := 0;
      while nFiles > k
        invariant k == old(k)
        invariant 0 <= popped <= |names| && nFiles == |names| - popped
        invariant (|names| <= k && popped == 0) || (|names| > k && popped <= |names| - k)
        invariant fnames == names[popped..]
        invariant disk == old(disk) - Doomed(names[..popped], 0, protect)
        decreases nFiles
      {
        var fname := fnames[0];
        fnames := fnames[1..];
        if fname.Some? && fname != protect && fname.value in disk {
          disk := disk - {fname.value};
        }
        assert names[..popped + 1] == names[..popped] + [fname];
        DoomedStep(names[..popped], fname, protect);
        popped := popped + 1;
        nFiles := nFiles - 1;
      }
      DoomedPrefix(names, popped, protect);
      if |names| <= k {
        assert Doomed(names, |names|, protect) == {} == Doomed(names, k, protect);
      }
    }
  }

  /** Popping one more name dooms it exactly when it is a protected-free name. */
  lemma DoomedStep(names: seq<Option<string>>, fname: Option<string>, last: Option<string>)
    ensures Doomed(names + [fname], 0, last)
         == Doomed(names, 0, last) + (if fname.Some? && fname != last then {fname.value} else {})
  {
    var n2 := names + [fname];
    forall s ensures s in Doomed(n2, 0, last) <==> s in Doomed(names, 0, last) || (fname.Some? && fname != last && s == fname.value)
    {
      if s in Doomed(n2, 0, last) {
        var i :| 0 <= i < |n2| && n2[i].Some? && n2[i] != last && n2[i].value == s;
        if i < |names| { assert names[i] == n2[i]; }
      }
      if s in Doomed(names, 0, last) {
        var i :| 0 <= i < |names| && names[i].Some? && names[i] != last && names[i].value == s;
        assert n2[i] == names[i];
      }
      if fname.Some? && fname != last && s == fname.value {
        assert n2[|names|] == fname;
      }
    }
  }

  /** Dooming the first popped names of a list is dooming all but its newest. */
  lemma DoomedPrefix(names: seq<Option<string>>, popped: nat, last: Option<string>)
    requires popped <= |names|
    ensures Doomed(names[..popped], 0, last) == Doomed(names, |names| - popped, last)
  {
    var p := names[..popped];
    forall s ensures s in Doomed(p, 0, last) <==> s in Doomed(names, |names| - popped, last)
    {
      if s in Doomed(p, 0, last) {
        var i :| 0 <= i < |p| && p[i].Some? && p[i] != last && p[i].value == s;
        assert names[i] == p[i];
      }
      if s in Doomed(names, |names| - popped, last) {
        var i :| 0 <= i < popped && names[i].Some? && names[i] != last && names[i].value == s;
        assert p[i] == names[i];
      }
    }
  }
}
