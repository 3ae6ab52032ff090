/** Beam search (`beam_decode` of the base, TA, SC and BART decoders) with the
    neural step abstracted. Every per-beam structure is a flat sequence of
    B*K rows: rows b*K .. b*K+K-1 are the K beams of example b. */
module Beam {
  import opened TopK
  import opened Search
  import Arith
  import UtilsBase

  /** The call arguments that shape the search. `penalised` is
      `length_penalty > 0.0`. */
  datatype Options = Options(k: nat, maxLen: int, penalised: bool, returnAll: bool, clip: bool)

  /** Everything one search is given: the network, the variant's constants,
      the options, the length penalty of a step, and one encoder row per
      example. */
  datatype Ctx<!E> = Ctx(net: Net<E>, v: Variant, o: Options, pen: nat -> Pen, enc: seq<E>)

  /** The search state, one entry per beam: `trans`, the decoder input fed so
      far (start token first; it determines the layer states), `sum_scores`,
      `scores`, `done_trans` and `lpv`. */
  datatype Beams = Beams(
    trans: seq<seq<int>>,
    fed: seq<seq<int>>,
    sum: seq<Score>,
    scores: seq<Score>,
    done: seq<bool>,
    lpv: seq<Pen>)

  /** Which candidate a new beam took: flat index `flat` in [0, K*K) of its
      example's candidates, the parent row and the parent's candidate slot. */
  datatype Pick = Pick(flat: nat, parent: nat, slot: nat)

  /** Every structure holds one entry per beam of every example. */
  ghost predicate Fits<E>(c: Ctx<E>, st: Beams)
  {
    c.o.k >= 1 &&
    |st.trans| == |c.enc| * c.o.k && |st.fed| == |st.trans| && |st.sum| == |st.trans| &&
    |st.scores| == |st.trans| && |st.done| == |st.trans| && |st.lpv| == |st.trans|
  }

  /** ... and every translation row has `len` tokens. */
  ghost predicate Shaped<E>(c: Ctx<E>, st: Beams, len: nat)
  {
    Fits(c, st) && forall r :: 0 <= r < |st.trans| ==> |st.trans[r]| == len
  }

  /** The encoder row beam r reads: `inpute` repeated K times per example. */
  function EncRow<E>(c: Ctx<E>, r: nat): E
    requires c.o.k >= 1 && r < |c.enc| * c.o.k
  {
    UtilsBase.RepeatForBeam(c.enc, c.o.k)[r]
  }

  /** Step 0: the K best tokens of each example's first distribution fill
      its K beams; a beam is done when its token is 2. */
  function Start<E>(c: Ctx<E>): (st: Beams)
    requires c.o.k >= 1
    ensures Shaped(c, st, 1)
  {
    var n := |c.enc| * c.o.k;
    var first := seq(n, r requires 0 <= r < n => c.net(EncRow(c, r), [c.v.sos], r % c.o.k));
    Beams(
      seq(n, r requires 0 <= r < n => [first[r].1]),
      seq(n, r requires 0 <= r < n => [c.v.sos, first[r].1]),
      seq(n, r requires 0 <= r < n => Fin(first[r].0)),
      seq(n, r requires 0 <= r < n => Fin(first[r].0)),
      seq(n, r requires 0 <= r < n => first[r].1 == 2),
      seq(n, r requires 0 <= r < n => 1.0))
  }

  /** `lpv` before the selection: with a length penalty, rows that are not
      done get the penalty of this step and done rows keep theirs. */
  function Refresh<E>(c: Ctx<E>, st: Beams, step: nat): (lpv: seq<Pen>)
    requires |st.lpv| == |st.done|
    ensures |lpv| == |st.lpv|
  {
    if c.o.penalised then
      seq(|st.lpv|, r requires 0 <= r < |st.lpv| => if st.done[r] then st.lpv[r] else c.pen(step))
    else st.lpv
  }

  /** The route score of candidate `j` (log-probability `lp`) of parent row
      `p`: the parent score plus `lp`, except for a done parent, whose
      candidates add nothing, and under SC/BART masking only its slot 0
      survives while the others get -inf. */
  function CandScore(v: Variant, st: Beams, p: nat, j: nat, lp: real): Score
    requires p < |st.done| && p < |st.sum|
  {
    if !st.done[p] then Plus(st.sum[p], lp)
    else if v.masking == AddZero || j == 0 then st.sum[p]
    else NegInf
  }

  /** The candidate `j` of parent row `p` that the network proposes. */
  function Cand<E>(c: Ctx<E>, st: Beams, p: nat, j: nat): (real, int)
    requires Fits(c, st) && p < |st.fed|
  {
    c.net(EncRow(c, p), st.fed[p], j)
  }

  /** The key the K*K candidates are ranked by: the route score, divided by
      the refreshed length penalty when `clip_beam` and a penalty are on. */
  function Key<E>(c: Ctx<E>, st: Beams, lpv: seq<Pen>, p: nat, j: nat): Score
    requires Fits(c, st) && p < |st.done| && |lpv| == |st.done|
  {
    var s := CandScore(c.v, st, p, j, Cand(c, st, p, j).0);
    if c.o.clip && c.o.penalised then Over(s, lpv[p]) else s
  }

  /** `flat // K + b*K`: candidate f of example b comes from the parent row at
      offset f div K of the example's block. */
  function ParentRow(k: nat, b: nat, f: nat): (p: nat)
    requires k >= 1 && f < k * k
    ensures b * k <= p < b * k + k && p / k == b
  {
    Arith.SlotBound(f, k);
    Arith.BlockIndex(b, k, f / k);
    f / k + b * k
  }

  /** The K*K candidate keys of example b, flat index f = parent slot * K +
      candidate slot. */
  function Keys<E>(c: Ctx<E>, st: Beams, lpv: seq<Pen>, b: nat): (keys: seq<Score>)
    requires Fits(c, st) && b < |c.enc| && |lpv| == |st.done|
    ensures |keys| == c.o.k * c.o.k && c.o.k <= |keys|
  {
    var k := c.o.k;
    Arith.MulAtLeast(k, k);
    Arith.BlockEnd(b, |c.enc|, k);
    seq(k * k, f requires 0 <= f < k * k => Key(c, st, lpv, ParentRow(k, b, f), f % k))
  }

  /** The candidate that becomes beam i of example b: rank i of the example's
      top K. */
  function PickOf<E>(c: Ctx<E>, st: Beams, lpv: seq<Pen>, b: nat, i: nat): (pk: Pick)
    requires Fits(c, st) && b < |c.enc| && i < c.o.k && |lpv| == |st.done|
    ensures pk.flat < c.o.k * c.o.k && pk.slot < c.o.k && pk.parent < |st.done|
    ensures b * c.o.k <= pk.parent < b * c.o.k + c.o.k && pk.parent / c.o.k == b
  {
    var k := c.o.k;
    var f := Select(Keys(c, st, lpv, b), k)[i];
    Arith.BlockEnd(b, |c.enc|, k);
    Pick(f, ParentRow(k, b, f), f % k)
  }

  /** The pick of new row r, which is beam r mod K of example r div K. */
  function PickRow<E>(c: Ctx<E>, st: Beams, lpv: seq<Pen>, r: nat): (pk: Pick)
    requires Fits(c, st) && r < |st.done| && |lpv| == |st.done|
    ensures pk.parent < |st.done| && pk.slot < c.o.k
  {
    Arith.BlockBound(r, |c.enc|, c.o.k);
    PickOf(c, st, lpv, r / c.o.k, r % c.o.k)
  }

  /** The token appended to a new beam: with `fill_pad`, `pad_id` when the
      beam's parent was already done. */
  function Appended(v: Variant, parentDone: bool, tok: int): int
  {
    if v.fillPad && parentDone then v.padId else tok
  }

  /** The selections of one step: the refreshed penalties, the pick of every
      new beam, and the candidate (log-probability, token) it takes. */
  datatype Moves = Moves(lpv: seq<Pen>, picks: seq<Pick>, cands: seq<(real, int)>)

  function Choose<E>(c: Ctx<E>, st: Beams, step: nat): (m: Moves)
    requires Fits(c, st)
    ensures |m.lpv| == |m.picks| == |m.cands| == |st.done|
    ensures forall r :: 0 <= r < |st.done| ==> m.picks[r].parent < |st.done| && m.picks[r].slot < c.o.k
  {
    var n := |st.done|;
    var lpv := Refresh(c, st, step);
    var picks := seq(n, r requires 0 <= r < n => PickRow(c, st, lpv, r));
    Moves(lpv, picks, seq(n, r requires 0 <= r < n => Cand(c, st, picks[r].parent, picks[r].slot)))
  }

  /** Steps 1, 2, ...: every structure is gathered by the parent indices and
      the chosen tokens are appended. */
  function Step<E>(c: Ctx<E>, st: Beams, step: nat): (nx: Beams)
    requires Fits(c, st)
    ensures Fits(c, nx)
  {
    var n := |st.done|;
    var m := Choose(c, st, step);
    var parents := seq(n, r requires 0 <= r < n => m.picks[r].parent);
    var kept := UtilsBase.IndexSelect(st.trans, parents);
    var fed := UtilsBase.IndexSelect(st.fed, parents);
    Beams(
      seq(n, r requires 0 <= r < n => kept[r] + [Appended(c.v, st.done[parents[r]], m.cands[r].1)]),
      seq(n, r requires 0 <= r < n => fed[r] + [m.cands[r].1]),
      seq(n, r requires 0 <= r < n => CandScore(c.v, st, parents[r], m.picks[r].slot, m.cands[r].0)),
      seq(n, r requires 0 <= r < n => Key(c, st, m.lpv, parents[r], m.picks[r].slot)),
      seq(n, r requires 0 <= r < n => st.done[parents[r]] || m.cands[r].1 == 2),
      if c.o.penalised then UtilsBase.IndexSelect(m.lpv, parents) else st.lpv)
  }

  /** The flags of every example's rank-0 beam, `done_trans.select(1, 0)`. */
  function RankZero<E>(c: Ctx<E>, done: seq<bool>): (z: seq<bool>)
    requires c.o.k >= 1 && |done| == |c.enc| * c.o.k
    ensures |z| == |c.enc|
  {
    seq(|c.enc|, b requires 0 <= b < |c.enc| => Arith.BlockEnd(b, |c.enc|, c.o.k); done[b * c.o.k])
  }

  /** The early-stop test after a step: every beam is done, or, without a
      length penalty and without `return_all`, every rank-0 beam is done. */
  predicate EarlyStop<E>(c: Ctx<E>, done: seq<bool>)
    requires c.o.k >= 1 && |done| == |c.enc| * c.o.k
  {
    (!c.o.penalised && !c.o.returnAll && AllDone(RankZero(c, done), |c.enc|)) || AllDone(done, |done|)
  }

  /** Where the search stops: the state and its row length. */
  datatype Stopped = Stopped(beams: Beams, len: nat)

  /** The step loop from step `step` on (rows then have `step` tokens). */
  function Run<E>(c: Ctx<E>, st: Beams, step: nat): (s: Stopped)
    requires Shaped(c, st, step) && step >= 1
    ensures Shaped(c, s.beams, s.len)
    ensures step <= s.len && (s.len <= Cap(c.o.maxLen) || s.len == step)
    ensures step < c.o.maxLen ==> step < s.len
    ensures s.len < Cap(c.o.maxLen) ==> EarlyStop(c, s.beams.done)
    decreases c.o.maxLen - step
  {
    if step >= c.o.maxLen then Stopped(st, step)
    else
      var nx := Step(c, st, step);
      if EarlyStop(c, nx.done) then Stopped(nx, step + 1) else Run(c, nx, step + 1)
  }

  /** The state at step `to`, reached by stepping on from `st` at step
      `step` without any stop test. */
  function At<E>(c: Ctx<E>, st: Beams, step: nat, to: nat): (a: Beams)
    requires step <= to && Shaped(c, st, step)
    ensures Shaped(c, a, to)
    decreases (to as int) - (step as int)
  {
    if step == to then st else At(c, Step(c, st, step), step + 1, to)
  }

  /** Row b*K + i: beam i of example b. */
  function Row<E>(c: Ctx<E>, b: nat, i: nat): (r: nat)
    requires c.o.k >= 1 && b < |c.enc| && i < c.o.k
    ensures r < |c.enc| * c.o.k && r / c.o.k == b && r % c.o.k == i
  {
    Arith.BlockEnd(b, |c.enc|, c.o.k);
    Arith.BlockIndex(b, c.o.k, i);
    b * c.o.k + i
  }

  /** Keys of the final re-ranking of example b: `scores / lpv` of its beams. */
  function FinalKeys<E>(c: Ctx<E>, st: Beams, b: nat): (keys: seq<Score>)
    requires Fits(c, st) && b < |c.enc|
    ensures |keys| == c.o.k
  {
    seq(c.o.k, i requires 0 <= i < c.o.k => Over(st.scores[Row(c, b, i)], st.lpv[Row(c, b, i)]))
  }

  /** The beam of example b that rank i shows after re-ranking. */
  function FinalRank<E>(c: Ctx<E>, st: Beams, b: nat, i: nat): (j: nat)
    requires Fits(c, st) && b < |c.enc| && i < c.o.k
    ensures j < c.o.k
  {
    Select(FinalKeys(c, st, b), c.o.k)[i]
  }

  /** Row r after the final re-ranking: the row and the normalised score of
      the beam of its example at rank r mod K. */
  function Reranked<E>(c: Ctx<E>, st: Beams, r: nat): (seq<int>, Score)
    requires Fits(c, st) && r < |st.done|
  {
    Arith.BlockBound(r, |c.enc|, c.o.k);
    var b := r / c.o.k;
    var j := FinalRank(c, st, b, r % c.o.k);
    (st.trans[Row(c, b, j)], FinalKeys(c, st, b)[j])
  }

  /** The re-ranking after the loop when `clip_beam` is off and a length
      penalty is on: each example's beams sorted by `score / lpv`. */
  function Rerank<E>(c: Ctx<E>, st: Beams): (rr: Beams)
    requires Fits(c, st)
    ensures Fits(c, rr)
  {
    var n := |st.done|;
    Beams(
      seq(n, r requires 0 <= r < n => Reranked(c, st, r).0),
      st.fed, st.sum,
      seq(n, r requires 0 <= r < n => Reranked(c, st, r).1),
      st.done, st.lpv)
  }

  /** What `beam_decode` returns: every example's rank-0 row, or with
      `return_all` its K rows and their scores. */
  datatype Output = Best(rows: seq<seq<int>>) | All(beams: seq<seq<seq<int>>>, scores: seq<seq<Score>>)

  function Finish<E>(c: Ctx<E>, st: Beams): Output
    requires Fits(c, st)
  {
    var fin := if !c.o.clip && c.o.penalised then Rerank(c, st) else st;
    var bsize := |c.enc|;
    if c.o.returnAll then
      All(seq(bsize, b requires 0 <= b < bsize => seq(c.o.k, i requires 0 <= i < c.o.k => fin.trans[Row(c, b, i)])),
          seq(bsize, b requires 0 <= b < bsize => seq(c.o.k, i requires 0 <= i < c.o.k => fin.scores[Row(c, b, i)])))
    else
      Best(seq(bsize, b requires 0 <= b < bsize => fin.trans[Row(c, b, 0)]))
  }

  /** `beam_decode`: step 0, then the step loop until the early-stop test or
      the step budget ends it, then the optional re-ranking. */
  method BeamDecode<E>(c: Ctx<E>) returns (out: Output)
    requires c.o.k >= 1
    ensures out == Finish(c, Run(c, Start(c), 1).beams)
  {
    var st := Start(c);
    var step := 1;
    while step < c.o.maxLen
      invariant step >= 1 && Shaped(c, st, step)
      invariant Run(c, st, step) == Run(c, Start(c), 1)
      decreases c.o.maxLen - step
    {
      var nx := Step(c, st, step);
      if EarlyStop(c, nx.done) {
        return Finish(c, nx);
      }
      st, step := nx, step + 1;
    }
    out := Finish(c, st);
  }
}
