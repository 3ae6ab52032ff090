/** What one beam-search step, the final re-ranking and the returned rows
    guarantee, for every network and every state. */
module BeamFacts {
  import opened TopK
  import opened Search
  import opened Beam
  import Arith
  import UtilsBase

  /** The encoder row beam r reads is the one of example r div K. */
  lemma EncRowExample<E>(c: Ctx<E>, r: nat)
    requires c.o.k >= 1 && r < |c.enc| * c.o.k
    ensures r / c.o.k < |c.enc| && EncRow(c, r) == c.enc[r / c.o.k]
  {
  }

  /** Step 0 gives beam j of example b slot j of the example's first
      distribution; the beam is done iff that token is 2. */
  lemma StartBeam<E>(c: Ctx<E>, b: nat, j: nat)
    requires c.o.k >= 1 && b < |c.enc| && j < c.o.k
    ensures var st, r, cand := Start(c), Row(c, b, j), c.net(c.enc[b], [c.v.sos], j);
      st.trans[r] == [cand.1] && st.fed[r] == [c.v.sos, cand.1] &&
      st.sum[r] == Fin(cand.0) && st.done[r] == (cand.1 == 2)
  {
    EncRowExample(c, Row(c, b, j));
  }

  /** The pick of row b*K + i is the pick of beam i of example b. */
  lemma PickAt<E>(c: Ctx<E>, st: Beams, step: nat, b: nat, i: nat)
    requires Fits(c, st) && b < |c.enc| && i < c.o.k
    ensures Choose(c, st, step).picks[Row(c, b, i)] == PickOf(c, st, Choose(c, st, step).lpv, b, i)
  {
  }

  /** A new beam's parent lies in its own example's block, rows b*K ..
      b*K+K-1, and so reads the same encoder row. */
  lemma ParentInBlock<E>(c: Ctx<E>, st: Beams, step: nat, b: nat, i: nat)
    requires Fits(c, st) && b < |c.enc| && i < c.o.k
    ensures var p := Choose(c, st, step).picks[Row(c, b, i)].parent;
      b * c.o.k <= p < b * c.o.k + c.o.k && EncRow(c, p) == c.enc[b]
  {
    PickAt(c, st, step, b, i);
    EncRowExample(c, Choose(c, st, step).picks[Row(c, b, i)].parent);
  }

  /** Beam i of example b takes rank i of the example's top K over its K*K
      candidates; its parent is `flat // K + b*K` and its candidate slot
      `flat mod K`. */
  lemma PickIndices<E>(c: Ctx<E>, st: Beams, step: nat, b: nat, i: nat)
    requires Fits(c, st) && b < |c.enc| && i < c.o.k
    ensures var m := Choose(c, st, step); var pk := m.picks[Row(c, b, i)];
      pk.flat == Select(Keys(c, st, m.lpv, b), c.o.k)[i] &&
      pk.parent == pk.flat / c.o.k + b * c.o.k && pk.slot == pk.flat % c.o.k
  {
    PickAt(c, st, step, b, i);
  }

  /** The K new beams of an example are its K best candidates: every
      candidate left out ranks behind each of them. */
  lemma PickBest<E>(c: Ctx<E>, st: Beams, step: nat, b: nat, i: nat, f: nat)
    requires Fits(c, st) && b < |c.enc| && i < c.o.k && f < c.o.k * c.o.k
    requires f !in Select(Keys(c, st, Choose(c, st, step).lpv, b), c.o.k)
    ensures Ahead(Keys(c, st, Choose(c, st, step).lpv, b), Choose(c, st, step).picks[Row(c, b, i)].flat, f)
  {
    PickIndices(c, st, step, b, i);
    SelectBest(Keys(c, st, Choose(c, st, step).lpv, b), c.o.k, i, f);
  }

  /** No candidate is taken by two beams of the same example. */
  lemma PickDistinct<E>(c: Ctx<E>, st: Beams, step: nat, b: nat, i: nat, i': nat)
    requires Fits(c, st) && b < |c.enc| && i < i' < c.o.k
    ensures Choose(c, st, step).picks[Row(c, b, i)].flat != Choose(c, st, step).picks[Row(c, b, i')].flat
  {
    PickIndices(c, st, step, b, i);
    PickIndices(c, st, step, b, i');
    SelectDistinct(Keys(c, st, Choose(c, st, step).lpv, b), c.o.k, i, i');
  }

  /** The new beam's token is candidate `slot` of its parent, proposed from
      the parent's fed tokens and the example's encoder row, and it extends
      the parent's fed tokens. */
  lemma StepToken<E>(c: Ctx<E>, st: Beams, step: nat, b: nat, i: nat)
    requires Fits(c, st) && b < |c.enc| && i < c.o.k
    ensures var r := Row(c, b, i); var m := Choose(c, st, step); var p := m.picks[r].parent;
      m.cands[r] == c.net(c.enc[b], st.fed[p], m.picks[r].slot) &&
      Step(c, st, step).fed[r] == st.fed[p] + [m.cands[r].1]
  {
    ParentInBlock(c, st, step, b, i);
  }

  /** Every row grows by exactly one token, and its first `len` tokens are
      its parent's whole previous row. */
  lemma StepExtends<E>(c: Ctx<E>, st: Beams, step: nat, len: nat, r: nat)
    requires Shaped(c, st, len) && r < |st.done|
    ensures var nx, p := Step(c, st, step), Choose(c, st, step).picks[r].parent;
      |nx.trans[r]| == len + 1 && nx.trans[r][..len] == st.trans[p]
  {
  }

  /** The appended token: with `fill_pad` it is `pad_id` exactly when the
      parent was done; otherwise it is the chosen candidate's token. */
  lemma StepAppends<E>(c: Ctx<E>, st: Beams, step: nat, r: nat)
    requires Fits(c, st) && r < |st.done|
    ensures var m := Choose(c, st, step); var p := m.picks[r].parent; var row := Step(c, st, step).trans[r];
      row != [] && row[|row| - 1] == (if c.v.fillPad && st.done[p] then c.v.padId else m.cands[r].1)
  {
  }

  /** A beam is done iff its parent was done or its new token is 2; so a
      done beam's children are all done. */
  lemma StepDone<E>(c: Ctx<E>, st: Beams, step: nat, r: nat)
    requires Fits(c, st) && r < |st.done|
    ensures var m := Choose(c, st, step); var p := m.picks[r].parent;
      Step(c, st, step).done[r] == (st.done[p] || m.cands[r].1 == 2) &&
      (st.done[p] ==> Step(c, st, step).done[r])
  {
  }

  /** Base and TA: a done parent adds 0 to all K of its candidates. */
  lemma AddZeroCandidates(v: Variant, st: Beams, p: nat, j: nat, lp: real)
    requires p < |st.done| && p < |st.sum| && v.masking == AddZero && st.done[p]
    ensures CandScore(v, st, p, j, lp) == st.sum[p]
  {
  }

  /** SC and BART: of a done parent's candidates only slot 0 keeps the
      parent's (finite) score, the others are -inf, so a finished beam
      re-enters the frontier as exactly one candidate. */
  lemma SlotZeroCandidates(v: Variant, st: Beams, p: nat, j: nat, lp: real)
    requires p < |st.done| && p < |st.sum| && v.masking == SlotZero && st.done[p] && st.sum[p].Fin?
    ensures CandScore(v, st, p, j, lp).Fin? <==> j == 0
    ensures j == 0 ==> CandScore(v, st, p, j, lp) == st.sum[p]
  {
  }

  /** A beam that continues a live parent adds the candidate's log-probability
      to the parent's score. */
  lemma LiveParentScore<E>(c: Ctx<E>, st: Beams, step: nat, r: nat)
    requires Fits(c, st) && r < |st.done|
    requires !st.done[Choose(c, st, step).picks[r].parent]
    ensures var m := Choose(c, st, step); var p := m.picks[r].parent;
      Step(c, st, step).sum[r] == Plus(st.sum[p], m.cands[r].0)
  {
  }

  /** Base and TA: the child of a done parent carries the parent's score. */
  lemma DoneParentScore<E>(c: Ctx<E>, st: Beams, step: nat, r: nat)
    requires Fits(c, st) && r < |st.done| && c.v.masking == AddZero
    requires st.done[Choose(c, st, step).picks[r].parent]
    ensures Step(c, st, step).sum[r] == st.sum[Choose(c, st, step).picks[r].parent]
  {
  }

  /** SC and BART: a child of a done parent with a finite score took the
      parent's slot 0 and carries the parent's score. */
  lemma DoneParentSlotZero<E>(c: Ctx<E>, st: Beams, step: nat, r: nat)
    requires Fits(c, st) && r < |st.done| && c.v.masking == SlotZero
    requires st.done[Choose(c, st, step).picks[r].parent] && Step(c, st, step).sum[r].Fin?
    ensures var pk := Choose(c, st, step).picks[r];
      pk.slot == 0 && Step(c, st, step).sum[r] == st.sum[pk.parent]
  {
  }

  /** With a length penalty, a new beam's `lpv` is its parent's when the
      parent was done and this step's penalty otherwise; without one `lpv`
      is untouched. */
  lemma StepPenalty<E>(c: Ctx<E>, st: Beams, step: nat, r: nat)
    requires Fits(c, st) && r < |st.done|
    ensures var p := Choose(c, st, step).picks[r].parent;
      Step(c, st, step).lpv[r] == if c.o.penalised && !st.done[p] then c.pen(step)
                                  else if c.o.penalised then st.lpv[p] else st.lpv[r]
  {
  }

  /** The kept `scores`: with `clip_beam` and a penalty, the route score
      divided by the refreshed penalty of the parent; otherwise the route
      score itself. */
  lemma StepScores<E>(c: Ctx<E>, st: Beams, step: nat, r: nat)
    requires Fits(c, st) && r < |st.done|
    ensures var m := Choose(c, st, step); var p := m.picks[r].parent; var nx := Step(c, st, step);
      nx.scores[r] == if c.o.clip && c.o.penalised then Over(nx.sum[r], m.lpv[p]) else nx.sum[r]
  {
  }

  /** The final re-ranking shows, at rank i of example b, beam
      FinalRank(b, i) of that example with its normalised score. */
  lemma RerankRow<E>(c: Ctx<E>, st: Beams, b: nat, i: nat)
    requires Fits(c, st) && b < |c.enc| && i < c.o.k
    ensures var j := FinalRank(c, st, b, i);
      Rerank(c, st).trans[Row(c, b, i)] == st.trans[Row(c, b, j)] &&
      Rerank(c, st).scores[Row(c, b, i)] == Over(st.scores[Row(c, b, j)], st.lpv[Row(c, b, j)])
  {
  }

  /** Re-ranking only reorders an example's beams: every beam of the
      example is shown at some rank. */
  lemma RerankCovers<E>(c: Ctx<E>, st: Beams, b: nat, j: nat)
    requires Fits(c, st) && b < |c.enc| && j < c.o.k
    ensures exists i :: 0 <= i < c.o.k && FinalRank(c, st, b, i) == j
  {
    var keys := FinalKeys(c, st, b);
    SelectAll(keys, j);
    var o := Select(keys, c.o.k);
    var i :| 0 <= i < |o| && o[i] == j;
    assert FinalRank(c, st, b, i) == j;
  }

  /** After re-ranking, an earlier rank shows a different beam whose
      normalised score is larger, or equal with a lower beam index. */
  lemma RerankOrdered<E>(c: Ctx<E>, st: Beams, b: nat, i: nat, i': nat)
    requires Fits(c, st) && b < |c.enc| && i < i' < c.o.k
    ensures FinalRank(c, st, b, i) != FinalRank(c, st, b, i')
    ensures Ahead(FinalKeys(c, st, b), FinalRank(c, st, b, i), FinalRank(c, st, b, i'))
  {
  }

  /** Without `return_all`, each example's result is its rank-0 beam (after
      the re-ranking when that applies) and has the rows' length. */
  lemma FinishBest<E>(c: Ctx<E>, st: Beams, len: nat, b: nat)
    requires Shaped(c, st, len) && b < |c.enc| && !c.o.returnAll
    ensures Finish(c, st).Best? && |Finish(c, st).rows| == |c.enc|
    ensures Finish(c, st).rows[b] ==
      if !c.o.clip && c.o.penalised then st.trans[Row(c, b, FinalRank(c, st, b, 0))] else st.trans[Row(c, b, 0)]
    ensures |Finish(c, st).rows[b]| == len
  {
  }

  /** A step adds one token to every row. */
  lemma StepShaped<E>(c: Ctx<E>, st: Beams, step: nat)
    requires Shaped(c, st, step)
    ensures Shaped(c, Step(c, st, step), step + 1)
  {
    assert At(c, st, step, step + 1) == Step(c, st, step) by {
      assert At(c, Step(c, st, step), step + 1, step + 1) == Step(c, st, step);
    }
  }

  /** Stepping on to a later step goes through `nx`, the state that follows
      `st`. */
  lemma AtSucc<E>(c: Ctx<E>, st: Beams, step: nat, nx: Beams, next: nat, to: nat)
    requires Shaped(c, st, step) && nx == Step(c, st, step) && next == step + 1
    requires Shaped(c, nx, next) && next <= to
    ensures At(c, st, step, to) == At(c, nx, next, to)
  {
  }

  /** No state strictly between step `step` and step `to` meets the
      early-stop test. */
  predicate NoStopBefore<E>(c: Ctx<E>, st: Beams, step: nat, to: nat)
    requires Shaped(c, st, step)
  {
    forall t :: step < t < to ==> !EarlyStop(c, At(c, st, step, t).done)
  }

  /** When the budget is spent the loop ends where it is. */
  lemma RunAtBudget<E>(c: Ctx<E>, st: Beams, step: nat)
    requires Shaped(c, st, step) && step >= 1 && step >= c.o.maxLen
    ensures Run(c, st, step) == Stopped(st, step)
    ensures At(c, st, step, step) == st
  {
  }

  /** When the next state meets the test the loop ends in it. */
  lemma RunStopsNow<E>(c: Ctx<E>, st: Beams, step: nat)
    requires Shaped(c, st, step) && step >= 1
    requires step < c.o.maxLen && EarlyStop(c, Step(c, st, step).done)
    ensures Run(c, st, step) == Stopped(Step(c, st, step), step + 1)
    ensures At(c, st, step, step + 1) == Step(c, st, step)
  {
    StepShaped(c, st, step);
    AtSucc(c, st, step, Step(c, st, step), step + 1, step + 1);
  }

  /** When the next state `nx` does not meet the test, the loop goes on from
      it. */
  lemma RunGoesOn<E>(c: Ctx<E>, st: Beams, step: nat, nx: Beams, next: nat)
    requires Shaped(c, st, step) && step >= 1 && nx == Step(c, st, step) && next == step + 1
    requires step < c.o.maxLen && !EarlyStop(c, nx.done)
    requires Shaped(c, nx, next)
    ensures Run(c, st, step) == Run(c, nx, next)
  {
    StepShaped(c, st, step);
  }

  /** One step of the induction behind `RunStopsFirst`: a next state `nx`
      that does not meet the test, followed by states up to step `to` that
      do not, gives states from `st` up to `to` that do not. */
  lemma ShiftNoStop<E>(c: Ctx<E>, st: Beams, step: nat, nx: Beams, next: nat, to: nat)
    requires Shaped(c, st, step) && nx == Step(c, st, step) && next == step + 1
    requires Shaped(c, nx, next) && !EarlyStop(c, nx.done) && next <= to
    requires NoStopBefore(c, nx, next, to)
    ensures NoStopBefore(c, st, step, to)
  {
    forall t | step < t < to
      ensures !EarlyStop(c, At(c, st, step, t).done)
    {
      AtSucc(c, st, step, nx, next, t);
    }
  }

  /** The step loop ends in the state at its last step. */
  lemma {:induction false} RunIsAt<E>(c: Ctx<E>, st: Beams, step: nat)
    requires Shaped(c, st, step) && step >= 1
    ensures Run(c, st, step).beams == At(c, st, step, Run(c, st, step).len)
    decreases c.o.maxLen - step
  {
    if step >= c.o.maxLen {
      RunAtBudget(c, st, step);
    } else if EarlyStop(c, Step(c, st, step).done) {
      RunStopsNow(c, st, step);
    } else {
      StepShaped(c, st, step);
      var nx, next := Step(c, st, step), step + 1;
      RunIsAt(c, nx, next);
      RunGoesOn(c, st, step, nx, next);
      AtSucc(c, st, step, nx, next, Run(c, nx, next).len);
    }
  }

  /** The step loop stops at the first step whose state meets the early-stop
      test: no state before the one it ends in met the test. */
  lemma {:induction false} RunStopsFirst<E>(c: Ctx<E>, st: Beams, step: nat)
    requires Shaped(c, st, step) && step >= 1
    ensures NoStopBefore(c, st, step, Run(c, st, step).len)
    decreases c.o.maxLen - step
  {
    if step >= c.o.maxLen {
      RunAtBudget(c, st, step);
    } else if EarlyStop(c, Step(c, st, step).done) {
      RunStopsNow(c, st, step);
    } else {
      StepShaped(c, st, step);
      var nx, next := Step(c, st, step), step + 1;
      RunStopsFirst(c, nx, next);
      RunGoesOn(c, st, step, nx, next);
      ShiftNoStop(c, st, step, nx, next, Run(c, nx, next).len);
    }
  }

  /** The whole search: rows have between one and `max(1, max_len)` tokens,
      a search that ends short of the budget ended on the early-stop test,
      and it ended on the first step that met it. */
  lemma BeamLength<E>(c: Ctx<E>)
    requires c.o.k >= 1
    ensures Shaped(c, Run(c, Start(c), 1).beams, Run(c, Start(c), 1).len)
    ensures 1 <= Run(c, Start(c), 1).len <= Cap(c.o.maxLen)
    ensures Run(c, Start(c), 1).len < Cap(c.o.maxLen) ==> EarlyStop(c, Run(c, Start(c), 1).beams.done)
    ensures Run(c, Start(c), 1).beams == At(c, Start(c), 1, Run(c, Start(c), 1).len)
    ensures NoStopBefore(c, Start(c), 1, Run(c, Start(c), 1).len)
  {
    RunIsAt(c, Start(c), 1);
    RunStopsFirst(c, Start(c), 1);
  }
}
