/** `fill_pad` in the beam search of the SC and BART decoders, as written:
    the token appended to new beam r is masked by the flag `done_trans` had
    at row r BEFORE the gather, instead of by the flag of the beam's parent.
    `Beam.Step` is the corrected behaviour. */
module BeamFillPad {
  import opened TopK
  import opened Search
  import opened Beam
  import UtilsBase

  /** The translation rows after one step as the SC and BART decoders
      compute them: the gathered rows, each extended by its candidate token,
      padded when the row's own old flag is set. */
  function TransAsWritten<E>(c: Ctx<E>, st: Beams, step: nat): (t: seq<seq<int>>)
    requires Fits(c, st)
    ensures |t| == |st.done|
    ensures forall r :: 0 <= r < |t| && st.done[r] == st.done[Choose(c, st, step).picks[r].parent] ==>
      t[r] == Step(c, st, step).trans[r]
  {
    var n := |st.done|;
    var m := Choose(c, st, step);
    var parents := seq(n, r requires 0 <= r < n => m.picks[r].parent);
    var kept := UtilsBase.IndexSelect(st.trans, parents);
    seq(n, r requires 0 <= r < n => kept[r] + [Appended(c.v, st.done[r], m.cands[r].1)])
  }

  /** A network for one example and two beams, under SC masking with
      `fill_pad` and pad id 0. Step 0 proposes token 3 (log-probability -1.0)
      and token 2, which finishes its beam (-1.5). After token 3 it proposes
      4 (-1.0) and 5 (-2.0); after token 2 it proposes 7 twice. */
  ghost predicate Scenario(c: Ctx<int>)
  {
    Shape(c) &&
    c.net(0, [1], 0) == (-1.0, 3) && c.net(0, [1], 1) == (-1.5, 2) &&
    c.net(0, [1, 3], 0) == (-1.0, 4) && c.net(0, [1, 3], 1) == (-2.0, 5) &&
    c.net(0, [1, 2], 0) == (-1.0, 7) && c.net(0, [1, 2], 1) == (-1.0, 7)
  }

  /** The options and the variant of the scenario. */
  ghost predicate Shape(c: Ctx<int>)
  {
    c.o == Options(2, 3, false, false, false) && c.v == Variant(1, 2, SlotZero, true, 0) && c.enc == [0]
  }

  /** Such a network exists. */
  lemma ScenarioExists()
    ensures Scenario(Ctx((e: int, h: seq<int>, j: nat) =>
                           if h == [1] then (if j == 0 then (-1.0, 3) else (-1.5, 2))
                           else if h == [1, 3] then (if j == 0 then (-1.0, 4) else (-2.0, 5))
                           else (-1.0, 7),
                         Variant(1, 2, SlotZero, true, 0), Options(2, 3, false, false, false),
                         (s: nat) => 1.0, [0]))
  {
  }

  /** The state after step 0 of the scenario, as far as step 1 reads it. */
  ghost predicate AfterStart(c: Ctx<int>, st: Beams)
  {
    Fits(c, st) && st.fed == [[1, 3], [1, 2]] && st.sum == [Fin(-1.0), Fin(-1.5)] && st.done == [false, true]
  }

  lemma EncRowZero(c: Ctx<int>, r: nat)
    requires Scenario(c) && r < 2
    ensures EncRow(c, r) == 0
  {
    assert UtilsBase.RepeatForBeam(c.enc, 2)[r] == c.enc[r / 2];
  }

  /** Step 0: beam 0 holds the live token 3, beam 1 the finished token 2. */
  lemma ScenarioStart(c: Ctx<int>)
    requires Scenario(c)
    ensures AfterStart(c, Start(c)) && Start(c).trans == [[3], [2]]
  {
    EncRowZero(c, 0);
    EncRowZero(c, 1);
  }

  /** The candidates the network proposes to each beam at step 1. */
  lemma ScenarioCands(c: Ctx<int>, st: Beams)
    requires Scenario(c) && AfterStart(c, st)
    ensures Cand(c, st, 0, 0) == (-1.0, 4) && Cand(c, st, 0, 1) == (-2.0, 5)
    ensures Cand(c, st, 1, 0) == (-1.0, 7) && Cand(c, st, 1, 1) == (-1.0, 7)
  {
    EncRowZero(c, 0);
    EncRowZero(c, 1);
  }

  lemma ScenarioKeyAt(c: Ctx<int>, st: Beams, f: nat)
    requires Scenario(c) && AfterStart(c, st) && f < 4
    ensures Keys(c, st, st.lpv, 0)[f] == [Fin(-2.0), Fin(-3.0), Fin(-1.5), NegInf][f]
  {
    ScenarioCands(c, st);
    assert Keys(c, st, st.lpv, 0)[f] == Key(c, st, st.lpv, ParentRow(2, 0, f), f % 2);
  }

  /** The four candidate keys of step 1: beam 0's two continuations, the
      finished beam's slot 0 and its masked slot 1. */
  lemma ScenarioKeys(c: Ctx<int>, st: Beams)
    requires Scenario(c) && AfterStart(c, st)
    ensures Keys(c, st, st.lpv, 0) == [Fin(-2.0), Fin(-3.0), Fin(-1.5), NegInf]
  {
    forall f | 0 <= f < 4 ensures Keys(c, st, st.lpv, 0)[f] == [Fin(-2.0), Fin(-3.0), Fin(-1.5), NegInf][f] {
      ScenarioKeyAt(c, st, f);
    }
  }

  /** The top two of those keys: the finished beam's slot 0, then beam 0's
      best continuation. */
  lemma KeysSelect()
    ensures Select([Fin(-2.0), Fin(-3.0), Fin(-1.5), NegInf], 2) == [2, 0]
  {
    var keys := [Fin(-2.0), Fin(-3.0), Fin(-1.5), NegInf];
    assert Order(keys, 1) == [0];
    assert Order(keys, 2) == [0, 1];
    assert Order(keys, 3) == [2, 0, 1];
    assert Insert(keys, 3, [1]) == [1, 3];
    assert Insert(keys, 3, [0, 1]) == [0, 1, 3];
    assert Order(keys, 4) == [2, 0, 1, 3];
  }

  lemma ScenarioSelect(c: Ctx<int>, st: Beams)
    requires Scenario(c) && AfterStart(c, st)
    ensures Select(Keys(c, st, st.lpv, 0), 2) == [2, 0]
  {
    ScenarioKeys(c, st);
    KeysSelect();
  }

  /** The pick of a beam whose rank in the example's top K is flat index f. */
  lemma PickOfSelected<E>(c: Ctx<E>, st: Beams, lpv: seq<Pen>, b: nat, i: nat, f: nat)
    requires Fits(c, st) && b < |c.enc| && i < c.o.k && |lpv| == |st.done|
    requires Select(Keys(c, st, lpv, b), c.o.k)[i] == f
    ensures PickOf(c, st, lpv, b, i).parent == f / c.o.k + b * c.o.k
    ensures PickOf(c, st, lpv, b, i).slot == f % c.o.k
  {
  }

  /** Beam 0 continues the finished beam 1 with its slot 0; beam 1
      continues beam 0 with its slot 0. */
  lemma ScenarioPicks(c: Ctx<int>, st: Beams)
    requires Scenario(c) && AfterStart(c, st)
    ensures PickOf(c, st, st.lpv, 0, 0).parent == 1 && PickOf(c, st, st.lpv, 0, 0).slot == 0
    ensures PickOf(c, st, st.lpv, 0, 1).parent == 0 && PickOf(c, st, st.lpv, 0, 1).slot == 0
  {
    ScenarioSelect(c, st);
    PickOfSelected(c, st, st.lpv, 0, 0, 2);
    PickOfSelected(c, st, st.lpv, 0, 1, 0);
  }

  /** Row b*K + i takes the pick of beam i of example b. */
  lemma PickRowOf<E>(c: Ctx<E>, st: Beams, lpv: seq<Pen>, b: nat, i: nat)
    requires Fits(c, st) && b < |c.enc| && i < c.o.k && |lpv| == |st.done|
    ensures PickRow(c, st, lpv, Row(c, b, i)) == PickOf(c, st, lpv, b, i)
  {
  }

  /** Row r of a step's selections. */
  lemma ChooseAt<E>(c: Ctx<E>, st: Beams, step: nat, r: nat)
    requires Fits(c, st) && r < |st.done|
    ensures var m := Choose(c, st, step);
      m.lpv == Refresh(c, st, step) && m.picks[r] == PickRow(c, st, m.lpv, r) &&
      m.cands[r] == Cand(c, st, m.picks[r].parent, m.picks[r].slot)
  {
    ChooseLpv(c, st, step);
    ChoosePick(c, st, step, r);
    ChooseCandAt(c, st, step, r);
  }

  lemma ChooseLpv<E>(c: Ctx<E>, st: Beams, step: nat)
    requires Fits(c, st)
    ensures Choose(c, st, step).lpv == Refresh(c, st, step)
  {
  }

  lemma ChoosePick<E>(c: Ctx<E>, st: Beams, step: nat, r: nat)
    requires Fits(c, st) && r < |st.done|
    ensures Choose(c, st, step).picks[r] == PickRow(c, st, Refresh(c, st, step), r)
  {
  }

  lemma ChooseCandAt<E>(c: Ctx<E>, st: Beams, step: nat, r: nat)
    requires Fits(c, st) && r < |st.done|
    ensures var m := Choose(c, st, step); m.cands[r] == Cand(c, st, m.picks[r].parent, m.picks[r].slot)
  {
  }

  /** Without a length penalty, row r of a step takes the pick PickRow
      computes from the unchanged penalties. */
  lemma ChoosePickRow<E>(c: Ctx<E>, st: Beams, step: nat, r: nat)
    requires Fits(c, st) && !c.o.penalised && r < |st.done|
    ensures Choose(c, st, step).picks[r] == PickRow(c, st, st.lpv, r)
  {
    ChooseAt(c, st, step, r);
  }

  /** Row i of a one-example search takes beam i. */
  lemma PickRowOfBeam(c: Ctx<int>, st: Beams, lpv: seq<Pen>, i: nat, p: nat, sl: nat)
    requires |c.enc| == 1 && i < c.o.k && Fits(c, st) && |lpv| == |st.done|
    requires PickOf(c, st, lpv, 0, i).parent == p && PickOf(c, st, lpv, 0, i).slot == sl
    ensures PickRow(c, st, lpv, i).parent == p && PickRow(c, st, lpv, i).slot == sl
  {
    PickRowOf(c, st, lpv, 0, i);
    assert Row(c, 0, i) == i;
  }

  /** Without a length penalty, row i of a one-example search takes the
      pick of beam i. */
  lemma ChooseBeam(c: Ctx<int>, st: Beams, step: nat, i: nat, p: nat, sl: nat)
    requires |c.enc| == 1 && i < c.o.k && !c.o.penalised && Fits(c, st)
    requires PickOf(c, st, st.lpv, 0, i).parent == p && PickOf(c, st, st.lpv, 0, i).slot == sl
    ensures Choose(c, st, step).picks[i].parent == p && Choose(c, st, step).picks[i].slot == sl
  {
    PickRowOfBeam(c, st, st.lpv, i, p, sl);
    ChoosePickRow(c, st, step, i);
  }

  /** Step 1's parents, given the picks: new beam 0 continues the finished
      beam, new beam 1 continues beam 0; both take their parent's slot 0. */
  lemma ShapeParents(c: Ctx<int>, st: Beams)
    requires Shape(c) && AfterStart(c, st)
    requires PickOf(c, st, st.lpv, 0, 0).parent == 1 && PickOf(c, st, st.lpv, 0, 0).slot == 0
    requires PickOf(c, st, st.lpv, 0, 1).parent == 0 && PickOf(c, st, st.lpv, 0, 1).slot == 0
    ensures Choose(c, st, 1).picks[0].parent == 1 && Choose(c, st, 1).picks[0].slot == 0
    ensures Choose(c, st, 1).picks[1].parent == 0 && Choose(c, st, 1).picks[1].slot == 0
  {
    ChooseBeam(c, st, 1, 0, 1, 0);
    ChooseBeam(c, st, 1, 1, 0, 0);
  }

  lemma ScenarioParents(c: Ctx<int>, st: Beams)
    requires Scenario(c) && AfterStart(c, st)
    ensures Choose(c, st, 1).picks[0].parent == 1 && Choose(c, st, 1).picks[0].slot == 0
    ensures Choose(c, st, 1).picks[1].parent == 0 && Choose(c, st, 1).picks[1].slot == 0
  {
    ScenarioPicks(c, st);
    ShapeParents(c, st);
  }

  /** The candidate a new beam takes is its parent's proposal at its slot. */
  lemma ChooseCand<E>(c: Ctx<E>, st: Beams, step: nat, r: nat, p: nat, sl: nat)
    requires Fits(c, st) && r < |st.done|
    requires Choose(c, st, step).picks[r].parent == p && Choose(c, st, step).picks[r].slot == sl
    ensures p < |st.done| && Choose(c, st, step).cands[r] == Cand(c, st, p, sl)
  {
    ChooseAt(c, st, step, r);
  }

  /** Step 1's tokens: 7 for the finished beam's continuation, 4 for the live
      beam's. */
  lemma ScenarioTokens(c: Ctx<int>, st: Beams)
    requires Scenario(c) && AfterStart(c, st)
    ensures Choose(c, st, 1).cands[0].1 == 7 && Choose(c, st, 1).cands[1].1 == 4
  {
    ScenarioParents(c, st);
    ScenarioCands(c, st);
    ChooseCand(c, st, 1, 0, 1, 0);
    ChooseCand(c, st, 1, 1, 0, 0);
  }

  lemma Pair<T>(s: seq<T>, a: T, b: T)
    requires |s| == 2 && s[0] == a && s[1] == b
    ensures s == [a, b]
  {
  }

  /** The parent row of every new beam. */
  function Parents(m: Moves): (ps: seq<nat>)
    ensures |ps| == |m.picks| && forall r :: 0 <= r < |ps| ==> ps[r] == m.picks[r].parent
  {
    seq(|m.picks|, r requires 0 <= r < |m.picks| => m.picks[r].parent)
  }

  /** The candidate token of every new beam. */
  function NewTokens(m: Moves): (ts: seq<int>)
    ensures |ts| == |m.cands| && forall r :: 0 <= r < |ts| ==> ts[r] == m.cands[r].1
  {
    seq(|m.cands|, r requires 0 <= r < |m.cands| => m.cands[r].1)
  }

  /** The old flag of every new beam's parent. */
  function ParentFlags(done: seq<bool>, parents: seq<nat>): (fs: seq<bool>)
    requires forall r :: 0 <= r < |parents| ==> parents[r] < |done|
    ensures |fs| == |parents| && forall r :: 0 <= r < |fs| ==> fs[r] == done[parents[r]]
  {
    seq(|parents|, r requires 0 <= r < |parents| => done[parents[r]])
  }

  /** Gathered rows, each extended by its token and masked by `flags`. */
  function Extend(v: Variant, trans: seq<seq<int>>, flags: seq<bool>, parents: seq<nat>, toks: seq<int>): (t: seq<seq<int>>)
    requires |flags| == |parents| == |toks|
    requires forall r :: 0 <= r < |parents| ==> parents[r] < |trans|
    ensures |t| == |parents|
    ensures forall r :: 0 <= r < |t| ==> t[r] == trans[parents[r]] + [Appended(v, flags[r], toks[r])]
  {
    seq(|parents|, r requires 0 <= r < |parents| => trans[parents[r]] + [Appended(v, flags[r], toks[r])])
  }

  /** As written, the step masks with the rows' own old flags. */
  lemma AsWrittenRows<E>(c: Ctx<E>, st: Beams, step: nat)
    requires Fits(c, st)
    ensures var m := Choose(c, st, step);
      TransAsWritten(c, st, step) == Extend(c.v, st.trans, st.done, Parents(m), NewTokens(m))
  {
  }

  /** The corrected step masks with the parents' flags. */
  lemma CorrectedRows<E>(c: Ctx<E>, st: Beams, step: nat)
    requires Fits(c, st)
    ensures var m := Choose(c, st, step);
      Step(c, st, step).trans == Extend(c.v, st.trans, ParentFlags(st.done, Parents(m)), Parents(m), NewTokens(m))
  {
  }

  /** A step that swaps a live beam 0 (row [3]) and a finished beam 1 (row
      [2]) of one example, with tokens 7 and 4: masked by the rows' own flags
      the live beam's continuation is padded and the finished one's is not;
      masked by the parents' flags it is the other way round. */
  lemma SwapMoves(v: Variant, trans: seq<seq<int>>, done: seq<bool>, m: Moves)
    requires v.fillPad && v.padId == 0 && trans == [[3], [2]] && done == [false, true]
    requires |m.picks| == 2 && |m.cands| == 2
    requires m.picks[0].parent == 1 && m.picks[1].parent == 0 && m.cands[0].1 == 7 && m.cands[1].1 == 4
    ensures Extend(v, trans, done, Parents(m), NewTokens(m)) == [[2, 7], [3, 0]]
    ensures Extend(v, trans, ParentFlags(done, Parents(m)), Parents(m), NewTokens(m)) == [[2, 0], [3, 4]]
  {
    Pair(Parents(m), 1, 0);
    Pair(NewTokens(m), 7, 4);
    Pair(ParentFlags(done, [1, 0]), true, false);
    var t := Extend(v, trans, done, [1, 0], [7, 4]);
    assert t[0] == [2] + [7] && t[1] == [3] + [0];
    assert [2] + [7] == [2, 7] && [3] + [0] == [3, 0];
    Pair(t, [2, 7], [3, 0]);
    var u := Extend(v, trans, [true, false], [1, 0], [7, 4]);
    assert u[0] == [2] + [0] && u[1] == [3] + [4];
    assert [2] + [0] == [2, 0] && [3] + [4] == [3, 4];
    Pair(u, [2, 0], [3, 4]);
  }

  /** In the scenario the finished beam (route score -1.5) outranks the live
      beam's best continuation (-2.0), so step 1 swaps the two rows. As
      written, the live beam's token 4 is replaced by the pad while the
      finished beam receives the network's token 7; the corrected step pads
      the finished beam and keeps 4. */
  lemma FillPadMasksWrongRow(c: Ctx<int>)
    requires Scenario(c)
    ensures TransAsWritten(c, Start(c), 1) == [[2, 7], [3, 0]]
    ensures Step(c, Start(c), 1).trans == [[2, 0], [3, 4]]
  {
    var st := Start(c);
    ScenarioStart(c);
    ScenarioParents(c, st);
    ScenarioTokens(c, st);
    AsWrittenRows(c, st, 1);
    CorrectedRows(c, st, 1);
    SwapMoves(c.v, st.trans, st.done, Choose(c, st, 1));
  }
}
