/** The "clip" decoders of the base decoder (`greedy_decode_clip`,
    `beam_decode_clip`): an example that finishes leaves the batch, its
    result is written through `mapper` into its own slot of `rs`, and the
    surviving rows are compacted so that `mapper[j]` keeps naming the
    original example of row j. */
module Clip {
  import Arith
  import opened Wrappers
  import opened Search
  import opened Greedy

  /** Token t of the greedy row of encoder row e. */
  function Tok<E>(net: Net<E>, e: E, sos: int, t: nat): int
  {
    Tokens(net, e, sos, t + 1)[t]
  }

  /** The row length at which `greedy_decode_clip` retires an example that is
      still running with i tokens: t + 1 for the first step t in [i, cap)
      whose token is `eos`, or nothing when no step before the budget emits
      it. */
  function FinishFrom<E>(net: Net<E>, v: Variant, e: E, cap: nat, i: nat): (r: Option<nat>)
    ensures r.Some? ==> i < r.value <= cap
    decreases cap - i
  {
    if i >= cap then None
    else if Tok(net, e, v.sos, i) == v.eos then Some(i + 1)
    else FinishFrom(net, v, e, cap, i + 1)
  }

  /** `FinishFrom` finds the first `eos` at or after step i and before the
      budget, and finds nothing exactly when there is none. */
  lemma {:induction false} FinishFromFirst<E>(net: Net<E>, v: Variant, e: E, cap: nat, i: nat)
    ensures FinishFrom(net, v, e, cap, i) == None <==> forall t :: i <= t < cap ==> Tok(net, e, v.sos, t) != v.eos
    ensures FinishFrom(net, v, e, cap, i).Some? ==>
      Tok(net, e, v.sos, FinishFrom(net, v, e, cap, i).value - 1) == v.eos &&
      forall t :: i <= t < FinishFrom(net, v, e, cap, i).value - 1 ==> Tok(net, e, v.sos, t) != v.eos
    decreases cap - i
  {
    if i < cap && Tok(net, e, v.sos, i) != v.eos {
      FinishFromFirst(net, v, e, cap, i + 1);
    }
  }

  /** What `greedy_decode_clip` leaves in the slot of an example: its tokens
      up to and including the first `eos` emitted at step 1 or later (the
      token of step 0 is never checked), or nothing at all. */
  function ClipRow<E>(net: Net<E>, v: Variant, e: E, maxLen: int): Option<seq<int>>
  {
    match FinishFrom(net, v, e, Cap(maxLen), 1)
    case None => None
    case Some(n) => Some(Tokens(net, e, v.sos, n))
  }

  /** The slot stays empty exactly when the example emits no `eos` at steps
      1 .. max_len - 1; in particular every slot stays empty when
      `max_len <= 1`, and `pad_tensors(rs)` then has nothing to stack. */
  lemma ClipRowUnwritten<E>(net: Net<E>, v: Variant, e: E, maxLen: int)
    ensures ClipRow(net, v, e, maxLen) == None <==> forall t :: 1 <= t < Cap(maxLen) ==> Tok(net, e, v.sos, t) != v.eos
  {
    FinishFromFirst(net, v, e, Cap(maxLen), 1);
  }

  /** The evidently intended slot content: an example still running when the
      budget ends is written with its `max(1, max_len)` tokens. */
  function ClipRowFixed<E>(net: Net<E>, v: Variant, e: E, maxLen: int): seq<int>
  {
    match FinishFrom(net, v, e, Cap(maxLen), 1)
    case None => Tokens(net, e, v.sos, Cap(maxLen))
    case Some(n) => Tokens(net, e, v.sos, n)
  }

  /** The corrected slot agrees with the written one wherever that is
      written; it is the greedy row cut after its first `eos` from step 1
      on, or at the budget, and never longer than the budget. */
  lemma ClipRowFixedCut<E>(net: Net<E>, v: Variant, e: E, maxLen: int)
    ensures ClipRow(net, v, e, maxLen).Some? ==> ClipRow(net, v, e, maxLen) == Some(ClipRowFixed(net, v, e, maxLen))
    ensures 1 <= |ClipRowFixed(net, v, e, maxLen)| <= Cap(maxLen)
    ensures forall t :: 1 <= t < |ClipRowFixed(net, v, e, maxLen)| - 1 ==> Tok(net, e, v.sos, t) != v.eos
    ensures |ClipRowFixed(net, v, e, maxLen)| < Cap(maxLen) ==>
      Tok(net, e, v.sos, |ClipRowFixed(net, v, e, maxLen)| - 1) == v.eos
  {
    FinishFromFirst(net, v, e, Cap(maxLen), 1);
  }

  predicate Ascending(s: seq<nat>)
  {
    forall p, q :: 0 <= p < q < |s| ==> s[p] < s[q]
  }

  predicate Distinct(s: seq<nat>)
  {
    forall p, q :: 0 <= p < q < |s| ==> s[p] != s[q]
  }

  /** `flags.nonzero()` (or that of the negated flags): the indices whose flag
      is `want`, in ascending order. */
  function Where(flags: seq<bool>, want: bool): (ix: seq<nat>)
    ensures Ascending(ix) && |ix| <= |flags|
    ensures forall t :: 0 <= t < |ix| ==> ix[t] < |flags| && flags[ix[t]] == want
    ensures forall j :: 0 <= j < |flags| && flags[j] == want ==> j in ix
  {
    if flags == [] then []
    else
      var ix := Where(flags[..|flags| - 1], want);
      if flags[|flags| - 1] == want then ix + [|flags| - 1] else ix
  }

  /** An ascending list of indices never lists t at a position after t. */
  lemma {:induction false} AscendingAtLeast(s: seq<nat>, t: nat)
    requires Ascending(s) && t < |s|
    ensures s[t] >= t
  {
    if t > 0 {
      AscendingAtLeast(s, t - 1);
    }
  }

  /** The mapper update `mapper[_ind] = mapper[_iu]` over the surviving rows
      `_ndid`: because `_ndid` is ascending, every slot is read before the
      loop overwrites it. */
  method Compact(mapper: array<nat>, keep: seq<nat>)
    requires Ascending(keep) && |keep| <= mapper.Length && forall t :: 0 <= t < |keep| ==> keep[t] < mapper.Length
    modifies mapper
    ensures forall t :: 0 <= t < |keep| ==> mapper[t] == old(mapper[keep[t]])
    ensures forall j :: |keep| <= j < mapper.Length ==> mapper[j] == old(mapper[j])
  {
    for t := 0 to |keep|
      invariant forall s :: 0 <= s < t ==> mapper[s] == old(mapper[keep[s]])
      invariant forall j :: t <= j < mapper.Length ==> mapper[j] == old(mapper[j])
    {
      AscendingAtLeast(keep, t);
      mapper[t] := mapper[keep[t]];
    }
  }

  /** `rs[mapper[_iu]] = _tran` for every retired row `_iu` of `ids`; the
      ghost `writes` logs the slots written. */
  method WriteOut<T>(rs: seq<Option<T>>, mapper: array<nat>, ids: seq<nat>, outs: seq<T>, ghost writes: seq<nat>)
    returns (rs': seq<Option<T>>, ghost writes': seq<nat>)
    requires forall t :: 0 <= t < |ids| ==> ids[t] < |outs| && ids[t] < mapper.Length && mapper[ids[t]] < |rs|
    requires forall t, u :: 0 <= t < u < |ids| ==> mapper[ids[t]] != mapper[ids[u]]
    ensures |rs'| == |rs|
    ensures |writes'| == |writes| + |ids| && writes'[..|writes|] == writes
    ensures forall t :: 0 <= t < |ids| ==> writes'[|writes| + t] == mapper[ids[t]]
    ensures forall t :: 0 <= t < |ids| ==> rs'[mapper[ids[t]]] == Some(outs[ids[t]])
    ensures forall o :: 0 <= o < |rs| && o !in writes'[|writes|..] ==> rs'[o] == rs[o]
  {
    rs', writes' := rs, writes;
    for t := 0 to |ids|
      invariant |rs'| == |rs|
      invariant |writes'| == |writes| + t && writes'[..|writes|] == writes
      invariant forall s :: 0 <= s < t ==> writes'[|writes| + s] == mapper[ids[s]]
      invariant forall s :: 0 <= s < t ==> rs'[mapper[ids[s]]] == Some(outs[ids[s]])
      invariant forall o :: 0 <= o < |rs| && o !in writes'[|writes|..] ==> rs'[o] == rs[o]
    {
      ghost var before := writes'[|writes|..];
      rs' := rs'[mapper[ids[t]] := Some(outs[ids[t]])];
      writes' := writes' + [mapper[ids[t]]];
      assert writes'[|writes|..] == before + [mapper[ids[t]]];
    }
  }

  /** One more step for an example still running with `row` = its first i
      tokens: the row grows by the argmax, and the example is retired with
      i + 1 tokens exactly when that token is `eos`. */
  lemma Advance<E>(net: Net<E>, v: Variant, e: E, cap: nat, i: nat, row: seq<int>)
    requires 1 <= i < cap && row == Tokens(net, e, v.sos, i)
    requires FinishFrom(net, v, e, cap, 1) == FinishFrom(net, v, e, cap, i)
    ensures row + [net(e, [v.sos] + row, 0).1] == Tokens(net, e, v.sos, i + 1)
    ensures net(e, [v.sos] + row, 0).1 == v.eos ==> FinishFrom(net, v, e, cap, 1) == Some(i + 1)
    ensures net(e, [v.sos] + row, 0).1 != v.eos ==> FinishFrom(net, v, e, cap, 1) == FinishFrom(net, v, e, cap, i + 1)
  {
    assert Tok(net, e, v.sos, i) == net(e, [v.sos] + row, 0).1;
  }

  /** The loop state of `greedy_decode_clip` before step i: the surviving
      rows and the slots of `rs`. */
  ghost predicate Live<E>(net: Net<E>, v: Variant, enc: seq<E>, maxLen: int, i: nat,
                          rs: seq<Option<seq<int>>>, writes: seq<nat>, inp: seq<E>, trans: seq<seq<int>>, act: seq<nat>)
  {
    1 <= i <= Cap(maxLen) && |rs| == |enc| && |act| <= |enc| &&
    Rows(net, v, enc, maxLen, i, inp, trans, act) && Slots(ClipRows(net, v, enc, maxLen), rs, writes, act)
  }

  /** The slot `greedy_decode_clip` should leave for every example. */
  function ClipRows<E>(net: Net<E>, v: Variant, enc: seq<E>, maxLen: int): (want: seq<Option<seq<int>>>)
    ensures |want| == |enc|
  {
    seq(|enc|, o requires 0 <= o < |enc| => ClipRow(net, v, enc[o], maxLen))
  }

  /** The surviving rows before step i: `inp`, `trans` and `act` (the live
      prefix of `mapper`) hold, in ascending order of their examples, the
      encoder row, the first i tokens and the example index, and none of
      them has emitted `eos` at steps 1 .. i - 1. */
  ghost predicate Rows<E>(net: Net<E>, v: Variant, enc: seq<E>, maxLen: int, i: nat, inp: seq<E>, trans: seq<seq<int>>, act: seq<nat>)
  {
    |inp| == |trans| == |act| && Ascending(act) &&
    (forall j :: 0 <= j < |act| ==> act[j] < |enc| && inp[j] == enc[act[j]]) &&
    (forall j :: 0 <= j < |act| ==> trans[j] == Tokens(net, inp[j], v.sos, i)) &&
    (forall j :: 0 <= j < |act| ==> FinishFrom(net, v, inp[j], Cap(maxLen), 1) == FinishFrom(net, v, inp[j], Cap(maxLen), i))
  }

  /** The slots of `rs`, against the slot `want[o]` each example should end
      up with: empty for the surviving examples `act`, the wanted result for
      every other example, and written exactly for the examples that
      `writes` lists, each once. */
  ghost predicate Slots<T>(want: seq<Option<T>>, rs: seq<Option<T>>, writes: seq<nat>, act: seq<nat>)
    requires |rs| == |want|
  {
    (forall o :: 0 <= o < |want| && o in act ==> rs[o] == None) &&
    (forall o :: 0 <= o < |want| && o !in act ==> rs[o].Some? && rs[o] == want[o]) &&
    (forall o :: 0 <= o < |want| ==> (rs[o].Some? <==> o in writes)) &&
    Distinct(writes)
  }

  /** Splitting the surviving examples by their flags: the examples of the
      rows kept (in `_ndid` order) and of the rows retired (in `_dind`
      order) are disjoint, together exactly the surviving ones, and each
      list is free of repeats. */
  lemma Partition(act: seq<nat>, done: seq<bool>, dind: seq<nat>, ndid: seq<nat>, kept: seq<nat>, newly: seq<nat>)
    requires Ascending(act) && |act| == |done|
    requires dind == Where(done, true) && ndid == Where(done, false)
    requires |kept| == |ndid| && forall t :: 0 <= t < |kept| ==> kept[t] == act[ndid[t]]
    requires |newly| == |dind| && forall t :: 0 <= t < |newly| ==> newly[t] == act[dind[t]]
    ensures Ascending(kept) && Distinct(newly)
    ensures forall o :: o in act <==> o in kept || o in newly
    ensures forall o :: o in kept ==> o !in newly
  {
    PartitionCover(act, done, dind, ndid, kept, newly);
    PartitionDisjoint(act, done, dind, ndid, kept, newly);
    PartitionOrder(act, ndid, kept);
    PartitionOrder(act, dind, newly);
  }

  /** Every surviving example is kept or retired, and only those are. */
  lemma PartitionCover(act: seq<nat>, done: seq<bool>, dind: seq<nat>, ndid: seq<nat>, kept: seq<nat>, newly: seq<nat>)
    requires |act| == |done|
    requires forall t :: 0 <= t < |dind| ==> dind[t] < |done|
    requires forall t :: 0 <= t < |ndid| ==> ndid[t] < |done|
    requires forall j :: 0 <= j < |done| && done[j] ==> j in dind
    requires forall j :: 0 <= j < |done| && !done[j] ==> j in ndid
    requires |kept| == |ndid| && forall t :: 0 <= t < |kept| ==> kept[t] == act[ndid[t]]
    requires |newly| == |dind| && forall t :: 0 <= t < |newly| ==> newly[t] == act[dind[t]]
    ensures forall o :: o in act <==> o in kept || o in newly
  {
    forall o | o in act
      ensures o in kept || o in newly
    {
      var j :| 0 <= j < |act| && act[j] == o;
      if done[j] {
        var t :| 0 <= t < |dind| && dind[t] == j;
        assert newly[t] == o;
      } else {
        var t :| 0 <= t < |ndid| && ndid[t] == j;
        assert kept[t] == o;
      }
    }
    forall o | o in kept || o in newly
      ensures o in act
    {
      if o in kept {
        var t :| 0 <= t < |kept| && kept[t] == o;
      } else {
        var t :| 0 <= t < |newly| && newly[t] == o;
      }
    }
  }

  /** No example is both kept and retired: its row has one flag. */
  lemma PartitionDisjoint(act: seq<nat>, done: seq<bool>, dind: seq<nat>, ndid: seq<nat>, kept: seq<nat>, newly: seq<nat>)
    requires Ascending(act) && |act| == |done|
    requires forall t :: 0 <= t < |dind| ==> dind[t] < |done| && done[dind[t]]
    requires forall t :: 0 <= t < |ndid| ==> ndid[t] < |done| && !done[ndid[t]]
    requires |kept| == |ndid| && forall t :: 0 <= t < |kept| ==> kept[t] == act[ndid[t]]
    requires |newly| == |dind| && forall t :: 0 <= t < |newly| ==> newly[t] == act[dind[t]]
    ensures forall o :: o in kept ==> o !in newly
  {
    forall t, u | 0 <= t < |kept| && 0 <= u < |newly|
      ensures kept[t] != newly[u]
    {
      assert ndid[t] != dind[u];
    }
  }

  /** Gathering an ascending list at ascending positions keeps it ascending. */
  lemma PartitionOrder(act: seq<nat>, ix: seq<nat>, sub: seq<nat>)
    requires Ascending(act) && Ascending(ix)
    requires forall t :: 0 <= t < |ix| ==> ix[t] < |act|
    requires |sub| == |ix| && forall t :: 0 <= t < |sub| ==> sub[t] == act[ix[t]]
    ensures Ascending(sub) && Distinct(sub)
  {
    forall p, q | 0 <= p < q < |sub|
      ensures sub[p] < sub[q]
    {
      assert ix[p] < ix[q];
    }
  }

  /** Every retired row `j` (flag `done[j]`) carries the wanted result of
      its example `act[j]` in `outs[j]`. */
  ghost predicate Due<T>(want: seq<Option<T>>, act: seq<nat>, outs: seq<T>, done: seq<bool>)
  {
    |outs| == |done| == |act| &&
    forall j :: 0 <= j < |act| ==> act[j] < |want| && (done[j] ==> want[act[j]] == Some(outs[j]))
  }

  /** The slots written for the retired rows `ids` hold the wanted results
      of their examples. */
  lemma Written<T>(want: seq<Option<T>>, act: seq<nat>, outs: seq<T>,
                   done: seq<bool>, ids: seq<nat>, newly: seq<nat>, rs': seq<Option<T>>)
    requires Due(want, act, outs, done) && |rs'| == |want|
    requires forall t :: 0 <= t < |ids| ==> ids[t] < |act| && done[ids[t]]
    requires |newly| == |ids| && forall t :: 0 <= t < |ids| ==> newly[t] == act[ids[t]]
    requires forall t :: 0 <= t < |ids| ==> rs'[act[ids[t]]] == Some(outs[ids[t]])
    ensures forall o :: 0 <= o < |want| && o in newly ==> rs'[o].Some? && rs'[o] == want[o]
  {
    forall o | 0 <= o < |want| && o in newly
      ensures rs'[o].Some? && rs'[o] == want[o]
    {
      var t :| 0 <= t < |newly| && newly[t] == o;
    }
  }

  /** Retiring the examples `newly` out of the surviving `act` and keeping
      `kept` leaves the slots in order for the survivors `kept`. */
  lemma Retire<T>(want: seq<Option<T>>, rs: seq<Option<T>>, writes: seq<nat>,
                  act: seq<nat>, newly: seq<nat>, kept: seq<nat>, rs': seq<Option<T>>, writes': seq<nat>)
    requires |rs| == |rs'| == |want| && Slots(want, rs, writes, act) && Distinct(newly)
    requires forall o :: o in act ==> o < |want|
    requires forall o :: o in act <==> o in kept || o in newly
    requires forall o :: o in kept ==> o !in newly
    requires writes' == writes + newly
    requires forall o :: 0 <= o < |want| && o in newly ==> rs'[o].Some? && rs'[o] == want[o]
    requires forall o :: 0 <= o < |want| && o !in newly ==> rs'[o] == rs[o]
    ensures Slots(want, rs', writes', kept)
  {
    forall p, q | 0 <= p < q < |writes'|
      ensures writes'[p] != writes'[q]
    {
      if p < |writes| <= q {
        var o := writes'[q];
        assert o in newly && o in act;
        assert rs[o] == None;
      }
    }
  }

  /** What step i did to the surviving rows: `grown` is each row with its
      argmax appended, and `done` says that argmax is `eos`, which retires
      the example with exactly these tokens. */
  ghost predicate Stepped<E>(net: Net<E>, v: Variant, enc: seq<E>, maxLen: int, i: nat, inp: seq<E>, act: seq<nat>,
                             grown: seq<seq<int>>, done: seq<bool>)
  {
    |grown| == |done| == |inp| == |act| &&
    (forall j :: 0 <= j < |act| ==> act[j] < |enc| && inp[j] == enc[act[j]]) &&
    (forall j :: 0 <= j < |inp| ==> grown[j] == Tokens(net, inp[j], v.sos, i + 1)) &&
    (forall j :: 0 <= j < |inp| && done[j] ==> ClipRow(net, v, enc[act[j]], maxLen) == Some(grown[j])) &&
    (forall j :: 0 <= j < |inp| && !done[j] ==>
      FinishFrom(net, v, inp[j], Cap(maxLen), 1) == FinishFrom(net, v, inp[j], Cap(maxLen), i + 1))
  }

  lemma Grown<E>(net: Net<E>, v: Variant, enc: seq<E>, maxLen: int, i: nat, inp: seq<E>, trans: seq<seq<int>>, act: seq<nat>,
                 grown: seq<seq<int>>, done: seq<bool>)
    requires 1 <= i < Cap(maxLen) && Rows(net, v, enc, maxLen, i, inp, trans, act)
    requires |grown| == |done| == |inp|
    requires forall j :: 0 <= j < |inp| ==> grown[j] == trans[j] + [net(inp[j], [v.sos] + trans[j], 0).1]
    requires forall j :: 0 <= j < |inp| ==> done[j] == (net(inp[j], [v.sos] + trans[j], 0).1 == v.eos)
    ensures Stepped(net, v, enc, maxLen, i, inp, act, grown, done)
  {
    forall j | 0 <= j < |inp|
      ensures grown[j] == Tokens(net, inp[j], v.sos, i + 1)
      ensures done[j] ==> ClipRow(net, v, enc[act[j]], maxLen) == Some(grown[j])
      ensures !done[j] ==> FinishFrom(net, v, inp[j], Cap(maxLen), 1) == FinishFrom(net, v, inp[j], Cap(maxLen), i + 1)
    {
      Advance(net, v, inp[j], Cap(maxLen), i, trans[j]);
    }
  }

  /** The rows at the ascending positions `ix`, none of which emitted `eos`,
      are the surviving rows before step i + 1. */
  lemma KeepRows<E>(net: Net<E>, v: Variant, enc: seq<E>, maxLen: int, i: nat, inp: seq<E>, act: seq<nat>,
                    grown: seq<seq<int>>, done: seq<bool>, ix: seq<nat>, inp': seq<E>, trans': seq<seq<int>>, act': seq<nat>)
    requires Stepped(net, v, enc, maxLen, i, inp, act, grown, done) && Ascending(act')
    requires forall t :: 0 <= t < |ix| ==> ix[t] < |inp| && !done[ix[t]]
    requires |inp'| == |trans'| == |act'| == |ix|
    requires forall t :: 0 <= t < |ix| ==> inp'[t] == inp[ix[t]] && trans'[t] == grown[ix[t]] && act'[t] == act[ix[t]]
    ensures Rows(net, v, enc, maxLen, i + 1, inp', trans', act')
  {
  }

  /** The surviving examples start as all examples, in order, with their
      first token and no slot written. */
  lemma LiveStart<E>(net: Net<E>, v: Variant, enc: seq<E>, maxLen: int, rs: seq<Option<seq<int>>>, trans: seq<seq<int>>, act: seq<nat>)
    requires |rs| == |trans| == |act| == |enc|
    requires forall o :: 0 <= o < |enc| ==> rs[o] == None && act[o] == o
    requires forall b :: 0 <= b < |enc| ==> trans[b] == [net(enc[b], [v.sos], 0).1]
    ensures Live(net, v, enc, maxLen, 1, rs, [], enc, trans, act)
  {
    forall b | 0 <= b < |enc|
      ensures trans[b] == Tokens(net, enc[b], v.sos, 1)
    {
      assert [v.sos] + Tokens(net, enc[b], v.sos, 0) == [v.sos];
    }
    forall o | 0 <= o < |enc|
      ensures o in act
    {
      assert act[o] == o;
    }
  }

  /** Once no row survives, the state is the same at any later step. */
  lemma LiveEmpty<E>(net: Net<E>, v: Variant, enc: seq<E>, maxLen: int, i: nat, j: nat, rs: seq<Option<seq<int>>>, writes: seq<nat>)
    requires Live(net, v, enc, maxLen, i, rs, writes, [], [], []) && 1 <= j <= Cap(maxLen)
    ensures Live(net, v, enc, maxLen, j, rs, writes, [], [], [])
  {
  }

  /** One iteration of the step loop of `greedy_decode_clip`: every surviving
      row appends its argmax; when all of them emitted `eos` they are all
      written out and the loop ends; when some did, those are written out and
      the rest compacted. */
  method GreedyClipStep<E>(net: Net<E>, v: Variant, enc: seq<E>, maxLen: int, i: nat, mapper: array<nat>,
                           rs: seq<Option<seq<int>>>, ghost writes: seq<nat>, inp: seq<E>, trans: seq<seq<int>>, ghost act: seq<nat>)
    returns (rs': seq<Option<seq<int>>>, ghost writes': seq<nat>, inp': seq<E>, trans': seq<seq<int>>, ghost act': seq<nat>, stop: bool)
    requires i < maxLen && Live(net, v, enc, maxLen, i, rs, writes, inp, trans, act)
    requires mapper.Length == |enc| && act == mapper[..|act|]
    modifies mapper
    ensures Live(net, v, enc, maxLen, i + 1, rs', writes', inp', trans', act')
    ensures act' == mapper[..|act'|]
    ensures stop ==> act' == []
  {
    var n := |inp|;
    var grown, done := Advanced(net, v, enc, maxLen, i, inp, trans, act);
    var ndone := CountTrue(done);
    AllDoneEvery(done);
    CountTrueZero(done);
    if ndone == n {
      rs', writes' := RetireAll(ClipRows(net, v, enc, maxLen), mapper, rs, writes, act, grown);
      inp', trans', act', stop := [], [], [], true;
    } else if ndone > 0 {
      rs', writes', inp', trans', act' := RetireSome(net, v, enc, maxLen, i, mapper, rs, writes, inp, act, grown, done);
      stop := false;
    } else {
      rs', writes', inp', trans', act', stop := rs, writes, inp, grown, act, false;
      KeepRows(net, v, enc, maxLen, i, inp, act, grown, done, seq(n, j requires 0 <= j < n => j), inp, grown, act);
    }
  }

  /** The decoder pass of step i over the surviving rows: each appends its
      argmax, and is flagged when that argmax is `eos`. */
  method Advanced<E>(net: Net<E>, v: Variant, enc: seq<E>, maxLen: int, i: nat, inp: seq<E>, trans: seq<seq<int>>, ghost act: seq<nat>)
    returns (grown: seq<seq<int>>, done: seq<bool>)
    requires 1 <= i < Cap(maxLen) && Rows(net, v, enc, maxLen, i, inp, trans, act)
    ensures Stepped(net, v, enc, maxLen, i, inp, act, grown, done)
  {
    var n := |inp|;
    var wds := seq(n, j requires 0 <= j < n => net(inp[j], [v.sos] + trans[j], 0).1);
    grown := seq(n, j requires 0 <= j < n => trans[j] + [wds[j]]);
    done := seq(n, j requires 0 <= j < n => wds[j] == v.eos);
    Grown(net, v, enc, maxLen, i, inp, trans, act, grown, done);
  }

  /** Every surviving row retired: all of them are written out, row j's
      result `outs[j]` through `mapper[j]`. */
  method RetireAll<T>(ghost want: seq<Option<T>>, mapper: array<nat>, rs: seq<Option<T>>, ghost writes: seq<nat>,
                      ghost act: seq<nat>, outs: seq<T>)
    returns (rs': seq<Option<T>>, ghost writes': seq<nat>)
    requires |rs| == |want| && Ascending(act) && Slots(want, rs, writes, act)
    requires Due(want, act, outs, seq(|act|, j => true))
    requires mapper.Length == |want| && |act| <= |want| && act == mapper[..|act|]
    ensures |rs'| == |want| && Slots(want, rs', writes', [])
  {
    var n := |outs|;
    var all := seq(n, j requires 0 <= j < n => j);
    assert forall t :: 0 <= t < n ==> mapper[all[t]] == act[t];
    rs', writes' := WriteOut(rs, mapper, all, outs, writes);
    ghost var newly := writes'[|writes|..];
    assert writes' == writes + newly;
    assert |newly| == n && forall t :: 0 <= t < n ==> newly[t] == act[t];
    assert newly == act;
    RetiredAll(want, rs, writes, act, outs, rs', writes');
  }

  /** What writing out every surviving row leaves: the slots of all
      surviving examples hold their wanted results, and no row survives. */
  lemma RetiredAll<T>(want: seq<Option<T>>, rs: seq<Option<T>>, writes: seq<nat>, act: seq<nat>,
                      outs: seq<T>, rs': seq<Option<T>>, writes': seq<nat>)
    requires |rs| == |want| && Ascending(act) && Slots(want, rs, writes, act)
    requires Due(want, act, outs, seq(|act|, j => true))
    requires |rs'| == |rs| && writes' == writes + act
    requires forall t :: 0 <= t < |act| ==> rs'[act[t]] == Some(outs[t])
    requires forall o :: 0 <= o < |rs| && o !in act ==> rs'[o] == rs[o]
    ensures Slots(want, rs', writes', [])
  {
    var all := seq(|act|, j requires 0 <= j < |act| => j);
    PartitionOrder(act, all, act);
    Written(want, act, outs, seq(|act|, j => true), all, act, rs');
    Retire(want, rs, writes, act, act, [], rs', writes');
  }

  /** Some, but not all, surviving rows emitted `eos`: those are written
      out, the others are kept in order and `mapper` is compacted. */
  method RetireSome<E>(net: Net<E>, v: Variant, enc: seq<E>, maxLen: int, i: nat, mapper: array<nat>,
                       rs: seq<Option<seq<int>>>, ghost writes: seq<nat>, inp: seq<E>, ghost act: seq<nat>,
                       grown: seq<seq<int>>, done: seq<bool>)
    returns (rs': seq<Option<seq<int>>>, ghost writes': seq<nat>, inp': seq<E>, trans': seq<seq<int>>, ghost act': seq<nat>)
    requires 1 <= i < Cap(maxLen) && |rs| == |enc| && |act| <= |enc| && Ascending(act) && Slots(ClipRows(net, v, enc, maxLen), rs, writes, act)
    requires Stepped(net, v, enc, maxLen, i, inp, act, grown, done)
    requires mapper.Length == |enc| && act == mapper[..|act|]
    modifies mapper
    ensures Live(net, v, enc, maxLen, i + 1, rs', writes', inp', trans', act')
    ensures act' == mapper[..|act'|]
  {
    var dind := Where(done, true);
    var ndid := Where(done, false);
    act' := seq(|ndid|, t requires 0 <= t < |ndid| => act[ndid[t]]);
    rs', writes' := WriteRetired(ClipRows(net, v, enc, maxLen), mapper, rs, writes, act, grown, done, dind, ndid, act');
    inp', trans' := Kept(net, v, enc, maxLen, i, inp, act, grown, done, ndid, act');
    CompactActive(mapper, act, ndid, act');
  }

  /** The kept rows `inp[_ndid]` and `trans[_ndid]`, which survive into
      step i + 1. */
  method Kept<E>(net: Net<E>, v: Variant, enc: seq<E>, maxLen: int, i: nat, inp: seq<E>, ghost act: seq<nat>,
                 grown: seq<seq<int>>, done: seq<bool>, ndid: seq<nat>, ghost act': seq<nat>)
    returns (inp': seq<E>, trans': seq<seq<int>>)
    requires Stepped(net, v, enc, maxLen, i, inp, act, grown, done) && Ascending(act')
    requires ndid == Where(done, false)
    requires act' == seq(|ndid|, t requires 0 <= t < |ndid| => act[ndid[t]])
    ensures Rows(net, v, enc, maxLen, i + 1, inp', trans', act')
  {
    inp' := seq(|ndid|, t requires 0 <= t < |ndid| => inp[ndid[t]]);
    trans' := seq(|ndid|, t requires 0 <= t < |ndid| => grown[ndid[t]]);
    KeepRows(net, v, enc, maxLen, i, inp, act, grown, done, ndid, inp', trans', act');
  }

  /** Compacting `mapper` by the kept rows leaves the kept examples in its
      live prefix. */
  method CompactActive(mapper: array<nat>, ghost act: seq<nat>, ndid: seq<nat>, ghost act': seq<nat>)
    requires |act| <= mapper.Length && act == mapper[..|act|]
    requires Ascending(ndid) && |ndid| <= |act| && forall t :: 0 <= t < |ndid| ==> ndid[t] < |act|
    requires act' == seq(|ndid|, t requires 0 <= t < |ndid| => act[ndid[t]])
    modifies mapper
    ensures act' == mapper[..|act'|]
  {
    ghost var pre := mapper[..];
    assert forall t :: 0 <= t < |ndid| ==> pre[ndid[t]] == act'[t];
    Compact(mapper, ndid);
    assert forall t :: 0 <= t < |ndid| ==> mapper[t] == act'[t];
  }

  /** The writes of a step in which the rows `dind` retire: their slots get
      their results, and the slots stay in order for the survivors `act'`
      (the examples of the rows `ndid`). */
  method WriteRetired<T>(ghost want: seq<Option<T>>, mapper: array<nat>, rs: seq<Option<T>>, ghost writes: seq<nat>,
                         ghost act: seq<nat>, outs: seq<T>, done: seq<bool>, dind: seq<nat>, ndid: seq<nat>, ghost act': seq<nat>)
    returns (rs': seq<Option<T>>, ghost writes': seq<nat>)
    requires |rs| == |want| && Ascending(act) && Slots(want, rs, writes, act) && Due(want, act, outs, done)
    requires mapper.Length == |want| && |act| <= |want| && act == mapper[..|act|]
    requires dind == Where(done, true) && ndid == Where(done, false)
    requires act' == seq(|ndid|, t requires 0 <= t < |ndid| => act[ndid[t]])
    ensures |rs'| == |want| && Ascending(act') && Slots(want, rs', writes', act')
  {
    assert forall t :: 0 <= t < |dind| ==> mapper[dind[t]] == act[dind[t]];
    rs', writes' := WriteOut(rs, mapper, dind, outs, writes);
    RetiredSlots(want, rs, writes, act, outs, done, dind, ndid, act', rs', writes');
  }

  /** The slot bookkeeping of `WriteRetired`. */
  lemma RetiredSlots<T>(want: seq<Option<T>>, rs: seq<Option<T>>, writes: seq<nat>,
                        act: seq<nat>, outs: seq<T>, done: seq<bool>, dind: seq<nat>, ndid: seq<nat>, act': seq<nat>,
                        rs': seq<Option<T>>, writes': seq<nat>)
    requires |rs| == |rs'| == |want| && Ascending(act) && Slots(want, rs, writes, act) && Due(want, act, outs, done)
    requires dind == Where(done, true) && ndid == Where(done, false)
    requires act' == seq(|ndid|, t requires 0 <= t < |ndid| => act[ndid[t]])
    requires |writes'| == |writes| + |dind| && writes'[..|writes|] == writes
    requires forall t :: 0 <= t < |dind| ==> writes'[|writes| + t] == act[dind[t]]
    requires forall t :: 0 <= t < |dind| ==> rs'[act[dind[t]]] == Some(outs[dind[t]])
    requires forall o :: 0 <= o < |rs| && o !in writes'[|writes|..] ==> rs'[o] == rs[o]
    ensures Ascending(act') && Slots(want, rs', writes', act')
  {
    var newly := writes'[|writes|..];
    assert writes' == writes + newly;
    Partition(act, done, dind, ndid, act', newly);
    Written(want, act, outs, done, dind, newly, rs');
    Retire(want, rs, writes, act, newly, act', rs', writes');
  }

  /** The step loop of `greedy_decode_clip`, up to where the source returns:
      the slots written so far and the rows still running. */
  method GreedyClipLoop<E>(net: Net<E>, v: Variant, enc: seq<E>, maxLen: int)
    returns (rs: seq<Option<seq<int>>>, ghost writes: seq<nat>, mapper: array<nat>, inp: seq<E>, trans: seq<seq<int>>, ghost act: seq<nat>)
    ensures mapper.Length == |enc|
    ensures Live(net, v, enc, maxLen, Cap(maxLen), rs, writes, inp, trans, act)
    ensures act == mapper[..|act|]
  {
    var bsize := |enc|;
    mapper := new nat[bsize](j => j);
    rs := seq(bsize, o => None);
    writes := [];
    inp := enc;
    trans := seq(bsize, b requires 0 <= b < bsize => [net(enc[b], [v.sos], 0).1]);
    act := mapper[..];
    LiveStart(net, v, enc, maxLen, rs, trans, act);
    var i := 1;
    while i < maxLen
      invariant Live(net, v, enc, maxLen, i, rs, writes, inp, trans, act)
      invariant mapper.Length == |enc| && act == mapper[..|act|]
      decreases maxLen - i
    {
      var stop;
      rs, writes, inp, trans, act, stop := GreedyClipStep(net, v, enc, maxLen, i, mapper, rs, writes, inp, trans, act);
      i := i + 1;
      if stop {
        break;
      }
    }
    if act == [] {
      LiveEmpty(net, v, enc, maxLen, i, Cap(maxLen), rs, writes);
    } else {
      assert i == Cap(maxLen);
    }
  }

  /** `greedy_decode_clip` (with `return_mat` off): the slot of every example
      holds its clip result, and exactly the examples `writes` lists were
      written, each once. An example still running when the step budget
      ends is never written. */
  method GreedyDecodeClip<E>(net: Net<E>, v: Variant, enc: seq<E>, maxLen: int)
    returns (rs: seq<Option<seq<int>>>, ghost writes: seq<nat>)
    ensures |rs| == |enc|
    ensures forall o :: 0 <= o < |enc| ==> rs[o] == ClipRow(net, v, enc[o], maxLen)
    ensures forall o :: 0 <= o < |enc| ==> (rs[o].Some? <==> o in writes)
    ensures Distinct(writes)
  {
    var mapper, inp, trans;
    ghost var act;
    rs, writes, mapper, inp, trans, act := GreedyClipLoop(net, v, enc, maxLen);
    forall o | 0 <= o < |enc| && o in act
      ensures rs[o] == ClipRow(net, v, enc[o], maxLen)
    {
      var j :| 0 <= j < |act| && act[j] == o;
      assert FinishFrom(net, v, inp[j], Cap(maxLen), Cap(maxLen)) == None;
    }
  }

  /** The corrected slot of every example. */
  function ClipRowsFixed<E>(net: Net<E>, v: Variant, enc: seq<E>, maxLen: int): (fixed: seq<seq<int>>)
    ensures |fixed| == |enc|
  {
    seq(|enc|, o requires 0 <= o < |enc| => ClipRowFixed(net, v, enc[o], maxLen))
  }

  /** `greedy_decode_clip` as evidently intended: the examples still running
      when the step budget ends are written too, so every slot is written
      exactly once. */
  method GreedyDecodeClipFixed<E>(net: Net<E>, v: Variant, enc: seq<E>, maxLen: int)
    returns (rs: seq<Option<seq<int>>>, ghost writes: seq<nat>)
    ensures |rs| == |enc|
    ensures forall o :: 0 <= o < |enc| ==> rs[o] == Some(ClipRowFixed(net, v, enc[o], maxLen))
    ensures forall o :: 0 <= o < |enc| ==> o in writes
    ensures Distinct(writes)
  {
    var mapper, inp, trans;
    ghost var act;
    rs, writes, mapper, inp, trans, act := GreedyClipLoop(net, v, enc, maxLen);
    ghost var want, fixed := ClipRows(net, v, enc, maxLen), ClipRowsFixed(net, v, enc, maxLen);
    forall o | 0 <= o < |enc|
      ensures want[o].Some? ==> want[o] == Some(fixed[o])
    {
      ClipRowFixedCut(net, v, enc[o], maxLen);
    }
    forall j | 0 <= j < |act|
      ensures fixed[act[j]] == trans[j]
    {
      assert FinishFrom(net, v, inp[j], Cap(maxLen), Cap(maxLen)) == None;
    }
    rs, writes := Flush(want, fixed, mapper, rs, writes, act, trans);
  }

  /** Writing out the rows still running at the budget, row j's `outs[j]`
      through `mapper[j]`, completes every slot with its corrected result
      `fixed[o]`, which agrees with the wanted one wherever that is written. */
  method Flush<T>(ghost want: seq<Option<T>>, ghost fixed: seq<T>, mapper: array<nat>, rs: seq<Option<T>>,
                  ghost writes: seq<nat>, ghost act: seq<nat>, outs: seq<T>)
    returns (rs': seq<Option<T>>, ghost writes': seq<nat>)
    requires |rs| == |want| == |fixed| && Slots(want, rs, writes, act)
    requires forall o :: 0 <= o < |want| && want[o].Some? ==> want[o] == Some(fixed[o])
    requires |outs| == |act| && forall j :: 0 <= j < |act| ==> act[j] < |want| && fixed[act[j]] == outs[j]
    requires Distinct(act) && mapper.Length == |want| && |act| <= |want| && act == mapper[..|act|]
    ensures |rs'| == |want|
    ensures forall o :: 0 <= o < |want| ==> rs'[o] == Some(fixed[o])
    ensures forall o :: 0 <= o < |want| ==> o in writes'
    ensures Distinct(writes')
  {
    var rest := seq(|outs|, j requires 0 <= j < |outs| => j);
    assert forall j :: 0 <= j < |act| ==> mapper[j] == act[j];
    assert |rest| == |act| && forall t :: 0 <= t < |rest| ==> rest[t] == t && mapper[rest[t]] == act[t];
    rs', writes' := WriteOut(rs, mapper, rest, outs, writes);
    assert forall t :: 0 <= t < |act| ==> writes'[|writes| + t] == act[t] && rs'[act[t]] == Some(outs[t]);
    FlushSlots(want, fixed, rs, writes, act, outs, rs', writes');
  }

  /** The slot bookkeeping of `Flush`. */
  lemma FlushSlots<T>(want: seq<Option<T>>, fixed: seq<T>, rs: seq<Option<T>>, writes: seq<nat>,
                      act: seq<nat>, outs: seq<T>, rs': seq<Option<T>>, writes': seq<nat>)
    requires |rs| == |rs'| == |want| == |fixed| && Slots(want, rs, writes, act)
    requires forall o :: 0 <= o < |want| && want[o].Some? ==> want[o] == Some(fixed[o])
    requires |outs| == |act| && forall j :: 0 <= j < |act| ==> act[j] < |want| && fixed[act[j]] == outs[j]
    requires |writes'| == |writes| + |act| && writes'[..|writes|] == writes
    requires forall t :: 0 <= t < |act| ==> writes'[|writes| + t] == act[t]
    requires forall t :: 0 <= t < |act| ==> rs'[act[t]] == Some(outs[t])
    requires forall o :: 0 <= o < |rs| && o !in writes'[|writes|..] ==> rs'[o] == rs[o]
    requires Distinct(act)
    ensures forall o :: 0 <= o < |want| ==> rs'[o] == Some(fixed[o])
    ensures forall o :: 0 <= o < |want| ==> o in writes'
    ensures Distinct(writes')
  {
    var newly := writes'[|writes|..];
    assert newly == act;
    assert writes' == writes + act;
    forall o | 0 <= o < |want|
      ensures rs'[o] == Some(fixed[o]) && o in writes'
    {
      if o in act {
        var j :| 0 <= j < |act| && act[j] == o;
      }
    }
    forall p, q | 0 <= p < q < |writes'|
      ensures writes'[p] != writes'[q]
    {
      if p < |writes| <= q {
        assert writes'[q] in act;
        assert rs[writes'[q]] == None;
      }
    }
  }

  /** `_done_trans_u` of `beam_decode_clip`: with a length penalty or with
      `return_all`, an example retires once `done_trans.sum(1).eq(beam_size)`,
      otherwise once its rank-0 beam is done. */
  function Retired(k: nat, m: nat, done: seq<bool>, penalised: bool, returnAll: bool): (u: seq<bool>)
    requires k >= 1 && |done| == m * k
    ensures |u| == m
  {
    seq(m, b requires 0 <= b < m =>
      Arith.BlockEnd(b, m, k);
      if penalised || returnAll then CountTrue(done[b * k..b * k + k]) == k else done[b * k])
  }

  /** An example of the beam batch retires exactly when all its K beams are
      done (with a length penalty or `return_all`) or its rank-0 beam is
      done (otherwise). */
  lemma RetiredWhen(k: nat, m: nat, done: seq<bool>, penalised: bool, returnAll: bool, b: nat)
    requires k >= 1 && |done| == m * k && b < m
    ensures b * k + k <= |done|
    ensures Retired(k, m, done, penalised, returnAll)[b] <==>
      if penalised || returnAll then forall r :: b * k <= r < b * k + k ==> done[r] else done[b * k]
  {
    Arith.BlockEnd(b, m, k);
    if penalised || returnAll {
      var block := done[b * k..b * k + k];
      assert Retired(k, m, done, penalised, returnAll)[b] == AllDone(block, |block|);
      AllDoneEvery(block);
      assert (forall j :: 0 <= j < |block| ==> block[j]) <==> (forall r :: b * k <= r < b * k + k ==> done[r]) by {
        assert forall r :: b * k <= r < b * k + k ==> done[r] == block[r - b * k];
        assert forall j :: 0 <= j < |block| ==> block[j] == done[b * k + j];
      }
    }
  }
}
