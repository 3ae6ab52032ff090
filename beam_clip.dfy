/** `beam_decode_clip` of the base decoder: beam search in which an example
    leaves the batch as soon as it passes the stop test, its result is
    written through `mapper` into its own slot of `rs`, and the surviving
    examples are compacted. The search state is kept per example, one
    `Beams` of K rows each, and each example is searched as if it were
    alone in the batch (see `One`). */
module BeamClip {
  import opened Wrappers
  import opened Search
  import opened Beam
  import BeamFacts
  import Clip
  import Decoders
  import Arith

  /** The search of example `e` on its own: the context with `e` as its only
      encoder row. */
  function One<E>(c: Ctx<E>, e: E): (c1: Ctx<E>)
    ensures c1.o == c.o && c1.v == c.v && |c1.enc| == 1
  {
    c.(enc := [e])
  }

  /** The slot `beam_decode_clip` leaves for example `e`: the result of its
      search if the search retires it at some step 1 .. max_len - 1, and
      nothing if it is still running when the step budget ends. */
  function ClipBeamRow<E>(c: Ctx<E>, e: E): Option<Output>
    requires c.o.k >= 1
  {
    var c1 := One(c, e);
    var r := Run(c1, Start(c1), 1);
    if r.len > 1 && EarlyStop(c1, r.beams.done) then Some(Finish(c1, r.beams)) else None
  }

  /** The slot stays empty exactly when the search of the example passes the
      stop test after none of the steps 1 .. max_len - 1; in particular every
      slot stays empty when `max_len <= 1`. */
  lemma ClipBeamUnwritten<E>(c: Ctx<E>, e: E)
    requires c.o.k >= 1
    ensures ClipBeamRow(c, e) == None <==>
      forall t :: 1 < t <= Cap(c.o.maxLen) ==> !EarlyStop(One(c, e), At(One(c, e), Start(One(c, e)), 1, t).done)
  {
    var c1 := One(c, e);
    var r := Run(c1, Start(c1), 1);
    BeamFacts.BeamLength(c1);
    NoStopUpTo(c1, r);
  }

  /** The same over where the search of a single example `c1` stops, `r`:
      it stops with a state that passes the stop test at some step
      2 .. max(1, max_len) exactly when some state on its way there does. */
  lemma NoStopUpTo<E>(c1: Ctx<E>, r: Stopped)
    requires c1.o.k >= 1 && |c1.enc| == 1 && Shaped(c1, r.beams, r.len) && (1 < c1.o.maxLen ==> 1 < r.len)
    requires 1 <= r.len <= Cap(c1.o.maxLen) && (r.len < Cap(c1.o.maxLen) ==> EarlyStop(c1, r.beams.done))
    requires r.beams == At(c1, Start(c1), 1, r.len) && BeamFacts.NoStopBefore(c1, Start(c1), 1, r.len)
    ensures !(r.len > 1 && EarlyStop(c1, r.beams.done)) <==>
      forall t :: 1 < t <= Cap(c1.o.maxLen) ==> !EarlyStop(c1, At(c1, Start(c1), 1, t).done)
  {
    if !(r.len > 1 && EarlyStop(c1, r.beams.done)) {
      if r.len == 1 {
        assert Cap(c1.o.maxLen) == 1;
      } else {
        assert r.len == Cap(c1.o.maxLen);
      }
    }
  }

  /** The evidently intended slot: the result `beam_decode` gives for the
      example alone, also when it is still running at the budget. */
  function ClipBeamRowFixed<E>(c: Ctx<E>, e: E): Output
    requires c.o.k >= 1
  {
    var c1 := One(c, e);
    Finish(c1, Run(c1, Start(c1), 1).beams)
  }

  /** The corrected slot agrees with the written one wherever that is
      written; without `return_all` it is one row of 1 .. max(1, max_len)
      tokens. */
  lemma ClipBeamFixedCut<E>(c: Ctx<E>, e: E)
    requires c.o.k >= 1
    ensures ClipBeamRow(c, e).Some? ==> ClipBeamRow(c, e) == Some(ClipBeamRowFixed(c, e))
    ensures !c.o.returnAll ==>
      ClipBeamRowFixed(c, e).Best? && |ClipBeamRowFixed(c, e).rows| == 1 &&
      1 <= |ClipBeamRowFixed(c, e).rows[0]| <= Cap(c.o.maxLen)
  {
    var c1 := One(c, e);
    var r := Run(c1, Start(c1), 1);
    if !c.o.returnAll {
      BeamFacts.FinishBest(c1, r.beams, r.len, 0);
    }
  }

  /** Example `e` still running before step i with state `st`: `st` is the
      state its own search reaches at step i, that search has not stopped
      before, and from step 2 on `st` failed the stop test. */
  ghost predicate OnTrack<E>(c: Ctx<E>, e: E, st: Beams, i: nat)
  {
    c.o.k >= 1 && 1 <= i && Shaped(One(c, e), st, i) &&
    Run(One(c, e), st, i) == Run(One(c, e), Start(One(c, e)), 1) &&
    (i > 1 ==> !EarlyStop(One(c, e), st.done))
  }

  lemma TrackStart<E>(c: Ctx<E>, e: E)
    requires c.o.k >= 1
    ensures OnTrack(c, e, Start(One(c, e)), 1)
  {
  }

  /** Step i of a running example: its next state `nx` either passes the stop
      test, and then its slot is the result of `nx`, or keeps it running. */
  lemma TrackStep<E>(c: Ctx<E>, e: E, st: Beams, i: nat, nx: Beams)
    requires OnTrack(c, e, st, i) && i < c.o.maxLen && nx == Step(One(c, e), st, i)
    ensures EarlyStop(One(c, e), nx.done) ==> ClipBeamRow(c, e) == Some(Finish(One(c, e), nx))
    ensures !EarlyStop(One(c, e), nx.done) ==> OnTrack(c, e, nx, i + 1)
  {
    BeamFacts.StepShaped(One(c, e), st, i);
  }

  /** An example still running at the budget is never written; the corrected
      slot is the result of its last state. */
  lemma TrackEnd<E>(c: Ctx<E>, e: E, st: Beams)
    requires OnTrack(c, e, st, Cap(c.o.maxLen))
    ensures ClipBeamRow(c, e) == None
    ensures ClipBeamRowFixed(c, e) == Finish(One(c, e), st)
  {
  }

  /** `done_trans` of the surviving examples: block j holds the K flags of
      example j. */
  function Flags(k: nat, nx: seq<Beams>): (flat: seq<bool>)
    requires k >= 1 && forall j :: 0 <= j < |nx| ==> |nx[j].done| == k
    ensures |flat| == |nx| * k
  {
    seq(|nx| * k, r requires 0 <= r < |nx| * k => Arith.BlockBound(r, |nx|, k); nx[r / k].done[r % k])
  }

  lemma FlagAt(k: nat, nx: seq<Beams>, j: nat, i: nat)
    requires k >= 1 && forall j :: 0 <= j < |nx| ==> |nx[j].done| == k
    requires j < |nx| && i < k
    ensures j * k + i < |nx| * k && Flags(k, nx)[j * k + i] == nx[j].done[i]
  {
    Arith.BlockEnd(j, |nx|, k);
    Arith.BlockIndex(j, k, i);
  }

  /** `_done_trans_u` retires example j exactly when its own search would
      stop: all its beams are done or, without a length penalty and without
      `return_all`, its rank-0 beam is. */
  lemma RetiredIsEarlyStop<E>(c: Ctx<E>, e: E, nx: seq<Beams>, j: nat)
    requires c.o.k >= 1 && forall j :: 0 <= j < |nx| ==> |nx[j].done| == c.o.k
    requires j < |nx|
    ensures Clip.Retired(c.o.k, |nx|, Flags(c.o.k, nx), c.o.penalised, c.o.returnAll)[j] ==
      EarlyStop(One(c, e), nx[j].done)
  {
    var k, d := c.o.k, nx[j].done;
    Clip.RetiredWhen(k, |nx|, Flags(k, nx), c.o.penalised, c.o.returnAll, j);
    forall i | 0 <= i < k
      ensures Flags(k, nx)[j * k + i] == d[i]
    {
      FlagAt(k, nx, j, i);
    }
    assert forall r :: j * k <= r < j * k + k ==> Flags(k, nx)[r] == d[r - j * k];
    AllDoneEvery(d);
    assert RankZero(One(c, e), d) == [d[0]];
    assert CountTrue([d[0]]) == (if d[0] then 1 else 0) by {
      assert [d[0]][..0] == [];
    }
  }

  /** The slot every example should end up with. */
  ghost function Want<E>(c: Ctx<E>): (want: seq<Option<Output>>)
    requires c.o.k >= 1
    ensures |want| == |c.enc|
  {
    seq(|c.enc|, o requires 0 <= o < |c.enc| => ClipBeamRow(c, c.enc[o]))
  }

  /** The surviving examples before step i: `inp`, `live` and `act` (the live
      prefix of `mapper`) hold, in ascending order of their examples, the
      encoder row, the search state and the example index. */
  ghost predicate Rows<E>(c: Ctx<E>, i: nat, inp: seq<E>, live: seq<Beams>, act: seq<nat>)
  {
    |inp| == |live| == |act| && Clip.Ascending(act) &&
    (forall j :: 0 <= j < |act| ==> act[j] < |c.enc| && inp[j] == c.enc[act[j]]) &&
    (forall j :: 0 <= j < |act| ==> OnTrack(c, inp[j], live[j], i))
  }

  /** The loop state of `beam_decode_clip` before step i. */
  ghost predicate Live<E>(c: Ctx<E>, i: nat, rs: seq<Option<Output>>, writes: seq<nat>, inp: seq<E>, live: seq<Beams>, act: seq<nat>)
  {
    c.o.k >= 1 && 1 <= i <= Cap(c.o.maxLen) && |rs| == |c.enc| && |act| <= |c.enc| &&
    Rows(c, i, inp, live, act) && Clip.Slots(Want(c), rs, writes, act)
  }

  /** What step i did to the surviving examples: `nx` are their new states,
      `done` the retirement flags, and a retired example's `outs` entry is
      its slot. */
  ghost predicate Stepped<E>(c: Ctx<E>, i: nat, inp: seq<E>, act: seq<nat>, nx: seq<Beams>, outs: seq<Output>, done: seq<bool>)
  {
    c.o.k >= 1 && |nx| == |inp| == |act| &&
    (forall j :: 0 <= j < |act| ==> act[j] < |c.enc| && inp[j] == c.enc[act[j]]) &&
    Clip.Due(Want(c), act, outs, done) &&
    (forall j :: 0 <= j < |inp| && !done[j] ==> OnTrack(c, inp[j], nx[j], i + 1))
  }

  /** The search step i of every surviving example, and its flags. */
  method Advanced<E>(c: Ctx<E>, i: nat, inp: seq<E>, live: seq<Beams>, ghost act: seq<nat>)
    returns (nx: seq<Beams>, done: seq<bool>, outs: seq<Output>)
    requires i < c.o.maxLen && c.o.k >= 1 && Rows(c, i, inp, live, act)
    ensures Stepped(c, i, inp, act, nx, outs, done)
  {
    var n := |inp|;
    nx := seq(n, j requires 0 <= j < n => Step(One(c, inp[j]), live[j], i));
    done := Clip.Retired(c.o.k, n, Flags(c.o.k, nx), c.o.penalised, c.o.returnAll);
    outs := seq(n, j requires 0 <= j < n => Finish(One(c, inp[j]), nx[j]));
    Stepping(c, i, inp, live, act, nx, done, outs);
  }

  lemma Stepping<E>(c: Ctx<E>, i: nat, inp: seq<E>, live: seq<Beams>, act: seq<nat>,
                    nx: seq<Beams>, done: seq<bool>, outs: seq<Output>)
    requires i < c.o.maxLen && c.o.k >= 1 && Rows(c, i, inp, live, act)
    requires |nx| == |inp| && forall j :: 0 <= j < |inp| ==> nx[j] == Step(One(c, inp[j]), live[j], i)
    requires forall j :: 0 <= j < |nx| ==> |nx[j].done| == c.o.k
    requires done == Clip.Retired(c.o.k, |nx|, Flags(c.o.k, nx), c.o.penalised, c.o.returnAll)
    requires |outs| == |nx| && forall j :: 0 <= j < |inp| ==> outs[j] == Finish(One(c, inp[j]), nx[j])
    ensures Stepped(c, i, inp, act, nx, outs, done)
  {
    forall j | 0 <= j < |inp|
      ensures done[j] ==> Want(c)[act[j]] == Some(outs[j])
      ensures !done[j] ==> OnTrack(c, inp[j], nx[j], i + 1)
    {
      RetiredIsEarlyStop(c, inp[j], nx, j);
      TrackStep(c, inp[j], live[j], i, nx[j]);
    }
  }

  /** The states at the ascending positions `ix`, none of which retired, are
      the surviving examples before step i + 1. */
  lemma KeepRows<E>(c: Ctx<E>, i: nat, inp: seq<E>, act: seq<nat>, nx: seq<Beams>, outs: seq<Output>, done: seq<bool>,
                    ix: seq<nat>, inp': seq<E>, live': seq<Beams>, act': seq<nat>)
    requires Stepped(c, i, inp, act, nx, outs, done) && Clip.Ascending(act')
    requires forall t :: 0 <= t < |ix| ==> ix[t] < |inp| && !done[ix[t]]
    requires |inp'| == |live'| == |act'| == |ix|
    requires forall t :: 0 <= t < |ix| ==> inp'[t] == inp[ix[t]] && live'[t] == nx[ix[t]] && act'[t] == act[ix[t]]
    ensures Rows(c, i + 1, inp', live', act')
  {
  }

  /** The kept examples `inpute[_ndid]` and their states, which survive into
      step i + 1. */
  method Kept<E>(c: Ctx<E>, i: nat, inp: seq<E>, ghost act: seq<nat>, nx: seq<Beams>, ghost outs: seq<Output>,
                 done: seq<bool>, ndid: seq<nat>, ghost act': seq<nat>)
    returns (inp': seq<E>, live': seq<Beams>)
    requires Stepped(c, i, inp, act, nx, outs, done) && Clip.Ascending(act')
    requires ndid == Clip.Where(done, false)
    requires act' == seq(|ndid|, t requires 0 <= t < |ndid| => act[ndid[t]])
    ensures Rows(c, i + 1, inp', live', act')
  {
    inp' := seq(|ndid|, t requires 0 <= t < |ndid| => inp[ndid[t]]);
    live' := seq(|ndid|, t requires 0 <= t < |ndid| => nx[ndid[t]]);
    KeepRows(c, i, inp, act, nx, outs, done, ndid, inp', live', act');
  }

  /** One iteration of the step loop of `beam_decode_clip`: every surviving
      example takes its search step; when all of them retire they are all
      written out and the loop ends; when some do, those are written out and
      the rest compacted. */
  method BeamClipStep<E>(c: Ctx<E>, i: nat, mapper: array<nat>, rs: seq<Option<Output>>, ghost writes: seq<nat>,
                         inp: seq<E>, live: seq<Beams>, ghost act: seq<nat>)
    returns (rs': seq<Option<Output>>, ghost writes': seq<nat>, inp': seq<E>, live': seq<Beams>, ghost act': seq<nat>, stop: bool)
    requires i < c.o.maxLen && Live(c, i, rs, writes, inp, live, act)
    requires mapper.Length == |c.enc| && act == mapper[..|act|]
    modifies mapper
    ensures Live(c, i + 1, rs', writes', inp', live', act')
    ensures act' == mapper[..|act'|]
    ensures stop ==> act' == []
  {
    var n := |inp|;
    var nx, done, outs := Advanced(c, i, inp, live, act);
    var ndone := CountTrue(done);
    AllDoneEvery(done);
    CountTrueZero(done);
    if ndone == n {
      rs', writes' := RetireEvery(c, i, mapper, rs, writes, inp, act, nx, outs, done);
      inp', live', act', stop := [], [], [], true;
    } else if ndone > 0 {
      rs', writes', inp', live', act' := RetireSome(c, i, mapper, rs, writes, inp, act, nx, outs, done);
      stop := false;
    } else {
      rs', writes', inp', live', act', stop := rs, writes, inp, nx, act, false;
      NoneRetired(c, i, rs, writes, inp, act, nx, outs, done);
    }
  }

  /** No surviving example retired: they all go on with their new states. */
  lemma NoneRetired<E>(c: Ctx<E>, i: nat, rs: seq<Option<Output>>, writes: seq<nat>,
                       inp: seq<E>, act: seq<nat>, nx: seq<Beams>, outs: seq<Output>, done: seq<bool>)
    requires i < c.o.maxLen && c.o.k >= 1 && |rs| == |c.enc| && |act| <= |c.enc| && Clip.Ascending(act)
    requires Clip.Slots(Want(c), rs, writes, act)
    requires Stepped(c, i, inp, act, nx, outs, done) && forall j :: 0 <= j < |done| ==> !done[j]
    ensures Live(c, i + 1, rs, writes, inp, nx, act)
  {
    var n := |inp|;
    KeepRows(c, i, inp, act, nx, outs, done, seq(n, j requires 0 <= j < n => j), inp, nx, act);
  }

  /** Every surviving example retired: all of them are written out. */
  method RetireEvery<E>(c: Ctx<E>, i: nat, mapper: array<nat>, rs: seq<Option<Output>>, ghost writes: seq<nat>,
                        inp: seq<E>, ghost act: seq<nat>, nx: seq<Beams>, outs: seq<Output>, done: seq<bool>)
    returns (rs': seq<Option<Output>>, ghost writes': seq<nat>)
    requires i < c.o.maxLen && c.o.k >= 1 && |rs| == |c.enc| && |act| <= |c.enc| && Clip.Ascending(act)
    requires Clip.Slots(Want(c), rs, writes, act)
    requires Stepped(c, i, inp, act, nx, outs, done) && forall j :: 0 <= j < |done| ==> done[j]
    requires mapper.Length == |c.enc| && act == mapper[..|act|]
    ensures Live(c, i + 1, rs', writes', [], [], [])
  {
    assert done == seq(|act|, j => true);
    rs', writes' := Clip.RetireAll(Want(c), mapper, rs, writes, act, outs);
  }

  /** Some, but not all, surviving examples retired: those are written out,
      the others are kept in order and `mapper` is compacted. */
  method RetireSome<E>(c: Ctx<E>, i: nat, mapper: array<nat>, rs: seq<Option<Output>>, ghost writes: seq<nat>,
                       inp: seq<E>, ghost act: seq<nat>, nx: seq<Beams>, outs: seq<Output>, done: seq<bool>)
    returns (rs': seq<Option<Output>>, ghost writes': seq<nat>, inp': seq<E>, live': seq<Beams>, ghost act': seq<nat>)
    requires i < c.o.maxLen && c.o.k >= 1 && |rs| == |c.enc| && |act| <= |c.enc| && Clip.Ascending(act)
    requires Clip.Slots(Want(c), rs, writes, act)
    requires Stepped(c, i, inp, act, nx, outs, done)
    requires mapper.Length == |c.enc| && act == mapper[..|act|]
    modifies mapper
    ensures Live(c, i + 1, rs', writes', inp', live', act')
    ensures act' == mapper[..|act'|]
  {
    var dind := Clip.Where(done, true);
    var ndid := Clip.Where(done, false);
    act' := seq(|ndid|, t requires 0 <= t < |ndid| => act[ndid[t]]);
    rs', writes' := Clip.WriteRetired(Want(c), mapper, rs, writes, act, outs, done, dind, ndid, act');
    inp', live' := Kept(c, i, inp, act, nx, outs, done, ndid, act');
    Clip.CompactActive(mapper, act, ndid, act');
  }

  /** Every example starts surviving, in order, with the state of step 0 and
      no slot written. */
  lemma LiveStart<E>(c: Ctx<E>, rs: seq<Option<Output>>, live: seq<Beams>, act: seq<nat>)
    requires c.o.k >= 1 && |rs| == |live| == |act| == |c.enc|
    requires forall o :: 0 <= o < |c.enc| ==> rs[o] == None && act[o] == o
    requires forall b :: 0 <= b < |c.enc| ==> live[b] == Start(One(c, c.enc[b]))
    ensures Live(c, 1, rs, [], c.enc, live, act)
  {
    forall b | 0 <= b < |c.enc|
      ensures OnTrack(c, c.enc[b], live[b], 1)
    {
      TrackStart(c, c.enc[b]);
    }
    forall o | 0 <= o < |c.enc|
      ensures o in act
    {
      assert act[o] == o;
    }
  }

  /** The step loop of `beam_decode_clip`, up to where the source returns:
      the slots written so far and the examples still running. */
  method BeamClipLoop<E>(c: Ctx<E>)
    returns (rs: seq<Option<Output>>, ghost writes: seq<nat>, mapper: array<nat>, inp: seq<E>, live: seq<Beams>, ghost act: seq<nat>)
    requires c.o.k >= 1
    ensures mapper.Length == |c.enc|
    ensures Live(c, Cap(c.o.maxLen), rs, writes, inp, live, act)
    ensures act == mapper[..|act|]
  {
    var bsize := |c.enc|;
    mapper := new nat[bsize](j => j);
    rs := seq(bsize, o => None);
    writes := [];
    inp := c.enc;
    live := seq(bsize, b requires 0 <= b < bsize => Start(One(c, c.enc[b])));
    act := mapper[..];
    LiveStart(c, rs, live, act);
    var i := 1;
    while i < c.o.maxLen
      invariant Live(c, i, rs, writes, inp, live, act)
      invariant mapper.Length == |c.enc| && act == mapper[..|act|]
      decreases c.o.maxLen - i
    {
      var stop;
      rs, writes, inp, live, act, stop := BeamClipStep(c, i, mapper, rs, writes, inp, live, act);
      i := i + 1;
      if stop {
        break;
      }
    }
    if act != [] {
      assert i == Cap(c.o.maxLen);
    }
  }

  /** `beam_decode_clip` of the base decoder (with `return_mat` off): the slot
      of every example holds the result of its search if that search stopped
      before the step budget, and exactly the examples `writes` lists were
      written, each once. An example still running when the budget ends is
      never written. */
  method BeamDecodeClip<E>(c: Ctx<E>) returns (rs: seq<Option<Output>>, ghost writes: seq<nat>)
    requires c.o.k >= 1 && c.v == Decoders.BaseVariant()
    requires c.o.returnAll ==> !c.o.clip && c.o.penalised
    ensures |rs| == |c.enc|
    ensures forall o :: 0 <= o < |c.enc| ==> rs[o] == ClipBeamRow(c, c.enc[o])
    ensures forall o :: 0 <= o < |c.enc| ==> (rs[o].Some? <==> o in writes)
    ensures Clip.Distinct(writes)
  {
    var mapper, inp, live;
    ghost var act;
    rs, writes, mapper, inp, live, act := BeamClipLoop(c);
    forall o | 0 <= o < |c.enc| && o in act
      ensures rs[o] == ClipBeamRow(c, c.enc[o])
    {
      var j :| 0 <= j < |act| && act[j] == o;
      TrackEnd(c, inp[j], live[j]);
    }
  }

  /** The corrected slot of every example. */
  ghost function FixedRows<E>(c: Ctx<E>): (fixed: seq<Output>)
    requires c.o.k >= 1
    ensures |fixed| == |c.enc|
  {
    seq(|c.enc|, o requires 0 <= o < |c.enc| => ClipBeamRowFixed(c, c.enc[o]))
  }

  /** `beam_decode_clip` as evidently intended: the examples still running
      when the step budget ends are written too, with the result of their
      last state, so every slot is written exactly once with what
      `beam_decode` gives for the example alone. */
  method BeamDecodeClipFixed<E>(c: Ctx<E>) returns (rs: seq<Option<Output>>, ghost writes: seq<nat>)
    requires c.o.k >= 1 && c.v == Decoders.BaseVariant()
    requires c.o.returnAll ==> !c.o.clip && c.o.penalised
    ensures |rs| == |c.enc|
    ensures forall o :: 0 <= o < |c.enc| ==> rs[o] == Some(ClipBeamRowFixed(c, c.enc[o]))
    ensures forall o :: 0 <= o < |c.enc| ==> o in writes
    ensures Clip.Distinct(writes)
  {
    var mapper, inp, live;
    ghost var act;
    rs, writes, mapper, inp, live, act := BeamClipLoop(c);
    var outs := seq(|live|, j requires 0 <= j < |live| => Finish(One(c, inp[j]), live[j]));
    ghost var want, fixed := Want(c), FixedRows(c);
    forall o | 0 <= o < |c.enc|
      ensures want[o].Some? ==> want[o] == Some(fixed[o])
    {
      ClipBeamFixedCut(c, c.enc[o]);
    }
    forall j | 0 <= j < |act|
      ensures fixed[act[j]] == outs[j]
    {
      TrackEnd(c, inp[j], live[j]);
    }
    rs, writes := Clip.Flush(want, fixed, mapper, rs, writes, act, outs);
  }
}
