// The triple batch loader: (source, reference, target value) triples are
// grouped into batches by the source and reference lengths; the token lists
// are then mapped to ids and padded, the values passed through.

module FmtTriple {
  import opened Wrappers
  import opened LoaderRules
  import FmtBase

  /** One yielded batch: source rows, reference rows, target values and the
      largest source and reference lengths. */
  datatype Batch<T, V> = Batch(src: seq<seq<T>>, ref: seq<seq<T>>, tgt: seq<V>, mlenI: nat, mlenR: nat)

  /** The budget of a non-empty batch, fixed by its opening triple. */
  function Budget<T, V>(b: Batch<T, V>, cfg: Config): nat
    requires cfg.maxpart > 0 && b.src != [] && b.ref != []
  {
    MaxLen(|b.src[0]| + |b.ref[0]|, cfg)
  }

  /** A batch obeys the loader's rule: aligned rows, the tracked maxima, and
      every triple after the opening one admitted under the opening triple's
      budget and size. */
  ghost predicate Fits<T, V>(b: Batch<T, V>, cfg: Config)
  {
    cfg.maxpart > 0
    && |b.src| == |b.ref| && |b.tgt| == |b.src|
    && b.mlenI == MaxRowLen(b.src) && b.mlenR == MaxRowLen(b.ref)
    && (b.src != [] ==>
          var ml := Budget(b, cfg);
          ml > 0
          && forall j :: 1 <= j < |b.src| ==> Admits(j, |b.src[j]| + |b.ref[j]|, ml, Bsize(ml, cfg), cfg))
  }

  /** The batch after b had to be closed: its opening triple would not have
      been admitted to b. */
  ghost predicate Closes<T, V>(b: Batch<T, V>, next: Batch<T, V>, cfg: Config)
  {
    Fits(b, cfg) && b.src != [] && next.src != [] && |next.ref| == |next.src| ==>
      var ml := Budget(b, cfg);
      !Admits(|b.src|, |next.src[0]| + |next.ref[0]|, ml, Bsize(ml, cfg), cfg)
  }

  /** The source rows of all batches, in order. */
  function SrcRows<T, V>(bs: seq<Batch<T, V>>): seq<seq<T>>
  {
    if bs == [] then [] else SrcRows(bs[..|bs| - 1]) + bs[|bs| - 1].src
  }

  /** The reference rows of all batches, in order. */
  function RefRows<T, V>(bs: seq<Batch<T, V>>): seq<seq<T>>
  {
    if bs == [] then [] else RefRows(bs[..|bs| - 1]) + bs[|bs| - 1].ref
  }

  /** The target values of all batches, in order. */
  function TgtRows<T, V>(bs: seq<Batch<T, V>>): seq<V>
  {
    if bs == [] then [] else TgtRows(bs[..|bs| - 1]) + bs[|bs| - 1].tgt
  }

  lemma RowsAppend<T, V>(bs: seq<Batch<T, V>>, b: Batch<T, V>)
    ensures SrcRows(bs + [b]) == SrcRows(bs) + b.src
    ensures RefRows(bs + [b]) == RefRows(bs) + b.ref
    ensures TgtRows(bs + [b]) == TgtRows(bs) + b.tgt
  {
    assert (bs + [b])[..|bs|] == bs;
  }

  /** The batches hold exactly the first n triples, in order. */
  ghost predicate Holds<T, V>(bs: seq<Batch<T, V>>, ins: seq<seq<T>>, rfs: seq<seq<T>>, tvs: seq<V>, n: nat)
  {
    n <= |ins| && n <= |rfs| && n <= |tvs|
    && |SrcRows(bs)| == n && |RefRows(bs)| == n && |TgtRows(bs)| == n
    && forall j :: 0 <= j < n ==> SrcRows(bs)[j] == ins[j] && RefRows(bs)[j] == rfs[j] && TgtRows(bs)[j] == tvs[j]
  }

  /** What the loader has consumed of the first i triples: the closed
      batches followed by the open one. */
  ghost predicate Consumed<T, V>(bs: seq<Batch<T, V>>, open: Batch<T, V>, ins: seq<seq<T>>, rfs: seq<seq<T>>, tvs: seq<V>, i: nat)
  {
    Holds(bs + [open], ins, rfs, tvs, i)
  }

  /** The properties of the batches closed so far that the loader keeps. */
  ghost predicate ClosedOk<T, V>(bs: seq<Batch<T, V>>, cfg: Config)
  {
    (forall k :: 0 <= k < |bs| ==> Fits(bs[k], cfg))
    && (forall k :: 0 < k < |bs| ==> bs[k].src != [])
    && (|bs| > 0 && bs[0].src == [] ==> cfg.minbsize <= 0 && cfg.bsize <= 0)
    && (forall k :: 0 <= k < |bs| - 1 ==> Closes(bs[k], bs[k + 1], cfg))
  }

  /** A batch opened by one triple of positive length fits. */
  lemma FitsOpen<T, V>(row: seq<T>, rd: seq<T>, tv: V, m1: nat, m2: nat, cfg: Config)
    requires cfg.maxpart > 0 && |row| + |rd| > 0 && m1 == |row| && m2 == |rd|
    ensures Fits(Batch([row], [rd], [tv], m1, m2), cfg)
    ensures Budget(Batch([row], [rd], [tv], m1, m2), cfg) == MaxLen(m1 + m2, cfg)
  {
    MaxRowLenSingle(row);
    MaxRowLenSingle(rd);
  }

  /** Appending a triple leaves the opening triple, hence the budget, alone. */
  lemma BudgetAppend<T, V>(b: Batch<T, V>, row: seq<T>, rd: seq<T>, tv: V, m1: nat, m2: nat, cfg: Config)
    requires cfg.maxpart > 0 && b.src != [] && b.ref != []
    ensures Budget(Batch(b.src + [row], b.ref + [rd], b.tgt + [tv], m1, m2), cfg) == Budget(b, cfg)
  {
    var b' := Batch(b.src + [row], b.ref + [rd], b.tgt + [tv], m1, m2);
    assert b'.src[0] == b.src[0] && b'.ref[0] == b.ref[0];
  }

  /** An admitted triple: every triple after the opening one stays admitted. */
  lemma AdmitsAppend<T, V>(b: Batch<T, V>, row: seq<T>, rd: seq<T>, tv: V, m1: nat, m2: nat, cfg: Config)
    requires Fits(b, cfg) && b.src != []
    requires Admits(|b.src|, |row| + |rd|, Budget(b, cfg), Bsize(Budget(b, cfg), cfg), cfg)
    ensures var b' := Batch(b.src + [row], b.ref + [rd], b.tgt + [tv], m1, m2);
            var ml := Budget(b, cfg);
            forall j :: 1 <= j < |b'.src| ==> Admits(j, |b'.src[j]| + |b'.ref[j]|, ml, Bsize(ml, cfg), cfg)
  {
    var b' := Batch(b.src + [row], b.ref + [rd], b.tgt + [tv], m1, m2);
    var ml := Budget(b, cfg);
    var bsz := Bsize(ml, cfg);
    forall j | 1 <= j < |b'.src|
      ensures Admits(j, |b'.src[j]| + |b'.ref[j]|, ml, bsz, cfg)
    {
      if j < |b.src| {
        assert b'.src[j] == b.src[j] && b'.ref[j] == b.ref[j];
      }
    }
  }

  /** An admitted triple keeps the open batch fitting, under the same budget. */
  lemma FitsJoin<T, V>(b: Batch<T, V>, row: seq<T>, rd: seq<T>, tv: V, m1: nat, m2: nat, cfg: Config)
    requires Fits(b, cfg) && b.src != []
    requires Admits(|b.src|, |row| + |rd|, Budget(b, cfg), Bsize(Budget(b, cfg), cfg), cfg)
    requires m1 == (if |row| > b.mlenI then |row| else b.mlenI)
    requires m2 == (if |rd| > b.mlenR then |rd| else b.mlenR)
    ensures Fits(Batch(b.src + [row], b.ref + [rd], b.tgt + [tv], m1, m2), cfg)
    ensures Budget(Batch(b.src + [row], b.ref + [rd], b.tgt + [tv], m1, m2), cfg) == Budget(b, cfg)
  {
    MaxRowLenAppend(b.src, row);
    MaxRowLenAppend(b.ref, rd);
    BudgetAppend(b, row, rd, tv, m1, m2, cfg);
    AdmitsAppend(b, row, rd, tv, m1, m2, cfg);
  }

  /** Appending the triple to the open batch consumes it. */
  lemma ConsumedJoin<T, V>(bs: seq<Batch<T, V>>, b: Batch<T, V>, ins: seq<seq<T>>, rfs: seq<seq<T>>, tvs: seq<V>,
                           i: nat, m1: nat, m2: nat)
    requires Consumed(bs, b, ins, rfs, tvs, i)
    requires i < |ins| && i < |rfs| && i < |tvs|
    ensures Consumed(bs, Batch(b.src + [ins[i]], b.ref + [rfs[i]], b.tgt + [tvs[i]], m1, m2), ins, rfs, tvs, i + 1)
  {
    var b' := Batch(b.src + [ins[i]], b.ref + [rfs[i]], b.tgt + [tvs[i]], m1, m2);
    RowsAppend(bs, b);
    RowsAppend(bs, b');
    assert SrcRows(bs + [b']) == SrcRows(bs + [b]) + [ins[i]];
    assert RefRows(bs + [b']) == RefRows(bs + [b]) + [rfs[i]];
    assert TgtRows(bs + [b']) == TgtRows(bs + [b]) + [tvs[i]];
  }

  /** Closing the open batch and opening one with the triple consumes it. */
  lemma ConsumedClose<T, V>(bs: seq<Batch<T, V>>, b: Batch<T, V>, ins: seq<seq<T>>, rfs: seq<seq<T>>, tvs: seq<V>,
                            i: nat, m1: nat, m2: nat)
    requires Consumed(bs, b, ins, rfs, tvs, i)
    requires i < |ins| && i < |rfs| && i < |tvs|
    ensures Consumed(bs + [b], Batch([ins[i]], [rfs[i]], [tvs[i]], m1, m2), ins, rfs, tvs, i + 1)
  {
    RowsAppend(bs + [b], Batch([ins[i]], [rfs[i]], [tvs[i]], m1, m2));
  }

  /** The closed batches with b appended still satisfy ClosedOk. */
  lemma ClosedAppend<T, V>(bs: seq<Batch<T, V>>, b: Batch<T, V>, cfg: Config)
    requires ClosedOk(bs, cfg) && Fits(b, cfg)
    requires |bs| > 0 ==> b.src != [] && Closes(bs[|bs| - 1], b, cfg)
    requires |bs| == 0 && b.src == [] ==> cfg.minbsize <= 0 && cfg.bsize <= 0
    ensures ClosedOk(bs + [b], cfg)
  {
    var bs' := bs + [b];
    forall k | 0 <= k < |bs'| - 1
      ensures Closes(bs'[k], bs'[k + 1], cfg)
    {
      if k < |bs| - 1 {
        assert bs'[k] == bs[k] && bs'[k + 1] == bs[k + 1];
      }
    }
  }

  /** The open batch as the loader keeps it: it fits, its budget and size
      are the ones held in maxlen and bsz, and it follows the closed batches. */
  ghost predicate OpenOk<T, V>(bs: seq<Batch<T, V>>, open: Batch<T, V>, nd: nat, maxlen: nat, bsz: int,
                               ins: seq<seq<T>>, rfs: seq<seq<T>>, tvs: seq<V>, i: nat, cfg: Config)
  {
    Fits(open, cfg) && open.src != [] && nd == |open.src|
    && maxlen == Budget(open, cfg) && bsz == Bsize(maxlen, cfg)
    && Consumed(bs, open, ins, rfs, tvs, i)
    && (|bs| > 0 ==> Closes(bs[|bs| - 1], open, cfg))
  }

  /** The generator's locals between two triples: the batches yielded so far
      and the open batch's rows, values, size, budget, batch size and maxima. */
  datatype Loader<T, V> = Loader(batches: seq<Batch<T, V>>, rsi: seq<seq<T>>, rsr: seq<seq<T>>, rst: seq<V>,
                                 nd: nat, maxlen: nat, bsz: int, mlenI: nat, mlenR: nat)

  function Open<T, V>(st: Loader<T, V>): Batch<T, V>
  {
    Batch(st.rsi, st.rsr, st.rst, st.mlenI, st.mlenR)
  }

  /** The loader's state after i triples. */
  ghost predicate Inv<T, V>(st: Loader<T, V>, ins: seq<seq<T>>, rfs: seq<seq<T>>, tvs: seq<V>, i: nat, cfg: Config)
  {
    ClosedOk(st.batches, cfg) && i <= |ins| && i <= |rfs| && i <= |tvs|
    && (i == 0 ==> st == Loader([], [], [], [], 0, 0, 0, 0, 0))
    && (i > 0 ==> cfg.maxpart > 0 && OpenOk(st.batches, Open(st), st.nd, st.maxlen, st.bsz, ins, rfs, tvs, i, cfg))
  }

  /** The loader's state when it is about to place triple i: as after i
      triples, except that the first triple has already fixed the budget. */
  ghost predicate Ready<T, V>(st: Loader<T, V>, ins: seq<seq<T>>, rfs: seq<seq<T>>, tvs: seq<V>, i: nat, cfg: Config)
  {
    ClosedOk(st.batches, cfg) && i < |ins| && i < |rfs| && i < |tvs| && cfg.maxpart > 0
    && (i == 0 ==>
          st.batches == [] && st.rsi == [] && st.rsr == [] && st.rst == [] && st.nd == 0
          && st.mlenI == 0 && st.mlenR == 0 && st.maxlen > 0
          && st.maxlen == MaxLen(|ins[0]| + |rfs[0]|, cfg) && st.bsz == Bsize(st.maxlen, cfg))
    && (i > 0 ==> OpenOk(st.batches, Open(st), st.nd, st.maxlen, st.bsz, ins, rfs, tvs, i, cfg))
  }

  /** Growing the open batch keeps it after the last closed batch. */
  lemma ClosesAppend<T, V>(last: Batch<T, V>, b: Batch<T, V>, row: seq<T>, rd: seq<T>, tv: V, m1: nat, m2: nat, cfg: Config)
    requires Closes(last, b, cfg) && b.src != [] && |b.src| == |b.ref|
    ensures Closes(last, Batch(b.src + [row], b.ref + [rd], b.tgt + [tv], m1, m2), cfg)
  {
    var b' := Batch(b.src + [row], b.ref + [rd], b.tgt + [tv], m1, m2);
    assert b'.src[0] == b.src[0] && b'.ref[0] == b.ref[0];
  }

  /** The triple joins an open batch that already holds triples. */
  lemma OpenJoin<T, V>(bs: seq<Batch<T, V>>, b: Batch<T, V>, nd: nat, maxlen: nat, bsz: int,
                       ins: seq<seq<T>>, rfs: seq<seq<T>>, tvs: seq<V>, i: nat, cfg: Config, m1: nat, m2: nat)
    requires OpenOk(bs, b, nd, maxlen, bsz, ins, rfs, tvs, i, cfg)
    requires i < |ins| && i < |rfs| && i < |tvs|
    requires Admits(nd, |ins[i]| + |rfs[i]|, maxlen, bsz, cfg)
    requires m1 == (if |ins[i]| > b.mlenI then |ins[i]| else b.mlenI)
    requires m2 == (if |rfs[i]| > b.mlenR then |rfs[i]| else b.mlenR)
    ensures OpenOk(bs, Batch(b.src + [ins[i]], b.ref + [rfs[i]], b.tgt + [tvs[i]], m1, m2),
                   nd + 1, maxlen, bsz, ins, rfs, tvs, i + 1, cfg)
  {
    FitsJoin(b, ins[i], rfs[i], tvs[i], m1, m2, cfg);
    ConsumedJoin(bs, b, ins, rfs, tvs, i, m1, m2);
    if |bs| > 0 {
      ClosesAppend(bs[|bs| - 1], b, ins[i], rfs[i], tvs[i], m1, m2, cfg);
    }
  }

  /** The first triple opens the first batch. */
  lemma OpenFirst<T, V>(ins: seq<seq<T>>, rfs: seq<seq<T>>, tvs: seq<V>, maxlen: nat, bsz: int, cfg: Config)
    requires 0 < |ins| && 0 < |rfs| && 0 < |tvs| && cfg.maxpart > 0
    requires maxlen > 0 && maxlen == MaxLen(|ins[0]| + |rfs[0]|, cfg) && bsz == Bsize(maxlen, cfg)
    ensures OpenOk([], Batch([ins[0]], [rfs[0]], [tvs[0]], |ins[0]|, |rfs[0]|), 1, maxlen, bsz, ins, rfs, tvs, 1, cfg)
  {
    FitsOpen(ins[0], rfs[0], tvs[0], |ins[0]|, |rfs[0]|, cfg);
    var e: Batch<T, V> := Batch([], [], [], 0, 0);
    RowsAppend([], e);
    assert Holds([] + [e], ins, rfs, tvs, 0);
    ConsumedJoin([], e, ins, rfs, tvs, 0, |ins[0]|, |rfs[0]|);
    assert e.src + [ins[0]] == [ins[0]] && e.ref + [rfs[0]] == [rfs[0]] && e.tgt + [tvs[0]] == [tvs[0]];
  }

  /** The state after a joining step is the loader's state after i + 1 triples. */
  lemma JoinInv<T, V>(st: Loader<T, V>, ins: seq<seq<T>>, rfs: seq<seq<T>>, tvs: seq<V>, i: nat, cfg: Config, st2: Loader<T, V>)
    requires Ready(st, ins, rfs, tvs, i, cfg)
    requires Admits(st.nd, |ins[i]| + |rfs[i]|, st.maxlen, st.bsz, cfg)
    requires st2 == st.(rsi := st.rsi + [ins[i]], rsr := st.rsr + [rfs[i]], rst := st.rst + [tvs[i]], nd := st.nd + 1,
                        mlenI := if |ins[i]| > st.mlenI then |ins[i]| else st.mlenI,
                        mlenR := if |rfs[i]| > st.mlenR then |rfs[i]| else st.mlenR)
    ensures Inv(st2, ins, rfs, tvs, i + 1, cfg)
  {
    if i == 0 {
      OpenFirst(ins, rfs, tvs, st.maxlen, st.bsz, cfg);
      assert Open(st2) == Batch([ins[0]], [rfs[0]], [tvs[0]], |ins[0]|, |rfs[0]|);
    } else {
      OpenJoin(st.batches, Open(st), st.nd, st.maxlen, st.bsz, ins, rfs, tvs, i, cfg, st2.mlenI, st2.mlenR);
    }
  }

  /** Closing the open batch yields a batch that keeps ClosedOk. */
  lemma CloseYield<T, V>(st: Loader<T, V>, ins: seq<seq<T>>, rfs: seq<seq<T>>, tvs: seq<V>, i: nat, cfg: Config,
                         bs2: seq<Batch<T, V>>)
    requires Ready(st, ins, rfs, tvs, i, cfg)
    requires !Admits(st.nd, |ins[i]| + |rfs[i]|, st.maxlen, st.bsz, cfg)
    requires bs2 == st.batches + [Open(st)]
    ensures ClosedOk(bs2, cfg)
  {
    if i == 0 {
      assert Fits(Open(st), cfg);
    }
    ClosedAppend(st.batches, Open(st), cfg);
  }

  /** The closing triple's rows follow the yielded batch. */
  lemma CloseConsumed<T, V>(st: Loader<T, V>, ins: seq<seq<T>>, rfs: seq<seq<T>>, tvs: seq<V>, i: nat, cfg: Config)
    requires Ready(st, ins, rfs, tvs, i, cfg)
    ensures Consumed(st.batches + [Open(st)], Batch([ins[i]], [rfs[i]], [tvs[i]], |ins[i]|, |rfs[i]|), ins, rfs, tvs, i + 1)
  {
    if i == 0 {
      RowsAppend(st.batches, Open(st));
      assert Holds(st.batches + [Open(st)], ins, rfs, tvs, i);
    }
    ConsumedClose(st.batches, Open(st), ins, rfs, tvs, i, |ins[i]|, |rfs[i]|);
  }

  /** The closing triple could not have joined the batch it closes. */
  lemma CloseCloses<T, V>(open: Batch<T, V>, nd: nat, maxlen: nat, bsz: int, row: seq<T>, rd: seq<T>, tv: V,
                          m1: nat, m2: nat, cfg: Config)
    requires Fits(open, cfg) && open.src != [] && nd == |open.src|
    requires maxlen == Budget(open, cfg) && bsz == Bsize(maxlen, cfg)
    requires !Admits(nd, |row| + |rd|, maxlen, bsz, cfg)
    ensures Closes(open, Batch([row], [rd], [tv], m1, m2), cfg)
  {
    var next := Batch([row], [rd], [tv], m1, m2);
    assert next.src[0] == row && next.ref[0] == rd;
  }

  /** The triple closes the open batch and opens the next one. */
  lemma CloseStep<T, V>(st: Loader<T, V>, ins: seq<seq<T>>, rfs: seq<seq<T>>, tvs: seq<V>, i: nat, cfg: Config,
                        bs2: seq<Batch<T, V>>, lid: nat, lrd: nat, maxlen2: nat, bsz2: int)
    requires Ready(st, ins, rfs, tvs, i, cfg)
    requires !Admits(st.nd, |ins[i]| + |rfs[i]|, st.maxlen, st.bsz, cfg)
    requires lid == |ins[i]| && lrd == |rfs[i]| && lid + lrd > 0
    requires bs2 == st.batches + [Open(st)]
    requires maxlen2 == MaxLen(lid + lrd, cfg) && bsz2 == Bsize(maxlen2, cfg)
    ensures OpenOk(bs2, Batch([ins[i]], [rfs[i]], [tvs[i]], lid, lrd), 1, maxlen2, bsz2, ins, rfs, tvs, i + 1, cfg)
  {
    FitsOpen(ins[i], rfs[i], tvs[i], lid, lrd, cfg);
    if i > 0 {
      CloseCloses(Open(st), st.nd, st.maxlen, st.bsz, ins[i], rfs[i], tvs[i], lid, lrd, cfg);
      assert bs2[|bs2| - 1] == Open(st);
    }
    CloseConsumed(st, ins, rfs, tvs, i, cfg);
  }

  /** The state after a closing step is the loader's state after i + 1 triples. */
  lemma CloseInv<T, V>(st: Loader<T, V>, ins: seq<seq<T>>, rfs: seq<seq<T>>, tvs: seq<V>, i: nat, cfg: Config,
                       lid: nat, lrd: nat, maxlen2: nat, bsz2: int)
    requires Ready(st, ins, rfs, tvs, i, cfg)
    requires !Admits(st.nd, |ins[i]| + |rfs[i]|, st.maxlen, st.bsz, cfg)
    requires lid == |ins[i]| && lrd == |rfs[i]| && lid + lrd > 0
    requires maxlen2 == MaxLen(lid + lrd, cfg) && bsz2 == Bsize(maxlen2, cfg)
    ensures Inv(Loader(st.batches + [Open(st)], [ins[i]], [rfs[i]], [tvs[i]], 1, maxlen2, bsz2, lid, lrd), ins, rfs, tvs, i + 1, cfg)
  {
    CloseYield(st, ins, rfs, tvs, i, cfg, st.batches + [Open(st)]);
    CloseStep(st, ins, rfs, tvs, i, cfg, st.batches + [Open(st)], lid, lrd, maxlen2, bsz2);
  }

  /** The triple joins the open batch: its rows and value are appended and
      the maxima raised. */
  method JoinTriple<T, V>(st: Loader<T, V>, ins: seq<seq<T>>, rfs: seq<seq<T>>, tvs: seq<V>, i: nat, cfg: Config)
    returns (st': Loader<T, V>)
    requires Ready(st, ins, rfs, tvs, i, cfg)
    requires Admits(st.nd, |ins[i]| + |rfs[i]|, st.maxlen, st.bsz, cfg)
    ensures Inv(st', ins, rfs, tvs, i + 1, cfg)
  {
    var iD, rd := ins[i], rfs[i];
    var lid, lrd := |iD|, |rd|;
    var mlenI, mlenR := st.mlenI, st.mlenR;
    if lid > mlenI {
      mlenI := lid;
    }
    if lrd > mlenR {
      mlenR := lrd;
    }
    st' := st.(rsi := st.rsi + [iD], rsr := st.rsr + [rd], rst := st.rst + [tvs[i]], nd := st.nd + 1,
               mlenI := mlenI, mlenR := mlenR);
    JoinInv(st, ins, rfs, tvs, i, cfg, st');
  }

  /** The locals reset to a batch opened by triple i, the open batch having
      been yielded: its rows, maxima, budget and size. */
  method OpenNext<T, V>(st: Loader<T, V>, ins: seq<seq<T>>, rfs: seq<seq<T>>, tvs: seq<V>, i: nat, cfg: Config)
    returns (st': Loader<T, V>)
    requires Ready(st, ins, rfs, tvs, i, cfg)
    requires !Admits(st.nd, |ins[i]| + |rfs[i]|, st.maxlen, st.bsz, cfg)
    requires |ins[i]| + |rfs[i]| > 0
    ensures Inv(st', ins, rfs, tvs, i + 1, cfg)
  {
    var iD, rd := ins[i], rfs[i];
    var lid, lrd := |iD|, |rd|;
    var maxlen := MaxLen(lid + lrd, cfg);
    var bsz := Bsize(maxlen, cfg);
    st' := Loader(st.batches + [Open(st)], [iD], [rd], [tvs[i]], 1, maxlen, bsz, lid, lrd);
    CloseInv(st, ins, rfs, tvs, i, cfg, lid, lrd, maxlen, bsz);
  }

  /** The triple closes the open batch, which is yielded, and opens the next
      one; false where the new budget makes get_bsize divide by zero. */
  method CloseTriple<T, V>(st: Loader<T, V>, ins: seq<seq<T>>, rfs: seq<seq<T>>, tvs: seq<V>, i: nat, cfg: Config)
    returns (st': Loader<T, V>, ok: bool)
    requires Ready(st, ins, rfs, tvs, i, cfg)
    requires !Admits(st.nd, |ins[i]| + |rfs[i]|, st.maxlen, st.bsz, cfg)
    ensures ClosedOk(st'.batches, cfg)
    ensures ok <==> |ins[i]| + |rfs[i]| > 0
    ensures ok ==> Inv(st', ins, rfs, tvs, i + 1, cfg)
  {
    var iD, rd := ins[i], rfs[i];
    var lid, lrd := |iD|, |rd|;
    var lgth := lid + lrd;
    var batches := st.batches + [Open(st)];
    if lgth == 0 {
      CloseYield(st, ins, rfs, tvs, i, cfg, batches);
      return Loader(batches, [iD], [rd], [tvs[i]], 1, st.maxlen, st.bsz, lid, lrd), false;
    }
    st' := OpenNext(st, ins, rfs, tvs, i, cfg);
    ok := true;
  }

  /** One pass of the loader's loop: triple i is placed, or the source
      raises (ok false) on a batch that cannot get a budget. */
  method PlaceTriple<T, V>(st: Loader<T, V>, ins: seq<seq<T>>, rfs: seq<seq<T>>, tvs: seq<V>, i: nat, cfg: Config)
    returns (st': Loader<T, V>, ok: bool)
    requires i < |ins| && i < |rfs| && i < |tvs| && Inv(st, ins, rfs, tvs, i, cfg)
    ensures ClosedOk(st'.batches, cfg)
    ensures ok ==> Inv(st', ins, rfs, tvs, i + 1, cfg)
    ensures !ok ==> cfg.maxpart == 0 || |ins[i]| + |rfs[i]| == 0
    ensures ok <==> (st.maxlen > 0 && Admits(st.nd, |ins[i]| + |rfs[i]|, st.maxlen, st.bsz, cfg)) ||
                    (|ins[i]| + |rfs[i]| > 0 && (st.maxlen > 0 || cfg.maxpart > 0))
  {
    st' := st;
    var lgth := |ins[i]| + |rfs[i]|;
    if st'.maxlen == 0 {
      if cfg.maxpart == 0 || lgth == 0 {
        return st', false;
      }
      var maxlen := MaxLen(lgth, cfg);
      st' := st'.(maxlen := maxlen, bsz := Bsize(maxlen, cfg));
    }
    assert Ready(st', ins, rfs, tvs, i, cfg);
    if st'.nd < cfg.minbsize || (lgth <= st'.maxlen && st'.nd < st'.bsz) {
      st' := JoinTriple(st', ins, rfs, tvs, i, cfg);
      ok := true;
    } else {
      st', ok := CloseTriple(st', ins, rfs, tvs, i, cfg);
    }
  }

  /** At the end the open batch, if any, is the last one. */
  lemma Finish<T, V>(st: Loader<T, V>, ins: seq<seq<T>>, rfs: seq<seq<T>>, tvs: seq<V>, n: nat, cfg: Config)
    requires Inv(st, ins, rfs, tvs, n, cfg)
    ensures st.rsi != [] <==> n > 0
    ensures n == 0 ==> ClosedOk(st.batches, cfg) && Holds(st.batches, ins, rfs, tvs, n)
    ensures n > 0 ==> ClosedOk(st.batches + [Open(st)], cfg) && Holds(st.batches + [Open(st)], ins, rfs, tvs, n)
  {
    if n > 0 {
      ClosedAppend(st.batches, Open(st), cfg);
    }
  }

  /** batch_loader over the three streams (zip stops at the shortest). ok is
      false where the source raises: a batch opened by a triple of total
      length 0 (or maxpart 0), whose budget makes get_bsize divide by zero;
      batches then holds what was yielded before. */
  method BatchLoader<T, V>(ins: seq<seq<T>>, rfs: seq<seq<T>>, tvs: seq<V>, cfg: Config)
    returns (batches: seq<Batch<T, V>>, ok: bool)
    ensures ClosedOk(batches, cfg)
    ensures var n := Min(Min(|ins|, |rfs|), |tvs|);
            ok ==> Holds(batches, ins, rfs, tvs, n) && (n > 0 ==> batches[|batches| - 1].src != [])
    ensures var n := Min(Min(|ins|, |rfs|), |tvs|);
            (n == 0 || cfg.maxpart > 0) && (forall j :: 0 <= j < n ==> |ins[j]| + |rfs[j]| > 0) ==> ok
    ensures var n := Min(Min(|ins|, |rfs|), |tvs|);
            !ok ==> cfg.maxpart == 0 || exists j :: 0 <= j < n && |ins[j]| + |rfs[j]| == 0
    ensures var n := Min(Min(|ins|, |rfs|), |tvs|);
            n > 0 && cfg.maxpart == 0 ==> !ok
  {
    var n := Min(Min(|ins|, |rfs|), |tvs|);
    var st: Loader<T, V> := Loader([], [], [], [], 0, 0, 0, 0, 0);
    var i := 0;
    while i < n
      invariant i <= n
      invariant Inv(st, ins, rfs, tvs, i, cfg)
      invariant i == 0 ==> st.maxlen == 0
      invariant i > 0 ==> cfg.maxpart > 0
    {
      st, ok := PlaceTriple(st, ins, rfs, tvs, i, cfg);
      if !ok {
        return st.batches, false;
      }
      i := i + 1;
    }
    Finish(st, ins, rfs, tvs, n, cfg);
    batches := st.batches;
    if st.rsi != [] {
      batches := batches + [Open(st)];
    }
    ok := true;
  }

  /** A yielded batch holds at most max(minbsize, its get_bsize size)
      triples, or just its opening triple. */
  lemma BatchSize<T, V>(b: Batch<T, V>, cfg: Config)
    requires Fits(b, cfg) && b.src != []
    ensures var ml := Budget(b, cfg);
            |b.src| <= 1 || |b.src| <= cfg.minbsize || |b.src| <= Bsize(ml, cfg)
  {
    var ml := Budget(b, cfg);
    var lens := seq(|b.src|, j requires 0 <= j < |b.src| => |b.src[j]| + |b.ref[j]|);
    AdmittedSize(|b.src|, lens, ml, Bsize(ml, cfg), cfg);
  }

  /* ---------- batch_mapper and batch_padder ---------- */

  /** A batch after batch_mapper (and batch_padder): id rows for the source
      and the reference, the values unchanged, and the lengths the rows are
      padded to. */
  datatype Mapped<V> = Mapped(src: seq<seq<int>>, ref: seq<seq<int>>, tgt: seq<V>, mlenI: nat, mlenR: nat)

  /** batch_mapper on one yielded batch: source and reference rows mapped
      with the same vocabulary vocabi, the maxima raised by the two tokens
      map_batch adds. None where map_batch raises on an empty batch or row. */
  function BatchMapper<V>(b: Batch<string, V>, vocabi: map<string, int>, useUnk: bool): (r: Option<Mapped<V>>)
    ensures r.Some? <==> FmtBase.MapRows(b.src, vocabi, useUnk).Some? && FmtBase.MapRows(b.ref, vocabi, useUnk).Some?
    ensures r.Some? ==> r.value.tgt == b.tgt && r.value.mlenI == b.mlenI + 2 && r.value.mlenR == b.mlenR + 2
    ensures r.Some? ==> |r.value.src| == |b.src| && |r.value.ref| == |b.ref|
    ensures r.Some? ==> FmtBase.MapRows(b.src, vocabi, useUnk) == Some(r.value.src)
                        && FmtBase.MapRows(b.ref, vocabi, useUnk) == Some(r.value.ref)
  {
    var rsi := FmtBase.MapRows(b.src, vocabi, useUnk);
    var rsr := FmtBase.MapRows(b.ref, vocabi, useUnk);
    if rsi.Some? && rsr.Some? then Some(Mapped(rsi.value, rsr.value, b.tgt, b.mlenI + 2, b.mlenR + 2)) else None
  }

  /** batch_padder on one yielded batch: the mapped rows padded to the
      raised maxima. */
  function BatchPadder<V>(b: Batch<string, V>, vocabi: map<string, int>, useUnk: bool): (r: Option<Mapped<V>>)
    ensures r.Some? <==> BatchMapper(b, vocabi, useUnk).Some?
    ensures r.Some? ==> var m := BatchMapper(b, vocabi, useUnk).value;
                        r.value.src == FmtBase.PadRows(m.src, m.mlenI) && r.value.ref == FmtBase.PadRows(m.ref, m.mlenR)
  {
    var r := BatchMapper(b, vocabi, useUnk);
    if r.None? then None
    else Some(Mapped(FmtBase.PadRows(r.value.src, r.value.mlenI), FmtBase.PadRows(r.value.ref, r.value.mlenR),
                     r.value.tgt, r.value.mlenI, r.value.mlenR))
  }

  /** For a batch the loader yields, every mapped row is [sos] ++ ids ++
      [eos] of its row and fits the raised maximum; with unknown words kept
      (use_unk) the longest row reaches it exactly. */
  lemma MapperFits<V>(b: Batch<string, V>, vocabi: map<string, int>, useUnk: bool, m: Mapped<V>)
    requires b.mlenI == MaxRowLen(b.src) && b.mlenR == MaxRowLen(b.ref)
    requires BatchMapper(b, vocabi, useUnk) == Some(m)
    ensures forall j :: 0 <= j < |b.src| ==> m.src[j] == FmtBase.MapSentence(b.src[j], vocabi, useUnk) && |m.src[j]| <= m.mlenI
    ensures forall j :: 0 <= j < |b.ref| ==> m.ref[j] == FmtBase.MapSentence(b.ref[j], vocabi, useUnk) && |m.ref[j]| <= m.mlenR
    ensures useUnk ==> (exists j :: 0 <= j < |m.src| && |m.src[j]| == m.mlenI)
                       && (exists j :: 0 <= j < |m.ref| && |m.ref[j]| == m.mlenR)
  {
    FmtBase.MapRowsBounds(b.src, vocabi, useUnk, b.mlenI, m.src);
    FmtBase.MapRowsBounds(b.ref, vocabi, useUnk, b.mlenR, m.ref);
    if useUnk {
      FmtBase.MapRowsReach(b.src, vocabi, useUnk, b.mlenI, m.src);
      FmtBase.MapRowsReach(b.ref, vocabi, useUnk, b.mlenR, m.ref);
    }
  }

  /** For a batch the loader yields, batch_padder pads the source rows to a
      rectangle: every row exactly mlen_i + 2 long, beginning with its mapped
      row; the values pass through. */
  lemma PadderSrcRect<V>(b: Batch<string, V>, vocabi: map<string, int>, useUnk: bool, m: Mapped<V>, p: Mapped<V>)
    requires b.mlenI == MaxRowLen(b.src) && b.mlenR == MaxRowLen(b.ref)
    requires BatchMapper(b, vocabi, useUnk) == Some(m)
    requires BatchPadder(b, vocabi, useUnk) == Some(p)
    ensures |p.src| == |b.src| && |p.ref| == |b.ref| && p.tgt == b.tgt
    ensures forall j :: 0 <= j < |p.src| ==> |p.src[j]| == m.mlenI && m.src[j] <= p.src[j]
  {
    FmtBase.PadMapped(b.src, vocabi, useUnk, b.mlenI, m.src, m.mlenI, p.src);
  }

  /** The same for the reference rows: every row exactly mlen_r + 2 long. */
  lemma PadderRefRect<V>(b: Batch<string, V>, vocabi: map<string, int>, useUnk: bool, m: Mapped<V>, p: Mapped<V>)
    requires b.mlenI == MaxRowLen(b.src) && b.mlenR == MaxRowLen(b.ref)
    requires BatchMapper(b, vocabi, useUnk) == Some(m)
    requires BatchPadder(b, vocabi, useUnk) == Some(p)
    ensures forall j :: 0 <= j < |p.ref| ==> |p.ref[j]| == m.mlenR && m.ref[j] <= p.ref[j]
  {
    FmtBase.PadMapped(b.ref, vocabi, useUnk, b.mlenR, m.ref, m.mlenR, p.ref);
  }

}
