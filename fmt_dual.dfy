// The multilingual batch loader: pairs of (task-tagged source, target) token
// lists are grouped into batches of one task each, the language task tag stripped from
// every source row; then mapped to ids and padded.

module FmtDual {
  import opened Wrappers
  import opened LoaderRules
  import FmtBase

  /** One yielded batch: source rows without their tag, target rows, the
      batch's task and the largest source and target lengths. */
  datatype Batch<T> = Batch(src: seq<seq<T>>, tgt: seq<seq<T>>, task: T, mlenI: nat, mlenT: nat)

  /** The budget of a non-empty batch, fixed by its opening pair. */
  function Budget<T>(b: Batch<T>, cfg: Config): nat
    requires cfg.maxpart > 0 && b.src != [] && b.tgt != []
  {
    MaxLen(|b.src[0]| + |b.tgt[0]|, cfg)
  }

  /** A batch obeys the loader's rule: aligned rows, the tracked maxima, and
      every pair after the opening one admitted under the opening pair's
      budget and size. */
  ghost predicate Fits<T>(b: Batch<T>, cfg: Config)
  {
    cfg.maxpart > 0
    && |b.src| == |b.tgt|
    && b.mlenI == MaxRowLen(b.src) && b.mlenT == MaxRowLen(b.tgt)
    && (b.src != [] ==>
          var ml := Budget(b, cfg);
          ml > 0
          && forall j :: 1 <= j < |b.src| ==> Admits(j, |b.src[j]| + |b.tgt[j]|, ml, Bsize(ml, cfg), cfg))
  }

  /** The batch after b had to be closed: its opening pair has another task,
      or would not have been admitted to b. */
  ghost predicate Closes<T>(b: Batch<T>, next: Batch<T>, cfg: Config)
  {
    Fits(b, cfg) && b.src != [] && next.src != [] && |next.tgt| == |next.src| ==>
      var ml := Budget(b, cfg);
      next.task != b.task || !Admits(|b.src|, |next.src[0]| + |next.tgt[0]|, ml, Bsize(ml, cfg), cfg)
  }

  /** The source rows of all batches, in order. */
  function SrcRows<T>(bs: seq<Batch<T>>): seq<seq<T>>
  {
    if bs == [] then [] else SrcRows(bs[..|bs| - 1]) + bs[|bs| - 1].src
  }

  /** The target rows of all batches, in order. */
  function TgtRows<T>(bs: seq<Batch<T>>): seq<seq<T>>
  {
    if bs == [] then [] else TgtRows(bs[..|bs| - 1]) + bs[|bs| - 1].tgt
  }

  /** The language task of every source row of every batch, in order. */
  function TaskRows<T>(bs: seq<Batch<T>>): seq<T>
  {
    if bs == [] then [] else TaskRows(bs[..|bs| - 1]) + seq(|bs[|bs| - 1].src|, _ => bs[|bs| - 1].task)
  }

  lemma RowsAppend<T>(bs: seq<Batch<T>>, b: Batch<T>)
    ensures SrcRows(bs + [b]) == SrcRows(bs) + b.src
    ensures TgtRows(bs + [b]) == TgtRows(bs) + b.tgt
    ensures TaskRows(bs + [b]) == TaskRows(bs) + seq(|b.src|, _ => b.task)
  {
    assert (bs + [b])[..|bs|] == bs;
  }

  /** The batches hold exactly the first n pairs, in order: row j is the
      j-th source without its tag, the j-th target, under the j-th tag. */
  ghost predicate Holds<T>(bs: seq<Batch<T>>, ins: seq<seq<T>>, tgs: seq<seq<T>>, n: nat)
  {
    n <= |ins| && n <= |tgs|
    && |SrcRows(bs)| == n && |TgtRows(bs)| == n && |TaskRows(bs)| == n
    && forall j :: 0 <= j < n ==>
         |ins[j]| > 0 && SrcRows(bs)[j] == ins[j][1..] && TgtRows(bs)[j] == tgs[j] && TaskRows(bs)[j] == ins[j][0]
  }

  /** What the loader has consumed of the first i pairs: the closed batches
      followed by the open one. */
  ghost predicate Consumed<T>(bs: seq<Batch<T>>, open: Batch<T>, ins: seq<seq<T>>, tgs: seq<seq<T>>, i: nat)
  {
    Holds(bs + [open], ins, tgs, i)
  }

  /** The properties of the batches closed so far that the loader keeps. */
  ghost predicate ClosedOk<T>(bs: seq<Batch<T>>, cfg: Config)
  {
    (forall k :: 0 <= k < |bs| ==> Fits(bs[k], cfg))
    && (forall k :: 0 < k < |bs| ==> bs[k].src != [])
    && (|bs| > 0 && bs[0].src == [] ==> cfg.minbsize <= 0 && cfg.bsize <= 0)
    && (forall k :: 0 <= k < |bs| - 1 ==> Closes(bs[k], bs[k + 1], cfg))
  }

  /** A batch opened by one pair of positive length fits. */
  lemma FitsOpen<T>(row: seq<T>, td: seq<T>, task: T, m1: nat, m2: nat, cfg: Config)
    requires cfg.maxpart > 0 && |row| + |td| > 0 && m1 == |row| && m2 == |td|
    ensures Fits(Batch([row], [td], task, m1, m2), cfg)
    ensures Budget(Batch([row], [td], task, m1, m2), cfg) == MaxLen(m1 + m2, cfg)
  {
    MaxRowLenSingle(row);
    MaxRowLenSingle(td);
  }

  /** Appending a pair leaves the opening pair, hence the budget, alone. */
  lemma BudgetAppend<T>(b: Batch<T>, row: seq<T>, td: seq<T>, m1: nat, m2: nat, cfg: Config)
    requires cfg.maxpart > 0 && b.src != [] && b.tgt != []
    ensures Budget(Batch(b.src + [row], b.tgt + [td], b.task, m1, m2), cfg) == Budget(b, cfg)
  {
    var b' := Batch(b.src + [row], b.tgt + [td], b.task, m1, m2);
    assert b'.src[0] == b.src[0] && b'.tgt[0] == b.tgt[0];
  }

  /** An admitted pair: every pair after the opening one stays admitted. */
  lemma AdmitsAppend<T>(b: Batch<T>, row: seq<T>, td: seq<T>, m1: nat, m2: nat, cfg: Config)
    requires Fits(b, cfg) && b.src != []
    requires Admits(|b.src|, |row| + |td|, Budget(b, cfg), Bsize(Budget(b, cfg), cfg), cfg)
    ensures var b' := Batch(b.src + [row], b.tgt + [td], b.task, m1, m2);
            var ml := Budget(b, cfg);
            forall j :: 1 <= j < |b'.src| ==> Admits(j, |b'.src[j]| + |b'.tgt[j]|, ml, Bsize(ml, cfg), cfg)
  {
    var b' := Batch(b.src + [row], b.tgt + [td], b.task, m1, m2);
    var ml := Budget(b, cfg);
    var bsz := Bsize(ml, cfg);
    forall j | 1 <= j < |b'.src|
      ensures Admits(j, |b'.src[j]| + |b'.tgt[j]|, ml, bsz, cfg)
    {
      if j < |b.src| {
        assert b'.src[j] == b.src[j] && b'.tgt[j] == b.tgt[j];
      }
    }
  }

  /** An admitted pair keeps the open batch fitting, under the same budget. */
  lemma FitsJoin<T>(b: Batch<T>, row: seq<T>, td: seq<T>, m1: nat, m2: nat, cfg: Config)
    requires Fits(b, cfg) && b.src != []
    requires Admits(|b.src|, |row| + |td|, Budget(b, cfg), Bsize(Budget(b, cfg), cfg), cfg)
    requires m1 == (if |row| > b.mlenI then |row| else b.mlenI)
    requires m2 == (if |td| > b.mlenT then |td| else b.mlenT)
    ensures Fits(Batch(b.src + [row], b.tgt + [td], b.task, m1, m2), cfg)
    ensures Budget(Batch(b.src + [row], b.tgt + [td], b.task, m1, m2), cfg) == Budget(b, cfg)
  {
    MaxRowLenAppend(b.src, row);
    MaxRowLenAppend(b.tgt, td);
    BudgetAppend(b, row, td, m1, m2, cfg);
    AdmitsAppend(b, row, td, m1, m2, cfg);
  }

  /** Appending the pair to the open batch consumes it. */
  lemma ConsumedJoin<T>(bs: seq<Batch<T>>, b: Batch<T>, ins: seq<seq<T>>, tgs: seq<seq<T>>, i: nat, m1: nat, m2: nat)
    requires Consumed(bs, b, ins, tgs, i)
    requires i < |ins| && i < |tgs| && |ins[i]| > 0 && ins[i][0] == b.task
    ensures Consumed(bs, Batch(b.src + [ins[i][1..]], b.tgt + [tgs[i]], b.task, m1, m2), ins, tgs, i + 1)
  {
    var b' := Batch(b.src + [ins[i][1..]], b.tgt + [tgs[i]], b.task, m1, m2);
    RowsAppend(bs, b);
    RowsAppend(bs, b');
    assert SrcRows(bs + [b']) == SrcRows(bs + [b]) + [ins[i][1..]];
    assert TgtRows(bs + [b']) == TgtRows(bs + [b]) + [tgs[i]];
    assert seq(|b'.src|, _ => b'.task) == seq(|b.src|, _ => b.task) + [b.task];
    assert TaskRows(bs + [b']) == TaskRows(bs + [b]) + [b.task];
  }

  /** Closing the open batch and opening one with the pair consumes it. */
  lemma ConsumedClose<T>(bs: seq<Batch<T>>, b: Batch<T>, ins: seq<seq<T>>, tgs: seq<seq<T>>, i: nat, m1: nat, m2: nat)
    requires Consumed(bs, b, ins, tgs, i)
    requires i < |ins| && i < |tgs| && |ins[i]| > 0
    ensures Consumed(bs + [b], Batch([ins[i][1..]], [tgs[i]], ins[i][0], m1, m2), ins, tgs, i + 1)
  {
    var b' := Batch([ins[i][1..]], [tgs[i]], ins[i][0], m1, m2);
    RowsAppend(bs + [b], b');
    assert seq(|b'.src|, _ => b'.task) == [ins[i][0]];
  }

  /** The closed batches with b appended still satisfy ClosedOk. */
  lemma ClosedAppend<T>(bs: seq<Batch<T>>, b: Batch<T>, cfg: Config)
    requires ClosedOk(bs, cfg) && Fits(b, cfg)
    requires |bs| > 0 ==> b.src != [] && Closes(bs[|bs| - 1], b, cfg)
    requires |bs| == 0 && b.src == [] ==> cfg.minbsize <= 0 && cfg.bsize <= 0
    ensures ClosedOk(bs + [b], cfg)
  {
    var bs' := bs + [b];
    forall k | 0 <= k < |bs'| - 1
      ensures Closes(bs'[k], bs'[k + 1], cfg)
    {
      if k < |bs| - 1 {
        assert bs'[k] == bs[k] && bs'[k + 1] == bs[k + 1];
      }
    }
  }

  /** The open batch as the loader keeps it: it fits, its budget and size
      are the ones held in maxlen and bsz, and it follows the closed batches. */
  ghost predicate OpenOk<T>(bs: seq<Batch<T>>, open: Batch<T>, nd: nat, maxlen: nat, bsz: int,
                            ins: seq<seq<T>>, tgs: seq<seq<T>>, i: nat, cfg: Config)
  {
    Fits(open, cfg) && open.src != [] && nd == |open.src|
    && maxlen == Budget(open, cfg) && bsz == Bsize(maxlen, cfg)
    && Consumed(bs, open, ins, tgs, i)
    && (|bs| > 0 ==> Closes(bs[|bs| - 1], open, cfg))
  }

  /** The loader's state after i pairs. */
  ghost predicate LoopInv<T>(bs: seq<Batch<T>>, rsi: seq<seq<T>>, rst: seq<seq<T>>, rstask: Option<T>,
                             nd: nat, maxlen: nat, bsz: int, mlenI: nat, mlenT: nat,
                             ins: seq<seq<T>>, tgs: seq<seq<T>>, i: nat, cfg: Config)
  {
    ClosedOk(bs, cfg) && i <= |ins| && i <= |tgs|
    && (i == 0 ==> bs == [] && rsi == [] && rst == [] && nd == 0 && maxlen == 0 && mlenI == 0 && mlenT == 0)
    && (i > 0 ==> cfg.maxpart > 0 && rstask.Some?
                  && OpenOk(bs, Batch(rsi, rst, rstask.value, mlenI, mlenT), nd, maxlen, bsz, ins, tgs, i, cfg))
  }

  /** The loader's state when it is about to place pair i: as after i pairs,
      except that the first pair has already fixed the budget and the language task. */
  ghost predicate Ready<T>(bs: seq<Batch<T>>, rsi: seq<seq<T>>, rst: seq<seq<T>>, rstask: Option<T>,
                           nd: nat, maxlen: nat, bsz: int, mlenI: nat, mlenT: nat,
                           ins: seq<seq<T>>, tgs: seq<seq<T>>, i: nat, cfg: Config)
  {
    ClosedOk(bs, cfg) && i < |ins| && i < |tgs| && |ins[i]| > 0 && cfg.maxpart > 0 && rstask.Some?
    && (i == 0 ==>
          bs == [] && rsi == [] && rst == [] && nd == 0 && mlenI == 0 && mlenT == 0
          && rstask.value == ins[0][0] && maxlen > 0
          && maxlen == MaxLen(|ins[0]| - 1 + |tgs[0]|, cfg) && bsz == Bsize(maxlen, cfg))
    && (i > 0 ==> OpenOk(bs, Batch(rsi, rst, rstask.value, mlenI, mlenT), nd, maxlen, bsz, ins, tgs, i, cfg))
  }

  /** Growing the open batch keeps it after the last closed batch. */
  lemma ClosesAppend<T>(last: Batch<T>, b: Batch<T>, row: seq<T>, td: seq<T>, m1: nat, m2: nat, cfg: Config)
    requires Closes(last, b, cfg) && b.src != [] && |b.src| == |b.tgt|
    ensures Closes(last, Batch(b.src + [row], b.tgt + [td], b.task, m1, m2), cfg)
  {
    var b' := Batch(b.src + [row], b.tgt + [td], b.task, m1, m2);
    assert b'.src[0] == b.src[0] && b'.tgt[0] == b.tgt[0];
  }

  /** The pair joins an open batch that already holds pairs. */
  lemma OpenJoin<T>(bs: seq<Batch<T>>, b: Batch<T>, nd: nat, maxlen: nat, bsz: int,
                    ins: seq<seq<T>>, tgs: seq<seq<T>>, i: nat, cfg: Config)
    requires OpenOk(bs, b, nd, maxlen, bsz, ins, tgs, i, cfg)
    requires i < |ins| && i < |tgs| && |ins[i]| > 0 && ins[i][0] == b.task
    requires Admits(nd, |ins[i]| - 1 + |tgs[i]|, maxlen, bsz, cfg)
    ensures var row := ins[i][1..];
            var td := tgs[i];
            OpenOk(bs, Batch(b.src + [row], b.tgt + [td], b.task,
                             if |row| > b.mlenI then |row| else b.mlenI,
                             if |td| > b.mlenT then |td| else b.mlenT),
                   nd + 1, maxlen, bsz, ins, tgs, i + 1, cfg)
  {
    var row, td := ins[i][1..], tgs[i];
    var m1 := if |row| > b.mlenI then |row| else b.mlenI;
    var m2 := if |td| > b.mlenT then |td| else b.mlenT;
    FitsJoin(b, row, td, m1, m2, cfg);
    ConsumedJoin(bs, b, ins, tgs, i, m1, m2);
    if |bs| > 0 {
      ClosesAppend(bs[|bs| - 1], b, row, td, m1, m2, cfg);
    }
  }

  /** The first pair opens the first batch. */
  lemma OpenFirst<T>(ins: seq<seq<T>>, tgs: seq<seq<T>>, maxlen: nat, bsz: int, cfg: Config)
    requires 0 < |ins| && 0 < |tgs| && |ins[0]| > 0 && cfg.maxpart > 0
    requires maxlen > 0 && maxlen == MaxLen(|ins[0]| - 1 + |tgs[0]|, cfg) && bsz == Bsize(maxlen, cfg)
    ensures OpenOk([], Batch([ins[0][1..]], [tgs[0]], ins[0][0], |ins[0]| - 1, |tgs[0]|), 1, maxlen, bsz, ins, tgs, 1, cfg)
  {
    var row, td, task := ins[0][1..], tgs[0], ins[0][0];
    FitsOpen(row, td, task, |ins[0]| - 1, |tgs[0]|, cfg);
    var e := Batch([], [], task, 0, 0);
    RowsAppend([], e);
    assert Holds([] + [e], ins, tgs, 0);
    ConsumedJoin([], e, ins, tgs, 0, |row|, |td|);
    assert e.src + [row] == [row] && e.tgt + [td] == [td];
  }

  /** The first pair joins the empty open batch. */
  lemma JoinFirst<T>(bs: seq<Batch<T>>, rsi: seq<seq<T>>, rst: seq<seq<T>>, rstask: Option<T>,
                     nd: nat, maxlen: nat, bsz: int, mlenI: nat, mlenT: nat,
                     ins: seq<seq<T>>, tgs: seq<seq<T>>, i: nat, cfg: Config,
                     rsi2: seq<seq<T>>, rst2: seq<seq<T>>, nd2: nat, mlenI2: nat, mlenT2: nat)
    requires Ready(bs, rsi, rst, rstask, nd, maxlen, bsz, mlenI, mlenT, ins, tgs, i, cfg) && i == 0
    requires rsi2 == rsi + [ins[i][1..]] && rst2 == rst + [tgs[i]] && nd2 == nd + 1
    requires mlenI2 == (if |ins[i]| - 1 > mlenI then |ins[i]| - 1 else mlenI)
    requires mlenT2 == (if |tgs[i]| > mlenT then |tgs[i]| else mlenT)
    ensures LoopInv(bs, rsi2, rst2, rstask, nd2, maxlen, bsz, mlenI2, mlenT2, ins, tgs, i + 1, cfg)
  {
    OpenFirst(ins, tgs, maxlen, bsz, cfg);
    assert rsi + [ins[i][1..]] == [ins[0][1..]] && rst + [tgs[i]] == [tgs[0]];
  }

  /** A later pair joins the open batch. */
  lemma JoinLater<T>(bs: seq<Batch<T>>, rsi: seq<seq<T>>, rst: seq<seq<T>>, rstask: Option<T>,
                     nd: nat, maxlen: nat, bsz: int, mlenI: nat, mlenT: nat,
                     ins: seq<seq<T>>, tgs: seq<seq<T>>, i: nat, cfg: Config,
                     rsi2: seq<seq<T>>, rst2: seq<seq<T>>, nd2: nat, mlenI2: nat, mlenT2: nat)
    requires Ready(bs, rsi, rst, rstask, nd, maxlen, bsz, mlenI, mlenT, ins, tgs, i, cfg) && i > 0
    requires rstask.value == ins[i][0]
    requires Admits(nd, |ins[i]| - 1 + |tgs[i]|, maxlen, bsz, cfg)
    requires rsi2 == rsi + [ins[i][1..]] && rst2 == rst + [tgs[i]] && nd2 == nd + 1
    requires mlenI2 == (if |ins[i]| - 1 > mlenI then |ins[i]| - 1 else mlenI)
    requires mlenT2 == (if |tgs[i]| > mlenT then |tgs[i]| else mlenT)
    ensures LoopInv(bs, rsi2, rst2, rstask, nd2, maxlen, bsz, mlenI2, mlenT2, ins, tgs, i + 1, cfg)
  {
    OpenJoin(bs, Batch(rsi, rst, rstask.value, mlenI, mlenT), nd, maxlen, bsz, ins, tgs, i, cfg);
  }

  /** The closing pair's rows follow the yielded batch. */
  lemma CloseConsumed<T>(bs: seq<Batch<T>>, rsi: seq<seq<T>>, rst: seq<seq<T>>, rstask: Option<T>,
                         nd: nat, maxlen: nat, bsz: int, mlenI: nat, mlenT: nat,
                         ins: seq<seq<T>>, tgs: seq<seq<T>>, i: nat, cfg: Config)
    requires Ready(bs, rsi, rst, rstask, nd, maxlen, bsz, mlenI, mlenT, ins, tgs, i, cfg)
    ensures Consumed(bs + [Batch(rsi, rst, rstask.value, mlenI, mlenT)],
                     Batch([ins[i][1..]], [tgs[i]], ins[i][0], |ins[i]| - 1, |tgs[i]|), ins, tgs, i + 1)
  {
    var open := Batch(rsi, rst, rstask.value, mlenI, mlenT);
    if i == 0 {
      RowsAppend(bs, open);
      assert Holds(bs + [open], ins, tgs, i);
    }
    ConsumedClose(bs, open, ins, tgs, i, |ins[i]| - 1, |tgs[i]|);
  }

  /** The closing pair could not have joined the batch it closes. */
  lemma CloseCloses<T>(open: Batch<T>, nd: nat, maxlen: nat, bsz: int, row: seq<T>, td: seq<T>, task: T, cfg: Config)
    requires Fits(open, cfg) && open.src != [] && nd == |open.src|
    requires maxlen == Budget(open, cfg) && bsz == Bsize(maxlen, cfg)
    requires !(open.task == task && Admits(nd, |row| + |td|, maxlen, bsz, cfg))
    ensures Closes(open, Batch([row], [td], task, |row|, |td|), cfg)
  {
    var next := Batch([row], [td], task, |row|, |td|);
    assert next.src[0] == row && next.tgt[0] == td;
  }

  /** The pair closes the open batch and opens the next one. */
  lemma CloseStep<T>(bs: seq<Batch<T>>, rsi: seq<seq<T>>, rst: seq<seq<T>>, rstask: Option<T>,
                     nd: nat, maxlen: nat, bsz: int, mlenI: nat, mlenT: nat,
                     ins: seq<seq<T>>, tgs: seq<seq<T>>, i: nat, cfg: Config, bs2: seq<Batch<T>>,
                     lid: nat, ltd: nat, maxlen2: nat, bsz2: int)
    requires Ready(bs, rsi, rst, rstask, nd, maxlen, bsz, mlenI, mlenT, ins, tgs, i, cfg)
    requires lid == |ins[i]| - 1 && ltd == |tgs[i]| && lid + ltd > 0
    requires !(rstask.value == ins[i][0] && Admits(nd, lid + ltd, maxlen, bsz, cfg))
    requires bs2 == bs + [Batch(rsi, rst, rstask.value, mlenI, mlenT)]
    requires maxlen2 == MaxLen(lid + ltd, cfg) && bsz2 == Bsize(maxlen2, cfg)
    ensures OpenOk(bs2, Batch([ins[i][1..]], [tgs[i]], ins[i][0], lid, ltd), 1, maxlen2, bsz2, ins, tgs, i + 1, cfg)
  {
    FitsOpen(ins[i][1..], tgs[i], ins[i][0], lid, ltd, cfg);
    if i > 0 {
      CloseCloses(Batch(rsi, rst, rstask.value, mlenI, mlenT), nd, maxlen, bsz, ins[i][1..], tgs[i], ins[i][0], cfg);
      assert bs2[|bs2| - 1] == Batch(rsi, rst, rstask.value, mlenI, mlenT);
    }
    CloseConsumed(bs, rsi, rst, rstask, nd, maxlen, bsz, mlenI, mlenT, ins, tgs, i, cfg);
  }

  /** The state after a closing step is the loader's state after i + 1 pairs. */
  lemma CloseInv<T>(st: Loader<T>, ins: seq<seq<T>>, tgs: seq<seq<T>>, i: nat, cfg: Config,
                    lid: nat, ltd: nat, maxlen2: nat, bsz2: int)
    requires ReadyAt(st, ins, tgs, i, cfg)
    requires !(st.rstask.value == ins[i][0] && Admits(st.nd, |ins[i]| - 1 + |tgs[i]|, st.maxlen, st.bsz, cfg))
    requires lid == |ins[i]| - 1 && ltd == |tgs[i]| && lid + ltd > 0
    requires maxlen2 == MaxLen(lid + ltd, cfg) && bsz2 == Bsize(maxlen2, cfg)
    ensures Inv(Loader(st.batches + [Batch(st.rsi, st.rst, st.rstask.value, st.mlenI, st.mlenT)], [ins[i][1..]], [tgs[i]],
                       Some(ins[i][0]), 1, maxlen2, bsz2, lid, ltd), ins, tgs, i + 1, cfg)
  {
    CloseYield(st.batches, st.rsi, st.rst, st.rstask, st.nd, st.maxlen, st.bsz, st.mlenI, st.mlenT, ins, tgs, i, cfg);
    CloseStep(st.batches, st.rsi, st.rst, st.rstask, st.nd, st.maxlen, st.bsz, st.mlenI, st.mlenT, ins, tgs, i, cfg,
              st.batches + [Batch(st.rsi, st.rst, st.rstask.value, st.mlenI, st.mlenT)], lid, ltd, maxlen2, bsz2);
  }

  /** Closing the open batch yields a batch that keeps ClosedOk. */
  lemma CloseYield<T>(bs: seq<Batch<T>>, rsi: seq<seq<T>>, rst: seq<seq<T>>, rstask: Option<T>,
                      nd: nat, maxlen: nat, bsz: int, mlenI: nat, mlenT: nat,
                      ins: seq<seq<T>>, tgs: seq<seq<T>>, i: nat, cfg: Config)
    requires Ready(bs, rsi, rst, rstask, nd, maxlen, bsz, mlenI, mlenT, ins, tgs, i, cfg)
    requires !(rstask.value == ins[i][0] && Admits(nd, |ins[i]| - 1 + |tgs[i]|, maxlen, bsz, cfg))
    ensures ClosedOk(bs + [Batch(rsi, rst, rstask.value, mlenI, mlenT)], cfg)
  {
    var open := Batch(rsi, rst, rstask.value, mlenI, mlenT);
    if i == 0 {
      assert Fits(open, cfg);
    }
    ClosedAppend(bs, open, cfg);
  }

  /** Only the first pair finds no budget yet. */
  lemma InvStart<T>(bs: seq<Batch<T>>, rsi: seq<seq<T>>, rst: seq<seq<T>>, rstask: Option<T>,
                    nd: nat, maxlen: nat, bsz: int, mlenI: nat, mlenT: nat,
                    ins: seq<seq<T>>, tgs: seq<seq<T>>, i: nat, cfg: Config)
    requires LoopInv(bs, rsi, rst, rstask, nd, maxlen, bsz, mlenI, mlenT, ins, tgs, i, cfg)
    requires i < |ins| && i < |tgs| && |ins[i]| > 0
    ensures maxlen == 0 <==> i == 0
    ensures i > 0 ==> Ready(bs, rsi, rst, rstask, nd, maxlen, bsz, mlenI, mlenT, ins, tgs, i, cfg)
  {
  }

  /** The first pair fixes the budget, the size and the language task. */
  lemma ReadyFirst<T>(bs: seq<Batch<T>>, rsi: seq<seq<T>>, rst: seq<seq<T>>, rstask: Option<T>,
                      nd: nat, maxlen: nat, bsz: int, mlenI: nat, mlenT: nat,
                      ins: seq<seq<T>>, tgs: seq<seq<T>>, i: nat, cfg: Config,
                      task0: Option<T>, maxlen0: nat, bsz0: int)
    requires LoopInv(bs, rsi, rst, task0, nd, maxlen0, bsz0, mlenI, mlenT, ins, tgs, i, cfg) && i == 0
    requires 0 < |ins| && 0 < |tgs| && |ins[0]| > 0 && cfg.maxpart > 0 && |ins[0]| - 1 + |tgs[0]| > 0
    requires maxlen == MaxLen(|ins[0]| - 1 + |tgs[0]|, cfg) && bsz == Bsize(maxlen, cfg) && rstask == Some(ins[0][0])
    ensures Ready(bs, rsi, rst, rstask, nd, maxlen, bsz, mlenI, mlenT, ins, tgs, i, cfg)
  {
  }

  /** At the end the open batch, if any, is the last one. */
  lemma Finish<T>(bs: seq<Batch<T>>, rsi: seq<seq<T>>, rst: seq<seq<T>>, rstask: Option<T>,
                  nd: nat, maxlen: nat, bsz: int, mlenI: nat, mlenT: nat,
                  ins: seq<seq<T>>, tgs: seq<seq<T>>, n: nat, cfg: Config)
    requires LoopInv(bs, rsi, rst, rstask, nd, maxlen, bsz, mlenI, mlenT, ins, tgs, n, cfg)
    ensures rsi != [] <==> n > 0
    ensures n == 0 ==> ClosedOk(bs, cfg) && Holds(bs, ins, tgs, n)
    ensures n > 0 ==> var open := Batch(rsi, rst, rstask.value, mlenI, mlenT);
                      ClosedOk(bs + [open], cfg) && Holds(bs + [open], ins, tgs, n)
  {
    if n > 0 {
      ClosedAppend(bs, Batch(rsi, rst, rstask.value, mlenI, mlenT), cfg);
    }
  }

  /** The generator's locals between two pairs: the batches yielded so far
      and the open batch's rows, task, size, budget, batch size and maxima. */
  datatype Loader<T> = Loader(batches: seq<Batch<T>>, rsi: seq<seq<T>>, rst: seq<seq<T>>, rstask: Option<T>,
                              nd: nat, maxlen: nat, bsz: int, mlenI: nat, mlenT: nat)

  ghost predicate Inv<T>(st: Loader<T>, ins: seq<seq<T>>, tgs: seq<seq<T>>, i: nat, cfg: Config)
  {
    LoopInv(st.batches, st.rsi, st.rst, st.rstask, st.nd, st.maxlen, st.bsz, st.mlenI, st.mlenT, ins, tgs, i, cfg)
  }

  ghost predicate ReadyAt<T>(st: Loader<T>, ins: seq<seq<T>>, tgs: seq<seq<T>>, i: nat, cfg: Config)
  {
    Ready(st.batches, st.rsi, st.rst, st.rstask, st.nd, st.maxlen, st.bsz, st.mlenI, st.mlenT, ins, tgs, i, cfg)
  }

  /** The pair joins the open batch: its tagless row and target are
      appended and the maxima raised. */
  method JoinPair<T>(st: Loader<T>, ins: seq<seq<T>>, tgs: seq<seq<T>>, i: nat, cfg: Config) returns (st': Loader<T>)
    requires ReadyAt(st, ins, tgs, i, cfg)
    requires st.rstask.value == ins[i][0]
    requires Admits(st.nd, |ins[i]| - 1 + |tgs[i]|, st.maxlen, st.bsz, cfg)
    ensures Inv(st', ins, tgs, i + 1, cfg)
  {
    var iD, td := ins[i], tgs[i];
    var lid, ltd := |iD| - 1, |td|;
    var mlenI, mlenT := st.mlenI, st.mlenT;
    if lid > mlenI {
      mlenI := lid;
    }
    if ltd > mlenT {
      mlenT := ltd;
    }
    st' := st.(rsi := st.rsi + [iD[1..]], rst := st.rst + [td], mlenI := mlenI, mlenT := mlenT, nd := st.nd + 1);
    if i == 0 {
      JoinFirst(st.batches, st.rsi, st.rst, st.rstask, st.nd, st.maxlen, st.bsz, st.mlenI, st.mlenT, ins, tgs, i, cfg,
                st'.rsi, st'.rst, st'.nd, st'.mlenI, st'.mlenT);
    } else {
      JoinLater(st.batches, st.rsi, st.rst, st.rstask, st.nd, st.maxlen, st.bsz, st.mlenI, st.mlenT, ins, tgs, i, cfg,
                st'.rsi, st'.rst, st'.nd, st'.mlenI, st'.mlenT);
    }
  }

  /** The locals reset to a batch opened by pair i, the open batch having
      been yielded: its tagless row, target, task, maxima, budget and size. */
  method OpenNext<T>(st: Loader<T>, ins: seq<seq<T>>, tgs: seq<seq<T>>, i: nat, cfg: Config) returns (st': Loader<T>)
    requires ReadyAt(st, ins, tgs, i, cfg)
    requires !(st.rstask.value == ins[i][0] && Admits(st.nd, |ins[i]| - 1 + |tgs[i]|, st.maxlen, st.bsz, cfg))
    requires |ins[i]| - 1 + |tgs[i]| > 0
    ensures Inv(st', ins, tgs, i + 1, cfg)
  {
    var iD, td := ins[i], tgs[i];
    var lid, ltd := |iD| - 1, |td|;
    var maxlen := MaxLen(lid + ltd, cfg);
    var bsz := Bsize(maxlen, cfg);
    st' := Loader(st.batches + [Batch(st.rsi, st.rst, st.rstask.value, st.mlenI, st.mlenT)], [iD[1..]], [td], Some(iD[0]),
                  1, maxlen, bsz, lid, ltd);
    CloseInv(st, ins, tgs, i, cfg, lid, ltd, maxlen, bsz);
  }

  /** The pair closes the open batch, which is yielded, and opens the next
      one; false where the new budget makes get_bsize divide by zero. */
  method ClosePair<T>(st: Loader<T>, ins: seq<seq<T>>, tgs: seq<seq<T>>, i: nat, cfg: Config)
    returns (st': Loader<T>, ok: bool)
    requires ReadyAt(st, ins, tgs, i, cfg)
    requires !(st.rstask.value == ins[i][0] && Admits(st.nd, |ins[i]| - 1 + |tgs[i]|, st.maxlen, st.bsz, cfg))
    ensures ClosedOk(st'.batches, cfg)
    ensures ok <==> |ins[i]| - 1 + |tgs[i]| > 0
    ensures ok ==> Inv(st', ins, tgs, i + 1, cfg)
  {
    var iD, td := ins[i], tgs[i];
    var lid, ltd := |iD| - 1, |td|;
    var lgth := lid + ltd;
    CloseYield(st.batches, st.rsi, st.rst, st.rstask, st.nd, st.maxlen, st.bsz, st.mlenI, st.mlenT, ins, tgs, i, cfg);
    var batches := st.batches + [Batch(st.rsi, st.rst, st.rstask.value, st.mlenI, st.mlenT)];
    if lgth == 0 {
      return Loader(batches, [iD[1..]], [td], Some(iD[0]), 1, st.maxlen, st.bsz, lid, ltd), false;
    }
    st' := OpenNext(st, ins, tgs, i, cfg);
    ok := true;
  }

  /** Pair i, tagged, joins the batch already open: same task and admitted. */
  predicate Joins<T(==)>(st: Loader<T>, ins: seq<seq<T>>, tgs: seq<seq<T>>, i: nat, cfg: Config)
    requires i < |ins| && i < |tgs|
  {
    |ins[i]| > 0 && st.maxlen > 0 && st.rstask == Some(ins[i][0]) &&
    Admits(st.nd, |ins[i]| - 1 + |tgs[i]|, st.maxlen, st.bsz, cfg)
  }

  /** One pass of the loader's loop: pair i is placed, or the source raises
      (ok false) on a line without a tag or a batch that cannot get a budget. */
  method PlacePair<T(==)>(st: Loader<T>, ins: seq<seq<T>>, tgs: seq<seq<T>>, i: nat, cfg: Config)
    returns (st': Loader<T>, ok: bool)
    requires i < |ins| && i < |tgs| && Inv(st, ins, tgs, i, cfg)
    ensures ClosedOk(st'.batches, cfg)
    ensures ok ==> Inv(st', ins, tgs, i + 1, cfg)
    ensures !ok ==> cfg.maxpart == 0 || |ins[i]| == 0 || |ins[i]| - 1 + |tgs[i]| == 0
    ensures ok <==> |ins[i]| > 0 &&
                    (Joins(st, ins, tgs, i, cfg) || (|ins[i]| - 1 + |tgs[i]| > 0 && (st.maxlen > 0 || cfg.maxpart > 0)))
  {
    st' := st;
    var iD := ins[i];
    var td := tgs[i];
    if iD == [] {
      return st', false;
    }
    var lid := |iD| - 1;
    var ltd := |td|;
    var lgth := lid + ltd;
    var task := iD[0];
    InvStart(st.batches, st.rsi, st.rst, st.rstask, st.nd, st.maxlen, st.bsz, st.mlenI, st.mlenT, ins, tgs, i, cfg);
    if st'.maxlen == 0 {
      if cfg.maxpart == 0 || lgth == 0 {
        return st', false;
      }
      var maxlen := MaxLen(lgth, cfg);
      st' := st'.(maxlen := maxlen, bsz := Bsize(maxlen, cfg), rstask := Some(task));
      ReadyFirst(st'.batches, st'.rsi, st'.rst, st'.rstask, st'.nd, st'.maxlen, st'.bsz, st'.mlenI, st'.mlenT,
                 ins, tgs, i, cfg, st.rstask, st.maxlen, st.bsz);
    }
    assert ReadyAt(st', ins, tgs, i, cfg);
    if st'.rstask == Some(task) && (st'.nd < cfg.minbsize || (lgth <= st'.maxlen && st'.nd < st'.bsz)) {
      st' := JoinPair(st', ins, tgs, i, cfg);
      ok := true;
    } else {
      st', ok := ClosePair(st', ins, tgs, i, cfg);
    }
  }

  /** One turn of the loader's loop, as the loop needs it: a pair placed
      at the first line, or on a tagless line, means a positive maxpart or a
      tag respectively. */
  method LoadTurn<T(==)>(st: Loader<T>, ins: seq<seq<T>>, tgs: seq<seq<T>>, i: nat, cfg: Config)
    returns (st': Loader<T>, ok: bool)
    requires i < |ins| && i < |tgs| && Inv(st, ins, tgs, i, cfg) && (i == 0 ==> st.maxlen == 0)
    ensures ClosedOk(st'.batches, cfg)
    ensures ok ==> Inv(st', ins, tgs, i + 1, cfg) && |ins[i]| > 0 && (i == 0 ==> cfg.maxpart > 0)
    ensures !ok ==> cfg.maxpart == 0 || |ins[i]| == 0 || |ins[i]| - 1 + |tgs[i]| == 0
  {
    st', ok := PlacePair(st, ins, tgs, i, cfg);
  }

  /** batch_loader over the two streams (zip stops at the shorter). ok is
      false where the source raises: a source line without a task tag, or a
      batch opened by a pair of total length 0 (or maxpart 0), whose budget
      makes get_bsize divide by zero; batches then holds what was yielded
      before. */
  method BatchLoader<T(==)>(ins: seq<seq<T>>, tgs: seq<seq<T>>, cfg: Config)
    returns (batches: seq<Batch<T>>, ok: bool)
    ensures ClosedOk(batches, cfg)
    ensures var n := if |ins| < |tgs| then |ins| else |tgs|;
            ok ==> Holds(batches, ins, tgs, n) && (n > 0 ==> batches[|batches| - 1].src != [])
    ensures var n := if |ins| < |tgs| then |ins| else |tgs|;
            (n == 0 || cfg.maxpart > 0) && (forall j :: 0 <= j < n ==> |ins[j]| > 0 && |ins[j]| - 1 + |tgs[j]| > 0) ==> ok
    ensures var n := if |ins| < |tgs| then |ins| else |tgs|;
            !ok ==> cfg.maxpart == 0 || exists j :: 0 <= j < n && (|ins[j]| == 0 || |ins[j]| - 1 + |tgs[j]| == 0)
    ensures var n := if |ins| < |tgs| then |ins| else |tgs|;
            n > 0 && cfg.maxpart == 0 ==> !ok
    ensures var n := if |ins| < |tgs| then |ins| else |tgs|;
            (exists j :: 0 <= j < n && |ins[j]| == 0) ==> !ok
  {
    var n := if |ins| < |tgs| then |ins| else |tgs|;
    var st;
    st, ok := LoadPairs(ins, tgs, n, cfg);
    if !ok {
      if cfg.maxpart != 0 {
        ghost var j :| 0 <= j < n && (|ins[j]| == 0 || |ins[j]| - 1 + |tgs[j]| == 0);
        assert !(|ins[j]| > 0 && |ins[j]| - 1 + |tgs[j]| > 0);
      }
      return st.batches, false;
    }
    Finish(st.batches, st.rsi, st.rst, st.rstask, st.nd, st.maxlen, st.bsz, st.mlenI, st.mlenT, ins, tgs, n, cfg);
    batches := st.batches;
    if st.rsi != [] {
      batches := batches + [Batch(st.rsi, st.rst, st.rstask.value, st.mlenI, st.mlenT)];
    }
  }

  /** The loader's loop over the first n pairs: it runs to the end, or stops
      at the first pair where the source raises. */
  method LoadPairs<T(==)>(ins: seq<seq<T>>, tgs: seq<seq<T>>, n: nat, cfg: Config)
    returns (st: Loader<T>, ok: bool)
    requires n <= |ins| && n <= |tgs|
    ensures ClosedOk(st.batches, cfg)
    ensures ok ==> Inv(st, ins, tgs, n, cfg) && (n > 0 ==> cfg.maxpart > 0) && forall j :: 0 <= j < n ==> |ins[j]| > 0
    ensures !ok ==> n > 0 && (cfg.maxpart == 0 || exists j :: 0 <= j < n && (|ins[j]| == 0 || |ins[j]| - 1 + |tgs[j]| == 0))
  {
    st := Loader([], [], [], None, 0, 0, 0, 0, 0);
    ok := true;
    var i := 0;
    while i < n
      invariant i <= n
      invariant Inv(st, ins, tgs, i, cfg)
      invariant i == 0 ==> st.maxlen == 0
      invariant i > 0 ==> cfg.maxpart > 0
      invariant forall j :: 0 <= j < i ==> |ins[j]| > 0
    {
      st, ok := LoadTurn(st, ins, tgs, i, cfg);
      if !ok {
        return;
      }
      i := i + 1;
    }
  }

  /** A yielded batch holds at most max(minbsize, its get_bsize size) pairs,
      or just its opening pair. */
  lemma BatchSize<T>(b: Batch<T>, cfg: Config)
    requires Fits(b, cfg) && b.src != []
    ensures var ml := Budget(b, cfg);
            |b.src| <= 1 || |b.src| <= cfg.minbsize || |b.src| <= Bsize(ml, cfg)
  {
    var ml := Budget(b, cfg);
    var lens := seq(|b.src|, j requires 0 <= j < |b.src| => |b.src[j]| + |b.tgt[j]|);
    AdmittedSize(|b.src|, lens, ml, Bsize(ml, cfg), cfg);
  }

  /* ---------- batch_mapper and batch_padder ---------- */

  /** A batch after batch_mapper (and batch_padder): id rows, the language task's id,
      and the lengths the rows are padded to. */
  datatype Mapped = Mapped(src: seq<seq<int>>, tgt: seq<seq<int>>, task: int, mlenI: nat, mlenT: nat)

  /** batch_mapper on one yielded batch: source rows mapped with vocabi,
      target rows with vocabt, the language task looked up in vocabtask, and the
      maxima raised by the two tokens map_batch adds. None where the source
      raises: an empty batch or row (map_batch) or an unknown task. */
  function BatchMapper(b: Batch<string>, vocabi: map<string, int>, vocabt: map<string, int>,
                       vocabtask: map<string, int>, useUnk: bool): (r: Option<Mapped>)
    ensures r.Some? <==> FmtBase.MapRows(b.src, vocabi, useUnk).Some? && FmtBase.MapRows(b.tgt, vocabt, useUnk).Some?
                         && b.task in vocabtask
    ensures r.Some? ==> r.value.task == vocabtask[b.task] && r.value.mlenI == b.mlenI + 2 && r.value.mlenT == b.mlenT + 2
    ensures r.Some? ==> |r.value.src| == |b.src| && |r.value.tgt| == |b.tgt|
    ensures r.Some? ==> FmtBase.MapRows(b.src, vocabi, useUnk) == Some(r.value.src)
                        && FmtBase.MapRows(b.tgt, vocabt, useUnk) == Some(r.value.tgt)
  {
    var rsi := FmtBase.MapRows(b.src, vocabi, useUnk);
    var rst := FmtBase.MapRows(b.tgt, vocabt, useUnk);
    if rsi.Some? && rst.Some? && b.task in vocabtask then
      Some(Mapped(rsi.value, rst.value, vocabtask[b.task], b.mlenI + 2, b.mlenT + 2))
    else None
  }

  /** batch_padder on one yielded batch: the mapped rows padded to the raised
      maxima. */
  function BatchPadder(b: Batch<string>, vocabi: map<string, int>, vocabt: map<string, int>,
                       vocabtask: map<string, int>, useUnk: bool): (r: Option<Mapped>)
    ensures r.Some? <==> BatchMapper(b, vocabi, vocabt, vocabtask, useUnk).Some?
    ensures r.Some? ==> var m := BatchMapper(b, vocabi, vocabt, vocabtask, useUnk).value;
                        r.value.src == FmtBase.PadRows(m.src, m.mlenI) && r.value.tgt == FmtBase.PadRows(m.tgt, m.mlenT)
  {
    var r := BatchMapper(b, vocabi, vocabt, vocabtask, useUnk);
    if r.None? then None
    else Some(Mapped(FmtBase.PadRows(r.value.src, r.value.mlenI), FmtBase.PadRows(r.value.tgt, r.value.mlenT),
                     r.value.task, r.value.mlenI, r.value.mlenT))
  }

  /** For a batch the loader yields, every mapped row is [sos] ++ ids ++
      [eos] of its row and fits the raised maximum; with unknown words kept
      (use_unk) the longest row reaches it exactly. */
  lemma MapperFits(b: Batch<string>, vocabi: map<string, int>, vocabt: map<string, int>,
                   vocabtask: map<string, int>, useUnk: bool, m: Mapped)
    requires b.mlenI == MaxRowLen(b.src) && b.mlenT == MaxRowLen(b.tgt)
    requires BatchMapper(b, vocabi, vocabt, vocabtask, useUnk) == Some(m)
    ensures forall j :: 0 <= j < |b.src| ==> m.src[j] == FmtBase.MapSentence(b.src[j], vocabi, useUnk) && |m.src[j]| <= m.mlenI
    ensures forall j :: 0 <= j < |b.tgt| ==> m.tgt[j] == FmtBase.MapSentence(b.tgt[j], vocabt, useUnk) && |m.tgt[j]| <= m.mlenT
    ensures useUnk ==> (exists j :: 0 <= j < |m.src| && |m.src[j]| == m.mlenI)
                       && (exists j :: 0 <= j < |m.tgt| && |m.tgt[j]| == m.mlenT)
  {
    FmtBase.MapRowsBounds(b.src, vocabi, useUnk, b.mlenI, m.src);
    FmtBase.MapRowsBounds(b.tgt, vocabt, useUnk, b.mlenT, m.tgt);
    if useUnk {
      FmtBase.MapRowsReach(b.src, vocabi, useUnk, b.mlenI, m.src);
      FmtBase.MapRowsReach(b.tgt, vocabt, useUnk, b.mlenT, m.tgt);
    }
  }

  /** For a batch the loader yields, batch_padder pads the source rows to a
      rectangle: every row exactly mlen_i + 2 long, beginning with its mapped
      row; the language task passes through. */
  lemma PadderSrcRect(b: Batch<string>, vocabi: map<string, int>, vocabt: map<string, int>,
                      vocabtask: map<string, int>, useUnk: bool, m: Mapped, p: Mapped)
    requires b.mlenI == MaxRowLen(b.src) && b.mlenT == MaxRowLen(b.tgt)
    requires BatchMapper(b, vocabi, vocabt, vocabtask, useUnk) == Some(m)
    requires BatchPadder(b, vocabi, vocabt, vocabtask, useUnk) == Some(p)
    ensures |p.src| == |b.src| && |p.tgt| == |b.tgt| && p.task == m.task
    ensures forall j :: 0 <= j < |p.src| ==> |p.src[j]| == m.mlenI && m.src[j] <= p.src[j]
  {
    FmtBase.PadMapped(b.src, vocabi, useUnk, b.mlenI, m.src, m.mlenI, p.src);
  }

  /** The same for the target rows: every row exactly mlen_t + 2 long. */
  lemma PadderTgtRect(b: Batch<string>, vocabi: map<string, int>, vocabt: map<string, int>,
                      vocabtask: map<string, int>, useUnk: bool, m: Mapped, p: Mapped)
    requires b.mlenI == MaxRowLen(b.src) && b.mlenT == MaxRowLen(b.tgt)
    requires BatchMapper(b, vocabi, vocabt, vocabtask, useUnk) == Some(m)
    requires BatchPadder(b, vocabi, vocabt, vocabtask, useUnk) == Some(p)
    ensures forall j :: 0 <= j < |p.tgt| ==> |p.tgt[j]| == m.mlenT && m.tgt[j] <= p.tgt[j]
  {
    FmtBase.PadMapped(b.tgt, vocabt, useUnk, b.mlenT, m.tgt, m.mlenT, p.tgt);
  }

}
