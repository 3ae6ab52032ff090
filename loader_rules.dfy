// The batching rule shared by the streaming batch loaders: a batch's length
// budget and size are fixed by its opening pair, and a later pair joins while
// the batch is below the minimum size, or fits the budget and the size.

module LoaderRules {
  import FmtBase
  import UtilsBase

  /** The loader's numeric arguments: bsize, maxpad, maxpart, maxtoken, minbsize. */
  datatype Config = Config(bsize: int, maxpad: nat, maxpart: nat, maxtoken: nat, minbsize: int)

  function Min(a: nat, b: nat): nat
  {
    if a < b then a else b
  }

  /** The length budget a batch opened by a pair of total length lgth gets:
      lgth plus ceil(lgth / maxpart), but at most maxpad more. */
  function MaxLen(lgth: nat, cfg: Config): (ml: nat)
    requires cfg.maxpart > 0
    ensures lgth <= ml <= lgth + cfg.maxpad
    ensures ml > 0 <==> lgth > 0
  {
    lgth + Min(cfg.maxpad, UtilsBase.CeilDiv(lgth, cfg.maxpart))
  }

  /** The batch size get_bsize derives from the budget; at least 1 unless
      bsize itself is smaller. */
  function Bsize(ml: nat, cfg: Config): (bsz: int)
    requires ml > 0
    ensures bsz <= cfg.bsize
    ensures bsz >= 1 || bsz == cfg.bsize
  {
    FmtBase.GetBsize(ml, cfg.maxtoken, cfg.bsize)
  }

  /** Whether a pair of length lgth joins an open batch that already holds nd
      pairs, with budget ml and size bsz. */
  predicate Admits(nd: nat, lgth: nat, ml: nat, bsz: int, cfg: Config)
  {
    nd < cfg.minbsize || (lgth <= ml && nd < bsz)
  }

  /** The largest row length (0 for no rows), as the loaders track it. */
  function MaxRowLen<T>(rows: seq<seq<T>>): (m: nat)
    ensures forall j :: 0 <= j < |rows| ==> |rows[j]| <= m
    ensures rows != [] ==> exists j :: 0 <= j < |rows| && |rows[j]| == m
    ensures rows == [] ==> m == 0
  {
    if rows == [] then 0
    else
      var m := MaxRowLen(rows[..|rows| - 1]);
      var l := |rows[|rows| - 1]|;
      assert forall j :: 0 <= j < |rows| - 1 ==> rows[j] == rows[..|rows| - 1][j];
      if l > m then l else m
  }

  /** Appending a row updates the maximum as the loaders do: replaced when
      the new row is longer. */
  lemma MaxRowLenAppend<T>(rows: seq<seq<T>>, row: seq<T>)
    ensures MaxRowLen(rows + [row]) == if |row| > MaxRowLen(rows) then |row| else MaxRowLen(rows)
  {
    assert (rows + [row])[..|rows|] == rows;
  }

  /** A single row is its own maximum. */
  lemma MaxRowLenSingle<T>(row: seq<T>)
    ensures MaxRowLen([row]) == |row|
  {
    MaxRowLenAppend([], row);
    assert [] + [row] == [row];
  }

  /** Every pair after the opening one was admitted, so a batch holds at most
      max(minbsize, bsz) pairs, or its opening pair alone. */
  lemma {:induction false} AdmittedSize(m: nat, lens: seq<nat>, ml: nat, bsz: int, cfg: Config)
    requires |lens| == m
    requires forall j :: 1 <= j < m ==> Admits(j, lens[j], ml, bsz, cfg)
    ensures m <= 1 || m <= cfg.minbsize || m <= bsz
  {
    if m > 1 {
      assert Admits(m - 1, lens[m - 1], ml, bsz, cfg);
    }
  }
}
