/** The four decoder variants: which constants each one decodes with, how
    `decode` chooses between greedy and beam search, and how the TA decoder
    pairs its layers with the per-layer encoder slices. */
module Decoders {
  import opened Search
  import opened Greedy
  import opened Beam
  import BeamFacts

  /** The base and TA decoders: start token 1 (`get_sos_emb`), greedy stops on
      2, finished beams add 0 to every candidate, no `fill_pad`. */
  function BaseVariant(): Variant
  {
    Variant(1, 2, AddZero, false, 0)
  }

  /** The SC decoder: start token 1, greedy stops on 2, finished beams keep
      only slot 0, `fill_pad` with `pad_id` forwarded by the caller. */
  function ScVariant(fillPad: bool, padId: int): Variant
  {
    Variant(1, 2, SlotZero, fillPad, padId)
  }

  /** The BART decoder: decoding starts from the embedding of `eos_id` and
      greedy stops on `eos_id`; finished beams keep only slot 0. */
  function BartVariant(eosId: int, fillPad: bool, padId: int): Variant
  {
    Variant(eosId, eosId, SlotZero, fillPad, padId)
  }

  /** `decode`: beam search when `beam_size > 1`, greedy decoding otherwise;
      in both cases every example gets one row of between one and
      `max(1, max_len)` tokens. `return_all` is never set on this path. */
  method Decode<E>(net: Net<E>, v: Variant, pen: nat -> Pen, enc: seq<E>, beamSize: int, maxLen: int, penalised: bool, clip: bool)
    returns (rows: seq<seq<int>>)
    ensures |rows| == |enc|
    ensures forall b :: 0 <= b < |enc| ==> 1 <= |rows[b]| <= Cap(maxLen)
    ensures beamSize <= 1 ==> forall b :: 0 <= b < |enc| ==>
      rows[b] == Shown(v, Tokens(net, enc[b], v.sos, Length(net, v, enc, maxLen)))
    ensures beamSize > 1 ==>
      var c := Ctx(net, v, Options(beamSize, maxLen, penalised, false, clip), pen, enc);
      Best(rows) == Finish(c, Run(c, Start(c), 1).beams)
  {
    if beamSize > 1 {
      var c := Ctx(net, v, Options(beamSize, maxLen, penalised, false, clip), pen, enc);
      var out := BeamDecode(c);
      var s := Run(c, Start(c), 1);
      BeamFacts.BeamLength(c);
      if |enc| > 0 {
        BeamFacts.FinishBest(c, s.beams, s.len, 0);
      }
      assert out.Best?;
      forall b | 0 <= b < |enc| ensures |out.rows[b]| == s.len {
        BeamFacts.FinishBest(c, s.beams, s.len, b);
      }
      rows := out.rows;
    } else {
      rows := GreedyDecode(net, v, enc, maxLen);
      GreedyLength(net, v, enc, maxLen);
    }
  }

  /** `zip(xs, ys)`: the i-th pair holds the i-th element of each, for as
      many positions as the shorter sequence has. */
  function Pairs<A, B>(xs: seq<A>, ys: seq<B>): (z: seq<(A, B)>)
    ensures |z| == if |xs| <= |ys| then |xs| else |ys|
    ensures forall i :: 0 <= i < |z| ==> z[i].0 == xs[i] && z[i].1 == ys[i]
  {
    if xs == [] || ys == [] then [] else [(xs[0], ys[0])] + Pairs(xs[1..], ys[1..])
  }

  /** A TA decoder layer with its state abstracted: given its encoder slice
      and the tokens fed so far it maps the incoming activation to the
      outgoing one. */
  type Layer<!S, !H> = (S, seq<int>, H) -> H

  /** In TA beam search, layer i of beam row r reads slice i of the encoder
      output of example r div K, the same slice greedy decoding gives it for
      that example. */
  lemma TaBeamLayer<S, H>(c: Ctx<seq<S>>, layers: seq<Layer<S, H>>, r: nat, i: nat)
    requires c.o.k >= 1 && r < |c.enc| * c.o.k
    requires i < |layers| && i < |EncRow(c, r)|
    ensures r / c.o.k < |c.enc|
    ensures var z := Pairs(layers, EncRow(c, r));
      i < |z| && z[i] == (layers[i], c.enc[r / c.o.k][i])
    ensures Pairs(layers, EncRow(c, r)) == Pairs(layers, c.enc[r / c.o.k])
  {
    BeamFacts.EncRowExample(c, r);
  }
}
