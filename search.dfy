/** What greedy and beam decoding share in every decoder variant: the
    network seen as an oracle, the per-variant constants, and the
    "every flag is set" test of `all_done`. */
module Search {

  /** A length-penalty value: `((step + 6) ** lp) / 6 ** lp` for a positive
      `lp`, which is always positive; the rows start at 1.0. */
  type Pen = x: real | x > 0.0 witness 1.0

  /** The neural step, abstracted. `net(e, h, j)` is the j-th best
      (log-probability, token) pair of the next-token distribution for the
      encoder row `e` after the decoder has been fed the tokens `h` (start
      token first). Slot 0 is the argmax that greedy decoding takes; slots
      0..K-1 are what `topk(K)` returns in beam search. The decoder's layer
      states are a function of `e` and `h`, which is why gathering them with
      the same parent indices as the token rows keeps them consistent. */
  type Net<!E> = (E, seq<int>, nat) -> (real, int)

  /** How a finished beam's K candidates are scored. */
  datatype Masking =
    | AddZero   // base and TA decoders: all K candidates carry the parent score
    | SlotZero  // SC and BART decoders: slot 0 carries it, slots 1..K-1 get -inf

  /** The constants in which the decoder variants differ. */
  datatype Variant = Variant(
    sos: int,          // token whose embedding starts decoding
    eos: int,          // token that finishes a greedy row
    masking: Masking,  // scoring of finished beams
    fillPad: bool,     // replace tokens emitted after finishing by padId
    padId: int)

  /** The last step index of `for i in range(1, max_len)` plus one: rows end
      up with at most this many tokens, and never fewer than one. */
  function Cap(maxLen: int): (c: nat)
    ensures c >= 1 && (maxLen >= 1 ==> c == maxLen)
  {
    if maxLen < 1 then 1 else maxLen
  }

  /** `stat.int().sum()`: the number of set flags. */
  function CountTrue(flags: seq<bool>): (c: nat)
    ensures c <= |flags|
  {
    if flags == [] then 0 else CountTrue(flags[..|flags| - 1]) + (if flags[|flags| - 1] then 1 else 0)
  }

  /** `all_done(stat, n)` (the byte variant; the bool variant is `stat.all()`):
      the number of set flags equals `n`. */
  predicate AllDone(flags: seq<bool>, n: nat)
  {
    CountTrue(flags) == n
  }

  /** Both variants of `all_done` agree: the count reaches the length exactly
      when every flag is set. */
  lemma {:induction false} AllDoneEvery(flags: seq<bool>)
    ensures AllDone(flags, |flags|) <==> forall r :: 0 <= r < |flags| ==> flags[r]
  {
    if flags != [] {
      var init := flags[..|flags| - 1];
      AllDoneEvery(init);
      assert forall r :: 0 <= r < |init| ==> init[r] == flags[r];
    }
  }

  /** No set flag: the count is zero exactly when every flag is clear. */
  lemma {:induction false} CountTrueZero(flags: seq<bool>)
    ensures CountTrue(flags) == 0 <==> forall r :: 0 <= r < |flags| ==> !flags[r]
  {
    if flags != [] {
      var init := flags[..|flags| - 1];
      CountTrueZero(init);
      assert forall r :: 0 <= r < |init| ==> init[r] == flags[r];
    }
  }
}
