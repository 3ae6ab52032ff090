/** Greedy decoding (`greedy_decode` of the base, TA, SC and BART decoders):
    every example feeds back its own argmax token, keeps an OR-accumulated
    "finished" flag, and the whole batch stops once every flag is set. */
module Greedy {
  import opened Search

  /** The first `n` greedy tokens for encoder row `e`. */
  function Tokens<E>(net: Net<E>, e: E, sos: int, n: nat): (toks: seq<int>)
    ensures |toks| == n
  {
    if n == 0 then []
    else
      var prev := Tokens(net, e, sos, n - 1);
      prev + [net(e, [sos] + prev, 0).1]
  }

  /** Every greedy token is the argmax after feeding the start token and the
      tokens before it. */
  lemma {:induction false} TokensArgmax<E>(net: Net<E>, e: E, sos: int, n: nat, t: nat)
    requires t < n
    ensures Tokens(net, e, sos, n)[t] == net(e, [sos] + Tokens(net, e, sos, n)[..t], 0).1
  {
    TokensPrefix(net, e, sos, n, t + 1);
    TokensPrefix(net, e, sos, n, t);
    var toks := Tokens(net, e, sos, n);
    assert toks[..t + 1][..t] == toks[..t];
  }

  /** Decoding further never changes the tokens already produced. */
  lemma {:induction false} TokensPrefix<E>(net: Net<E>, e: E, sos: int, n: nat, m: nat)
    requires m <= n
    ensures Tokens(net, e, sos, n)[..m] == Tokens(net, e, sos, m)
    decreases n
  {
    if m < n {
      TokensPrefix(net, e, sos, n - 1, m);
      var prev := Tokens(net, e, sos, n - 1);
      assert Tokens(net, e, sos, n)[..m] == prev[..m];
    }
  }

  /** What greedy decoding writes into `trans`: the tokens themselves, except
      that with `fill_pad` a token produced after the example had already
      emitted `eos` is replaced by `pad_id`. */
  function Shown(v: Variant, toks: seq<int>): (r: seq<int>)
    ensures |r| == |toks|
  {
    seq(|toks|, t requires 0 <= t < |toks| => if v.fillPad && v.eos in toks[..t] then v.padId else toks[t])
  }

  /** Appending one token to the row appends one shown token. */
  lemma ShownSnoc(v: Variant, toks: seq<int>, x: int)
    ensures Shown(v, toks + [x]) == Shown(v, toks) + [if v.fillPad && v.eos in toks then v.padId else x]
  {
    var a, b := Shown(v, toks + [x]), Shown(v, toks) + [if v.fillPad && v.eos in toks then v.padId else x];
    forall t | 0 <= t < |a| ensures a[t] == b[t] {
      assert (toks + [x])[..t] == if t < |toks| then toks[..t] else toks;
    }
  }

  /** Up to and including the first `eos` the shown row is the token row;
      with `fill_pad` every later position holds `pad_id`, without it the
      shown row is the token row. */
  lemma ShownFirstEos(v: Variant, toks: seq<int>, q: nat)
    requires q < |toks| && toks[q] == v.eos && v.eos !in toks[..q]
    ensures Shown(v, toks)[..q + 1] == toks[..q + 1]
    ensures forall t :: q < t < |toks| ==> Shown(v, toks)[t] == if v.fillPad then v.padId else toks[t]
  {
    var r := Shown(v, toks);
    forall t | 0 <= t <= q ensures r[t] == toks[t] {
      assert toks[..t] == toks[..q][..t];
    }
    forall t | q < t < |toks| ensures r[t] == if v.fillPad then v.padId else toks[t] {
      assert toks[..t][q] == v.eos;
    }
  }

  /** Every example has emitted `eos` within its first `n` tokens. */
  ghost predicate AllFinished<E>(net: Net<E>, v: Variant, enc: seq<E>, n: nat)
  {
    forall b :: 0 <= b < |enc| ==> v.eos in Tokens(net, enc[b], v.sos, n)
  }

  /** Row length at which the loop stops when it is at `n` tokens: the flags
      are first checked after step 1 (two tokens), and the step budget ends
      the loop at `cap` tokens. */
  ghost function StopFrom<E>(net: Net<E>, v: Variant, enc: seq<E>, cap: nat, n: nat): nat
    requires 1 <= n <= cap
    decreases cap - n
  {
    if n == cap || (n >= 2 && AllFinished(net, v, enc, n)) then n
    else StopFrom(net, v, enc, cap, n + 1)
  }

  /** The number of tokens every row of the greedy result has. */
  ghost function Length<E>(net: Net<E>, v: Variant, enc: seq<E>, maxLen: int): nat
  {
    StopFrom(net, v, enc, Cap(maxLen), 1)
  }

  lemma {:induction false} StopFromBounds<E>(net: Net<E>, v: Variant, enc: seq<E>, cap: nat, n: nat)
    requires 1 <= n <= cap
    ensures n <= StopFrom(net, v, enc, cap, n) <= cap
    decreases cap - n
  {
    if !(n == cap || (n >= 2 && AllFinished(net, v, enc, n))) {
      StopFromBounds(net, v, enc, cap, n + 1);
    }
  }

  /** Stopping before the budget means every example had finished. */
  lemma {:induction false} StopFromFinished<E>(net: Net<E>, v: Variant, enc: seq<E>, cap: nat, n: nat)
    requires 1 <= n <= cap && StopFrom(net, v, enc, cap, n) < cap
    ensures AllFinished(net, v, enc, StopFrom(net, v, enc, cap, n))
    decreases cap - n
  {
    if !(n == cap || (n >= 2 && AllFinished(net, v, enc, n))) {
      StopFromFinished(net, v, enc, cap, n + 1);
    }
  }

  /** The loop does not run past the first length (from two tokens on) at
      which every example has finished. */
  lemma {:induction false} StopFromFirst<E>(net: Net<E>, v: Variant, enc: seq<E>, cap: nat, n: nat, m: nat)
    requires 1 <= n <= cap && 2 <= m && n <= m < StopFrom(net, v, enc, cap, n)
    ensures !AllFinished(net, v, enc, m)
    decreases cap - n
  {
    if n < m {
      StopFromFirst(net, v, enc, cap, n + 1, m);
    }
  }

  /** One turn of the loop at `n < cap` tokens, which has not stopped
      before: it stops at `n + 1` tokens exactly when every example has
      finished by then. */
  lemma StopFromTurn<E>(net: Net<E>, v: Variant, enc: seq<E>, cap: nat, n: nat)
    requires 1 <= n < cap && (n >= 2 ==> !AllFinished(net, v, enc, n))
    ensures StopFrom(net, v, enc, cap, n) ==
      if AllFinished(net, v, enc, n + 1) then n + 1 else StopFrom(net, v, enc, cap, n + 1)
  {
  }

  /** The greedy result length: between one token and `max(1, max_len)`; short
      of the budget only when every example has emitted `eos`, and not
      longer than the first such length from two tokens on. */
  lemma GreedyLength<E>(net: Net<E>, v: Variant, enc: seq<E>, maxLen: int)
    ensures 1 <= Length(net, v, enc, maxLen) <= Cap(maxLen)
    ensures Length(net, v, enc, maxLen) < Cap(maxLen) ==> AllFinished(net, v, enc, Length(net, v, enc, maxLen))
    ensures forall m :: 2 <= m < Length(net, v, enc, maxLen) ==> !AllFinished(net, v, enc, m)
  {
    var cap := Cap(maxLen);
    StopFromBounds(net, v, enc, cap, 1);
    if Length(net, v, enc, maxLen) < cap {
      StopFromFinished(net, v, enc, cap, 1);
    }
    forall m | 2 <= m < Length(net, v, enc, maxLen) ensures !AllFinished(net, v, enc, m) {
      StopFromFirst(net, v, enc, cap, 1, m);
    }
  }

  /** `greedy_decode`: the step loop. `fed` stands for the decoder's layer
      states, which are determined by the tokens fed so far. */
  method GreedyDecode<E>(net: Net<E>, v: Variant, enc: seq<E>, maxLen: int) returns (trans: seq<seq<int>>)
    ensures |trans| == |enc|
    ensures forall b :: 0 <= b < |enc| ==>
      trans[b] == Shown(v, Tokens(net, enc[b], v.sos, Length(net, v, enc, maxLen)))
  {
    var fed, done;
    trans, fed, done := GreedyFirst(net, v, enc);
    var i := 1;
    while i < maxLen
      invariant 1 <= i <= Cap(maxLen)
      invariant |fed| == |trans| == |done| == |enc|
      invariant forall b :: 0 <= b < |enc| ==> fed[b] == [v.sos] + Tokens(net, enc[b], v.sos, i)
      invariant forall b :: 0 <= b < |enc| ==> trans[b] == Shown(v, Tokens(net, enc[b], v.sos, i))
      invariant forall b :: 0 <= b < |enc| ==> done[b] == (v.eos in Tokens(net, enc[b], v.sos, i))
      invariant i >= 2 ==> !AllFinished(net, v, enc, i)
      invariant Length(net, v, enc, maxLen) == StopFrom(net, v, enc, Cap(maxLen), i)
    {
      trans, fed, done := GreedyStep(net, v, enc, i, trans, fed, done);
      FlagsFinished(net, v, enc, i + 1, done);
      StopFromTurn(net, v, enc, Cap(maxLen), i);
      if AllDone(done, |enc|) {
        return;
      }
      i := i + 1;
    }
  }

  /** The flags are all set exactly when every example has finished. */
  lemma FlagsFinished<E>(net: Net<E>, v: Variant, enc: seq<E>, n: nat, done: seq<bool>)
    requires |done| == |enc|
    requires forall b :: 0 <= b < |enc| ==> done[b] == (v.eos in Tokens(net, enc[b], v.sos, n))
    ensures AllDone(done, |enc|) <==> AllFinished(net, v, enc, n)
  {
    AllDoneEvery(done);
  }

  /** Step 0 of the loop: every row holds the argmax of its first
      distribution, and its flag says whether that token is `eos`. */
  method GreedyFirst<E>(net: Net<E>, v: Variant, enc: seq<E>) returns (trans: seq<seq<int>>, fed: seq<seq<int>>, done: seq<bool>)
    ensures |fed| == |trans| == |done| == |enc|
    ensures forall b :: 0 <= b < |enc| ==> fed[b] == [v.sos] + Tokens(net, enc[b], v.sos, 1)
    ensures forall b :: 0 <= b < |enc| ==> trans[b] == Shown(v, Tokens(net, enc[b], v.sos, 1))
    ensures forall b :: 0 <= b < |enc| ==> done[b] == (v.eos in Tokens(net, enc[b], v.sos, 1))
  {
    var bsize := |enc|;
    var wds := seq(bsize, b requires 0 <= b < bsize => net(enc[b], [v.sos], 0).1);
    fed := seq(bsize, b requires 0 <= b < bsize => [v.sos, wds[b]]);
    trans := seq(bsize, b requires 0 <= b < bsize => [wds[b]]);
    done := seq(bsize, b requires 0 <= b < bsize => wds[b] == v.eos);
    forall b | 0 <= b < bsize
      ensures fed[b] == [v.sos] + Tokens(net, enc[b], v.sos, 1)
      ensures trans[b] == Shown(v, Tokens(net, enc[b], v.sos, 1))
      ensures done[b] == (v.eos in Tokens(net, enc[b], v.sos, 1))
    {
      assert [v.sos] + Tokens(net, enc[b], v.sos, 0) == [v.sos];
      assert Tokens(net, enc[b], v.sos, 1) == [wds[b]];
      ShownSnoc(v, [], wds[b]);
    }
  }

  /** One iteration of the loop: every row appends its argmax token (shown as
      `pad_id` after `eos` with `fill_pad`) and ORs "token == eos" into its
      flag. */
  method GreedyStep<E>(net: Net<E>, v: Variant, enc: seq<E>, i: nat, trans: seq<seq<int>>, fed: seq<seq<int>>, done: seq<bool>)
    returns (trans': seq<seq<int>>, fed': seq<seq<int>>, done': seq<bool>)
    requires |fed| == |trans| == |done| == |enc|
    requires forall b :: 0 <= b < |enc| ==> fed[b] == [v.sos] + Tokens(net, enc[b], v.sos, i)
    requires forall b :: 0 <= b < |enc| ==> trans[b] == Shown(v, Tokens(net, enc[b], v.sos, i))
    requires forall b :: 0 <= b < |enc| ==> done[b] == (v.eos in Tokens(net, enc[b], v.sos, i))
    ensures |fed'| == |trans'| == |done'| == |enc|
    ensures forall b :: 0 <= b < |enc| ==> fed'[b] == [v.sos] + Tokens(net, enc[b], v.sos, i + 1)
    ensures forall b :: 0 <= b < |enc| ==> trans'[b] == Shown(v, Tokens(net, enc[b], v.sos, i + 1))
    ensures forall b :: 0 <= b < |enc| ==> done'[b] == (v.eos in Tokens(net, enc[b], v.sos, i + 1))
  {
    var bsize := |enc|;
    var wds := seq(bsize, b requires 0 <= b < bsize => net(enc[b], fed[b], 0).1);
    trans' := seq(bsize, b requires 0 <= b < bsize => trans[b] + [if v.fillPad && done[b] then v.padId else wds[b]]);
    fed' := seq(bsize, b requires 0 <= b < bsize => fed[b] + [wds[b]]);
    done' := seq(bsize, b requires 0 <= b < bsize => done[b] || wds[b] == v.eos);
    forall b | 0 <= b < bsize
      ensures trans'[b] == Shown(v, Tokens(net, enc[b], v.sos, i + 1))
      ensures done'[b] == (v.eos in Tokens(net, enc[b], v.sos, i + 1))
    {
      ShownSnoc(v, Tokens(net, enc[b], v.sos, i), wds[b]);
    }
  }
}
