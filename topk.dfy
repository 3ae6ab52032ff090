/** `torch.topk` over a vector of log-probability scores, as a deterministic
    selection: larger scores first, and among equal scores the lower index
    first. Scores are reals, plus the `-inf` that the SC and BART decoders
    write into masked candidate slots. */
module TopK {

  /** A candidate score: a finite log-probability sum, or minus infinity. */
  datatype Score = Fin(v: real) | NegInf

  /** `a` ranks strictly below `b`. */
  predicate Below(a: Score, b: Score)
  {
    b.Fin? && (a.NegInf? || a.v < b.v)
  }

  /** `s + x`; minus infinity absorbs any finite addend. */
  function Plus(s: Score, x: real): (r: Score)
    ensures r.Fin? <==> s.Fin?
    ensures s.Fin? ==> r.v == s.v + x
  {
    if s.Fin? then Fin(s.v + x) else NegInf
  }

  /** `s / d` for a positive divisor (a length penalty). */
  function Over(s: Score, d: real): (r: Score)
    requires d > 0.0
    ensures r.Fin? <==> s.Fin?
    ensures s.Fin? ==> r.v * d == s.v
  {
    if s.Fin? then Fin(s.v / d) else NegInf
  }

  /** Dividing by a positive number keeps the order of two scores. */
  lemma OverMonotone(a: Score, b: Score, d: real)
    requires d > 0.0 && Below(a, b)
    ensures Below(Over(a, d), Over(b, d))
  {
    if a.Fin? {
      assert a.v / d < b.v / d by {
        assert (b.v - a.v) / d > 0.0;
        assert (b.v - a.v) / d == b.v / d - a.v / d;
      }
    }
  }

  /** Index `i` is returned before index `j`: its key is larger, or equal
      with a lower index. */
  predicate Ahead(keys: seq<Score>, i: nat, j: nat)
    requires i < |keys| && j < |keys|
  {
    Below(keys[j], keys[i]) || (keys[i] == keys[j] && i < j)
  }

  /** Any two distinct indices are ordered one way or the other. */
  lemma AheadTotal(keys: seq<Score>, i: nat, j: nat)
    requires i < |keys| && j < |keys| && i != j
    ensures Ahead(keys, i, j) || Ahead(keys, j, i)
  {
  }

  lemma AheadTransitive(keys: seq<Score>, i: nat, j: nat, m: nat)
    requires i < |keys| && j < |keys| && m < |keys|
    requires Ahead(keys, i, j) && Ahead(keys, j, m)
    ensures Ahead(keys, i, m)
  {
  }

  /** Indices of `keys`, each ranked ahead of every later one (so they are
      also pairwise distinct). */
  ghost predicate Ranked(keys: seq<Score>, s: seq<nat>)
  {
    (forall a :: 0 <= a < |s| ==> s[a] < |keys|) &&
    (forall a, b :: 0 <= a < b < |s| ==> Ahead(keys, s[a], s[b]))
  }

  /** Inserting one more index into a ranked list keeps it ranked and adds
      exactly that index. */
  function Insert(keys: seq<Score>, x: nat, s: seq<nat>): (r: seq<nat>)
    requires x < |keys| && x !in s && Ranked(keys, s)
    ensures |r| == |s| + 1 && Ranked(keys, r)
    ensures forall m :: m in r <==> m == x || m in s
  {
    if s == [] then [x]
    else if Ahead(keys, x, s[0]) then
      InsertFront(keys, x, s);
      [x] + s
    else
      AheadTotal(keys, x, s[0]);
      var t := Insert(keys, x, s[1..]);
      InsertBehind(keys, x, s, t);
      [s[0]] + t
  }

  lemma InsertFront(keys: seq<Score>, x: nat, s: seq<nat>)
    requires x < |keys| && Ranked(keys, s) && s != [] && Ahead(keys, x, s[0])
    ensures Ranked(keys, [x] + s)
  {
    var r := [x] + s;
    forall a, b | 0 <= a < b < |r| ensures Ahead(keys, r[a], r[b]) {
      if a == 0 && b > 1 {
        AheadTransitive(keys, x, s[0], s[b - 1]);
      }
    }
  }

  lemma InsertBehind(keys: seq<Score>, x: nat, s: seq<nat>, t: seq<nat>)
    requires x < |keys| && Ranked(keys, s) && s != [] && Ahead(keys, s[0], x)
    requires Ranked(keys, t) && forall m :: m in t <==> m == x || m in s[1..]
    ensures Ranked(keys, [s[0]] + t)
  {
    var r := [s[0]] + t;
    forall a, b | 0 <= a < b < |r| ensures Ahead(keys, r[a], r[b]) {
      if a == 0 {
        assert r[b] in t;
        if r[b] != x {
          var c :| 0 <= c < |s[1..]| && s[1..][c] == r[b];
          assert s[c + 1] == r[b];
        }
      }
    }
  }

  /** All indices below `n`, best first. */
  function Order(keys: seq<Score>, n: nat): (r: seq<nat>)
    requires n <= |keys|
    ensures |r| == n && Ranked(keys, r)
    ensures forall m: nat :: m in r <==> m < n
  {
    if n == 0 then [] else Insert(keys, n - 1, Order(keys, n - 1))
  }

  /** `keys.topk(k)`: the indices of the k best keys, best first. */
  function Select(keys: seq<Score>, k: nat): (r: seq<nat>)
    requires k <= |keys|
    ensures |r| == k && Ranked(keys, r)
  {
    Order(keys, |keys|)[..k]
  }

  /** Every index left out of the selection ranks behind every selected one:
      it has a smaller key, or an equal key and a higher index. */
  lemma {:induction false} SelectBest(keys: seq<Score>, k: nat, a: nat, m: nat)
    requires k <= |keys| && a < k && m < |keys| && m !in Select(keys, k)
    ensures Ahead(keys, Select(keys, k)[a], m)
  {
    var o := Order(keys, |keys|);
    assert m in o;
    var c :| 0 <= c < |o| && o[c] == m;
    assert forall i :: 0 <= i < k ==> o[..k][i] == o[i];
    assert c >= k;
    assert Select(keys, k)[a] == o[a];
  }

  /** The selected indices are distinct. */
  lemma SelectDistinct(keys: seq<Score>, k: nat, a: nat, b: nat)
    requires k <= |keys| && a < b < k
    ensures Select(keys, k)[a] != Select(keys, k)[b]
  {
    assert Ahead(keys, Select(keys, k)[a], Select(keys, k)[b]);
  }

  /** Selecting every index lists each index exactly once. */
  lemma SelectAll(keys: seq<Score>, m: nat)
    requires m < |keys|
    ensures m in Select(keys, |keys|)
  {
    assert Select(keys, |keys|) == Order(keys, |keys|);
  }
}
