/** Text, vocabulary and batch-format helpers: the special token ids, batch
    sizing, word-to-id mapping, padding, cleaning and vocabulary loading. */
module FmtBase {
  import opened Wrappers
  import Arith

  /* ---------- special token ids ---------- */

  const PadId: int := 0
  const SosId: int := 1
  const EosId: int := 2
  /** Only present when the configuration sets use_unk. */
  const UnkId: int := 3

  /** The first id of an ordinary word: 4 with <unk> in the base vocabulary, 3 without. */
  function InitNormalTokenId(useUnk: bool): (id: int)
    ensures id == (if useUnk then UnkId + 1 else EosId + 1)
  {
    if useUnk then 4 else 3
  }

  /** The base vocabulary every non-vanilla vocabulary starts from. */
  function InitVocab(useUnk: bool): (v: map<string, int>)
    ensures "<pad>" in v && v["<pad>"] == PadId
    ensures "<sos>" in v && v["<sos>"] == SosId
    ensures "<eos>" in v && v["<eos>"] == EosId
    ensures ("<unk>" in v) == useUnk
    ensures forall w :: w in v ==> 0 <= v[w] < InitNormalTokenId(useUnk)
  {
    var base := map["<pad>" := PadId, "<sos>" := SosId, "<eos>" := EosId];
    if useUnk then base["<unk>" := UnkId] else base
  }

  /* ---------- get_bsize ---------- */

  /** get_bsize: sentences per batch for sentences of length maxlen under a
      token budget: max(maxtoken // maxlen, 1), made even when above 1,
      capped at maxbsize. */
  function GetBsize(maxlen: nat, maxtoken: nat, maxbsize: int): (r: int)
    requires maxlen > 0
    ensures r <= maxbsize
    ensures r == maxbsize || r == 1 || r % 2 == 0
    ensures r == maxbsize || (r >= 1 && r * maxlen <= maxtoken) || (r == 1 && maxtoken < maxlen)
    ensures r >= 1 || r == maxbsize
    ensures r == maxbsize || r + 2 > maxtoken / maxlen
  {
    var q := maxtoken / maxlen;
    var rs := if q > 1 then q else 1;
    var rs' := if rs % 2 == 1 && rs > 1 then rs - 1 else rs;
    QuotientBound(maxtoken, maxlen, rs');
    if rs' < maxbsize then rs' else maxbsize
  }

  /** Any k up to maxtoken // maxlen sentences of length maxlen fit the token
      budget; a zero quotient means maxlen alone exceeds it. */
  lemma QuotientBound(maxtoken: nat, maxlen: nat, k: int)
    requires maxlen > 0
    ensures 1 <= k <= maxtoken / maxlen ==> k * maxlen <= maxtoken
    ensures maxtoken / maxlen == 0 ==> maxtoken < maxlen
  {
    var q := maxtoken / maxlen;
    assert q * maxlen + maxtoken % maxlen == maxtoken;
    if 1 <= k <= q {
      Arith.MulMono(k, q, maxlen);
    }
  }

  /* ---------- word mappers ---------- */

  /** no_unk_mapper: the ids of the in-vocabulary words, in order; the others are dropped. */
  function NoUnkMapper(vcb: map<string, int>, ltm: seq<string>): (r: seq<int>)
    ensures |r| <= |ltm|
    ensures forall x :: x in r ==> x in vcb.Values
    ensures (forall w :: w in ltm ==> w in vcb) ==> |r| == |ltm| && forall i :: 0 <= i < |ltm| ==> r[i] == vcb[ltm[i]]
  {
    if ltm == [] then []
    else
      var init := NoUnkMapper(vcb, ltm[..|ltm| - 1]);
      var w := ltm[|ltm| - 1];
      assert forall u :: u in ltm[..|ltm| - 1] ==> u in ltm;
      init + (if w in vcb then [vcb[w]] else [])
  }

  /** Dropping unknown words maps a concatenation piecewise, so order is kept. */
  lemma {:induction false} NoUnkMapperAppend(vcb: map<string, int>, a: seq<string>, b: seq<string>)
    ensures NoUnkMapper(vcb, a + b) == NoUnkMapper(vcb, a) + NoUnkMapper(vcb, b)
  {
    if b != [] {
      var b' := b[..|b| - 1];
      NoUnkMapperAppend(vcb, a, b');
      assert (a + b)[..|a + b| - 1] == a + b';
    } else {
      assert a + b == a;
    }
  }

  /** Words outside the vocabulary contribute nothing. */
  lemma {:induction false} NoUnkMapperUnknown(vcb: map<string, int>, ltm: seq<string>)
    requires forall w :: w in ltm ==> w !in vcb
    ensures NoUnkMapper(vcb, ltm) == []
  {
    if ltm != [] {
      assert forall u :: u in ltm[..|ltm| - 1] ==> u in ltm;
      NoUnkMapperUnknown(vcb, ltm[..|ltm| - 1]);
    }
  }

  /** The use_unk mapping vocabi.get(wd, unk_id): one id per word. */
  function UnkMapper(vcb: map<string, int>, ltm: seq<string>): (r: seq<int>)
    ensures |r| == |ltm|
    ensures forall i :: 0 <= i < |ltm| ==> r[i] == if ltm[i] in vcb then vcb[ltm[i]] else UnkId
  {
    seq(|ltm|, i requires 0 <= i < |ltm| => if ltm[i] in vcb then vcb[ltm[i]] else UnkId)
  }

  /* ---------- map_batch ---------- */

  /** A sentence (a list of words) or a list whose items are such lists. */
  datatype Words = Sentence(words: seq<string>) | Group(items: seq<Words>)

  /** The id rows map_batch produces, in the same nesting. */
  datatype Ids = Row(ids: seq<int>) | Rows(items: seq<Ids>)

  /** Same nesting and the same number of items at every level. */
  ghost predicate SameNesting(x: Words, y: Ids)
  {
    match x
    case Sentence(_) => y.Row?
    case Group(xs) => y.Rows? && |xs| == |y.items| && forall i :: 0 <= i < |xs| ==> SameNesting(xs[i], y.items[i])
  }

  /** One sentence: [sos] ++ mapped words ++ [eos]. */
  function MapSentence(words: seq<string>, vocabi: map<string, int>, useUnk: bool): (r: seq<int>)
    ensures |r| >= 2 && r[0] == SosId && r[|r| - 1] == EosId
    ensures r[1..|r| - 1] == if useUnk then UnkMapper(vocabi, words) else NoUnkMapper(vocabi, words)
    ensures useUnk ==> |r| == |words| + 2
  {
    [SosId] + (if useUnk then UnkMapper(vocabi, words) else NoUnkMapper(vocabi, words)) + [EosId]
  }

  /** map_batch: maps every sentence, keeping the nesting, and reports the 2
      extra tokens; None where the source indexes an empty list (i_d[0]). */
  function MapBatch(x: Words, vocabi: map<string, int>, useUnk: bool): (r: Option<(Ids, nat)>)
    ensures r.Some? ==> r.value.1 == 2 && SameNesting(x, r.value.0)
    ensures r.Some? && x.Sentence? ==> r.value.0 == Row(MapSentence(x.words, vocabi, useUnk))
    decreases x, 1
  {
    match x
    case Sentence(ws) => if ws == [] then None else Some((Row(MapSentence(ws, vocabi, useUnk)), 2))
    case Group(xs) =>
      if xs == [] then None
      else
        match MapItems(xs, |xs|, vocabi, useUnk)
        case None => None
        case Some(ys) => Some((Rows(ys), 2))
  }

  /** Some list in x (at any level) is empty. */
  ghost predicate HasEmpty(x: Words)
  {
    match x
    case Sentence(ws) => ws == []
    case Group(xs) => xs == [] || exists i :: 0 <= i < |xs| && HasEmpty(xs[i])
  }

  /** map_batch over the first k items of a group, in order. */
  function MapItems(xs: seq<Words>, k: nat, vocabi: map<string, int>, useUnk: bool): (r: Option<seq<Ids>>)
    requires k <= |xs|
    ensures r.Some? ==> |r.value| == k && forall i :: 0 <= i < k ==> SameNesting(xs[i], r.value[i])
    decreases Group(xs), 0, k
  {
    if k == 0 then Some([])
    else
      match MapBatch(xs[k - 1], vocabi, useUnk)
      case None => None
      case Some(last) =>
        match MapItems(xs, k - 1, vocabi, useUnk)
        case None => None
        case Some(init) => Some(init + [last.0])
  }

  /** map_batch fails exactly when some list in the batch, at any level, is
      empty (the source then indexes an empty list). */
  lemma {:induction false} MapBatchNone(x: Words, vocabi: map<string, int>, useUnk: bool)
    ensures MapBatch(x, vocabi, useUnk).None? <==> HasEmpty(x)
    decreases x, 1
  {
    match x
    case Sentence(_) =>
    case Group(xs) =>
      if xs != [] {
        MapItemsNone(xs, |xs|, vocabi, useUnk);
      }
  }

  /** map_batch over the first k items fails exactly when one of them does. */
  lemma {:induction false} MapItemsNone(xs: seq<Words>, k: nat, vocabi: map<string, int>, useUnk: bool)
    requires k <= |xs|
    ensures MapItems(xs, k, vocabi, useUnk).None? <==> exists i :: 0 <= i < k && HasEmpty(xs[i])
    decreases Group(xs), 0, k
  {
    if k > 0 {
      MapBatchNone(xs[k - 1], vocabi, useUnk);
      MapItemsNone(xs, k - 1, vocabi, useUnk);
    }
  }

  /** A batch of sentences, as the batch loaders yield them. */
  function Sentences(rows: seq<seq<string>>): (xs: seq<Words>)
    ensures |xs| == |rows|
    ensures forall j :: 0 <= j < |rows| ==> xs[j] == Sentence(rows[j])
  {
    if rows == [] then [] else Sentences(rows[..|rows| - 1]) + [Sentence(rows[|rows| - 1])]
  }

  /** Every row of a batch of sentences mapped by map_batch. */
  function MapEach(rows: seq<seq<string>>, vocabi: map<string, int>, useUnk: bool): (r: seq<seq<int>>)
    ensures |r| == |rows|
    ensures forall j :: 0 <= j < |rows| ==> r[j] == MapSentence(rows[j], vocabi, useUnk)
  {
    seq(|rows|, j requires 0 <= j < |rows| => MapSentence(rows[j], vocabi, useUnk))
  }

  /** Mapped rows are at most two longer than their words; with unknown
      words kept exactly two longer. */
  lemma MapEachLengths(rows: seq<seq<string>>, vocabi: map<string, int>, useUnk: bool, mx: nat)
    requires forall j :: 0 <= j < |rows| ==> |rows[j]| <= mx
    ensures forall j :: 0 <= j < |rows| ==> |MapEach(rows, vocabi, useUnk)[j]| <= mx + 2
    ensures useUnk && (exists j :: 0 <= j < |rows| && |rows[j]| == mx) ==>
              exists j :: 0 <= j < |rows| && |MapEach(rows, vocabi, useUnk)[j]| == mx + 2
  {
    var m := MapEach(rows, vocabi, useUnk);
    forall j | 0 <= j < |rows|
      ensures |m[j]| <= |rows[j]| + 2
      ensures useUnk ==> |m[j]| == |rows[j]| + 2
    {
      var r := MapSentence(rows[j], vocabi, useUnk);
      assert |r[1..|r| - 1]| == |r| - 2;
    }
  }

  /** map_batch on a batch of sentences, row by row; None where the batch or
      one of its rows is empty. */
  function MapRows(rows: seq<seq<string>>, vocabi: map<string, int>, useUnk: bool): (r: Option<seq<seq<int>>>)
    ensures r.Some? <==> rows != [] && forall j :: 0 <= j < |rows| ==> rows[j] != []
  {
    if rows == [] || exists j :: 0 <= j < |rows| && rows[j] == [] then None
    else Some(MapEach(rows, vocabi, useUnk))
  }

  /** Every row map_batch returns is [sos] ++ ids ++ [eos] of its sentence,
      at most two longer than the longest sentence. */
  lemma MapRowsBounds(rows: seq<seq<string>>, vocabi: map<string, int>, useUnk: bool, mx: nat, rs: seq<seq<int>>)
    requires MapRows(rows, vocabi, useUnk) == Some(rs)
    requires forall j :: 0 <= j < |rows| ==> |rows[j]| <= mx
    ensures |rs| == |rows|
    ensures forall j :: 0 <= j < |rs| ==> rs[j] == MapSentence(rows[j], vocabi, useUnk) && |rs[j]| <= mx + 2
  {
    MapEachLengths(rows, vocabi, useUnk, mx);
  }

  /** With unknown words kept, a longest sentence maps to a row exactly two
      longer. */
  lemma MapRowsReach(rows: seq<seq<string>>, vocabi: map<string, int>, useUnk: bool, mx: nat, rs: seq<seq<int>>)
    requires MapRows(rows, vocabi, useUnk) == Some(rs)
    requires forall j :: 0 <= j < |rows| ==> |rows[j]| <= mx
    requires useUnk && exists j :: 0 <= j < |rows| && |rows[j]| == mx
    ensures exists j :: 0 <= j < |rs| && |rs[j]| == mx + 2
  {
    MapEachLengths(rows, vocabi, useUnk, mx);
  }

  /** pad_batch on the rows map_batch returns, with the maximum it reports:
      every row padded to exactly that length, beginning with its mapped row. */
  lemma PadMapped(rows: seq<seq<string>>, vocabi: map<string, int>, useUnk: bool, mx: nat, rs: seq<seq<int>>,
                  ml: nat, ps: seq<seq<int>>)
    requires MapRows(rows, vocabi, useUnk) == Some(rs)
    requires forall j :: 0 <= j < |rows| ==> |rows[j]| <= mx
    requires ml == mx + 2 && ps == PadRows(rs, ml)
    ensures |ps| == |rs| == |rows|
    ensures forall j :: 0 <= j < |ps| ==> |ps[j]| == ml && rs[j] <= ps[j]
  {
    MapRowsBounds(rows, vocabi, useUnk, mx, rs);
  }

  /** The row ids of a mapped batch, in map_batch's nesting. */
  function AsRows(rs: seq<seq<int>>): (r: seq<Ids>)
    ensures |r| == |rs| && forall j :: 0 <= j < |rs| ==> r[j] == Row(rs[j])
  {
    seq(|rs|, j requires 0 <= j < |rs| => Row(rs[j]))
  }

  /** map_batch over a group of sentences fails on an empty row among the
      first k. */
  lemma {:induction false} MapItemsEmpty(rows: seq<seq<string>>, k: nat, vocabi: map<string, int>, useUnk: bool)
    requires k <= |rows|
    requires exists j :: 0 <= j < k && rows[j] == []
    ensures MapItems(Sentences(rows), k, vocabi, useUnk) == None
  {
    if rows[k - 1] != [] {
      MapItemsEmpty(rows, k - 1, vocabi, useUnk);
    }
  }

  /** One more item mapped: its row is appended to the earlier ones. */
  lemma MapItemsStep(xs: seq<Words>, k: nat, vocabi: map<string, int>, useUnk: bool, last: Ids, init: seq<Ids>)
    requires 0 < k <= |xs|
    requires MapBatch(xs[k - 1], vocabi, useUnk) == Some((last, 2))
    requires MapItems(xs, k - 1, vocabi, useUnk) == Some(init)
    ensures MapItems(xs, k, vocabi, useUnk) == Some(init + [last])
  {
  }

  /** map_batch over a group of non-empty sentences maps every one, in order. */
  lemma {:induction false} MapItemsFull(rows: seq<seq<string>>, k: nat, vocabi: map<string, int>, useUnk: bool)
    requires k <= |rows|
    requires forall j :: 0 <= j < k ==> rows[j] != []
    ensures MapItems(Sentences(rows), k, vocabi, useUnk).Some?
    ensures forall j :: 0 <= j < k ==> MapItems(Sentences(rows), k, vocabi, useUnk).value[j]
                                         == Row(MapEach(rows, vocabi, useUnk)[j])
  {
    if k > 0 {
      var xs := Sentences(rows);
      MapItemsFull(rows, k - 1, vocabi, useUnk);
      var init := MapItems(xs, k - 1, vocabi, useUnk).value;
      var m := MapEach(rows, vocabi, useUnk);
      var last := Row(m[k - 1]);
      assert xs[k - 1] == Sentence(rows[k - 1]);
      MapItemsStep(xs, k, vocabi, useUnk, last, init);
      forall j | 0 <= j < k
        ensures (init + [last])[j] == Row(m[j])
      {
        if j < k - 1 {
          assert (init + [last])[j] == init[j];
        }
      }
    }
  }

  /** map_batch on a non-empty group whose items all map. */
  lemma MapBatchGroup(xs: seq<Words>, vocabi: map<string, int>, useUnk: bool, v: seq<Ids>)
    requires xs != [] && MapItems(xs, |xs|, vocabi, useUnk) == Some(v)
    ensures MapBatch(Group(xs), vocabi, useUnk) == Some((Rows(v), 2))
  {
  }

  /** Where MapRows succeeds, map_batch on the batch gives the same rows in
      the same order. */
  lemma MapRowsAgreesSome(rows: seq<seq<string>>, vocabi: map<string, int>, useUnk: bool, rs: seq<seq<int>>)
    requires MapRows(rows, vocabi, useUnk) == Some(rs)
    ensures MapBatch(Group(Sentences(rows)), vocabi, useUnk) == Some((Rows(AsRows(rs)), 2))
  {
    MapRowsItems(rows, vocabi, useUnk, rs);
    MapBatchGroup(Sentences(rows), vocabi, useUnk, AsRows(rs));
  }

  /** The items of a batch MapRows maps are the rows it returns. */
  lemma MapRowsItems(rows: seq<seq<string>>, vocabi: map<string, int>, useUnk: bool, rs: seq<seq<int>>)
    requires MapRows(rows, vocabi, useUnk) == Some(rs)
    ensures MapItems(Sentences(rows), |rows|, vocabi, useUnk) == Some(AsRows(rs))
  {
    MapItemsFull(rows, |rows|, vocabi, useUnk);
    var v := MapItems(Sentences(rows), |rows|, vocabi, useUnk).value;
    var m := MapEach(rows, vocabi, useUnk);
    assert rs == m;
    var a := AsRows(rs);
    assert |v| == |a|;
    forall j | 0 <= j < |rows|
      ensures v[j] == a[j]
    {
      assert v[j] == Row(m[j]);
    }
    assert v == a;
  }

  /** Where MapRows fails, so does map_batch on the batch. */
  lemma MapRowsAgreesNone(rows: seq<seq<string>>, vocabi: map<string, int>, useUnk: bool)
    requires MapRows(rows, vocabi, useUnk) == None
    ensures MapBatch(Group(Sentences(rows)), vocabi, useUnk) == None
  {
    if rows != [] {
      MapItemsEmpty(rows, |rows|, vocabi, useUnk);
    }
  }

  /* ---------- pad_batch ---------- */

  /** One row extended with pad ids up to mlen (longer rows unchanged). */
  function PadRow(row: seq<int>, mlen: nat): (r: seq<int>)
    ensures |row| < mlen ==> |r| == mlen
    ensures |row| >= mlen ==> r == row
    ensures row <= r
    ensures forall i :: |row| <= i < |r| ==> r[i] == PadId
  {
    if |row| < mlen then row + seq(mlen - |row|, _ => PadId) else row
  }

  /** pad_batch on a batch of rows, as a value: every row padded to mlen. */
  function PadRows(rows: seq<seq<int>>, mlen: nat): (r: seq<seq<int>>)
    ensures |r| == |rows|
    ensures forall j :: 0 <= j < |rows| ==> r[j] == PadRow(rows[j], mlen)
    ensures forall j :: 0 <= j < |rows| && |rows[j]| <= mlen ==> |r[j]| == mlen && rows[j] <= r[j]
  {
    if rows == [] then [] else PadRows(rows[..|rows| - 1], mlen) + [PadRow(rows[|rows| - 1], mlen)]
  }

  /** pad_batch on a batch of rows: every row is extended in place; false
      (nothing changed) where the source indexes an empty batch. Rows are
      non-empty, as map_batch makes them. */
  method PadBatch(rows: array<seq<int>>, mlen: nat) returns (ok: bool)
    requires forall i :: 0 <= i < rows.Length ==> rows[i] != []
    modifies rows
    ensures ok <==> rows.Length > 0
    ensures forall i :: 0 <= i < rows.Length ==> rows[i] == PadRow(old(rows[i]), mlen)
  {
    if rows.Length == 0 {
      return false;
    }
    for i := 0 to rows.Length
      invariant forall j :: 0 <= j < i ==> rows[j] == PadRow(old(rows[j]), mlen)
      invariant forall j :: i <= j < rows.Length ==> rows[j] == old(rows[j])
    {
      var curlen := |rows[i]|;
      if curlen < mlen {
        rows[i] := rows[i] + seq(mlen - curlen, _ => PadId);
      }
    }
    return true;
  }

  /* ---------- clean_list, clean_liststr_lentok, clean_str ---------- */

  /** clean_list: the non-empty items, in order. */
  function CleanList(lin: seq<string>): (r: seq<string>)
    ensures forall x :: x in r ==> x != [] && x in lin
    ensures forall x :: x in lin && x != [] ==> x in r
    ensures |r| <= |lin|
  {
    if lin == [] then []
    else CleanList(lin[..|lin| - 1]) + (if lin[|lin| - 1] != [] then [lin[|lin| - 1]] else [])
  }

  /** Cleaning keeps order: it maps a concatenation piecewise. */
  lemma {:induction false} CleanListAppend(a: seq<string>, b: seq<string>)
    ensures CleanList(a + b) == CleanList(a) + CleanList(b)
  {
    if b == [] {
      assert a + b == a;
    } else {
      CleanListAppend(a, b[..|b| - 1]);
      assert (a + b)[..|a + b| - 1] == a + b[..|b| - 1];
    }
  }

  /** Cleaning a clean list changes nothing. */
  lemma {:induction false} CleanListIdempotent(lin: seq<string>)
    ensures CleanList(CleanList(lin)) == CleanList(lin)
  {
    if lin != [] {
      var init := lin[..|lin| - 1];
      CleanListIdempotent(init);
      var last := lin[|lin| - 1];
      CleanListAppend(CleanList(init), if last != [] then [last] else []);
      if last != [] {
        assert CleanList([last]) == CleanList([]) + [last] by { assert [last][..0] == []; }
      }
    }
  }

  /** " ".join(ws). */
  function JoinSpace(ws: seq<string>): string
  {
    if ws == [] then [] else if |ws| == 1 then ws[0] else ws[0] + " " + JoinSpace(ws[1..])
  }

  /** clean_liststr_lentok: the non-empty items joined by spaces, and how many there are. */
  function CleanListStrLenTok(lin: seq<string>): (r: (string, nat))
    ensures r.1 == |CleanList(lin)|
    ensures r.0 == JoinSpace(CleanList(lin))
    ensures r.1 <= |lin|
  {
    var rs := CleanList(lin);
    (JoinSpace(rs), |rs|)
  }

  /** The characters str.split() separates on, those for which Python's
      `str.isspace()` holds: the controls \t to \r and \x1c to \x1f, the
      space, U+0085, U+00A0, U+1680, U+2000 to U+200A, U+2028, U+2029,
      U+202F, U+205F and U+3000. */
  predicate IsSpace(c: char)
  {
    ('\U{09}' <= c <= '\U{0D}') || ('\U{1C}' <= c <= '\U{20}') ||
    c == '\U{85}' || c == '\U{A0}' || c == '\U{1680}' ||
    ('\U{2000}' <= c <= '\U{200A}') || c == '\U{2028}' || c == '\U{2029}' ||
    c == '\U{202F}' || c == '\U{205F}' || c == '\U{3000}'
  }

  /** s without its leading whitespace. */
  function DropSpace(s: string): (r: string)
    ensures |r| <= |s| && r == s[|s| - |r|..]
    ensures r != [] ==> !IsSpace(r[0])
    ensures forall i :: 0 <= i < |s| - |r| ==> IsSpace(s[i])
  {
    if s != [] && IsSpace(s[0]) then DropSpace(s[1..]) else s
  }

  /** The longest prefix of s without whitespace. */
  function TakeWord(s: string): (w: string)
    ensures w <= s
    ensures forall i :: 0 <= i < |w| ==> !IsSpace(w[i])
    ensures |w| < |s| ==> IsSpace(s[|w|])
  {
    if s == [] || IsSpace(s[0]) then [] else [s[0]] + TakeWord(s[1..])
  }

  /** A word as str.split() yields it: non-empty, no whitespace. */
  ghost predicate IsWord(w: string)
  {
    w != [] && forall i :: 0 <= i < |w| ==> !IsSpace(w[i])
  }

  /** str.split(): the maximal whitespace-free runs of s, in order. */
  function Split(s: string): (ws: seq<string>)
    ensures forall i :: 0 <= i < |ws| ==> IsWord(ws[i])
    decreases |s|
  {
    var t := DropSpace(s);
    if t == [] then []
    else
      var w := TakeWord(t);
      [w] + Split(t[|w|..])
  }

  /** clean_str: the words of s joined by single spaces. */
  function CleanStr(s: string): string
  {
    JoinSpace(Split(s))
  }

  /** Splitting a space-joined list of words gives the words back. */
  lemma {:induction false} SplitJoin(ws: seq<string>)
    requires forall i :: 0 <= i < |ws| ==> IsWord(ws[i])
    ensures Split(JoinSpace(ws)) == ws
  {
    if |ws| == 1 {
      SplitJoinOne(ws[0]);
    } else if |ws| > 1 {
      SplitJoin(ws[1..]);
      SplitJoinCons(ws);
    }
  }

  /** A single word splits into itself. */
  lemma SplitJoinOne(w: string)
    requires IsWord(w)
    ensures Split(JoinSpace([w])) == [w]
  {
    assert JoinSpace([w]) == w;
    assert Split(w) == [w] + Split([]) by {
      assert w + [] == w;
      SplitWord(w, []);
    }
    assert Split([]) == [];
  }

  /** The inductive step of `SplitJoin`: a word, a space, and a joined
      list that splits back into its words. */
  lemma SplitJoinCons(ws: seq<string>)
    requires |ws| > 1 && IsWord(ws[0]) && Split(JoinSpace(ws[1..])) == ws[1..]
    ensures Split(JoinSpace(ws)) == ws
  {
    var tail := JoinSpace(ws[1..]);
    var rest := " " + tail;
    assert JoinSpace(ws) == ws[0] + rest by {
      JoinCons(ws);
    }
    assert Split(ws[0] + rest) == [ws[0]] + Split(rest) by {
      assert IsSpace(rest[0]);
      SplitWord(ws[0], rest);
    }
    assert Split(rest) == ws[1..] by {
      SplitLeadingSpace(tail);
    }
    HeadTail(ws);
  }

  /** One step of JoinSpace on a list of at least two items. */
  lemma JoinCons(ws: seq<string>)
    requires |ws| > 1
    ensures JoinSpace(ws) == ws[0] + (" " + JoinSpace(ws[1..]))
  {
  }

  lemma HeadTail(ws: seq<string>)
    requires ws != []
    ensures [ws[0]] + ws[1..] == ws
  {
  }

  /** Leading whitespace does not change the split. */
  lemma SplitLeadingSpace(t: string)
    ensures Split(" " + t) == Split(t)
  {
    assert DropSpace(" " + t) == DropSpace(t) by {
      assert (" " + t)[1..] == t;
    }
  }

  /** A word followed by nothing or by whitespace is split off as one item. */
  lemma SplitWord(w: string, rest: string)
    requires IsWord(w) && (rest == [] || IsSpace(rest[0]))
    ensures Split(w + rest) == [w] + Split(rest)
  {
    DropNoSpace(w + rest);
    TakeWordPrefix(w, rest);
    assert (w + rest)[|w|..] == rest;
  }

  /** A string starting with a non-space loses nothing to DropSpace. */
  lemma DropNoSpace(s: string)
    requires s != [] && !IsSpace(s[0])
    ensures DropSpace(s) == s
  {
  }

  /** TakeWord reads a word up to the space or end that follows it. */
  lemma {:induction false} TakeWordPrefix(w: string, rest: string)
    requires forall i :: 0 <= i < |w| ==> !IsSpace(w[i])
    requires rest == [] || IsSpace(rest[0])
    ensures TakeWord(w + rest) == w
  {
    if w != [] {
      assert (w + rest)[1..] == w[1..] + rest;
      TakeWordPrefix(w[1..], rest);
    } else {
      assert w + rest == rest;
    }
  }

  /** clean_str keeps the words: they are exactly those of the input. */
  lemma CleanStrWords(s: string)
    ensures Split(CleanStr(s)) == Split(s)
  {
    SplitJoin(Split(s));
  }

  /** clean_str is idempotent. */
  lemma CleanStrIdempotent(s: string)
    ensures CleanStr(CleanStr(s)) == CleanStr(s)
  {
    CleanStrWords(s);
  }

  /* ---------- iter_check_func, iter_cmp_func and their users ---------- */

  /** iter_check_func / iter_cmp_func: ri as soon as an item satisfies func,
      not ri when none does. */
  method IterCheck<T>(lin: seq<T>, func: T -> bool, ri: bool) returns (r: bool)
    ensures r == (if exists i :: 0 <= i < |lin| && func(lin[i]) then ri else !ri)
  {
    for i := 0 to |lin|
      invariant forall j :: 0 <= j < i ==> !func(lin[j])
    {
      if func(lin[i]) {
        return ri;
      }
    }
    return !ri;
  }

  /** all_true. */
  method AllTrue(lin: seq<bool>) returns (r: bool)
    ensures r <==> forall i :: 0 <= i < |lin| ==> lin[i]
  {
    r := IterCheck(lin, x => !x, false);
  }

  /** any_true. */
  method AnyTrue(lin: seq<bool>) returns (r: bool)
    ensures r <==> exists i :: 0 <= i < |lin| && lin[i]
  {
    r := IterCheck(lin, x => x, true);
  }

  /** all_le: no item exceeds v. */
  method AllLe(lin: seq<int>, v: int) returns (r: bool)
    ensures r <==> forall i :: 0 <= i < |lin| ==> lin[i] <= v
  {
    r := IterCheck(lin, x => x > v, false);
  }

  /** all_gt: every item exceeds v. */
  method AllGt(lin: seq<int>, v: int) returns (r: bool)
    ensures r <==> forall i :: 0 <= i < |lin| ==> lin[i] > v
  {
    r := IterCheck(lin, x => x <= v, false);
  }

  /* ---------- reverse_dict ---------- */

  /** reverse_dict over a dictionary given by its items in insertion order:
      each value maps back to its key, the later item winning on a shared value. */
  function ReverseDict<K, V(==)>(items: seq<(K, V)>): (r: map<V, K>)
    ensures r.Keys == set i | 0 <= i < |items| :: items[i].1
  {
    if items == [] then map[]
    else
      var init := items[..|items| - 1];
      var last := items[|items| - 1];
      assert (set i | 0 <= i < |items| :: items[i].1) == (set i | 0 <= i < |init| :: init[i].1) + {last.1} by {
        assert forall i :: 0 <= i < |init| ==> init[i] == items[i];
      }
      ReverseDict(init)[last.1 := last.0]
  }

  /** An item whose value no later item repeats is reversed to its own key. */
  lemma {:induction false} ReverseDictLastWins<K, V>(items: seq<(K, V)>, i: nat)
    requires i < |items| && forall j :: i < j < |items| ==> items[j].1 != items[i].1
    ensures items[i].1 in ReverseDict(items) && ReverseDict(items)[items[i].1] == items[i].0
  {
    if i < |items| - 1 {
      var init := items[..|items| - 1];
      assert init[i] == items[i];
      assert forall j :: i < j < |init| ==> init[j] == items[j];
      ReverseDictLastWins(init, i);
      assert items[|items| - 1].1 != items[i].1;
    }
  }

  /** With distinct values reversing is an exact inverse: each item's value
      maps back to that item's key. */
  lemma ReverseDictInverse<K, V>(items: seq<(K, V)>)
    requires forall i, j :: 0 <= i < j < |items| ==> items[i].1 != items[j].1
    ensures forall i :: 0 <= i < |items| ==> ReverseDict(items)[items[i].1] == items[i].0
  {
    forall i | 0 <= i < |items| ensures ReverseDict(items)[items[i].1] == items[i].0 {
      ReverseDictLastWins(items, i);
    }
  }

  /* ---------- maxfreq_filter_core ---------- */

  ghost predicate Distinct<T>(s: seq<T>)
  {
    forall i, j :: 0 <= i < j < |s| ==> s[i] != s[j]
  }

  /** zip stops at the shorter input. */
  function ZipLen<S, T>(ls: seq<S>, lt: seq<T>): (n: nat)
    ensures n <= |ls| && n <= |lt| && (n == |ls| || n == |lt|)
  {
    if |ls| <= |lt| then |ls| else |lt|
  }

  /** How often the pair (s, t) occurs among the first n pairs. */
  function Count<S(==), T(==)>(ls: seq<S>, lt: seq<T>, n: nat, s: S, t: T): (c: nat)
    requires n <= |ls| && n <= |lt|
    ensures c > 0 <==> exists j :: 0 <= j < n && ls[j] == s && lt[j] == t
  {
    if n == 0 then 0
    else Count(ls, lt, n - 1, s, t) + (if ls[n - 1] == s && lt[n - 1] == t then 1 else 0)
  }

  /** A source that does not occur among the first n pairs has no count. */
  lemma CountAbsent<S, T>(ls: seq<S>, lt: seq<T>, n: nat, s: S, t: T)
    requires n <= |ls| && n <= |lt| && s !in ls[..n]
    ensures Count(ls, lt, n, s, t) == 0
  {
    forall j | 0 <= j < n ensures ls[j] != s {
      assert ls[..n][j] == ls[j];
    }
  }

  /** t co-occurs with s at least as often as any target that occurs with s. */
  ghost predicate IsMaxTarget<S, T>(ls: seq<S>, lt: seq<T>, n: nat, s: S, t: T)
    requires n <= |ls| && n <= |lt|
  {
    forall j :: 0 <= j < n && ls[j] == s ==> Count(ls, lt, n, s, lt[j]) <= Count(ls, lt, n, s, t)
  }

  /** The counting dictionary's keys after i pairs: the sources seen, in
      insertion order, and per source the targets seen with it, in order. */
  ghost predicate Tracked<S(!new), T(!new)>(ls: seq<S>, i: nat, tmp: map<S, map<T, nat>>, srcs: seq<S>,
                                                    tgts: map<S, seq<T>>)
    requires i <= |ls|
  {
    Distinct(srcs)
    && (forall s :: s in srcs <==> s in ls[..i])
    && (forall s :: s in srcs <==> s in tmp)
    && (forall s :: s in tmp ==> s in tgts && Distinct(tgts[s]))
    && (forall s, t :: s in tmp ==> (t in tgts[s] <==> t in tmp[s]))
  }

  /** The counting dictionary's values after i pairs: an entry exactly for
      each pair that occurs, holding its count. */
  ghost predicate Tallied<S(!new), T(!new)>(ls: seq<S>, lt: seq<T>, i: nat, tmp: map<S, map<T, nat>>)
    requires i <= |ls| && i <= |lt|
  {
    (forall s, t :: s in tmp ==> (t in tmp[s] <==> Count(ls, lt, i, s, t) > 0))
    && (forall s, t :: s in tmp && t in tmp[s] ==> tmp[s][t] == Count(ls, lt, i, s, t))
  }

  /** The counting dictionary of the first loop after i pairs, with the
      insertion order of its sources and, per source, of its targets. */
  ghost predicate Counted<S(!new), T(!new)>(ls: seq<S>, lt: seq<T>, i: nat,
                                                    tmp: map<S, map<T, nat>>, srcs: seq<S>, tgts: map<S, seq<T>>)
    requires i <= |ls| && i <= |lt|
  {
    Tracked(ls, i, tmp, srcs, tgts) && Tallied(ls, lt, i, tmp)
  }

  /** Counting a pair whose source has been seen keeps the keys: a new
      target is appended to the source's order. */
  lemma KnownTracked<S(!new), T(!new)>(ls: seq<S>, lt: seq<T>, i: nat, tmp: map<S, map<T, nat>>, srcs: seq<S>,
                                               tgts: map<S, seq<T>>, tmp2: map<S, map<T, nat>>, tgts2: map<S, seq<T>>)
    requires i < |ls| && i < |lt| && Tracked(ls, i, tmp, srcs, tgts) && ls[i] in tmp
    requires tmp2 == tmp[ls[i] := tmp[ls[i]][lt[i] := (if lt[i] in tmp[ls[i]] then tmp[ls[i]][lt[i]] else 0) + 1]]
    requires tgts2 == if lt[i] in tmp[ls[i]] then tgts else tgts[ls[i] := tgts[ls[i]] + [lt[i]]]
    ensures Tracked(ls, i + 1, tmp2, srcs, tgts2)
  {
    var us, ut := ls[i], lt[i];
    assert ls[..i + 1] == ls[..i] + [us];
    assert tmp2.Keys == tmp.Keys;
    if ut !in tmp[us] {
      assert ut !in tgts[us];
    }
  }

  /** Counting a pair whose source has been seen: its count goes up by one. */
  lemma KnownTallied<S(!new), T(!new)>(ls: seq<S>, lt: seq<T>, i: nat, tmp: map<S, map<T, nat>>,
                                               tmp2: map<S, map<T, nat>>)
    requires i < |ls| && i < |lt| && Tallied(ls, lt, i, tmp) && ls[i] in tmp
    requires tmp2 == tmp[ls[i] := tmp[ls[i]][lt[i] := (if lt[i] in tmp[ls[i]] then tmp[ls[i]][lt[i]] else 0) + 1]]
    ensures Tallied(ls, lt, i + 1, tmp2)
  {
    forall s, t ensures Count(ls, lt, i + 1, s, t) == Count(ls, lt, i, s, t) + (if ls[i] == s && lt[i] == t then 1 else 0) {
    }
  }

  /** Counting a pair whose source is new appends the source to the order
      with the single target. */
  lemma NewTracked<S(!new), T(!new)>(ls: seq<S>, i: nat, tmp: map<S, map<T, nat>>, srcs: seq<S>,
                                             tgts: map<S, seq<T>>, t0: T)
    requires i < |ls| && Tracked(ls, i, tmp, srcs, tgts) && ls[i] !in tmp
    ensures Tracked(ls, i + 1, tmp[ls[i] := map[t0 := 1]], srcs + [ls[i]], tgts[ls[i] := [t0]])
  {
    assert ls[..i + 1] == ls[..i] + [ls[i]];
  }

  /** Counting a pair whose source is new: its only entry counts one. */
  lemma NewTallied<S(!new), T(!new)>(ls: seq<S>, lt: seq<T>, i: nat, tmp: map<S, map<T, nat>>)
    requires i < |ls| && i < |lt| && Tallied(ls, lt, i, tmp) && ls[i] !in tmp
    requires forall t :: Count(ls, lt, i, ls[i], t) == 0
    ensures Tallied(ls, lt, i + 1, tmp[ls[i] := map[lt[i] := 1]])
  {
    var tmp2 := tmp[ls[i] := map[lt[i] := 1]];
    forall s, t | s in tmp2
      ensures t in tmp2[s] <==> Count(ls, lt, i + 1, s, t) > 0
      ensures t in tmp2[s] ==> tmp2[s][t] == Count(ls, lt, i + 1, s, t)
    {
      assert Count(ls, lt, i + 1, s, t) == Count(ls, lt, i, s, t) + (if ls[i] == s && lt[i] == t then 1 else 0);
    }
  }

  /** Counting a pair whose source is new. */
  lemma CountNew<S(!new), T(!new)>(ls: seq<S>, lt: seq<T>, i: nat, tmp: map<S, map<T, nat>>, srcs: seq<S>,
                                           tgts: map<S, seq<T>>, tmp2: map<S, map<T, nat>>, srcs2: seq<S>,
                                           tgts2: map<S, seq<T>>)
    requires i < |ls| && i < |lt| && Counted(ls, lt, i, tmp, srcs, tgts) && ls[i] !in tmp
    requires tmp2 == tmp[ls[i] := map[lt[i] := 1]] && srcs2 == srcs + [ls[i]] && tgts2 == tgts[ls[i] := [lt[i]]]
    ensures Counted(ls, lt, i + 1, tmp2, srcs2, tgts2)
  {
    NewTracked(ls, i, tmp, srcs, tgts, lt[i]);
    assert ls[i] !in ls[..i];
    forall t ensures Count(ls, lt, i, ls[i], t) == 0 {
      CountAbsent(ls, lt, i, ls[i], t);
    }
    NewTallied(ls, lt, i, tmp);
  }

  /** Counting a pair whose source has been seen. */
  lemma CountKnown<S(!new), T(!new)>(ls: seq<S>, lt: seq<T>, i: nat, tmp: map<S, map<T, nat>>, srcs: seq<S>,
                                             tgts: map<S, seq<T>>, tmp2: map<S, map<T, nat>>, tgts2: map<S, seq<T>>)
    requires i < |ls| && i < |lt| && Counted(ls, lt, i, tmp, srcs, tgts) && ls[i] in tmp
    requires tmp2 == tmp[ls[i] := tmp[ls[i]][lt[i] := (if lt[i] in tmp[ls[i]] then tmp[ls[i]][lt[i]] else 0) + 1]]
    requires tgts2 == if lt[i] in tmp[ls[i]] then tgts else tgts[ls[i] := tgts[ls[i]] + [lt[i]]]
    ensures Counted(ls, lt, i + 1, tmp2, srcs, tgts2)
  {
    KnownTracked(ls, lt, i, tmp, srcs, tgts, tmp2, tgts2);
    KnownTallied(ls, lt, i, tmp, tmp2);
  }

  /** One iteration of the first loop of maxfreq_filter_core: count the
      pair at position i. */
  method CountOne<S(==, !new), T(==, !new)>(ls: seq<S>, lt: seq<T>, i: nat, tmp: map<S, map<T, nat>>, srcs: seq<S>,
                                            tgts: map<S, seq<T>>)
    returns (tmp2: map<S, map<T, nat>>, srcs2: seq<S>, tgts2: map<S, seq<T>>)
    requires i < |ls| && i < |lt| && Counted(ls, lt, i, tmp, srcs, tgts)
    ensures Counted(ls, lt, i + 1, tmp2, srcs2, tgts2)
  {
    var us, ut := ls[i], lt[i];
    if us in tmp {
      var row := tmp[us];
      var c := if ut in row then row[ut] else 0;
      tgts2 := tgts;
      if ut !in row {
        tgts2 := tgts[us := tgts[us] + [ut]];
      }
      tmp2, srcs2 := tmp[us := row[ut := c + 1]], srcs;
      CountKnown(ls, lt, i, tmp, srcs, tgts, tmp2, tgts2);
    } else {
      tmp2, srcs2, tgts2 := tmp[us := map[ut := 1]], srcs + [us], tgts[us := [ut]];
      CountNew(ls, lt, i, tmp, srcs, tgts, tmp2, srcs2, tgts2);
    }
  }

  /** The first loop of maxfreq_filter_core over the first n pairs. */
  method CountPairs<S(==, !new), T(==, !new)>(ls: seq<S>, lt: seq<T>, n: nat)
    returns (tmp: map<S, map<T, nat>>, srcs: seq<S>, tgts: map<S, seq<T>>)
    requires n <= |ls| && n <= |lt|
    ensures Counted(ls, lt, n, tmp, srcs, tgts)
  {
    tmp, srcs, tgts := map[], [], map[];
    for i := 0 to n
      invariant Counted(ls, lt, i, tmp, srcs, tgts)
    {
      tmp, srcs, tgts := CountOne(ls, lt, i, tmp, srcs, tgts);
    }
  }

  /** The inner loop over one source's targets: the maximal count and the
      targets that reach it, in order. */
  method MaxTargets<T(==)>(cnt: map<T, nat>, order: seq<T>) returns (maxf: nat, rs: seq<T>)
    requires forall t :: t in order ==> t in cnt && cnt[t] > 0
    ensures forall t :: t in order ==> cnt[t] <= maxf
    ensures forall t :: t in rs ==> t in order && cnt[t] == maxf
    ensures forall t :: t in order && cnt[t] == maxf ==> t in rs
    ensures order != [] ==> rs != []
    ensures Distinct(order) ==> Distinct(rs)
  {
    maxf, rs := 0, [];
    for j := 0 to |order|
      invariant forall t :: t in order[..j] ==> cnt[t] <= maxf
      invariant forall t :: t in rs ==> t in order[..j] && cnt[t] == maxf
      invariant forall t :: t in order[..j] && cnt[t] == maxf ==> t in rs
      invariant j > 0 ==> rs != []
      invariant j == 0 ==> maxf == 0 && rs == []
      invariant Distinct(order) ==> Distinct(rs)
    {
      var key := order[j];
      var value := cnt[key];
      assert order[..j + 1] == order[..j] + [key];
      if value > maxf {
        maxf, rs := value, [key];
      } else if value == maxf {
        if Distinct(order) {
          assert key !in order[..j];
        }
        rs := rs + [key];
      }
    }
    assert order[..|order|] == order;
  }

  /** Every emitted pair occurs, has a maximal count for its source, and no
      pair is emitted twice. */
  ghost predicate SoundOutput<S, T>(ls: seq<S>, lt: seq<T>, n: nat, rls: seq<S>, rlt: seq<T>)
    requires n <= |ls| && n <= |lt|
  {
    |rls| == |rlt|
    && (forall i :: 0 <= i < |rls| ==> Count(ls, lt, n, rls[i], rlt[i]) > 0 && IsMaxTarget(ls, lt, n, rls[i], rlt[i]))
    && (forall i, k :: 0 <= i < k < |rls| ==> rls[i] != rls[k] || rlt[i] != rlt[k])
  }

  /** maxfreq_filter_core: for each source, the targets it co-occurs with
      most often, as parallel lists of sources and targets. */
  method MaxFreqFilterCore<S(==, !new), T(==, !new)>(ls: seq<S>, lt: seq<T>) returns (rls: seq<S>, rlt: seq<T>)
    ensures |rls| == |rlt|
    ensures forall i :: 0 <= i < |rls| ==> Count(ls, lt, ZipLen(ls, lt), rls[i], rlt[i]) > 0
    ensures forall i :: 0 <= i < |rls| ==> IsMaxTarget(ls, lt, ZipLen(ls, lt), rls[i], rlt[i])
    ensures forall j :: 0 <= j < ZipLen(ls, lt) && IsMaxTarget(ls, lt, ZipLen(ls, lt), ls[j], lt[j])
              ==> exists i :: 0 <= i < |rls| && rls[i] == ls[j] && rlt[i] == lt[j]
    ensures forall i, k :: 0 <= i < k < |rls| ==> rls[i] != rls[k] || rlt[i] != rlt[k]
  {
    var n := ZipLen(ls, lt);
    var tmp, srcs, tgts := CountPairs(ls, lt, n);
    rls, rlt := [], [];
    for k := 0 to |srcs|
      invariant |rls| == |rlt|
      invariant forall i :: 0 <= i < |rls| ==> rls[i] in srcs[..k]
      invariant SoundOutput(ls, lt, n, rls, rlt)
      invariant forall j :: 0 <= j < n && ls[j] in srcs[..k] && IsMaxTarget(ls, lt, n, ls[j], lt[j])
                  ==> exists i :: 0 <= i < |rls| && rls[i] == ls[j] && rlt[i] == lt[j]
    {
      var tus := srcs[k];
      assert srcs[..k + 1] == srcs[..k] + [tus];
      assert tus !in srcs[..k];
      var maxf, rs := MaxTargets(tmp[tus], tgts[tus]);
      SourceBlock(ls, lt, n, tus, tmp[tus], tgts[tus], maxf, rs);
      var rls0, rlt0 := rls, rlt;
      rls, rlt := AppendPairs(rls, rlt, tus, rs);
      ExtendSound(ls, lt, n, rls0, rlt0, tus, rs, rls, rlt);
      ExtendComplete(ls, lt, n, srcs[..k], rls0, rlt0, tus, rs, rls, rlt);
    }
    forall j | 0 <= j < n ensures ls[j] in srcs[..|srcs|] {
      assert ls[..n][j] == ls[j];
      assert srcs[..|srcs|] == srcs;
    }
  }

  /** After emitting the chosen targets of tus, every maximal pair of the
      sources done so far has been emitted. */
  lemma ExtendComplete<S, T>(ls: seq<S>, lt: seq<T>, n: nat, done: seq<S>, rls0: seq<S>, rlt0: seq<T>, tus: S, rs: seq<T>, rls: seq<S>, rlt: seq<T>)
    requires n <= |ls| && n <= |lt| && |rls0| == |rlt0|
    requires forall i :: 0 <= i < |rls0| ==> rls0[i] in done
    requires forall j :: 0 <= j < n && ls[j] in done && IsMaxTarget(ls, lt, n, ls[j], lt[j])
               ==> exists i :: 0 <= i < |rls0| && rls0[i] == ls[j] && rlt0[i] == lt[j]
    requires forall j :: 0 <= j < n && ls[j] == tus && IsMaxTarget(ls, lt, n, tus, lt[j]) ==> lt[j] in rs
    requires |rls| == |rlt| == |rls0| + |rs|
    requires rls[..|rls0|] == rls0 && rlt[..|rlt0|] == rlt0
    requires forall i :: |rls0| <= i < |rls| ==> rls[i] == tus && rlt[i] == rs[i - |rls0|]
    ensures forall i :: 0 <= i < |rls| ==> rls[i] in done + [tus]
    ensures forall j :: 0 <= j < n && ls[j] in done + [tus] && IsMaxTarget(ls, lt, n, ls[j], lt[j])
              ==> exists i :: 0 <= i < |rls| && rls[i] == ls[j] && rlt[i] == lt[j]
  {
    forall i | 0 <= i < |rls| ensures rls[i] in done + [tus] {
      if i < |rls0| { assert rls[i] == rls0[i]; }
    }
    forall j | 0 <= j < n && ls[j] in done + [tus] && IsMaxTarget(ls, lt, n, ls[j], lt[j])
      ensures exists i :: 0 <= i < |rls| && rls[i] == ls[j] && rlt[i] == lt[j]
    {
      if ls[j] == tus {
        var m :| 0 <= m < |rs| && rs[m] == lt[j];
        assert rls[|rls0| + m] == ls[j] && rlt[|rls0| + m] == lt[j];
      } else {
        var i :| 0 <= i < |rls0| && rls0[i] == ls[j] && rlt0[i] == lt[j];
        assert rls[i] == rls0[i] && rlt[i] == rlt0[i];
      }
    }
  }

  /** Emitting the chosen targets of a new source keeps the output sound. */
  lemma ExtendSound<S, T>(ls: seq<S>, lt: seq<T>, n: nat, rls0: seq<S>, rlt0: seq<T>, tus: S, rs: seq<T>, rls: seq<S>, rlt: seq<T>)
    requires n <= |ls| && n <= |lt|
    requires SoundOutput(ls, lt, n, rls0, rlt0)
    requires forall i :: 0 <= i < |rls0| ==> rls0[i] != tus
    requires Distinct(rs)
    requires forall t :: t in rs ==> Count(ls, lt, n, tus, t) > 0 && IsMaxTarget(ls, lt, n, tus, t)
    requires |rls| == |rlt| == |rls0| + |rs|
    requires rls[..|rls0|] == rls0 && rlt[..|rlt0|] == rlt0
    requires forall i :: |rls0| <= i < |rls| ==> rls[i] == tus && rlt[i] == rs[i - |rls0|]
    ensures SoundOutput(ls, lt, n, rls, rlt)
  {
    forall i | 0 <= i < |rls| ensures Count(ls, lt, n, rls[i], rlt[i]) > 0 && IsMaxTarget(ls, lt, n, rls[i], rlt[i]) {
      if i < |rls0| {
        assert rls[i] == rls0[i] && rlt[i] == rlt0[i];
      } else {
        assert rs[i - |rls0|] in rs;
      }
    }
    forall i, k | 0 <= i < k < |rls| ensures rls[i] != rls[k] || rlt[i] != rlt[k] {
      if k < |rls0| {
        assert rls[i] == rls0[i] && rlt[i] == rlt0[i] && rls[k] == rls0[k] && rlt[k] == rlt0[k];
      } else if i < |rls0| {
        assert rls[i] == rls0[i];
      }
    }
  }

  /** The emitting loop for one source: (tus, t) for each chosen target t. */
  method AppendPairs<S, T>(rls0: seq<S>, rlt0: seq<T>, tus: S, rs: seq<T>) returns (rls: seq<S>, rlt: seq<T>)
    requires |rls0| == |rlt0|
    ensures |rls| == |rlt| == |rls0| + |rs|
    ensures rls[..|rls0|] == rls0 && rlt[..|rlt0|] == rlt0
    ensures forall i :: |rls0| <= i < |rls| ==> rls[i] == tus && rlt[i] == rs[i - |rls0|]
  {
    rls, rlt := rls0, rlt0;
    for m := 0 to |rs|
      invariant |rls| == |rlt| == |rls0| + m
      invariant rls[..|rls0|] == rls0 && rlt[..|rlt0|] == rlt0
      invariant forall i :: |rls0| <= i < |rls| ==> rls[i] == tus && rlt[i] == rs[i - |rls0|]
    {
      rls, rlt := rls + [tus], rlt + [rs[m]];
    }
  }

  /** What the inner loop gives for one source s: its chosen targets are the
      maximal ones that occur with it, and every maximal one is chosen. */
  lemma SourceBlock<S, T>(ls: seq<S>, lt: seq<T>, n: nat, s: S, cnt: map<T, nat>, order: seq<T>, maxf: nat, rs: seq<T>)
    requires n <= |ls| && n <= |lt|
    requires forall t :: t in order <==> t in cnt
    requires forall t :: t in cnt <==> Count(ls, lt, n, s, t) > 0
    requires forall t :: t in cnt ==> cnt[t] == Count(ls, lt, n, s, t)
    requires forall t :: t in order ==> cnt[t] <= maxf
    requires forall t :: t in rs ==> t in order && cnt[t] == maxf
    requires forall t :: t in order && cnt[t] == maxf ==> t in rs
    requires order != [] ==> rs != []
    ensures forall t :: t in rs ==> Count(ls, lt, n, s, t) > 0 && IsMaxTarget(ls, lt, n, s, t)
    ensures forall j :: 0 <= j < n && ls[j] == s && IsMaxTarget(ls, lt, n, s, lt[j]) ==> lt[j] in rs
  {
    forall t | t in rs ensures IsMaxTarget(ls, lt, n, s, t) {
      forall j | 0 <= j < n && ls[j] == s ensures Count(ls, lt, n, s, lt[j]) <= Count(ls, lt, n, s, t) {
        assert Count(ls, lt, n, s, lt[j]) > 0;
      }
    }
    forall j | 0 <= j < n && ls[j] == s && IsMaxTarget(ls, lt, n, s, lt[j]) ensures lt[j] in rs {
      assert Count(ls, lt, n, s, lt[j]) > 0;
      assert order != [];
      var t := rs[0];
      assert t in rs;
      assert Count(ls, lt, n, s, t) > 0;
      var j' :| 0 <= j' < n && ls[j'] == s && lt[j'] == t;
      assert Count(ls, lt, n, s, lt[j']) <= Count(ls, lt, n, s, lt[j]);
    }
  }

  /* ---------- dict_insert_list, dict_insert_set ---------- */

  /** A nested dictionary: every entry is a sub-dictionary or a leaf container
      (a list for dict_insert_list, a set for dict_insert_set). */
  datatype Nest<K, C> = Sub(m: map<K, Nest<K, C>>) | Leaf(c: C)

  /** The entry at a key path, if the path leads through sub-dictionaries. */
  function Lookup<K, C>(m: map<K, Nest<K, C>>, path: seq<K>): Option<Nest<K, C>>
    decreases |path|
  {
    if path == [] || path[0] !in m then None
    else if |path| == 1 then Some(m[path[0]])
    else
      match m[path[0]]
      case Sub(m') => Lookup(m', path[1..])
      case Leaf(_) => None
  }

  /** The container at the end of the path, if there is one. */
  function Held<K, C>(m: map<K, Nest<K, C>>, path: seq<K>): Option<C>
  {
    match Lookup(m, path)
    case Some(Leaf(c)) => Some(c)
    case _ => None
  }

  /** Where the source raises: an empty path, a container met before the last
      key, or a sub-dictionary at the last key that `quiet` does not accept
      (dict_insert_list accepts none; dict_insert_set accepts one that has the
      value as a key, since `value not in _dset` then skips the `add`). */
  function Blocked<K, C>(m: map<K, Nest<K, C>>, path: seq<K>, quiet: map<K, Nest<K, C>> -> bool): bool
    decreases |path|
  {
    if path == [] then true
    else if |path| == 1 then path[0] in m && m[path[0]].Sub? && !quiet(m[path[0]].m)
    else if path[0] !in m then false
    else
      match m[path[0]]
      case Sub(m') => Blocked(m', path[1..], quiet)
      case Leaf(_) => true
  }

  /** The path ends at a sub-dictionary. */
  predicate EndsInSub<K, C>(m: map<K, Nest<K, C>>, path: seq<K>)
  {
    Lookup(m, path).Some? && Lookup(m, path).value.Sub?
  }

  /** The two paths part ways at some position. */
  ghost predicate Diverge<K>(p: seq<K>, q: seq<K>)
  {
    exists i :: 0 <= i < |p| && i < |q| && p[i] != q[i]
  }

  /** The recursion shared by dict_insert_list and dict_insert_set: walk the
      path, creating missing sub-dictionaries, and replace the container at its
      end by add(old container); a sub-dictionary at the end that `quiet`
      accepts is left as it is. */
  function InsertAt<K(!new), C>(m: map<K, Nest<K, C>>, path: seq<K>, add: Option<C> -> C, quiet: map<K, Nest<K, C>> -> bool)
    : (r: Option<map<K, Nest<K, C>>>)
    ensures r.None? <==> Blocked(m, path, quiet)
    ensures r.Some? && EndsInSub(m, path) ==> r.value == m
    ensures r.Some? && !EndsInSub(m, path) ==> Held(r.value, path) == Some(add(Held(m, path)))
    ensures r.Some? ==> forall p :: Diverge(p, path) ==> Lookup(r.value, p) == Lookup(m, p)
    decreases |path|
  {
    if path == [] then None
    else
      var k := path[0];
      if |path| == 1 then
        if k in m then
          match m[k]
          case Leaf(c) => Some(m[k := Leaf(add(Some(c)))])
          case Sub(m') => if quiet(m') then Some(m) else None
        else Some(m[k := Leaf(add(None))])
      else
        var sub: Option<map<K, Nest<K, C>>> :=
          if k !in m then Some(map[]) else match m[k] case Sub(m') => Some(m') case Leaf(_) => None;
        match sub
        case None => None
        case Some(m') =>
          match InsertAt(m', path[1..], add, quiet)
          case None => None
          case Some(m'') =>
            if EndsInSub(m', path[1..]) then
              InsertQuiet(m, path, m');
              Some(m[k := Sub(m'')])
            else
              InsertDeeper(m, path, m', m'', add(Held(m', path[1..])));
              Some(m[k := Sub(m'')])
  }

  /** A path that ends at a sub-dictionary below the first key does so in the
      sub-dictionary there, and putting that sub-dictionary back changes
      nothing. */
  lemma InsertQuiet<K, C>(m: map<K, Nest<K, C>>, path: seq<K>, m': map<K, Nest<K, C>>)
    requires |path| > 1
    requires (path[0] in m && m[path[0]] == Sub(m')) || (path[0] !in m && m' == map[])
    requires EndsInSub(m', path[1..])
    ensures path[0] in m && m[path[0] := Sub(m')] == m
    ensures EndsInSub(m, path)
  {
  }

  /** Replacing the sub-dictionary at the first key by one updated along the
      rest of the path updates the whole dictionary along the path. */
  lemma InsertDeeper<K, C>(m: map<K, Nest<K, C>>, path: seq<K>, m': map<K, Nest<K, C>>, m'': map<K, Nest<K, C>>, c: C)
    requires |path| > 1
    requires (path[0] in m && m[path[0]] == Sub(m')) || (path[0] !in m && m' == map[])
    requires Held(m'', path[1..]) == Some(c)
    requires forall p :: Diverge(p, path[1..]) ==> Lookup(m'', p) == Lookup(m', p)
    requires !EndsInSub(m', path[1..])
    ensures Held(m[path[0] := Sub(m'')], path) == Some(c)
    ensures Held(m', path[1..]) == Held(m, path)
    ensures !EndsInSub(m, path)
    ensures forall p :: Diverge(p, path) ==> Lookup(m[path[0] := Sub(m'')], p) == Lookup(m, p)
  {
    var k := path[0];
    var r := m[k := Sub(m'')];
    forall p | Diverge(p, path) ensures Lookup(r, p) == Lookup(m, p) {
      if |p| > 1 && p[0] == k {
        var i :| 0 <= i < |p| && i < |path| && p[i] != path[i];
        assert p[1..][i - 1] != path[1..][i - 1];
        assert Diverge(p[1..], path[1..]);
      }
    }
  }

  /** No sub-dictionary at the last key is accepted. */
  function NoSub<K, C>(s: map<K, Nest<K, C>>): bool
  {
    false
  }

  /** A sub-dictionary at the last key is accepted when `value` is one of its
      keys. */
  function HasKey<K, C>(value: K): map<K, Nest<K, C>> -> bool
  {
    s => value in s
  }

  /** dict_insert_list: appends value to the list at the key path, creating
      the list and any missing sub-dictionaries; a sub-dictionary at the last
      key has no `append`, so the call fails there. */
  function DictInsertList<K(!new), V>(m: map<K, Nest<K, seq<V>>>, value: V, path: seq<K>): (r: Option<map<K, Nest<K, seq<V>>>>)
    ensures r.None? <==> Blocked(m, path, NoSub)
    ensures r.Some? ==> Held(r.value, path) == Some(if Held(m, path).Some? then Held(m, path).value + [value] else [value])
    ensures r.Some? ==> forall p :: Diverge(p, path) ==> Lookup(r.value, p) == Lookup(m, p)
  {
    var r := InsertAt(m, path, (o: Option<seq<V>>) => if o.Some? then o.value + [value] else [value], NoSub);
    if r.Some? then NoSubAtEnd(m, path); r else r
  }

  /** With no sub-dictionary accepted at the last key, a path that is not
      blocked does not end at one. */
  lemma {:induction false} NoSubAtEnd<K, C>(m: map<K, Nest<K, C>>, path: seq<K>)
    requires !Blocked(m, path, NoSub)
    ensures !EndsInSub(m, path)
    decreases |path|
  {
    if |path| > 1 && path[0] in m && m[path[0]].Sub? {
      NoSubAtEnd(m[path[0]].m, path[1..]);
    }
  }

  /** dict_insert_set: adds value to the set at the key path, creating the
      set and any missing sub-dictionaries. Keys and values are one type, as
      for Python's hashable objects: a sub-dictionary at the last key that
      already has value as a key passes the `value not in _dset` test and is
      left unchanged, while any other sub-dictionary there fails in `add`. */
  function DictInsertSet<K(!new)>(m: map<K, Nest<K, set<K>>>, value: K, path: seq<K>): (r: Option<map<K, Nest<K, set<K>>>>)
    ensures r.None? <==> Blocked(m, path, HasKey(value))
    ensures r.Some? && EndsInSub(m, path) ==> r.value == m
    ensures r.Some? && !EndsInSub(m, path) ==>
      Held(r.value, path) == Some(if Held(m, path).Some? then Held(m, path).value + {value} else {value})
    ensures r.Some? ==> forall p :: Diverge(p, path) ==> Lookup(r.value, p) == Lookup(m, p)
  {
    InsertAt(m, path, (o: Option<set<K>>) => if o.Some? then o.value + {value} else {value}, HasKey(value))
  }

  /** A path that ends at a sub-dictionary: dict_insert_set leaves the
      dictionary as it is when value is already a key there, and fails
      otherwise. */
  lemma {:induction false} InsertSetAtSub<K(!new)>(m: map<K, Nest<K, set<K>>>, value: K, path: seq<K>, s: map<K, Nest<K, set<K>>>)
    requires Lookup(m, path) == Some(Sub(s))
    ensures value in s ==> DictInsertSet(m, value, path) == Some(m)
    ensures value !in s ==> DictInsertSet(m, value, path).None?
    decreases |path|
  {
    if |path| > 1 {
      InsertSetAtSub(m[path[0]].m, value, path[1..], s);
    }
  }

  /** Inserting into a set that already holds the value changes nothing. */
  lemma {:induction false} InsertSetPresent<K(!new)>(m: map<K, Nest<K, set<K>>>, value: K, path: seq<K>)
    requires Held(m, path).Some? && value in Held(m, path).value
    ensures DictInsertSet(m, value, path) == Some(m)
    decreases |path|
  {
    var k := path[0];
    if |path| == 1 {
      var c := m[k].c;
      assert c + {value} == c;
      assert m[k := Leaf(c)] == m;
    } else {
      var m' := m[k].m;
      assert Held(m', path[1..]) == Held(m, path);
      InsertSetPresent(m', value, path[1..]);
      assert m[k := Sub(m')] == m;
    }
  }

  /** dict_insert_set is idempotent: inserting the same value twice is
      inserting it once. */
  lemma DictInsertSetIdempotent<K(!new)>(m: map<K, Nest<K, set<K>>>, value: K, path: seq<K>)
    requires DictInsertSet(m, value, path).Some?
    ensures DictInsertSet(DictInsertSet(m, value, path).value, value, path) == DictInsertSet(m, value, path)
  {
    var r := DictInsertSet(m, value, path).value;
    if EndsInSub(m, path) {
      assert r == m;
    } else {
      InsertSetPresent(r, value, path);
    }
  }

  /* ---------- ldvocab ---------- */

  /** One line of a vocabulary file: a frequency and the words sharing it. */
  datatype VocabLine = VocabLine(freq: int, words: seq<string>)

  /** The line is read: no threshold (minf 0), or a frequency above it. */
  predicate Passes(line: VocabLine, minf: nat)
  {
    minf == 0 || line.freq > minf
  }

  /** The words of the lines before the first line that fails the threshold. */
  function PassingWords(lines: seq<VocabLine>, minf: nat): seq<string>
  {
    if lines == [] || !Passes(lines[0], minf) then []
    else lines[0].words + PassingWords(lines[1..], minf)
  }

  /** The first omitVsize words of ws (all of them when omitVsize is 0). */
  function Limit(ws: seq<string>, omitVsize: nat): (r: seq<string>)
    ensures r <= ws
    ensures omitVsize > 0 ==> |r| <= omitVsize
    ensures omitVsize == 0 || |ws| <= omitVsize ==> r == ws
  {
    if omitVsize > 0 && |ws| > omitVsize then ws[..omitVsize] else ws
  }

  /** The words ldvocab admits, in file order. */
  function Admitted(lines: seq<VocabLine>, minf: nat, omitVsize: nat): seq<string>
  {
    Limit(PassingWords(lines, minf), omitVsize)
  }

  /** Words receive consecutive ids from start, in order, each overwriting
      what the vocabulary held for it. */
  function AssignIds<W(==)>(base: map<W, int>, ws: seq<W>, start: int): map<W, int>
  {
    if ws == [] then base
    else AssignIds(base, ws[..|ws| - 1], start)[ws[|ws| - 1] := start + |ws| - 1]
  }

  /** The assigned words join the vocabulary; nothing else does. */
  lemma {:induction false} AssignIdsKeys<W>(base: map<W, int>, ws: seq<W>, start: int)
    ensures forall w :: w in AssignIds(base, ws, start) <==> w in base || w in ws
  {
    if ws != [] {
      var init := ws[..|ws| - 1];
      AssignIdsKeys(base, init, start);
      assert ws == init + [ws[|ws| - 1]];
    }
  }

  /** Base entries of unassigned words are kept. */
  lemma {:induction false} AssignIdsKept<W>(base: map<W, int>, ws: seq<W>, start: int)
    ensures forall w :: w in base && w !in ws ==> w in AssignIds(base, ws, start) && AssignIds(base, ws, start)[w] == base[w]
  {
    if ws != [] {
      var init := ws[..|ws| - 1];
      AssignIdsKept(base, init, start);
      assert ws == init + [ws[|ws| - 1]];
    }
  }

  /** A word gets the id of its last occurrence. */
  lemma {:induction false} AssignIdsLast<W>(base: map<W, int>, ws: seq<W>, start: int)
    ensures forall i :: 0 <= i < |ws| && (forall j :: i < j < |ws| ==> ws[j] != ws[i]) ==>
              ws[i] in AssignIds(base, ws, start) && AssignIds(base, ws, start)[ws[i]] == start + i
  {
    if ws != [] {
      var n := |ws| - 1;
      var init := ws[..n];
      var m := AssignIds(base, init, start);
      assert AssignIds(base, ws, start) == m[ws[n] := start + n];
      AssignIdsLast(base, init, start);
      forall i | 0 <= i < n && (forall j :: i < j < |ws| ==> ws[j] != ws[i])
        ensures ws[i] in AssignIds(base, ws, start) && AssignIds(base, ws, start)[ws[i]] == start + i
      {
        assert ws[n] != ws[i] && init[i] == ws[i];
        assert forall j :: i < j < n ==> init[j] == ws[j];
        assert ws[i] in m && m[ws[i]] == start + i;
      }
    }
  }

  /** Every assigned word has an id in [start, start + |ws|). */
  lemma {:induction false} AssignIdsRange<W>(base: map<W, int>, ws: seq<W>, start: int)
    ensures forall w :: w in ws ==> w in AssignIds(base, ws, start) && start <= AssignIds(base, ws, start)[w] < start + |ws|
  {
    if ws != [] {
      var init := ws[..|ws| - 1];
      AssignIdsRange(base, init, start);
      assert ws == init + [ws[|ws| - 1]];
    }
  }

  /** What the assignment holds: base entries of unassigned words are kept; an
      assigned word has the id of its last occurrence, which lies in
      [start, start + |ws|). */
  lemma AssignIdsLookup<W>(base: map<W, int>, ws: seq<W>, start: int)
    ensures forall w :: w in AssignIds(base, ws, start) <==> w in base || w in ws
    ensures forall w :: w in base && w !in ws ==> AssignIds(base, ws, start)[w] == base[w]
    ensures forall i :: 0 <= i < |ws| && (forall j :: i < j < |ws| ==> ws[j] != ws[i]) ==> AssignIds(base, ws, start)[ws[i]] == start + i
    ensures forall w :: w in ws ==> start <= AssignIds(base, ws, start)[w] < start + |ws|
  {
    AssignIdsKeys(base, ws, start);
    AssignIdsKept(base, ws, start);
    AssignIdsLast(base, ws, start);
    AssignIdsRange(base, ws, start);
  }

  /** Assigning ids to a + b is assigning to a, then to b from where a stopped. */
  lemma {:induction false} AssignIdsAppend<W>(base: map<W, int>, a: seq<W>, b: seq<W>, start: int)
    ensures AssignIds(base, a + b, start) == AssignIds(AssignIds(base, a, start), b, start + |a|)
  {
    if b == [] {
      assert a + b == a;
    } else {
      var b' := b[..|b| - 1];
      AssignIdsAppend(base, a, b', start);
      assert (a + b)[..|a + b| - 1] == a + b';
    }
  }

  /** The inner loop: ids cwd, cwd + 1, ... for the words of one line. */
  method AssignWords(rs0: map<string, int>, cwd0: int, words: seq<string>) returns (rs: map<string, int>, cwd: int)
    ensures rs == AssignIds(rs0, words, cwd0)
    ensures cwd == cwd0 + |words|
  {
    rs, cwd := rs0, cwd0;
    for j := 0 to |words|
      invariant rs == AssignIds(rs0, words[..j], cwd0)
      invariant cwd == cwd0 + j
    {
      rs := rs[words[j] := cwd];
      cwd := cwd + 1;
      assert words[..j + 1][..j] == words[..j];
    }
    assert words[..|words|] == words;
  }

  /** The words ldvocab takes from one passing line with vsize words still
      allowed (0: no limit). */
  function LineTake(vsize: int, n: nat): (k: nat)
    ensures k <= n
  {
    if vsize > 0 && vsize < n then vsize else n
  }

  /** The body of ldvocab's loop for a line that passes the threshold: assign
      ids to its words, all of them or the first vsize; stop once the limit
      is used up. */
  method AdmitLine(rs0: map<string, int>, cwd0: int, vsize0: int, words: seq<string>)
    returns (rs: map<string, int>, cwd: int, vsize: int, stop: bool)
    requires vsize0 >= 0
    ensures rs == AssignIds(rs0, words[..LineTake(vsize0, |words|)], cwd0)
    ensures cwd == cwd0 + LineTake(vsize0, |words|)
    ensures stop <==> vsize0 > 0 && vsize0 <= |words|
    ensures !stop ==> vsize == (if vsize0 == 0 then 0 else vsize0 - |words|) && vsize >= 0
  {
    vsize := vsize0;
    stop := false;
    if vsize != 0 {
      var ndata := |words|;
      if vsize >= ndata {
        assert words[..ndata] == words;
        rs, cwd := AssignWords(rs0, cwd0, words);
        vsize := vsize - ndata;
        if vsize <= 0 {
          stop := true;
        }
      } else {
        rs, cwd := AssignWords(rs0, cwd0, words[..vsize]);
        stop := true;
      }
    } else {
      assert words[..|words|] == words;
      rs, cwd := AssignWords(rs0, cwd0, words);
    }
  }

  /** ldvocab over the already split lines of a vocabulary file: the base
      vocabulary (none when vanilla) extended with the admitted words, and
      the next unused id. */
  method LdVocab(lines: seq<VocabLine>, minf: nat, omitVsize: nat, vanilla: bool, useUnk: bool)
    returns (rs: map<string, int>, cwd: int)
    ensures var start := if vanilla then 0 else InitNormalTokenId(useUnk);
            rs == AssignIds(if vanilla then map[] else InitVocab(useUnk), Admitted(lines, minf, omitVsize), start)
            && cwd == start + |Admitted(lines, minf, omitVsize)|
  {
    var start := if vanilla then 0 else InitNormalTokenId(useUnk);
    var base := if vanilla then map[] else InitVocab(useUnk);
    rs, cwd := AdmitLines(lines, minf, omitVsize, base, start);
  }

  /** The line loop of ldvocab, from the vocabulary `base` and the first
      free id `start`. */
  method AdmitLines(lines: seq<VocabLine>, minf: nat, omitVsize: nat, base: map<string, int>, start: int)
    returns (rs: map<string, int>, cwd: int)
    ensures rs == AssignIds(base, Admitted(lines, minf, omitVsize), start)
    ensures cwd == start + |Admitted(lines, minf, omitVsize)|
  {
    rs, cwd := base, start;
    var vsize: int := omitVsize;
    ghost var taken: seq<string> := [];
    ghost var goal := Admitted(lines, minf, omitVsize);
    var i := 0;
    while i < |lines|
      invariant i <= |lines|
      invariant AdmitState(lines, i, minf, omitVsize, base, start, goal, taken, vsize, rs, cwd)
    {
      var stop;
      rs, cwd, vsize, taken, stop := AdmitTurn(lines, i, minf, omitVsize, base, start, goal, taken, vsize, rs, cwd);
      if stop {
        return;
      }
      i := i + 1;
    }
    assert taken + PassingWords(lines[i..], minf) == taken;
  }

  /** The loop state of ldvocab before line i: `taken` are the words
      admitted so far, `vsize` the limit left, and `rs`, `cwd` the
      vocabulary and next id after assigning them. */
  ghost predicate AdmitState(lines: seq<VocabLine>, i: nat, minf: nat, omitVsize: nat, base: map<string, int>, start: int,
                             goal: seq<string>, taken: seq<string>, vsize: int, rs: map<string, int>, cwd: int)
    requires i <= |lines|
  {
    goal == Limit(taken + PassingWords(lines[i..], minf), omitVsize) &&
    (omitVsize > 0 ==> 0 < vsize == omitVsize - |taken|) &&
    (omitVsize == 0 ==> vsize == 0) &&
    rs == AssignIds(base, taken, start) && cwd == start + |taken|
  }

  /** One turn of the line loop of ldvocab: a failing line ends the loop, a
      passing one is admitted up to the limit, which may end it too. */
  method AdmitTurn(lines: seq<VocabLine>, i: nat, minf: nat, omitVsize: nat, base: map<string, int>, start: int,
                   ghost goal: seq<string>, ghost taken: seq<string>, vsize: int, rs: map<string, int>, cwd: int)
    returns (rs': map<string, int>, cwd': int, vsize': int, ghost taken': seq<string>, stop: bool)
    requires i < |lines| && AdmitState(lines, i, minf, omitVsize, base, start, goal, taken, vsize, rs, cwd)
    ensures stop ==> rs' == AssignIds(base, goal, start) && cwd' == start + |goal|
    ensures !stop ==> AdmitState(lines, i + 1, minf, omitVsize, base, start, goal, taken', vsize', rs', cwd')
  {
    var data := lines[i];
    if !Passes(data, minf) {
      StopAtFailing(lines, i, minf, taken, omitVsize);
      return rs, cwd, vsize, taken, true;
    }
    ghost var k := LineTake(vsize, |data.words|);
    AdmitStep(lines, i, minf, taken, omitVsize, vsize);
    AssignIdsAppend(base, taken, data.words[..k], start);
    rs', cwd', vsize', stop := AdmitLine(rs, cwd, vsize, data.words);
    taken' := taken + data.words[..k];
  }

  /** One passing line in ldvocab: either it uses up the limit, and the
      admitted words are what has been taken with it, or it is taken whole
      and the rest of the file decides. */
  lemma AdmitStep(lines: seq<VocabLine>, i: nat, minf: nat, taken: seq<string>, omitVsize: nat, vsize: int)
    requires i < |lines| && Passes(lines[i], minf)
    requires omitVsize > 0 ==> 0 < vsize == omitVsize - |taken|
    requires omitVsize == 0 ==> vsize == 0
    ensures var w := lines[i].words;
            var k := LineTake(vsize, |w|);
            var full := Limit(taken + PassingWords(lines[i..], minf), omitVsize);
            (vsize > 0 && vsize <= |w| ==> full == taken + w[..k])
            && (!(vsize > 0 && vsize <= |w|) ==>
                  k == |w| && full == Limit((taken + w[..k]) + PassingWords(lines[i + 1..], minf), omitVsize))
  {
    var w := lines[i].words;
    var k := LineTake(vsize, |w|);
    var rest := PassingWords(lines[i + 1..], minf);
    PassingStep(lines, i, minf, taken);
    if vsize > 0 && vsize <= |w| {
      if k == |w| {
        assert w[..k] == w;
        LimitExact(taken + w, rest, omitVsize);
      } else {
        LimitPart(taken, w, rest, omitVsize);
      }
    } else {
      assert w[..k] == w;
    }
  }

  /** A passing line contributes its words ahead of the later lines'. */
  lemma PassingStep(lines: seq<VocabLine>, i: nat, minf: nat, taken: seq<string>)
    requires i < |lines| && Passes(lines[i], minf)
    ensures taken + PassingWords(lines[i..], minf) == (taken + lines[i].words) + PassingWords(lines[i + 1..], minf)
  {
    assert lines[i..][1..] == lines[i + 1..];
  }

  /** At a failing line nothing more is read: the limit keeps what was taken. */
  lemma StopAtFailing(lines: seq<VocabLine>, i: nat, minf: nat, taken: seq<string>, omitVsize: nat)
    requires i < |lines| && !Passes(lines[i], minf)
    requires omitVsize > 0 ==> |taken| < omitVsize
    ensures Limit(taken + PassingWords(lines[i..], minf), omitVsize) == taken
  {
    assert taken + PassingWords(lines[i..], minf) == taken;
  }

  /** A prefix that already has exactly the limit is what the limit keeps. */
  lemma LimitExact(a: seq<string>, b: seq<string>, omitVsize: nat)
    requires 0 < omitVsize == |a|
    ensures Limit(a + b, omitVsize) == a
  {
    if |b| > 0 {
      assert (a + b)[..omitVsize] == a;
    } else {
      assert a + b == a;
    }
  }

  /** Stopping inside a line keeps the words up to the limit. */
  lemma LimitPart(a: seq<string>, w: seq<string>, b: seq<string>, omitVsize: nat)
    requires |a| < omitVsize < |a| + |w|
    ensures Limit((a + w) + b, omitVsize) == a + w[..omitVsize - |a|]
  {
    assert ((a + w) + b)[..omitVsize] == a + w[..omitVsize - |a|];
  }

  /** The words admitted stop at the first line at or below the threshold:
      no word of a later line is read. */
  lemma {:induction false} PassingWordsStop(lines: seq<VocabLine>, minf: nat, k: nat)
    requires k < |lines| && !Passes(lines[k], minf)
    ensures PassingWords(lines, minf) == PassingWords(lines[..k], minf)
  {
    if k > 0 && Passes(lines[0], minf) {
      assert lines[1..][k - 1] == lines[k];
      PassingWordsStop(lines[1..], minf, k - 1);
      assert lines[..k][1..] == lines[1..][..k - 1];
    }
  }

  /** Every id in the loaded vocabulary is below the returned next id. */
  lemma LdVocabNextUnused(lines: seq<VocabLine>, minf: nat, omitVsize: nat, vanilla: bool, useUnk: bool)
    ensures var start := if vanilla then 0 else InitNormalTokenId(useUnk);
            var ws := Admitted(lines, minf, omitVsize);
            var rs := AssignIds(if vanilla then map[] else InitVocab(useUnk), ws, start);
            forall w :: w in rs ==> rs[w] < start + |ws|
  {
    var start := if vanilla then 0 else InitNormalTokenId(useUnk);
    AssignIdsLookup(if vanilla then map[] else InitVocab(useUnk), Admitted(lines, minf, omitVsize), start);
  }
}
