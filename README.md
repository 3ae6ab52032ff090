# Decoding and data-formatting core of a Transformer NMT toolkit

This project models, in Dafny, the bookkeeping that surrounds the neural
network in a PyTorch neural machine translation toolkit:

* **Decoding** (`transformer/Decoder.py`, `transformer/TA/Decoder.py`,
  `transformer/SC/Decoder.py`, `transformer/PLM/BART/Decoder.py`). The model covers:
  * greedy decoding;
  * beam search: top-K over K*K candidates, parent gathering, done flags, the
    length penalty, early stop, the final re-ranking and `fill_pad`;
  * greedy decoding and beam search with batch clipping, where finished
    examples are retired and the `mapper` list of live examples is compacted
    in place;
  * the variant constants that separate the four decoders.

  The network is an oracle: `net(e, h, j)` is the j-th best (log-probability,
  token) pair that the decoder proposes for encoder row `e` after the fed
  tokens `h`.
* **Tensor and list utilities** (`utils/base.py`):
  * `all_done`, `pad_tensors`, `clear_pad`, `eq_indexes`;
  * beam replication (`repeat_bsize_for_beam_tensor`, `expand_bsize_for_beam`,
    `index_tensors`), `select_zero_` and `remove_layers`;
  * `float2odd`, `divide_para_ind` and `reorder_by_sort`;
  * the `holder` dictionary and the `bestfkeeper` checkpoint keeper.
* **Text formatting** (`utils/fmt/base.py`):
  * `ldvocab`, `reverse_dict` and `get_bsize`;
  * the clean functions, the unknown-word mappers, `map_batch` and `pad_batch`;
  * `maxfreq_filter_core` and the nested dictionary inserts;
  * the `iter_check_func` family.
* **Batch loaders**:
  * `utils/fmt/mulang/eff/dual.py`: multilingual source/target pairs with a task tag.
  * `utils/fmt/triple.py`: source/reference/score triples.

  Each has its `batch_loader`, `batch_mapper` and `batch_padder`.

Files:

| file | module | content |
|---|---|---|
| `wrappers.dfy` | `Wrappers` | `Option` |
| `arith.dfy` | `Arith` | division facts used for the B*K beam layout |
| `search.dfy` | `Search` | the network oracle, variant constants, `all_done` |
| `topk.dfy` | `TopK` | scores with minus infinity and a deterministic `topk` |
| `greedy.dfy` | `Greedy` | `greedy_decode` of all four decoders |
| `beam.dfy`, `beam_facts.dfy` | `Beam`, `BeamFacts` | `beam_decode` of all four decoders and what one step does |
| `beam_fill_pad.dfy` | `BeamFillPad` | the SC/BART `fill_pad` row mix-up (Findings) |
| `clip.dfy` | `Clip` | `greedy_decode_clip`, the slot bookkeeping of both clipped decoders and the retire rule of `beam_decode_clip` |
| `beam_clip.dfy` | `BeamClip` | `beam_decode_clip` of the base decoder |
| `decoders.dfy` | `Decoders` | variant constants, `decode` dispatch, TA layer pairing |
| `utils_base.dfy` | `UtilsBase` | `utils/base.py` |
| `fmt_base.dfy` | `FmtBase` | `utils/fmt/base.py` |
| `loader_rules.dfy` | `LoaderRules` | the admission rule shared by both loaders |
| `fmt_dual.dfy`, `fmt_triple.dfy` | `FmtDual`, `FmtTriple` | the two loaders |

Where the two differ, this model follows the code rather than the prose
documentation:

* the beam done flag of the SC and BART decoders is `eq(2)` (the literal 2),
  while their greedy decoding stops on `eos_id`;
* `_inds / beam_size` in the base and TA decoders is taken as floor division,
  as the SC and BART decoders write `//`;
* the clipped greedy decoder never writes rows that are still active when the
  step limit is reached (see Findings);
* the clipped beam decoder likewise never writes examples that are still live
  when the step limit is reached (see Findings).

Where the code is evidently wrong, the model states both forms (see Findings).
The main model follows the code in every case but one, where it follows the
evidently intended form and keeps the as-written form separately:

* for the SC and BART decoders with `fill_pad`, `Beam.Step`, `Beam.BeamDecode`
  and `Decoders.Decode` mask the appended token with the done flag of the
  beam's parent. The source masks it with the old flag at the same row
  position. That as-written form is modelled only by
  `BeamFillPad.TransAsWritten`.

## Model

| member | source | states |
|---|---|---|
| Search.Cap | transformer/Decoder.py:244 | the number of tokens a row can reach, `max(1, max_len)`, equals `max_len` when that is positive |
| Search.CountTrue | utils/base.py:30-32 | The sum of a flag vector, as `all_done` takes it, is at most the vector's length. |
| Search.AllDoneEvery | utils/base.py:26-32 | the byte variant of `all_done` (count equals length) holds iff every flag is set, as in the bool variant |
| Search.CountTrueZero | utils/base.py:30-32 | no flag is counted iff every flag is clear |
| Search.AllDone | utils/base.py:26-32 | defined here: `all_done`'s byte variant, the flag sum equal to `n`; `Search.AllDoneEvery` states that at `n` = the length it means every flag is set |
| TopK.Plus | transformer/Decoder.py:365 | adding a log-probability keeps a finite route score finite and adds it; minus infinity absorbs it |
| TopK.Over | transformer/Decoder.py:375 | dividing by a positive length penalty keeps finiteness and is exact division |
| TopK.OverMonotone | transformer/Decoder.py:375 | dividing by a positive penalty keeps the order of two scores |
| TopK.AheadTotal | transformer/Decoder.py:379 | the topk order is total over distinct indices |
| TopK.AheadTransitive | transformer/Decoder.py:379 | the topk order is transitive |
| TopK.Insert | transformer/Decoder.py:379 | inserting an index into a ranked list keeps it ranked and adds exactly that index |
| TopK.Order | transformer/Decoder.py:379 | the full order lists each index below n exactly once, best first |
| TopK.Select | transformer/Decoder.py:379 | `topk(k)` returns k ranked indices |
| TopK.SelectBest | transformer/Decoder.py:379 | every index left out ranks behind every selected one |
| TopK.SelectDistinct | transformer/Decoder.py:379 | no index is selected twice |
| TopK.SelectAll | transformer/Decoder.py:426 | selecting all K indices covers every index |
| Greedy.Tokens | transformer/Decoder.py:236-262 | the greedy token sequence of an example has exactly n tokens |
| Greedy.TokensArgmax | transformer/Decoder.py:260 | token t is the argmax the network gives after the start token and tokens 0..t-1 |
| Greedy.TokensPrefix | transformer/Decoder.py:262 | a longer run extends a shorter one: the first m tokens do not depend on when decoding stops |
| Greedy.Shown | transformer/SC/Decoder.py:151 | `fill_pad` keeps the row length |
| Greedy.ShownSnoc | transformer/SC/Decoder.py:151-153 | a new token is replaced by `pad_id` exactly when `fill_pad` is on and the row already holds the stop token |
| Greedy.ShownFirstEos | transformer/SC/Decoder.py:151 | tokens up to the first stop token are kept; later ones become `pad_id` under `fill_pad` and are kept otherwise |
| Greedy.StopFromBounds | transformer/Decoder.py:244-266 | the stop step lies between the current step and the step limit |
| Greedy.StopFromFinished | transformer/Decoder.py:265-266 | when the loop stops before the limit, every example has produced the stop token |
| Greedy.StopFromFirst | transformer/Decoder.py:265-266 | the loop does not stop at any earlier step |
| Greedy.StopFrom | transformer/Decoder.py:244-266 | defined here: the row length at which the greedy loop stops; `Greedy.StopFromBounds`, `Greedy.StopFromFinished` and `Greedy.StopFromFirst` state its bounds and that it is the first step at which every example is done |
| Greedy.StopFromTurn | transformer/Decoder.py:264-266 | one loop turn: stop now when all are done, else continue from the next step |
| Greedy.GreedyLength | transformer/Decoder.py:242-268 | rows have between 1 and `max(1, max_len)` tokens; stopping early means every example finished; no earlier step had them all finished |
| Greedy.GreedyDecode | transformer/Decoder.py:206-268 | every row is the example's greedy token sequence up to the common stop step, with `fill_pad` applied |
| Greedy.FlagsFinished | transformer/Decoder.py:264-265 | the accumulated done flags are all set iff every example's token prefix holds the stop token |
| Greedy.GreedyFirst | transformer/Decoder.py:236-242 | after step 0 each row holds its first argmax token and is done iff that token is the stop token |
| Greedy.GreedyStep | transformer/Decoder.py:244-264 | one step appends the next argmax token to every row and ORs its stop test into the flag |
| Beam.Start | transformer/Decoder.py:315-336 | step 0 fills all B*K beam rows with one token each (contents in `BeamFacts.StartBeam`) |
| Beam.Refresh | transformer/Decoder.py:367-368 | the length-penalty vector keeps its size |
| Beam.ParentRow | transformer/Decoder.py:392 | flat candidate f of example b comes from a parent row inside block b |
| Beam.CandScore | transformer/Decoder.py:364-365 | defined here: the route score of a candidate, with a finished parent's candidates masked by the variant; `BeamFacts.AddZeroCandidates`, `BeamFacts.SlotZeroCandidates`, `BeamFacts.LiveParentScore` and `BeamFacts.DoneParentScore` state it |
| Beam.Key | transformer/Decoder.py:364-375 | defined here: the key a candidate is ranked by, the route score or, under `clip_beam` with a penalty, the route score over the refreshed penalty of the parent row; `BeamFacts.StepScores` and `BeamFacts.PickBest` state it |
| Beam.Keys | transformer/Decoder.py:364-365 | each example ranks K*K candidates |
| Beam.PickOf | transformer/Decoder.py:379-392 | a pick has a flat index below K*K, a slot below K and a parent in its example's block |
| Beam.Choose | transformer/Decoder.py:364-392 | every new row has a valid parent and slot |
| Beam.Step | transformer/Decoder.py:338-399 | a step keeps the B*K shape of every structure |
| Beam.RankZero | transformer/Decoder.py:408 | one rank-0 flag per example |
| Beam.EarlyStop | transformer/Decoder.py:405-414 | defined here: the loop's break test, every beam done, or, without a penalty and without `return_all`, every rank-0 beam done; `BeamFacts.BeamLength`, `BeamFacts.RunStopsFirst` and `BeamClip.RetiredIsEarlyStop` state where it holds |
| Beam.Run | transformer/Decoder.py:338-414 | the loop ends at the step limit, or earlier only when the early-stop test holds, with rows of one common length; it always takes a step while below the limit |
| Beam.At | transformer/Decoder.py:338-399 | stepping on from a shaped state keeps the B*K shape |
| Beam.Row | transformer/Decoder.py:376 | row b*K+i lies in block b at offset i |
| Beam.FinalKeys | transformer/Decoder.py:425 | K final keys per example |
| Beam.FinalRank | transformer/Decoder.py:426 | the final re-ranking picks one of the example's K beams |
| Beam.Rerank | transformer/Decoder.py:424-428 | re-ranking keeps the B*K shape |
| Beam.Finish | transformer/Decoder.py:423-435 | defined here: the final re-ranking and the selection of the rank-0 beams, or with `return_all` all beams and scores; `BeamFacts.RerankRow`, `BeamFacts.RerankOrdered` and `BeamFacts.FinishBest` state it |
| Beam.BeamDecode | transformer/Decoder.py:276-435 | the method's result equals the specification: step 0, the loop to its stop, then the final re-ranking and selection |
| BeamFacts.EncRowExample | transformer/Decoder.py:327 | beam row r reads the encoder row of example r div K |
| BeamFacts.StartBeam | transformer/Decoder.py:315-323 | beam j of example b starts with slot j of the first distribution; its score is that log-probability and it is done iff the token is 2 |
| BeamFacts.PickAt | transformer/Decoder.py:380 | the pick of row b*K+i is beam i of example b |
| BeamFacts.ParentInBlock | transformer/Decoder.py:392 | a new beam's parent is one of the same example's beams, so it reads the same encoder row |
| BeamFacts.PickIndices | transformer/Decoder.py:379-392 | beam i takes rank i of the example's topk; parent = flat div K + b*K, slot = flat mod K |
| BeamFacts.PickBest | transformer/Decoder.py:379 | the K new beams are the example's K best candidates |
| BeamFacts.PickDistinct | transformer/Decoder.py:379 | two beams never take the same candidate |
| BeamFacts.StepToken | transformer/Decoder.py:364-397 | the new token is the parent's candidate at the chosen slot, and the fed history is the parent's plus that token |
| BeamFacts.StepExtends | transformer/Decoder.py:397 | every row grows by one token and starts with its parent's row |
| BeamFacts.StepAppends | transformer/SC/Decoder.py:241-243 | with `fill_pad`, the appended token is `pad_id` exactly when the parent was done |
| BeamFacts.StepDone | transformer/Decoder.py:399 | a beam is done iff its parent was done or its new token is 2 |
| BeamFacts.AddZeroCandidates | transformer/Decoder.py:365 | base and TA: every candidate of a done parent keeps the parent's score |
| BeamFacts.SlotZeroCandidates | transformer/SC/Decoder.py:223-225 | SC and BART: of a done parent's candidates only slot 0 is finite, and it keeps the parent's score |
| BeamFacts.LiveParentScore | transformer/Decoder.py:365-381 | a child of a live parent adds the candidate's log-probability to the parent's score |
| BeamFacts.DoneParentScore | transformer/Decoder.py:365 | base and TA: a child of a done parent keeps the parent's score |
| BeamFacts.DoneParentSlotZero | transformer/SC/Decoder.py:223-235 | SC and BART: a finite child of a done parent took slot 0 and keeps the parent's score |
| BeamFacts.StepPenalty | transformer/Decoder.py:367-407 | a new beam's `lpv` is the step's penalty when its parent was live and the parent's when it was done |
| BeamFacts.StepScores | transformer/Decoder.py:374-381 | with `clip_beam` and a penalty, the kept score is the route score over the parent's penalty; otherwise the route score |
| BeamFacts.RerankRow | transformer/Decoder.py:424-428 | rank i after re-ranking shows the row and normalised score of the beam the final topk chose |
| BeamFacts.RerankCovers | transformer/Decoder.py:426 | re-ranking loses no beam |
| BeamFacts.RerankOrdered | transformer/Decoder.py:426 | re-ranking shows distinct beams in order of normalised score |
| BeamFacts.FinishBest | transformer/Decoder.py:430-435 | without `return_all`, each example's result is its rank-0 beam after any re-ranking, of the common row length |
| BeamFacts.BeamLength | transformer/Decoder.py:338-414 | the search returns rows of 1 to `max(1, max_len)` tokens, the state it returns is the state after that many steps, stopping early means the early-stop test held, and no earlier step met the test |
| BeamFacts.StepShaped | transformer/Decoder.py:338-399 | a step keeps the B*K shape of the state |
| BeamFacts.AtSucc | transformer/Decoder.py:338 | stepping on from the next state reaches the same later state |
| BeamFacts.RunAtBudget | transformer/Decoder.py:338 | at the step limit the loop ends with the state it has |
| BeamFacts.RunStopsNow | transformer/Decoder.py:405-414 | when the next state meets the early-stop test, the loop ends in it |
| BeamFacts.RunGoesOn | transformer/Decoder.py:405-414 | when the next state fails the test below the limit, the loop continues from it |
| BeamFacts.ShiftNoStop | transformer/Decoder.py:405-414 | no early stop from the next state on, and none in it, means none from the current state on |
| BeamFacts.RunIsAt | transformer/Decoder.py:338-414 | the loop's final state is the state reached after its number of steps |
| BeamFacts.RunStopsFirst | transformer/Decoder.py:405-414 | no state before the one the loop ends in meets the early-stop test |
| BeamFillPad.TransAsWritten | transformer/SC/Decoder.py:243 | the row masked by the row's own old flag agrees with the parent-masked row whenever the two flags agree |
| BeamFillPad.FillPadMasksWrongRow | transformer/SC/Decoder.py:243 | on the K=2 example, the source gives `[[2,7],[3,0]]` (live row padded) where parent masking gives `[[2,0],[3,4]]` |
| Clip.FinishFrom | transformer/Decoder.py:529-535 | when a stop step exists it lies after the start and within the limit |
| Clip.FinishFromFirst | transformer/Decoder.py:529 | no stop step iff no stop token in the range; otherwise the stop step follows the first stop token |
| Clip.ClipRow | transformer/Decoder.py:508-557 | defined here: an example's slot as the source leaves it; `Clip.ClipRowUnwritten` states when it is `None` |
| Clip.ClipRowFixed | transformer/Decoder.py:508-557 | defined here: an example's row as evidently intended; `Clip.ClipRowFixedCut` states it |
| Clip.ClipRowUnwritten | transformer/Decoder.py:508-557 | a row is never written iff no stop token occurs at steps 1 .. limit-1 |
| Clip.ClipRowFixedCut | transformer/Decoder.py:529-540 | the corrected row agrees with the source whenever the source writes it, has 1 to `max(1, max_len)` tokens and stops at its first later stop token |
| Clip.Where | transformer/Decoder.py:537-543 | `nonzero()` lists, ascending, exactly the positions with the wanted flag |
| Clip.AscendingAtLeast | transformer/Decoder.py:554-555 | an ascending index list has entry t >= t, so compaction reads ahead of where it writes |
| Clip.Compact | transformer/Decoder.py:554-555 | in place, `mapper[t]` takes the old `mapper[keep[t]]`; entries past the kept prefix are untouched |
| Clip.WriteOut | transformer/Decoder.py:533-540 | each finished row is written to `rs` at its original index through `mapper`; nothing else changes |
| Clip.Advance | transformer/Decoder.py:524-529 | a live row grows by its argmax token; the stop token then fixes its stop step |
| Clip.Partition | transformer/Decoder.py:537-543 | the done and not-done indices split the active rows into two disjoint parts |
| Clip.Written | transformer/Decoder.py:539-540 | every row retired at this step holds its full clipped row |
| Clip.Retire | transformer/Decoder.py:536-555 | after retiring, every written row is final and the remaining rows stay unwritten |
| Clip.Grown | transformer/Decoder.py:524-529 | after one step, every active row has grown by one token and its flag is its stop test |
| Clip.KeepRows | transformer/Decoder.py:543-551 | the surviving rows keep their encoder rows and histories in order |
| Clip.LiveStart | transformer/Decoder.py:501-506 | after step 0 every example is active and nothing is written |
| Clip.GreedyClipStep | transformer/Decoder.py:508-555 | one step keeps the invariant: written rows are final, active rows are unwritten, and `mapper` lists the active rows |
| Clip.Advanced | transformer/Decoder.py:510-529 | every active row is advanced by one argmax token |
| Clip.RetireAll | transformer/Decoder.py:531-535 | when every row finishes, all are written and none stays active |
| Clip.RetiredAll | transformer/Decoder.py:531-535 | the bookkeeping of the all-done branch |
| Clip.RetireSome | transformer/Decoder.py:536-555 | when some rows finish, they are written and the rest stay active in order |
| Clip.Kept | transformer/Decoder.py:543-551 | the gathered encoder rows and histories of the surviving rows |
| Clip.CompactActive | transformer/Decoder.py:554-555 | after compaction, `mapper`'s prefix lists the surviving rows' original indices |
| Clip.WriteRetired | transformer/Decoder.py:537-540 | After a partial retirement, every retired example's slot holds its final row, every surviving example's slot stays empty, and the surviving examples stay listed in ascending order. |
| Clip.RetiredSlots | transformer/Decoder.py:537-543 | the bookkeeping of the partial branch |
| Clip.GreedyClipLoop | transformer/Decoder.py:503-555 | at loop exit the invariant holds at the step limit |
| Clip.GreedyDecodeClip | transformer/Decoder.py:471-557 | as written: row o is its clipped row when some step 1 .. limit-1 produced the stop token, and None otherwise; each row is written at most once |
| Clip.GreedyDecodeClipFixed | transformer/Decoder.py:471-557 | corrected: every row is written exactly once, with its row cut at its first later stop token |
| Clip.FlushSlots | transformer/Decoder.py:557 | flushing the remaining active rows fills every slot |
| Clip.ClipRows | transformer/Decoder.py:508-557 | one clipped row per example |
| Clip.ClipRowsFixed | transformer/Decoder.py:508-557 | one corrected row per example |
| Clip.Flush | transformer/Decoder.py:557 | writing the rows still active fills every slot with its corrected row, each slot written once |
| Clip.Retired | transformer/Decoder.py:699-705 | one retire flag per example |
| Clip.RetiredWhen | transformer/Decoder.py:699-705 | with a penalty or `return_all` an example retires when all K beams are done; otherwise when its rank-0 beam is |
| BeamClip.One | transformer/Decoder.py:565-567 | a one-example batch with the same options |
| BeamClip.ClipBeamRow | transformer/Decoder.py:632-777 | defined here: an example's slot as the source leaves it; `BeamClip.ClipBeamUnwritten` states when it is `None` |
| BeamClip.ClipBeamRowFixed | transformer/Decoder.py:632-777 | defined here: an example's result as evidently intended; `BeamClip.ClipBeamFixedCut` and `BeamClip.TrackEnd` state it |
| BeamClip.ClipBeamUnwritten | transformer/Decoder.py:632-777 | as written: an example's slot stays `None` iff none of the states of 2 .. `max(1, max_len)` tokens that its own beam search reaches meets the early-stop test |
| BeamClip.NoStopUpTo | transformer/Decoder.py:632-724 | the run of one example ends, after at least one step, in a state that meets the early-stop test iff some state of 2 .. `max(1, max_len)` tokens on its way meets it |
| BeamClip.ClipBeamFixedCut | transformer/Decoder.py:709-752 | the corrected row agrees with the source whenever the source writes it; without `return_all` it is the best beam, of 1 to `max(1, max_len)` tokens |
| BeamClip.TrackStart | transformer/Decoder.py:604-612 | step 0 puts every example on track for its own beam search |
| BeamClip.TrackStep | transformer/Decoder.py:658-705 | one step retires an example that meets the early-stop test with its finished result, and keeps any other on track |
| BeamClip.TrackEnd | transformer/Decoder.py:632 | an example still on track at the limit is never written, and the corrected result is its finished state |
| BeamClip.Flags | transformer/Decoder.py:693 | one done flag per beam of the live examples |
| BeamClip.FlagAt | transformer/Decoder.py:693 | flag j*K+i is beam i's flag of example j |
| BeamClip.RetiredIsEarlyStop | transformer/Decoder.py:699-705 | the batch retire flag of an example equals its own early-stop test |
| BeamClip.Want | transformer/Decoder.py:627-777 | one expected slot value per example |
| BeamClip.Advanced | transformer/Decoder.py:632-705 | one step advances every live example's beams, computes its retire flag and its finished result |
| BeamClip.Stepping | transformer/Decoder.py:658-705 | the stepped state matches each example's own search, and a retired example's result is its slot value |
| BeamClip.KeepRows | transformer/Decoder.py:755-771 | the surviving examples keep their encoder rows and beams in order |
| BeamClip.Kept | transformer/Decoder.py:755-771 | gathering the surviving examples keeps the live invariant at the next step |
| BeamClip.BeamClipStep | transformer/Decoder.py:632-777 | one step keeps the invariant: written slots are final, live examples are unwritten, and `mapper` lists the live examples |
| BeamClip.NoneRetired | transformer/Decoder.py:733 | with no example retiring, the invariant holds at the next step unchanged |
| BeamClip.RetireEvery | transformer/Decoder.py:709-724 | when every example retires, all are written and none stays live |
| BeamClip.RetireSome | transformer/Decoder.py:733-777 | when some examples retire, they are written and the rest stay live in order |
| BeamClip.LiveStart | transformer/Decoder.py:604-630 | after step 0 every example is live and nothing is written |
| BeamClip.BeamClipLoop | transformer/Decoder.py:627-777 | at loop exit the invariant holds at the step limit |
| BeamClip.BeamDecodeClip | transformer/Decoder.py:565-777 | as written: slot o is the beam result of example o alone when one of its states of 2 .. `max_len` tokens met the early-stop test, and `None` otherwise; each slot is written at most once |
| BeamClip.FixedRows | transformer/Decoder.py:565-777 | one corrected result per example |
| BeamClip.BeamDecodeClipFixed | transformer/Decoder.py:565-777 | corrected: every slot is written exactly once, with the example's own beam-search result |
| Decoders.Decode | transformer/Decoder.py:196-198 | `beam_size > 1` runs beam search and returns its rows; otherwise greedy; each row has 1 to `max(1, max_len)` tokens |
| Decoders.Pairs | transformer/TA/Decoder.py:80-82 | `zip` pairs the i-th elements up to the shorter length |
| Decoders.TaBeamLayer | transformer/TA/Decoder.py:185-203 | in TA beam search, layer i of beam row r reads slice i of the encoder output of example r div K |
| Decoders.BaseVariant | transformer/Decoder.py:242-365 | defined here: start token 1, stop token 2, finished beams add 0 to every candidate, no `fill_pad`; `Greedy.GreedyDecode` and `BeamFacts.AddZeroCandidates` state their effect |
| Decoders.ScVariant | transformer/SC/Decoder.py:132-245 | defined here: start token 1, stop token 2, finished beams keep only slot 0, `fill_pad` with `pad_id`; `Greedy.ShownSnoc` and `BeamFacts.SlotZeroCandidates` state their effect |
| Decoders.BartVariant | transformer/PLM/BART/Decoder.py:146-287 | defined here: start from `eos_id`'s embedding, greedy stops on `eos_id`, finished beams keep only slot 0, `fill_pad` with `pad_id`; `Greedy.GreedyDecode` and `BeamFacts.SlotZeroCandidates` state their effect |
| UtilsBase.MaxLen | utils/base.py:178-182 | the longest row length: no row is longer and some row attains it |
| UtilsBase.PadTensors | utils/base.py:169-184 | every row is padded with zeros to the longest length, its prefix unchanged; the longest rows stay as they are |
| UtilsBase.MinZeroCount | utils/base.py:188-189 | the minimum pad count over the batch: no row has fewer pads and some row has exactly that many |
| UtilsBase.ClearPad | utils/base.py:186-193 | an empty batch has no result; otherwise every row loses the same `npad` trailing positions and the batch stays rectangular; unchanged when `npad` is 0 |
| UtilsBase.ClearPadDropsOnlyPads | utils/base.py:186-193 | for a batch padded at the end, only pad positions are dropped |
| UtilsBase.RepeatForBeam | utils/base.py:408-415 | row i of the result is input row i div K; K times the rows |
| UtilsBase.ExpandForBeam | utils/base.py:417-432 | nested containers keep their shape; every tensor's row i becomes row i div K of K times as many |
| UtilsBase.IndexTensors | utils/base.py:434-449 | nested containers keep their shape; every tensor's row r becomes input row `indices[r]` |
| UtilsBase.SelectZero | utils/base.py:451-455 | in place, exactly the positions with coordinate `index` are zeroed |
| UtilsBase.KeptIndices | utils/base.py:457-459 | the kept layer indices are ascending, exactly those below n not in `ltr` |
| UtilsBase.RemoveLayers | utils/base.py:457-459 | the result lists, in order, exactly the layers whose index is not in `ltr` |
| UtilsBase.KeptAll | utils/base.py:459 | with nothing to drop every index is kept in order |
| UtilsBase.RemoveNothing | utils/base.py:459 | removing no in-range layer returns the list unchanged |
| UtilsBase.EqIndexes | utils/base.py:225-233 | no result for no indexes; otherwise position i is set iff `tensor[i]` is one of the indexes |
| UtilsBase.Ceil | utils/base.py:554 | `ceil`: the least integer not below x |
| UtilsBase.Float2Odd | utils/base.py:552-558 | the result is even, `ceil(x)` or one below it |
| UtilsBase.CeilDiv | utils/base.py:609 | `ceil(a / b)` characterised by its bounds |
| UtilsBase.Singletons | utils/base.py:605-606 | one range per parameter covers all parameters |
| UtilsBase.GroupStep | utils/base.py:615-630 | one parameter keeps the grouping invariant and closes at most one range |
| UtilsBase.GroupLoop | utils/base.py:614-632 | the loop keeps the invariant and closes at most `ngroup - 1` ranges before the break |
| UtilsBase.LoopRanges | utils/base.py:607-633 | the ranges tile all parameters contiguously |
| UtilsBase.DivideParaIndSpec | utils/base.py:601-633 | the ranges tile the parameters; singletons when there are at most `ngroup`; at most `ngroup` ranges when `ngroup >= 2` |
| UtilsBase.ConsumeSize | utils/base.py:615-630 | the loop body follows the grouping step |
| UtilsBase.GroupTurn | utils/base.py:615-632 | one turn of the grouping loop: a break returns the final grouping, any other turn keeps the invariant and the same final grouping |
| UtilsBase.GroupRun | utils/base.py:614-632 | the grouping loop computes the specified grouping |
| UtilsBase.GroupedRanges | utils/base.py:609-633 | with more parameters than groups, the ranges are the specified ones |
| UtilsBase.SplitByBudget | utils/base.py:611-633 | the loop computes the specified ranges |
| UtilsBase.RangeSums | utils/base.py:636 | the element count of each range |
| UtilsBase.DivideParaInd | utils/base.py:601-638 | the ranges are the specified ones and the counts are their sums |
| UtilsBase.DivideParaIndOneGroup | utils/base.py:613-633 | as written: one group over sizes `[1, 1]` gives two ranges, the second empty |
| UtilsBase.DivideParaIndFixed | utils/base.py:601-638 | corrected: the ranges tile the parameters in at most `ngroup` ranges and agree with the source when `ngroup >= 2` |
| UtilsBase.InsertKey | utils/base.py:650 | inserting a key keeps the key list strictly sorted and adds exactly that key |
| UtilsBase.SortKeys | utils/base.py:650 | `sorted(td.keys())`: strictly sorted, exactly the keys |
| UtilsBase.SortedUnique | utils/base.py:650 | two strictly sorted lists with the same elements are equal |
| UtilsBase.ReorderBySort | utils/base.py:640-658 | no result for no pairs; otherwise the values grouped by sorted key, each group in input order |
| UtilsBase.GroupByKey | utils/base.py:642-647 | the dictionary holds, for each key seen, its values in input order |
| UtilsBase.GatherAll | utils/base.py:649-654 | gathering all keys' buckets yields the input values as a multiset |
| UtilsBase.ReorderPermutation | utils/base.py:640-658 | the result is a permutation of the zipped values |
| UtilsBase.ReorderGroupsByKey | utils/base.py:640-658 | in the result, equal keys are adjacent and keys follow the sort order |
| UtilsBase.Holder.constructor | utils/base.py:692 | the holder starts with the given dictionary |
| UtilsBase.Holder.GetHold | utils/base.py:698-704 | a present key returns its value and changes nothing; an absent key stores and returns the default |
| UtilsBase.Newest | utils/base.py:726-727 | the kept names are the last k |
| UtilsBase.Doomed | utils/base.py:726-731 | the removed files come from the popped names and never include the protected last name |
| UtilsBase.BestFKeeper.constructor | utils/base.py:712-715 | after construction the last k names are kept and the older ones are removed from disk, except the last name |
| UtilsBase.BestFKeeper.Update | utils/base.py:717-720 | appending a name and cleaning keeps the last k names; the new name is never removed |
| UtilsBase.BestFKeeper.Clean | utils/base.py:722-733 | names beyond the last k are popped oldest first; those that are set, not protected and on disk are removed |
| UtilsBase.DoomedStep | utils/base.py:727-731 | popping one more name removes it exactly when it is set and not protected |
| UtilsBase.DoomedPrefix | utils/base.py:726-733 | popping `popped` names equals cleaning down to the remaining count |
| FmtBase.InitNormalTokenId | utils/fmt/base.py:7-16 | the first free id is 4 with `<unk>` and 3 without |
| FmtBase.InitVocab | utils/fmt/base.py:7-15 | pad 0, sos 1, eos 2, `<unk>` present iff `use_unk`, all ids below the first free id |
| FmtBase.PassingWords | utils/fmt/base.py:104-127 | defined here: the words of the lines before the first line at or below `minf`; `FmtBase.StopAtFailing` and `FmtBase.AdmitStep` state it |
| FmtBase.Admitted | utils/fmt/base.py:104-127 | defined here: those words cut to `omit_vsize`; `FmtBase.Limit` and `FmtBase.LdVocab` state it |
| FmtBase.AssignIds | utils/fmt/base.py:110-125 | defined here: consecutive ids for the admitted words; `FmtBase.AssignIdsKeys`, `FmtBase.AssignIdsKept`, `FmtBase.AssignIdsLast` and `FmtBase.AssignIdsRange` state it |
| FmtBase.GetBsize | utils/fmt/base.py:254-260 | never above `maxbsize`; otherwise even or 1; the batch fits `maxtoken` unless one row already exceeds it; maximal among even sizes |
| FmtBase.NoUnkMapper | utils/fmt/base.py:262-273 | unknown words are dropped; all known words map to their ids |
| FmtBase.NoUnkMapperAppend | utils/fmt/base.py:273 | mapping distributes over concatenation |
| FmtBase.NoUnkMapperUnknown | utils/fmt/base.py:273 | a sentence of unknown words maps to nothing |
| FmtBase.UnkMapper | utils/fmt/base.py:424 | every word maps to its id, or to `unk_id` when unknown |
| FmtBase.MapSentence | utils/fmt/base.py:423-426 | a mapped row is sos, the mapped words, eos |
| FmtBase.MapBatch | utils/fmt/base.py:416-426 | the nesting is kept and the extra-token count is 2 |
| FmtBase.MapBatchNone | utils/fmt/base.py:420 | mapping fails (`i_d[0]` on an empty list) iff the input holds an empty list |
| FmtBase.MapItemsNone | utils/fmt/base.py:421 | a list of items fails iff one of them does |
| FmtBase.MapEachLengths | utils/fmt/base.py:423-426 | mapped rows are at most 2 longer than the longest sentence and, with `use_unk`, one reaches it |
| FmtBase.MapRows | utils/fmt/base.py:416-426 | a batch of sentences maps iff it and all its sentences are non-empty |
| FmtBase.MapRowsAgreesSome | utils/fmt/base.py:420-421 | for a batch of sentences the nested mapper gives the row-by-row result |
| FmtBase.MapRowsAgreesNone | utils/fmt/base.py:420 | and fails exactly when the row-by-row mapper fails |
| FmtBase.PadMapped | utils/fmt/base.py:428-438 | padding mapped rows to the budget gives a rectangle that starts with each row |
| FmtBase.PadRow | utils/fmt/base.py:435-438 | a shorter row is padded with `pad_id` to the length; a longer one is returned unchanged |
| FmtBase.PadRows | utils/fmt/base.py:432-433 | each row is padded independently |
| FmtBase.PadBatch | utils/fmt/base.py:428-438 | in place, every row becomes its padded row; an empty batch fails (`i_d[0]`) |
| FmtBase.CleanList | utils/fmt/base.py:197-199 | the result holds exactly the non-empty entries |
| FmtBase.CleanListAppend | utils/fmt/base.py:199 | cleaning distributes over concatenation |
| FmtBase.CleanListIdempotent | utils/fmt/base.py:199 | cleaning twice is cleaning once |
| FmtBase.CleanListStrLenTok | utils/fmt/base.py:207-211 | the joined non-empty entries and their count |
| FmtBase.IsSpace | utils/fmt/base.py:195 | defined here: exactly the characters `str.isspace()` accepts; `FmtBase.DropSpace` and `FmtBase.Split` use it |
| FmtBase.JoinSpace | utils/fmt/base.py:195 | defined here: `" ".join`; `FmtBase.SplitJoin` states that splitting undoes it |
| FmtBase.CleanStr | utils/fmt/base.py:193-195 | defined here: `clean_str`; `FmtBase.CleanStrWords` and `FmtBase.CleanStrIdempotent` state it |
| FmtBase.DropSpace | utils/fmt/base.py:195 | leading whitespace (the `str.isspace()` characters) is removed and nothing else |
| FmtBase.TakeWord | utils/fmt/base.py:195 | the leading run of non-space characters |
| FmtBase.Split | utils/fmt/base.py:195 | `str.split()` returns only non-empty space-free words |
| FmtBase.SplitJoin | utils/fmt/base.py:195 | splitting words joined by single spaces returns the words |
| FmtBase.CleanStrWords | utils/fmt/base.py:193-195 | `clean_str` keeps the word sequence |
| FmtBase.CleanStrIdempotent | utils/fmt/base.py:193-195 | `clean_str` is idempotent |
| FmtBase.IterCheck | utils/fmt/base.py:349-360 | returns `ri` iff some element passes the check, `not ri` otherwise |
| FmtBase.AllTrue | utils/fmt/base.py:362-364 | true iff every element is true |
| FmtBase.AnyTrue | utils/fmt/base.py:366-368 | true iff some element is true |
| FmtBase.AllLe | utils/fmt/base.py:382-384 | true iff every element is at most the value |
| FmtBase.AllGt | utils/fmt/base.py:386-388 | true iff every element is above the value |
| FmtBase.ReverseDict | utils/fmt/base.py:158-160 | the keys of the inverted dictionary are exactly the values |
| FmtBase.ReverseDictLastWins | utils/fmt/base.py:160 | a value maps back to the key of its last occurrence |
| FmtBase.ReverseDictInverse | utils/fmt/base.py:158-160 | with distinct values, inverting maps every value back to its key |
| FmtBase.ZipLen | utils/fmt/base.py:216 | `zip` stops at the shorter list |
| FmtBase.Count | utils/fmt/base.py:216-220 | a pair's count is positive iff the pair occurs |
| FmtBase.CountPairs | utils/fmt/base.py:215-220 | the nested counter holds every occurring pair's count |
| FmtBase.MaxTargets | utils/fmt/base.py:224-231 | exactly the most frequent targets of one source; none repeated when the candidates are distinct |
| FmtBase.AppendPairs | utils/fmt/base.py:232-234 | each best target is appended with its source |
| FmtBase.MaxFreqFilterCore | utils/fmt/base.py:213-236 | the output pairs are exactly the occurring pairs whose target is most frequent for their source, each once |
| FmtBase.InsertAt | utils/fmt/base.py:307-335 | the insert fails iff a non-dictionary blocks the path; otherwise the leaf is updated and every diverging path is unchanged |
| FmtBase.DictInsertList | utils/fmt/base.py:323-335 | the leaf list gains the value at its end, or is created as `[value]` |
| FmtBase.DictInsertSet | utils/fmt/base.py:307-321 | fails iff a non-dictionary blocks the path or the path ends at a sub-dictionary without the value as a key; at such a sub-dictionary holding the value nothing changes; otherwise the leaf set gains the value, or is created as `{value}` |
| FmtBase.InsertSetAtSub | utils/fmt/base.py:313-317 | when the path ends at a sub-dictionary, the insert changes nothing if the value is one of its keys and fails otherwise |
| FmtBase.InsertSetPresent | utils/fmt/base.py:314-317 | inserting a value already present changes nothing |
| FmtBase.DictInsertSetIdempotent | utils/fmt/base.py:307-321 | inserting into a set twice equals inserting once |
| FmtBase.Limit | utils/fmt/base.py:107-121 | with `omit_vsize` the admitted words are cut to that many |
| FmtBase.AssignIdsKeys | utils/fmt/base.py:110-125 | the vocabulary holds exactly the old words and the admitted words |
| FmtBase.AssignIdsKept | utils/fmt/base.py:99 | words not admitted keep their ids |
| FmtBase.AssignIdsLast | utils/fmt/base.py:110-125 | a word gets the id of its last occurrence |
| FmtBase.AssignIdsRange | utils/fmt/base.py:110-125 | admitted words get ids in the new range |
| FmtBase.AssignIdsAppend | utils/fmt/base.py:104-125 | assigning line by line equals assigning the concatenation |
| FmtBase.AssignWords | utils/fmt/base.py:110-125 | the loop assigns the next ids and advances `cwd` by the word count |
| FmtBase.AdmitLine | utils/fmt/base.py:106-121 | one line: the words taken under the size budget and whether the loop stops |
| FmtBase.LdVocab | utils/fmt/base.py:92-128 | the vocabulary is the initial one plus the admitted words at consecutive ids; `cwd` is the next free id |
| FmtBase.AdmitLines | utils/fmt/base.py:104-127 | the line loop assigns the admitted words consecutive ids from the first free id and returns the next free id |
| FmtBase.AdmitTurn | utils/fmt/base.py:106-127 | one turn of the line loop: a failing line ends it with the final vocabulary, any other line keeps the loop invariant |
| FmtBase.AdmitStep | utils/fmt/base.py:106-121 | one line either ends the admission or adds all its words |
| FmtBase.StopAtFailing | utils/fmt/base.py:126-127 | a line at or below `minf` ends the admission |
| FmtBase.LdVocabNextUnused | utils/fmt/base.py:128 | every id in the vocabulary is below the returned `cwd` |
| LoaderRules.MaxLen | utils/fmt/mulang/eff/dual.py:22 | the length budget is the length plus at most `maxpad` |
| LoaderRules.Bsize | utils/fmt/mulang/eff/dual.py:23 | the batch size never exceeds `bsize` |
| LoaderRules.MaxRowLen | utils/fmt/mulang/eff/dual.py:28-31 | the running maximum row length |
| LoaderRules.MaxRowLenAppend | utils/fmt/mulang/eff/dual.py:28-31 | appending a row updates the maximum as the loader does |
| LoaderRules.AdmittedSize | utils/fmt/mulang/eff/dual.py:25 | a batch holds at most `max(1, minbsize, bsize)` rows |
| FmtDual.RowsAppend | utils/fmt/mulang/eff/dual.py:34 | yielding a batch appends its rows |
| FmtDual.FitsJoin | utils/fmt/mulang/eff/dual.py:25-32 | joining an admitted pair keeps the batch within its budget |
| FmtDual.ConsumedJoin | utils/fmt/mulang/eff/dual.py:26-27 | joining a pair consumes it, the language task tag dropped from the source |
| FmtDual.JoinPair | utils/fmt/mulang/eff/dual.py:25-32 | the admission branch keeps the loader invariant |
| FmtDual.OpenNext | utils/fmt/mulang/eff/dual.py:21-24 | opening the first batch keeps the loader invariant |
| FmtDual.ClosePair | utils/fmt/mulang/eff/dual.py:33-42 | yielding and reopening keeps the invariant; fails on an empty pair, since the budget would divide by zero |
| FmtDual.PlacePair | utils/fmt/mulang/eff/dual.py:14-42 | one pair is joined or starts a new batch; it fails iff its line has no task tag, or it does not join the open batch and either has length 0 or is the first pair with `maxpart` 0 |
| FmtDual.Finish | utils/fmt/mulang/eff/dual.py:43-44 | the final non-empty batch is yielded |
| FmtDual.LoadPairs | utils/fmt/mulang/eff/dual.py:14-42 | the loop over the pairs: on success every pair read so far is placed and has a task tag, and `maxpart` is positive when there was input; it fails only on non-empty input, and then `maxpart` is 0 or some line lacks its tag or has length 0 |
| FmtDual.BatchLoader | utils/fmt/mulang/eff/dual.py:6-44 | on success, the batches hold all pairs in order, each single-task and within its budget; it never fails unless `maxpart` is 0, a line lacks its task tag or a pair has length 0; it always fails when there is input and `maxpart` is 0, or when a line lacks its task tag (a length-0 pair fails only when it opens a batch, see `FmtDual.PlacePair`) |
| FmtDual.BatchSize | utils/fmt/mulang/eff/dual.py:25 | each batch is at most `max(1, minbsize, bsize)` rows |
| FmtDual.BatchMapper | utils/fmt/mulang/eff/dual.py:46-52 | rows are mapped with sos/eos, the language task id is looked up, the budgets grow by 2 |
| FmtDual.BatchPadder | utils/fmt/mulang/eff/dual.py:54-58 | mapped rows are padded to their budgets |
| FmtDual.MapperFits | utils/fmt/mulang/eff/dual.py:46-52 | every mapped row fits its budget and, with `use_unk`, one reaches it |
| FmtDual.PadderSrcRect | utils/fmt/mulang/eff/dual.py:58 | padded sources form a rectangle that starts with each mapped row |
| FmtDual.PadderTgtRect | utils/fmt/mulang/eff/dual.py:58 | padded targets form a rectangle that starts with each mapped row |
| FmtTriple.RowsAppend | utils/fmt/triple.py:30 | yielding a batch appends its rows |
| FmtTriple.FitsJoin | utils/fmt/triple.py:20-28 | joining an admitted triple keeps the batch within its budget |
| FmtTriple.JoinTriple | utils/fmt/triple.py:20-28 | the admission branch keeps the loader invariant |
| FmtTriple.OpenNext | utils/fmt/triple.py:17-19 | opening the first batch keeps the loader invariant |
| FmtTriple.CloseTriple | utils/fmt/triple.py:29-38 | yielding and reopening keeps the invariant; fails on an empty source and reference |
| FmtTriple.PlaceTriple | utils/fmt/triple.py:13-38 | one triple is joined or starts a new batch; it fails iff it does not join the open batch and either has length 0 or is the first triple with `maxpart` 0 |
| FmtTriple.Finish | utils/fmt/triple.py:39-40 | the final non-empty batch is yielded |
| FmtTriple.BatchLoader | utils/fmt/triple.py:6-40 | on success, the batches hold all triples in order, each within its budget; it never fails unless `maxpart` is 0 or a triple has length 0; it always fails when there is input and `maxpart` is 0 (a length-0 triple fails only when it opens a batch, see `FmtTriple.PlaceTriple`) |
| FmtTriple.BatchSize | utils/fmt/triple.py:20 | each batch is at most `max(1, minbsize, bsize)` rows |
| FmtTriple.BatchMapper | utils/fmt/triple.py:42-48 | sources and references are mapped with sos/eos, the scores pass through, the budgets grow by 2 |
| FmtTriple.BatchPadder | utils/fmt/triple.py:50-54 | mapped rows are padded to their budgets |
| FmtTriple.MapperFits | utils/fmt/triple.py:42-48 | every mapped row fits its budget and, with `use_unk`, one reaches it |
| FmtTriple.PadderSrcRect | utils/fmt/triple.py:54 | padded sources form a rectangle that starts with each mapped row |
| FmtTriple.PadderRefRect | utils/fmt/triple.py:54 | padded references form a rectangle that starts with each mapped row |

## Left out

- The neural computation (embeddings, attention layers, the classifier, `log_softmax`): an oracle `net` stands for it, returning the j-th best (log-probability, token) pair for an encoder row and the tokens fed so far. Incremental decoder states are therefore the fed history.
- TA per-layer states: abstracted into the same oracle. Only the layer-to-encoder-slice pairing is modelled (`Decoders.TaBeamLayer`).
- The length-penalty formula `((step + 6) ** lp) / 6 ** lp` is floating point. It is a parameter `pen` of positive reals; all scores are exact reals, not IEEE floats, so ties and rounding in `topk` may differ.
- `topk` tie-breaking is unspecified in PyTorch. The model breaks ties by the lower index.
- Sampling decoders, `return_mat` stacking in the clipped decoders, `decode_clip`'s dispatch and state/mask gathering (`src_pad_mask`, `states`): left out, as they hold no token bookkeeping beyond what is modelled.
- BeamDecodeClip: requires that `return_all` comes only with a penalty and no `clip_beam`. In the other `return_all` cases the partial-retirement branch reads `_scores_sel`, which is assigned only under a penalty without `clip_beam`, so the source fails there.
- BeamDecodeClip: the model is given the network's output for each example alone. It does not model tensor batching, and it does not prove that the batched network gives each example the output it would give alone.
- BeamDecodeClip: the model covers the base decoder's `beam_decode_clip`. The `rscore` list kept with `return_all` is part of the finished result. The final `return_mat` stacking is left out.
- Per-step `fill_pad` masking in SC/BART greedy decoding is expressed on the final token sequence (`Greedy.Shown`); `Greedy.ShownSnoc` ties it to the per-step form.
- File reading (`list_reader`, `line_reader` with `keep_empty_line`): the loaders take the lines as sequences of tokens. `float(td)` in the triple loader is left out: the score passes through as an opaque value.
- The loaders' `maxlen` uses the float `ceil(lgth / maxpart)`, and `divide_para_ind` (`UtilsBase.CeilDiv`, `UtilsBase.DivideParaInd`) the float `ceil(sum_p / ngroup)`. Both are modelled as integer ceiling division, which agrees for all inputs within float precision.
- `ldvocab`'s `int(data[0])` parsing and the `vanilla`/`omit_vsize` defaults are given as parameters. `ldvocab_list`, `save_vocab`, `legal_vocab`, `get_char_ratio`, `get_bi_ratio` and `shuffle_pair` are outside this model.
- `map_batch`'s `prompt` printing path in `no_unk_mapper` is I/O and left out: the printing variant returns the same list.
- `bestfkeeper` file removal (`fs_check`, `remove`) is modelled as a set of names on disk; exceptions from `remove` are left out.
- `holder`'s `__enter__`/`__exit__` are context-manager plumbing with no state change.
- `maxfreq_filter` (the tuple-zipping wrapper of `maxfreq_filter_core`): only the core is modelled. The output order of `MaxFreqFilterCore` is not stated beyond pairing.
- Logging, device placement, autocast, model saving and the other utilities of `utils/base.py` outside the functions listed above.

## Findings

| source | as written | input that shows it | evidently intended | confidence | as-written member | corrected member |
|---|---|---|---|---|---|---|
| transformer/SC/Decoder.py:243 (also transformer/PLM/BART/Decoder.py:254) | under `fill_pad`, beam search masks the appended token with the old done flag at the same row position, not with the done flag of the beam's parent | K=2, one example: step 0 gives beams [3 (-1.0), 2 (-1.5)], so flags [F, T]; at step 1 beam 0 proposes (-1.0, 4), (-2.0, 5) and beam 1 proposes 7. The new beams are parents [1, 0] with tokens [7, 4], and the rows become `[[2,7],[3,0]]` | mask by the parent's flag: `[[2,0],[3,4]]`; the finished beam is padded and the live beam keeps its token | not executed | BeamFillPad.FillPadMasksWrongRow | BeamFacts.StepAppends |
| transformer/Decoder.py:508-557 | `greedy_decode_clip` writes a row into `rs` only when it produces token 2 at some step 1 .. max_len-1; rows still active at the limit stay `None`, and `pad_tensors(rs)` then fails; a 2 at step 0 is ignored | `max_len = 1`, or any example whose greedy tokens never contain 2: `rs[o]` stays `None` | write the remaining active rows after the loop, so every row is returned cut at its first stop token | not executed | Clip.ClipRowUnwritten | Clip.GreedyDecodeClipFixed |
| transformer/Decoder.py:632-777 | `beam_decode_clip` writes an example into `rs` only in the two retire branches inside `for step in range(1, max_len)`; examples still live when the loop ends stay `None`, and `pad_tensors(rs)` then fails | `max_len = 1`, or any example whose beams never meet the early-stop test in steps 1 .. max_len-1: `rs[o]` stays `None` | write the examples still live after the loop, finished as `beam_decode` finishes them | not executed | BeamClip.ClipBeamUnwritten | BeamClip.BeamDecodeClipFixed |
| utils/base.py:613-633 | with `ngroup == 1`, `nprevs` is 0, so the first closed range already meets `nd >= nprevs` and a second range `(n, n)` is appended | sizes `[1, 1]`, `ngroup = 1`: result `[(0, 2), (2, 2)]` | at most `ngroup` ranges: `[(0, 2)]` | not executed | UtilsBase.DivideParaIndOneGroup | UtilsBase.DivideParaIndFixed |
