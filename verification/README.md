# libsamplechain layout strategies in Dafny

libsamplechain packs a list of waveforms ("elements") into one sample chain
for a sampler that divides a sample into a fixed number of equal slices
(`num_slices`, 120 on the target hardware). Each strategy pads the elements
so that every waveform starts on a slice boundary. It then answers queries
for the total size, each element's offset and padded size, its original
size and its user data.

This project models the two strategies the library registers:

- **SampleChain** (`algorithms/bsp_samplechain/bsp_samplechain.c`), the fixed-size packer.
  - `chain_size` is rounded up to a divisor of `num_slices`.
  - The chain is filled up to `chain_size` with one-frame silent fillers.
  - Every element is rounded up to a multiple of the granularity
    g = largest element + `extra_padding`.
- **VariChain** (`algorithms/bsp_varichain/bsp_varichain.c`), the variable packer. A retry loop does the following:
  - pads every element;
  - aligns all lengths up to a first slice size, then down to a second one;
  - accepts the layout once every element keeps at least `min_padding` frames of padding.
  - Each retry starts again from the original lengths with 100 more frames of padding.
  - After the loop, one filler element takes up the slices left over.

The model is functional. A session is an immutable `State` datatype, and each
API call (`init`, `set_parameter_i`/`_f`, `add`, `calc`) is a pure function
from state to state. The query surface is `Chain.View`, a pure function of
the element sequence and the output-valid flag. The caller's opaque
`user_data` pointer is a type parameter `U`. Lengths are unbounded naturals.

Modules:

| module | file | contents |
|---|---|---|
| `Chain` | chain.dfy | element record, total, maximum, round-up alignment, query surface |
| `SampleChain` | samplechain.dfy | the fixed-size packer |
| `VariChain` | varichain.dfy | the variable packer: helpers, one iteration, the retry loop as a search, the filler, `Calc` |
| `Registry` | registry.dfy | the two-entry strategy table |
| `Findings` | findings.dfy | concrete inputs for the discrepancies listed under Findings |
| `Scenario` | scenario.dfy | the fixed-size packer's test driver, evaluated symbolically |

VariChain picks its two slice sizes with float32 and double arithmetic.
The model uses exact rational arithmetic in its place.

- **First slice size.** The code computes `maxPct = max / total` and
  `maxNumSlices = (int)(num_slices * maxPct + 0.5)`, then the integer
  quotient `max / maxNumSlices`. The model writes this as
  `max / RoundHalfUp(num_slices * max, total)`, where `RoundHalfUp(n, d) = (2n + d) / (2d)`.
- **Second slice size.** The model writes this as `RoundHalfUp(total, num_slices)`.
- **Division by zero.** Where the code would divide by zero, the model
  returns the failure `ZeroSliceSize`.
  `VariChain.RetryNeverDividesByZero` proves this never happens when the
  padding is at least `num_slices`.

`Calc` runs the loop for at most `fuel` iterations, because the code's
`for(;;)` has no termination argument. A loop that does not converge within
the fuel leaves the output invalid.

## Model

| member | source | states |
|---|---|---|
| Chain.TotalSize | algorithms/bsp_samplechain/bsp_samplechain.c:69-79 | the chain's total is at least every element's current length (the variable packer's copy is bsp_varichain.c:68-78) |
| Chain.TotalOfAppend | algorithms/bsp_samplechain/bsp_samplechain.c:69-79 | the total of two chains laid end to end is the sum of their totals |
| Chain.TotalOfUniform | algorithms/bsp_samplechain/bsp_samplechain.c:342-360 | a chain of n elements of length g each totals n * g |
| Chain.MaxSize | algorithms/bsp_samplechain/bsp_samplechain.c:81-96 | the result bounds every length and is the length of some element, or 0 for an empty chain |
| Chain.CeilToMultiple | algorithms/bsp_samplechain/bsp_samplechain.c:106-110 | the least multiple of s that is at least x; a multiple stays as it is |
| Chain.AlignUp | algorithms/bsp_samplechain/bsp_samplechain.c:98-127 | every new length is a multiple of s with old <= new < old + s; aligned elements are untouched, stale padding included; changed ones get pad = cur - orig; original size and user data are kept (also bsp_varichain.c:97-126) |
| Chain.QueriesGatedByValidity | algorithms/bsp_samplechain/bsp_samplechain.c:342-437 | the query functions `View.Total`, `View.Offset`, `View.Size`, `View.OriginalSize` and `View.UserData` (also bsp_varichain.c:408-503): total, offset and element size answer 0 without a valid output or past the end; original size and user data ignore the flag |
| Chain.OffsetsTile | algorithms/bsp_samplechain/bsp_samplechain.c:342-401 | for `View.Offset`, `View.Size` and `View.Total` with a valid output: the first offset is 0, each offset is the previous offset plus the previous size, and the last element ends at the total |
| Chain.ElementsInsideTotal | algorithms/bsp_samplechain/bsp_samplechain.c:362-401 | every element ends at or before the total |
| SampleChain.Init | algorithms/bsp_samplechain/bsp_samplechain.c:149-180 | a null handle iff num_slices is 0; otherwise an empty, invalid session with capacity = chain size = num_slices and extra padding 2000 |
| SampleChain.SmallestDivisorFrom | algorithms/bsp_samplechain/bsp_samplechain.c:203-209 | the smallest d >= the request that divides num_slices, and d <= num_slices |
| SampleChain.SetParameterI | algorithms/bsp_samplechain/bsp_samplechain.c:182-217 | accepted iff "extra_padding" > 0 or "chain_size" in 1..num_slices; a rejection changes nothing; chain_size is stored as the smallest divisor of num_slices from the request on; well-formedness is kept |
| SampleChain.SetParameterF | algorithms/bsp_samplechain/bsp_samplechain.c:219-223 | always refused, nothing changes |
| SampleChain.Add | algorithms/bsp_samplechain/bsp_samplechain.c:225-246 | accepted iff fewer than capacity elements are held; appends (orig = cur = size, pad 0, user data) and touches nothing else, the valid flag included; a refusal changes nothing |
| SampleChain.Filled | algorithms/bsp_samplechain/bsp_samplechain.c:269-288 | the chain followed by exactly chain_size - n fillers (1, 1, 0, none) when shorter; a longer chain loses no element |
| SampleChain.Granularity | algorithms/bsp_samplechain/bsp_samplechain.c:290-295 | every filled length plus the extra padding is at most g, and g is at least the extra padding |
| SampleChain.GranularityIsAttained | algorithms/bsp_samplechain/bsp_samplechain.c:290-295 | g is some filled length plus the extra padding (the extra padding alone for nothing filled), so with the bound above g - extra_padding is exactly the largest filled length |
| SampleChain.Calc | algorithms/bsp_samplechain/bsp_samplechain.c:248-328 | valid iff n > 0 and chain_size != 0, otherwise elements unchanged; a valid output is the aligned, filled chain (`Layout`) and fits the capacity; parameters and well-formedness are kept |
| SampleChain.Layout | algorithms/bsp_samplechain/bsp_samplechain.c:269-295 | element count is max(n, chain_size); each element keeps orig and user data and becomes g, or 0 if it was 0; fillers become (1, g, g - 1, none); consistent paddings stay consistent |
| SampleChain.AlignUpBelowGranularity | algorithms/bsp_samplechain/bsp_samplechain.c:98-127 | rounding a length below g up to g gives g, and 0 stays 0; realigned padding is g - orig |
| SampleChain.CalcTotalIsSlotsTimesGranularity | algorithms/bsp_samplechain/bsp_samplechain.c:290-297 | a valid layout of non-empty elements totals its element count times g |
| VariChain.Init | algorithms/bsp_varichain/bsp_varichain.c:205-236 | a null handle iff num_slices is 0; otherwise an empty, invalid session with capacity num_slices + 1, extra padding 2000, minimum padding 1000 |
| VariChain.SetParameterI | algorithms/bsp_varichain/bsp_varichain.c:238-242 | always refused, nothing changes |
| VariChain.SetParameterF | algorithms/bsp_varichain/bsp_varichain.c:244-248 | always refused, nothing changes |
| VariChain.AddAsWritten | algorithms/bsp_varichain/bsp_varichain.c:250-271 | accepted iff fewer than num_slices + 1 elements are held; appends (orig = cur = size, pad 0, user data); a refusal changes nothing |
| VariChain.Add | algorithms/bsp_varichain/bsp_varichain.c:250-271 | the same, but accepted iff fewer than num_slices elements are held, so a built chain always leaves room for the filler (see Findings) |
| VariChain.AddPaddingAsWritten | algorithms/bsp_varichain/bsp_varichain.c:302-306 | every length grows by p; everything else, the recorded padding included, stays as it was |
| VariChain.AddPadding | algorithms/bsp_varichain/bsp_varichain.c:302-306 | every length grows by p, orig and user data are kept, and every recorded padding matches its lengths afterwards |
| VariChain.FloorToMultiple | algorithms/bsp_varichain/bsp_varichain.c:136-140 | the greatest multiple of s that is at most x; a multiple stays as it is |
| VariChain.AlignDown | algorithms/bsp_varichain/bsp_varichain.c:128-157 | every new length is a multiple of s with old - s < new <= old; aligned elements are untouched; changed ones get pad = cur - orig |
| VariChain.ScanPadSizes | algorithms/bsp_varichain/bsp_varichain.c:159-172 | true iff every recorded padding is >= the threshold (inclusive; an empty chain passes); false names an element below it |
| VariChain.RestoreOrigSizes | algorithms/bsp_varichain/bsp_varichain.c:174-183 | every length is put back to the original one; orig, recorded padding and user data are kept |
| VariChain.RoundHalfUpIsNearest | algorithms/bsp_varichain/bsp_varichain.c:315 | the rounded quotient r satisfies n/d - 1/2 < r <= n/d + 1/2, so r = floor(n/d + 1/2) and ties go up, as `(int32_t)(x + 0.5f)` does |
| VariChain.FirstSliceSize | algorithms/bsp_varichain/bsp_varichain.c:312-317 | the first slice size is at most the largest length |
| VariChain.SecondSliceSizeAsWritten | algorithms/bsp_varichain/bsp_varichain.c:328-331 | the integer nearest to total / 120, ties going up |
| VariChain.SecondSliceSize | algorithms/bsp_varichain/bsp_varichain.c:328-331 | the integer nearest to total / num_slices, ties going up |
| VariChain.AlignTwice | algorithms/bsp_varichain/bsp_varichain.c:314-334 | when both slice sizes are non-zero: same count, orig and user data kept, every length a multiple of the second slice size, greater than the padded length minus one second slice and less than the padded length plus the first slice size; consistent padding stays consistent |
| VariChain.Iterate | algorithms/bsp_varichain/bsp_varichain.c:302-334 | one iteration at padding p: same elements as added, every length a multiple of the slice size, greater than the starting length + p minus one slice and less than the starting length + p plus the first slice size; recorded paddings match the lengths |
| VariChain.IterateAsWritten | algorithms/bsp_varichain/bsp_varichain.c:302-334 | the iteration with the stale padding step keeps the element count and a positive slice size |
| VariChain.Retry | algorithms/bsp_varichain/bsp_varichain.c:300-346 | on convergence every element of the accepted layout keeps at least min_padding frames of padding, after fewer retries than the fuel |
| VariChain.RetryAcceptsAttempt | algorithms/bsp_varichain/bsp_varichain.c:300-346 | the accepted layout is the iteration from the original lengths at padding p + 100 * retries |
| VariChain.RetryRejectedEarlierAttempts | algorithms/bsp_varichain/bsp_varichain.c:336-345 | every iteration before the accepted one ran and failed the padding check |
| VariChain.RetryFailsAtZeroSliceAttempt | algorithms/bsp_varichain/bsp_varichain.c:314-345 | a zero-slice failure happens at some attempt within the fuel, after only rejected attempts |
| VariChain.RetryRunsOutAfterRejections | algorithms/bsp_varichain/bsp_varichain.c:300-346 | running out of fuel means every attempt the fuel allowed was rejected |
| VariChain.AttemptAfterRejection | algorithms/bsp_varichain/bsp_varichain.c:340-345 | after a rejection, the restored chain at padding p + 100 makes the same attempts as the original chain, shifted by one |
| VariChain.RestoreGivesSameLayout | algorithms/bsp_varichain/bsp_varichain.c:174-183 | restoring two chains of the same added elements gives the same layout, whatever their recorded paddings |
| VariChain.StartOf | algorithms/bsp_varichain/bsp_varichain.c:342 | the chain each attempt starts from has the same elements as added |
| VariChain.IterateIgnoresStoredPads | algorithms/bsp_varichain/bsp_varichain.c:302-306 | an iteration depends on the lengths, not on the recorded paddings |
| VariChain.IterationIsWellBehaved | algorithms/bsp_varichain/bsp_varichain.c:302-334 | the iteration satisfies both assumptions the loop lemmas make |
| VariChain.ConvergedLayout | algorithms/bsp_varichain/bsp_varichain.c:300-346 | the accepted layout has the elements as added, lengths that are whole slices, consistent paddings of at least min_padding, found at padding p + 100 * retries |
| VariChain.IterationNeverDividesByZero | algorithms/bsp_varichain/bsp_varichain.c:314-331 | with 1 to num_slices + 1 elements and padding >= num_slices, both slice sizes are non-zero |
| VariChain.FirstSliceSizePositive | algorithms/bsp_varichain/bsp_varichain.c:314-317 | the first slice size is at least 1 under those bounds |
| VariChain.RetryNeverDividesByZero | algorithms/bsp_varichain/bsp_varichain.c:300-346 | under those bounds the loop converges or runs out of fuel; it never hits a zero slice size |
| VariChain.FillerSizeAsWritten | algorithms/bsp_varichain/bsp_varichain.c:356 | the uint32 wrap of the subtraction, multiplied exactly; agrees with the corrected filler whenever the chain fits the budget |
| VariChain.FillerSize | algorithms/bsp_varichain/bsp_varichain.c:348-362 | a whole number of slices; with it an aligned chain that fits takes exactly num_slices slices; empty once the chain takes the whole budget |
| VariChain.FillerReachesBudget | algorithms/bsp_varichain/bsp_varichain.c:348-362 | an aligned total plus the filler reaches num_slices slices, exactly unless it was over already |
| VariChain.FilledChainTotal | algorithms/bsp_varichain/bsp_varichain.c:348-362 | the layout with its filler keeps the layout as a prefix and totals the layout plus the filler |
| VariChain.WithFiller | algorithms/bsp_varichain/bsp_varichain.c:352-362 | appends exactly one element (0, f, f, none) after the unchanged layout; all lengths stay whole slices; the total reaches the budget |
| VariChain.Calc | algorithms/bsp_varichain/bsp_varichain.c:273-394 | valid iff the chain is non-empty and the loop (`Loop`) converges, otherwise elements unchanged; then n + 1 elements: the first n are exactly the loop's accepted layout, with orig, user data and padding >= min_padding; the last is the filler (0, f, f, none) with f the corrected filler size; every length a multiple of the slice size; total >= num_slices slices and exactly that when the layout fit; padding settings never change |
| VariChain.LoopFindsFirstAcceptedAttempt | algorithms/bsp_varichain/bsp_varichain.c:300-346 | the session's `Loop` on convergence returns the iteration at padding extra_padding + 100 * retries, from the lengths as they are at first and the original lengths afterwards, after fewer retries than the fuel; every earlier attempt ran and was rejected |
| VariChain.CalcIsFirstAcceptedAttempt | algorithms/bsp_varichain/bsp_varichain.c:300-354 | a valid output holds, before the filler, the first attempt that passed the padding check, with every earlier attempt rejected |
| Registry.Select | algorithm.c:46-71 | a strategy iff the index is 0 or 1; 0 is the variable packer, 1 the fixed-size one |
| Registry.IndexOf | algorithm.c:41-44 | every strategy's index is below the strategy count 2 |
| Registry.SelectInvertsIndexOf | algorithm.c:41-71 | selection and index are inverse in both directions |
| Findings.StalePaddingRejectsPaddedLayout | algorithms/bsp_varichain/bsp_varichain.c:302-336 | the code's iteration rejects a layout holding 2000 frames of padding; the corrected one accepts it |
| Findings.StalePaddingCostsARetry | algorithms/bsp_varichain/bsp_varichain.c:300-362 | on one 40-frame element, 120 slots and the default paddings, the loop with the code's padding step rejects the first attempt and accepts 2142 frames (slice 18) at padding 2100 after one retry, with an 18-frame filler; the corrected loop accepts 2040 frames (slice 17) at once |
| Findings.SecondAttemptAsWritten | algorithms/bsp_varichain/bsp_varichain.c:302-336 | the code's iteration at padding 2100 on that element gives 2142 frames with slice 18 and a recorded padding of 2102, which passes the check |
| Findings.RetryAcceptsSecond | algorithms/bsp_varichain/bsp_varichain.c:336-345 | a loop whose first attempt is rejected and whose retry from the original lengths at p + 100 passes converges on that retry after one rejection |
| Findings.SliceSizesOfOneElement | algorithms/bsp_varichain/bsp_varichain.c:314-334 | a single 2040-frame element on 120 slots has both slice sizes 17 and survives both alignments |
| Findings.FixedDivisorMissesBudget | algorithms/bsp_varichain/bsp_varichain.c:328 | on 60 slots a 12000-frame chain gets 100-frame slices instead of 200 |
| Findings.FixedDivisorAgreesOnDefaultBudget | algorithms/bsp_varichain/bsp_varichain.c:328 | on 120 slots both second slice sizes agree for every total |
| Findings.FillerWrapsWhenBudgetExceeded | algorithms/bsp_varichain/bsp_varichain.c:348-362 | a 50-frame element converges to 121 slices; the code's uint32 difference 120 - 121 wraps to 2^32 - 1, so its filler is far past the int32 range (the model's exact product is (2^32 - 1) * 17); the corrected one is 0 |
| Findings.FullChainLeavesNoRoomForFiller | algorithms/bsp_varichain/bsp_varichain.c:211-217 | on one slot the code's add fills both allocated slots; the corrected add refuses the second element |
| Scenario.AddAllAppends | testcases/test_bsp_samplechain.c:48-58 | adding a list of lengths with room for them appends exactly those unpadded elements, in order, and changes nothing else |
| Scenario.AddedElevenLengths | testcases/test_bsp_samplechain.c:48-58 | eleven lengths of 1 to 21551 frames added to an empty 120-slot session give eleven elements with those bounds, the tenth 21551 long |
| Scenario.AddedChain | testcases/test_bsp_samplechain.c:44-58 | after the additions the chain holds the eleven lengths, extra padding 2000 |
| Scenario.PreparedChain | testcases/test_bsp_samplechain.c:61 | the requested chain size 11 is stored as 12 |
| Scenario.ChainSizeElevenBecomesTwelve | algorithms/bsp_samplechain/bsp_samplechain.c:203-209 | on 120 slots a chain size request of 11 is accepted and stored as 12, nothing else changes |
| Scenario.ScenarioGranularity | testcases/test_bsp_samplechain.c:63 | the granularity is 21551 + 2000 = 23551 |
| Scenario.GranularityOfEleven | algorithms/bsp_samplechain/bsp_samplechain.c:269-295 | eleven lengths of at most 21551 frames, one of them exactly that, filled to 12 and padded by 2000 give granularity 23551: the one-frame filler does not raise the maximum |
| Scenario.LayoutOfElevenInTwelve | algorithms/bsp_samplechain/bsp_samplechain.c:269-297 | eleven non-empty elements with chain size 12 become twelve slots of g, 12 * g in all, the last ending at the total |
| Scenario.ScenarioLayout | testcases/test_bsp_samplechain.c:42-65 | index 1 selects the fixed-size packer; 12 elements of 23551 frames; total 282612; the last element ends at the total |

## Left out

- Tracing and statistics: every `printf`, the float `cur_sta` accumulator and `loc_calc_average_slice_padding` are output only and never feed back into the layout.
- Allocation and handles: `malloc`, `free`, `loc_exit`, the null-handle branches and `query_algorithm_name` are resource plumbing. A failed allocation is not modelled; `Init` returns `None` only for a slot budget of 0.
- `query_num_elements` is `|elements|` (`View.Count`); it has no contract of its own.
- Integer widths: lengths are unbounded naturals, and int32, uint32 and size_t overflow is not modelled. The exception is the filler subtraction, see Findings. A length above the int32 range, or a chain total above it, behaves differently in the code.
- VariChain.FirstSliceSize: float32 arithmetic is replaced by exact rational rounding, so results can differ from the code where float32 rounding error crosses an integer boundary. The contract states only the upper bound; the exact formula is in the body.
- VariChain.SecondSliceSize: the same replacement of float and double arithmetic by exact rounding.
- VariChain.Calc: the loop is bounded by `fuel`. The code's loop is unbounded, and a chain that never passes the check makes it spin forever. The model reports `NotConverged` and leaves the output invalid.
- VariChain.Calc: requires at most num_slices elements, so there is room for the filler. The code writes the filler without checking; see the `add` capacity row under Findings. A second `calc` on a full chain is likewise excluded.
- VariChain.Retry: a zero slice size, where the code divides by zero, becomes the failure `ZeroSliceSize`. `VariChain.RetryNeverDividesByZero` shows this cannot happen for padding >= num_slices, which covers the default 2000 on budgets up to 2000 slots.
- VariChain.FillerSizeAsWritten: multiplies the wrapped uint32 difference by the slice size exactly. The code multiplies in float32 and converts to int32, which matches only while the product fits int32; past that the conversion is undefined and the model's value is not the code's.
- VariChain.IterateAsWritten: its contract states only the shape of the result. It exists to exhibit the stale padding finding. Only its padding step is the code's; its second slice size divides by num_slices, which agrees with the code's literal 120 on 120 slots, the budget that finding uses.
- VariChain.Calc: models the corrected loop, not the code as written. It uses `Iterate` (the padding step re-derives the recorded padding), `SecondSliceSize` (divides by num_slices) and `FillerSize` (no filler once the layout is over budget) in place of bsp_varichain.c:303-306, :328 and :356. Its result therefore differs from the code's on the inputs of the first three Findings rows. For example, one 40-frame element on 120 slots with the default padding: the code rejects the first attempt on the stale padding and accepts 2142 frames at padding 2100 plus an 18-frame filler; `Calc` accepts 2040 frames at once (`Findings.StalePaddingCostsARetry`).
- The SampleChain warning for a chain longer than `chain_size` is a `printf` only. No element is dropped, and `SampleChain.Calc` keeps them all.
- The interface header says `add` invalidates the current output (algorithm_interface_proposal.h:56). Neither implementation does, and the model follows the code.
- The header also declares `add` with two parameters (algorithm_interface_proposal.h:59), while both implementations take a third, user-data one. It declares `samplechain_select_algorithm` as returning `void` (:97), while algorithm.c:46 returns a flag. The model follows the code; `Registry.Select` returns `None` for an unknown index.
- The registry's function-pointer table is represented only by the two-variant `Registry.Strategy`.

## Findings

| source | as written | input that shows it | evidently intended | confidence | as-written member | corrected member |
|---|---|---|---|---|---|---|
| algorithms/bsp_varichain/bsp_varichain.c:302-306 | the padding step adds p to every length but leaves `pad_sz` as it was, so an element already aligned to both slice sizes keeps a stale padding that the check at :336 reads | one 40-frame element, num_slices 120, padding 2000: both slice sizes are 17, 2040 is aligned to both, `pad_sz` stays 0 < 1000 and a layout carrying 2000 frames of padding is rejected | `pad_sz` follows the padded length, so the check sees the actual padding | medium; not executed | VariChain.IterateAsWritten, Findings.StalePaddingRejectsPaddedLayout, Findings.StalePaddingCostsARetry | VariChain.Iterate |
| algorithms/bsp_varichain/bsp_varichain.c:328 | the second slice size divides the aligned total by a literal 120.0 | num_slices 60, aligned total 12000: slices of 100 frames instead of 200 | divide by `num_slices` | high; not executed | VariChain.SecondSliceSizeAsWritten, Findings.FixedDivisorMissesBudget | VariChain.SecondSliceSize |
| algorithms/bsp_varichain/bsp_varichain.c:356 | the filler is `(num_slices - q) * slice` with the subtraction on uint32, so a layout over the budget (q > num_slices) wraps | one 50-frame element, num_slices 120, padding 2000: the layout is accepted at 2057 = 121 * 17 frames; the uint32 difference wraps to 2^32 - 1, the float32 product with the slice size is about 7.3e10 (2^32 * 17), and its int32 conversion is undefined | no filler once the layout takes the whole budget | high; not executed | VariChain.FillerSizeAsWritten, Findings.FillerWrapsWhenBudgetExceeded | VariChain.FillerSize |
| algorithms/bsp_varichain/bsp_varichain.c:256 | `add` accepts elements while fewer than num_slices + 1 are held, the whole allocation of :211, and `calc` then writes the filler one past it at :354 | num_slices 1: two adds succeed, and `calc` writes element index 2 of a two-element allocation | `add` stops at num_slices, keeping the extra slot for the filler | medium; not executed | VariChain.AddAsWritten, Findings.FullChainLeavesNoRoomForFiller | VariChain.Add |
