/** Four places where the variable packer's code does not do what it evidently
    intends, each shown on a concrete input next to the corrected definition
    the rest of the model uses. */
module Findings {
  import opened Chain
  import opened VariChain

  /** A one-element chain without user data. */
  function One(orig: nat, cur: nat, pad: int): seq<Element<int>>
  {
    [Element(orig, cur, pad, None)]
  }

  /** The padding step leaves the recorded padding at its old value. A
      40-frame element padded by 2000 frames on a 120-slot budget comes out
      of both alignment passes unchanged (2040 is already a multiple of both
      slice sizes, 17), so the code's check reads a padding of 0 and rejects
      a layout that carries 2000 frames of padding. With the padding
      re-derived the same layout passes. */
  lemma StalePaddingRejectsPaddedLayout()
    ensures IterateAsWritten(One(40, 40, 0), 2000, 120)
            == Some(Pass(One(40, 2040, 0), 17, 2000))
    ensures !PadSizesAtLeast(One(40, 2040, 0), DefaultMinPadding)
    ensures Iterate(One(40, 40, 0), 2000, 120)
            == Some(Pass(One(40, 2040, 2000), 17, 2000))
    ensures PadSizesAtLeast(One(40, 2040, 2000), DefaultMinPadding)
  {
    var els := One(40, 40, 0);
    var stale := AddPaddingAsWritten(els, 2000);
    var rederived := AddPadding(els, 2000);
    assert stale == One(40, 2040, 0);
    assert rederived == One(40, 2040, 2000);
    SliceSizesOfOneElement(stale);
    SliceSizesOfOneElement(rederived);
  }

  /** The whole loop on that input. With the code's padding step the first
      attempt is rejected and the retry at padding 2100 is accepted: 2140
      frames rounded up to 2142 by slices of 17, which is already a multiple
      of the second slice size 18; the filler adds one more slice of 18.
      With the padding re-derived the first attempt is accepted at 2040
      frames. */
  lemma StalePaddingCostsARetry(fuel: nat)
    requires fuel >= 2
    ensures Retry(IterStepAsWritten(120), One(40, 40, 0), 2000, DefaultMinPadding, fuel)
            == Converged(Pass(One(40, 2142, 2102), 18, 2100), 1)
    ensures FillerSize(120, 2142, 18) == 18
    ensures Retry(IterStep(120), One(40, 40, 0), 2000, DefaultMinPadding, fuel)
            == Converged(Pass(One(40, 2040, 2000), 17, 2000), 0)
  {
    CodeLoopRetriesOnStalePadding(fuel);
    CorrectedLoopAcceptsAtOnce(fuel);
    assert 2142 / 18 == 119;
  }

  /** The code's loop: rejected at padding 2000, accepted at 2100. */
  lemma CodeLoopRetriesOnStalePadding(fuel: nat)
    requires fuel >= 2
    ensures Retry(IterStepAsWritten(120), One(40, 40, 0), 2000, DefaultMinPadding, fuel)
            == Converged(Pass(One(40, 2142, 2102), 18, 2100), 1)
  {
    StalePaddingRejectsPaddedLayout();
    SecondAttemptAsWritten();
    assert RestoreOrigSizes(One(40, 2040, 0)) == One(40, 40, 0);
    RetryAcceptsSecond(IterStepAsWritten(120), One(40, 40, 0), 2000, DefaultMinPadding, fuel);
  }

  /** The corrected loop: accepted at padding 2000. */
  lemma CorrectedLoopAcceptsAtOnce(fuel: nat)
    requires fuel >= 1
    ensures Retry(IterStep(120), One(40, 40, 0), 2000, DefaultMinPadding, fuel)
            == Converged(Pass(One(40, 2040, 2000), 17, 2000), 0)
  {
    StalePaddingRejectsPaddedLayout();
    RetryAcceptsFirst(IterStep(120), One(40, 40, 0), 2000, DefaultMinPadding, fuel);
  }

  /** A loop whose first attempt passes the check converges on it at once. */
  lemma RetryAcceptsFirst<U>(step: Step<U>, els: seq<Element<U>>, p: nat, minPadding: int, fuel: nat)
    requires fuel >= 1
    requires step(els, p).Some? && PadSizesAtLeast(step(els, p).value.elements, minPadding)
    ensures Retry(step, els, p, minPadding, fuel) == Converged(step(els, p).value, 0)
  {
  }

  /** A loop whose first attempt is rejected and whose retry passes the
      check converges on the retry after one rejection. */
  lemma RetryAcceptsSecond<U>(step: Step<U>, els: seq<Element<U>>, p: nat, minPadding: int, fuel: nat)
    requires fuel >= 2
    requires step(els, p).Some? && !PadSizesAtLeast(step(els, p).value.elements, minPadding)
    requires var next := RestoreOrigSizes(step(els, p).value.elements);
             step(next, p + 100).Some? && PadSizesAtLeast(step(next, p + 100).value.elements, minPadding)
    ensures var next := RestoreOrigSizes(step(els, p).value.elements);
            Retry(step, els, p, minPadding, fuel) == Converged(step(next, p + 100).value, 1)
  {
    var next := RestoreOrigSizes(step(els, p).value.elements);
    RetryAcceptsFirst(step, next, p + 100, minPadding, fuel - 1);
  }

  /** The code's second attempt on that input: 2140 frames rounded up to
      2142 by slices of 17, already a multiple of the second slice size 18,
      with 2102 frames of padding recorded by the round-up. */
  lemma SecondAttemptAsWritten()
    ensures IterateAsWritten(One(40, 40, 0), 2100, 120) == Some(Pass(One(40, 2142, 2102), 18, 2100))
    ensures PadSizesAtLeast(One(40, 2142, 2102), DefaultMinPadding)
  {
    var padded := AddPaddingAsWritten(One(40, 40, 0), 2100);
    assert padded == One(40, 2140, 0);
    SliceSizesOfOneElementAt2140(padded);
  }

  /** The slice sizes of a one-element chain of length 2140 on 120 slots:
      17 for the round-up to 2142, then 18, to which 2142 is aligned. */
  lemma SliceSizesOfOneElementAt2140(els: seq<Element<int>>)
    requires els == One(40, 2140, 0)
    ensures AlignTwice(els, 2100, 120) == Some(Pass(One(40, 2142, 2102), 18, 2100))
  {
    assert TotalSize(els) == 2140 && MaxSize(els) == 2140;
    assert RoundHalfUp(120 * 2140, 2140) == 120;
    assert FirstSliceSize(els, 120) == 17;
    var aligned := AlignUp(els, 17);
    assert CeilToMultiple(2140, 17) == 2142 by {
      assert 2140 / 17 == 125;
    }
    assert aligned[0] == CeilElement(els[0], 17);
    assert aligned == One(40, 2142, 2102);
    assert TotalSize(aligned) == 2142;
    assert SecondSliceSize(2142, 120) == 18;
    assert AlignDown(aligned, 18)[0] == aligned[0];
    assert AlignDown(aligned, 18) == aligned;
  }

  /** Both slice sizes of a one-element chain of length 2040 on 120 slots
      are 17, and both alignment passes leave it unchanged. */
  lemma SliceSizesOfOneElement(els: seq<Element<int>>)
    requires |els| == 1 && els[0].cur == 2040
    ensures FirstSliceSize(els, 120) == 17
    ensures AlignUp(els, 17) == els
    ensures SecondSliceSize(TotalSize(els), 120) == 17
    ensures AlignTwice(els, 2000, 120) == Some(Pass(els, 17, 2000))
  {
    assert TotalSize(els) == 2040;
    assert MaxSize(els) == 2040;
    assert RoundHalfUp(120 * 2040, 2040) == 120;
    assert AlignUp(els, 17)[0] == els[0];
    assert AlignDown(els, 17)[0] == els[0];
    assert AlignUp(els, 17) == els;
    assert AlignDown(els, 17) == els;
  }

  /** The second slice size as written divides by 120 whatever the slot
      budget. On a 60-slot budget a 12000-frame chain gets slices of 100
      frames, half the 200 that spread it over its 60 slots. */
  lemma FixedDivisorMissesBudget()
    ensures SecondSliceSizeAsWritten(12000) == 100
    ensures SecondSliceSize(12000, 60) == 200
  {
  }

  /** The two definitions agree on the 120-slot budget the library is used
      with, for every total. */
  lemma FixedDivisorAgreesOnDefaultBudget(total: nat)
    ensures SecondSliceSizeAsWritten(total) == SecondSliceSize(total, FixedSliceDivisor)
  {
  }

  /** The loop can end on a layout that already takes more slots than the
      budget: a 50-frame element on 120 slots is padded to 2050, rounded up
      to 2057 = 121 * 17 and accepted. The code then subtracts 121 from 120
      as unsigned 32-bit values, which wraps to 2^32 - 1. Multiplied by the
      slice size exactly, as the model does, that is (2^32 - 1) * 17 frames,
      beyond what a signed 32-bit length can hold; the code's float32
      product is about 2^32 * 17 and its conversion to int32 is undefined.
      The corrected filler is empty. */
  lemma FillerWrapsWhenBudgetExceeded()
    ensures Iterate(One(50, 50, 0), 2000, 120)
            == Some(Pass(One(50, 2057, 2007), 17, 2000))
    ensures PadSizesAtLeast(One(50, 2057, 2007), DefaultMinPadding)
    ensures (120 - 2057 / 17) % TwoTo32 == TwoTo32 - 1
    ensures FillerSizeAsWritten(120, 2057, 17) == (TwoTo32 - 1) * 17
    ensures FillerSizeAsWritten(120, 2057, 17) > MaxInt32
    ensures FillerSize(120, 2057, 17) == 0
  {
    var padded := AddPadding(One(50, 50, 0), 2000);
    assert padded == One(50, 2050, 2000);
    assert TotalSize(padded) == 2050;
    assert MaxSize(padded) == 2050;
    assert RoundHalfUp(120 * 2050, 2050) == 120;
    assert FirstSliceSize(padded, 120) == 17;
    var aligned := AlignUp(padded, 17);
    assert aligned[0] == One(50, 2057, 2007)[0];
    assert aligned == One(50, 2057, 2007);
    assert TotalSize(aligned) == 2057;
    assert SecondSliceSize(2057, 120) == 17;
    assert AlignDown(aligned, 17)[0] == aligned[0];
    assert AlignDown(aligned, 17) == aligned;
  }

  /** `add` accepts as many elements as the allocation holds: on a one-slot
      budget two elements fill both slots, leaving none for the filler
      `calc` then writes. The corrected `add` refuses the second element. */
  lemma FullChainLeavesNoRoomForFiller()
    ensures var s0 := Init<int>(1).value;
            var s1 := AddAsWritten(s0, 10, None);
            var s2 := AddAsWritten(s1.state, 20, None);
            s1.ok && s2.ok && |s2.state.elements| == s2.state.maxElements
    ensures var s0 := Init<int>(1).value;
            var s1 := Add(s0, 10, None);
            var s2 := Add(s1.state, 20, None);
            s1.ok && !s2.ok && |s2.state.elements| < s2.state.maxElements
  {
  }
}
