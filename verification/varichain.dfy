/** The variable packer ("VariChain"): a retry loop that pads every element,
    aligns the lengths up to one slice size and then down to a second one,
    and accepts the layout once every element keeps at least the minimum
    padding; each retry starts again from the original lengths with 100 more
    frames of padding. A filler element then takes up the slices left over. */
module VariChain {
  import opened Chain

  const InitialExtraPadding: nat := 2000
  const DefaultMinPadding: int := 1000
  /** The slice count the second slice size is computed against in the code
      as written, whatever the configured slot budget. */
  const FixedSliceDivisor: nat := 120
  const TwoTo32: int := 0x1_0000_0000
  const MaxInt32: int := 0x7fff_ffff

  /** One packing session. `maxElements` leaves room for the filler. The
      two padding settings are fixed at `Init`; no call changes them. */
  datatype State<U> = State(
    elements: seq<Element<U>>,
    maxElements: nat,
    numSlices: nat,
    extraPadding: nat,
    minPadding: int,
    valid: bool)

  /** What every state reachable from `Init` satisfies. */
  predicate WellFormed<U>(vc: State<U>)
  {
    && vc.numSlices > 0
    && vc.maxElements == vc.numSlices + 1
    && |vc.elements| <= vc.maxElements
  }

  /** A slot budget of 0 yields a null handle; otherwise an empty chain with
      one slot more than the budget, for the filler. */
  function Init<U>(numSlices: nat): (r: Option<State<U>>)
    ensures r.None? <==> numSlices == 0
    ensures r.Some? ==>
              && WellFormed(r.value)
              && r.value.elements == [] && !r.value.valid
              && r.value.maxElements == numSlices + 1 && r.value.numSlices == numSlices
              && r.value.extraPadding == InitialExtraPadding
              && r.value.minPadding == DefaultMinPadding
  {
    if numSlices > 0 then
      Some(State([], numSlices + 1, numSlices, InitialExtraPadding, DefaultMinPadding, false))
    else None
  }

  /** This strategy has no adjustable integer parameter: every call is refused. */
  function SetParameterI<U>(vc: State<U>, name: string, value: int): (r: Updated<State<U>>)
    ensures !r.ok && r.state == vc
  {
    Updated(false, vc)
  }

  /** Nor any floating-point one. */
  function SetParameterF<U>(vc: State<U>, name: string, value: real): (r: Updated<State<U>>)
    ensures !r.ok && r.state == vc
  {
    Updated(false, vc)
  }

  /** `add` as the code writes it: an element is accepted while fewer than
      numSlices + 1 are held, so the chain can fill the whole allocation,
      including the slot the filler needs. */
  function AddAsWritten<U>(vc: State<U>, size: nat, user: Option<U>): (r: Updated<State<U>>)
    ensures r.ok <==> |vc.elements| < vc.maxElements
    ensures r.ok ==> r.state == vc.(elements := vc.elements + [Element(size, size, 0, user)])
    ensures !r.ok ==> r.state == vc
  {
    if |vc.elements| < vc.maxElements
    then Updated(true, vc.(elements := vc.elements + [Fresh(size, user)]))
    else Updated(false, vc)
  }

  /** Appends one unpadded element while fewer than numSlices are held, so
      the last slot stays free for the filler `Calc` appends; a full chain
      refuses and is left as it is. */
  function Add<U>(vc: State<U>, size: nat, user: Option<U>): (r: Updated<State<U>>)
    ensures r.ok <==> |vc.elements| < vc.numSlices
    ensures r.ok ==> r.state == vc.(elements := vc.elements + [Element(size, size, 0, user)])
    ensures !r.ok ==> r.state == vc
    ensures WellFormed(vc) ==> WellFormed(r.state)
    ensures |vc.elements| <= vc.numSlices ==> |r.state.elements| <= vc.numSlices
  {
    if |vc.elements| < vc.numSlices
    then Updated(true, vc.(elements := vc.elements + [Fresh(size, user)]))
    else Updated(false, vc)
  }

  // ---------------------------------------------------------------------
  // The helpers one iteration is built from

  /** The padding step as the code writes it: every length grows by `p`, but
      the recorded padding is left as it was. */
  function AddPaddingAsWritten<U>(els: seq<Element<U>>, p: nat): (r: seq<Element<U>>)
    ensures |r| == |els|
    ensures forall i :: 0 <= i < |r| ==> r[i] == els[i].(cur := els[i].cur + p)
  {
    seq(|els|, i requires 0 <= i < |els| => els[i].(cur := els[i].cur + p))
  }

  /** The padding step with the recorded padding re-derived: after it every
      element's padding matches its lengths, whatever was recorded before. */
  function AddPadding<U>(els: seq<Element<U>>, p: nat): (r: seq<Element<U>>)
    ensures |r| == |els|
    ensures forall i :: 0 <= i < |r| ==>
              r[i].orig == els[i].orig && r[i].user == els[i].user && r[i].cur == els[i].cur + p
    ensures PadsConsistent(r)
  {
    seq(|els|, i requires 0 <= i < |els| =>
      els[i].(cur := els[i].cur + p, pad := els[i].cur + p - els[i].orig))
  }

  /** Round `x` down to a multiple of `s`: the greatest multiple of `s` that
      is at most `x`. */
  function FloorToMultiple(x: nat, s: int): (r: nat)
    requires s > 0
    ensures r % s == 0
    ensures r <= x < r + s
    ensures x % s == 0 ==> r == x
  {
    MultipleHasNoRemainder(x / s, s);
    (x / s) * s
  }

  /** One element after round-down alignment: an aligned element is left
      untouched, otherwise the padding is recomputed and may shrink. */
  function FloorElement<U>(e: Element<U>, s: int): (r: Element<U>)
    requires s > 0
  {
    if e.cur % s == 0 then e
    else
      var c := FloorToMultiple(e.cur, s);
      e.(cur := c, pad := c - e.orig)
  }

  /** Round every element's length down to a multiple of `s`. */
  function AlignDown<U>(els: seq<Element<U>>, s: int): (r: seq<Element<U>>)
    requires s > 0
    ensures |r| == |els|
    ensures forall i :: 0 <= i < |r| ==>
              r[i].cur % s == 0 && els[i].cur - s < r[i].cur <= els[i].cur
    ensures forall i :: 0 <= i < |r| ==> r[i].orig == els[i].orig && r[i].user == els[i].user
    ensures forall i :: 0 <= i < |r| && els[i].cur % s == 0 ==> r[i] == els[i]
    ensures forall i :: 0 <= i < |r| && els[i].cur % s != 0 ==> r[i].pad == r[i].cur - r[i].orig
  {
    seq(|els|, i requires 0 <= i < |els| => FloorElement(els[i], s))
  }

  /** The convergence check: every recorded padding reaches the threshold.
      The comparison is inclusive, and an empty chain passes. */
  predicate PadSizesAtLeast<U>(els: seq<Element<U>>, threshold: int)
  {
    forall i :: 0 <= i < |els| ==> els[i].pad >= threshold
  }

  /** The check as the code runs it: a front-to-back scan that stops at the
      first element whose recorded padding is below the threshold. */
  method ScanPadSizes<U>(els: seq<Element<U>>, threshold: int) returns (ok: bool)
    ensures ok <==> PadSizesAtLeast(els, threshold)
    ensures !ok ==> exists i :: 0 <= i < |els| && els[i].pad < threshold
  {
    ok := true;
    var i := 0;
    while ok && i < |els|
      invariant 0 <= i <= |els|
      invariant ok ==> forall j :: 0 <= j < i ==> els[j].pad >= threshold
      invariant !ok ==> 0 < i && els[i - 1].pad < threshold
    {
      ok := els[i].pad >= threshold;
      i := i + 1;
    }
  }

  /** Puts every length back to the original one; the recorded padding and
      the user data stay as they were. */
  function RestoreOrigSizes<U>(els: seq<Element<U>>): (r: seq<Element<U>>)
    ensures |r| == |els|
    ensures forall i :: 0 <= i < |r| ==>
              r[i].cur == els[i].orig
              && r[i].orig == els[i].orig && r[i].pad == els[i].pad && r[i].user == els[i].user
  {
    seq(|els|, i requires 0 <= i < |els| => els[i].(cur := els[i].orig))
  }

  /** `n / d` rounded half up: the integer nearest to it, ties going up. */
  function RoundHalfUp(n: nat, d: nat): nat
    requires d > 0
  {
    (2 * n + d) / (2 * d)
  }

  lemma RoundHalfUpIsNearest(n: nat, d: nat)
    requires d > 0
    ensures var r := RoundHalfUp(n, d);
            2 * (d * r) <= 2 * n + d < 2 * (d * r) + 2 * d
  {
  }

  /** The first slice size: the largest element spread over its rounded
      share of the slots, `max / round(numSlices * max / total)`. It is 0
      where the code would divide by zero. */
  function FirstSliceSize<U>(els: seq<Element<U>>, numSlices: nat): (a: nat)
    ensures a <= MaxSize(els)
  {
    var total := TotalSize(els);
    var max := MaxSize(els);
    if total == 0 then 0
    else
      var count := RoundHalfUp(numSlices * max, total);
      if count == 0 then 0
      else
        QuotientAtMost(max, count);
        max / count
  }

  lemma QuotientAtMost(x: nat, d: nat)
    requires d > 0
    ensures 0 <= x / d <= x
  {
    var q := x / d;
    assert x == d * q + x % d;
    MulNonNegative(d - 1, q);
    assert d * q == (d - 1) * q + q;
  }

  /** The second slice size as the code writes it: the aligned total over a
      fixed 120 slots, rounded half up. */
  function SecondSliceSizeAsWritten(total: nat): (b: nat)
    ensures 240 * b <= 2 * total + 120 < 240 * b + 240
  {
    RoundHalfUpIsNearest(total, FixedSliceDivisor);
    RoundHalfUp(total, FixedSliceDivisor)
  }

  /** The second slice size: the aligned total spread over the slot budget,
      rounded half up to the nearest integer. */
  function SecondSliceSize(total: nat, numSlices: nat): (b: nat)
    requires numSlices > 0
    ensures 2 * numSlices * b <= 2 * total + numSlices < 2 * numSlices * b + 2 * numSlices
  {
    RoundHalfUpIsNearest(total, numSlices);
    RoundHalfUp(total, numSlices)
  }

  /** The layout one iteration proposes and the slice size it ended on. */
  datatype Pass<U> = Pass(elements: seq<Element<U>>, slice: nat, padding: nat)

  datatype Failure = ZeroSliceSize | NotConverged

  /** The loop's outcome; `retries` counts the iterations that were rejected
      before the accepted one. */
  datatype LoopResult<U> = Converged(pass: Pass<U>, retries: nat) | Failed(failure: Failure)

  /** The two alignment passes of an iteration, on a chain already padded
      by `p`: align up to the first slice size, then down to the second.
      None when a slice size comes out as 0. Every resulting length is a
      multiple of the second slice size, has lost less than one slice to
      the round-down and gained less than one first slice size overall;
      recorded paddings that matched their lengths still do. */
  function AlignTwice<U>(padded: seq<Element<U>>, p: nat, numSlices: nat): (r: Option<Pass<U>>)
    requires numSlices > 0
    ensures r.Some? ==>
              |r.value.elements| == |padded| && r.value.slice > 0 && r.value.padding == p
    ensures r.Some? && PadsConsistent(padded) ==> PadsConsistent(r.value.elements)
    ensures r.Some? ==> forall i :: 0 <= i < |padded| ==>
              && r.value.elements[i].orig == padded[i].orig
              && r.value.elements[i].user == padded[i].user
              && r.value.elements[i].cur % r.value.slice == 0
              && r.value.elements[i].cur > padded[i].cur - r.value.slice
              && r.value.elements[i].cur < padded[i].cur + FirstSliceSize(padded, numSlices)
  {
    var a := FirstSliceSize(padded, numSlices);
    if a == 0 then None
    else
      var aligned := AlignUp(padded, a);
      var b := SecondSliceSize(TotalSize(aligned), numSlices);
      if b == 0 then None
      else Some(Pass(AlignDown(aligned, b), b, p))
  }

  /** One iteration of the loop with local padding `p`: pad every element,
      then align twice. The result carries recorded paddings that match
      the lengths, and every length lies within one slice below and one
      first slice size above the padded length. */
  function Iterate<U>(els: seq<Element<U>>, p: nat, numSlices: nat): (r: Option<Pass<U>>)
    requires numSlices > 0
    ensures r.Some? ==>
              && |r.value.elements| == |els| && r.value.slice > 0 && r.value.padding == p
              && PadsConsistent(r.value.elements)
    ensures r.Some? ==> forall i :: 0 <= i < |els| ==>
              && r.value.elements[i].orig == els[i].orig
              && r.value.elements[i].user == els[i].user
              && r.value.elements[i].cur % r.value.slice == 0
              && r.value.elements[i].cur > els[i].cur + p - r.value.slice
              && r.value.elements[i].cur < els[i].cur + p + FirstSliceSize(AddPadding(els, p), numSlices)
  {
    AlignTwice(AddPadding(els, p), p, numSlices)
  }

  /** The iteration with the code's padding step, which leaves the recorded
      padding as it was; the slice sizes are the corrected ones, which agree
      with the code's on 120 slots. */
  function IterateAsWritten<U>(els: seq<Element<U>>, p: nat, numSlices: nat): (r: Option<Pass<U>>)
    requires numSlices > 0
    ensures r.Some? ==> |r.value.elements| == |els| && r.value.slice > 0
  {
    AlignTwice(AddPaddingAsWritten(els, p), p, numSlices)
  }

  /** One iteration as the loop sees it: from a chain and a local padding to
      the proposed layout, or None when a slice size came out as 0. */
  type Step<!U> = (seq<Element<U>>, nat) -> Option<Pass<U>>

  /** The iteration of a chain whose slot budget is `numSlices`. */
  function IterStep<U>(numSlices: nat): Step<U>
    requires numSlices > 0
  {
    (els: seq<Element<U>>, p: nat) => Iterate(els, p, numSlices)
  }

  /** The same with the code's padding step. */
  function IterStepAsWritten<U>(numSlices: nat): Step<U>
    requires numSlices > 0
  {
    (els: seq<Element<U>>, p: nat) => IterateAsWritten(els, p, numSlices)
  }

  /** The retry loop with at most `fuel` iterations. The first iteration
      works on the lengths as they are; each retry restores the original
      lengths and raises the local padding by exactly 100. On convergence
      every element of the accepted layout keeps at least `minPadding`
      frames of padding, after fewer retries than there was fuel. */
  function Retry<U>(step: Step<U>, els: seq<Element<U>>, p: nat, minPadding: int, fuel: nat)
    : (r: LoopResult<U>)
    ensures r.Converged? ==> r.retries < fuel && PadSizesAtLeast(r.pass.elements, minPadding)
    decreases fuel
  {
    if fuel == 0 then Failed(NotConverged)
    else
      match step(els, p)
      case None => Failed(ZeroSliceSize)
      case Some(pass) =>
        if PadSizesAtLeast(pass.elements, minPadding) then Converged(pass, 0)
        else
          match Retry(step, RestoreOrigSizes(pass.elements), p + 100, minPadding, fuel - 1)
          case Converged(later, retries) => Converged(later, retries + 1)
          case Failed(failure) => Failed(failure)
  }

  /** The filler as the code writes it: `(numSlices - q) * slice` with
      `q = total / slice`, where the subtraction is done on unsigned 32-bit
      values. The product is taken exactly here; the code multiplies in
      float32 and converts to int32, so this is the code's value only while
      the result fits int32. When the chain fits the budget it agrees with
      `FillerSize`. */
  function FillerSizeAsWritten(numSlices: nat, total: nat, slice: int): (f: int)
    requires slice > 0
    ensures numSlices < TwoTo32 && total / slice <= numSlices ==>
              f == FillerSize(numSlices, total, slice)
  {
    ((numSlices - total / slice) % TwoTo32) * slice
  }

  /** The filler length: the slices of the budget the chain leaves free,
      none when it already takes the whole budget or more. It is a whole
      number of slices, and with it an aligned chain that fits the budget
      takes exactly `numSlices` slices. */
  function FillerSize(numSlices: nat, total: nat, slice: int): (f: nat)
    requires slice > 0
    ensures f % slice == 0
    ensures total % slice == 0 && total / slice <= numSlices ==> total + f == numSlices * slice
    ensures total / slice >= numSlices ==> f == 0
  {
    var q := total / slice;
    MultipleHasNoRemainder(if q <= numSlices then numSlices - q else 0, slice);
    if q <= numSlices then (numSlices - q) * slice else 0
  }

  /** Lays the chain out with at most `fuel` loop iterations. An empty chain,
      and a loop that does not converge, leave the elements as they are and
      the output invalid. Otherwise the converged layout is followed by one
      filler element (original length 0) and the output becomes valid. The
      two padding settings are never changed. */
  function Calc<U>(vc: State<U>, fuel: nat): (r: State<U>)
    requires vc.numSlices > 0 && |vc.elements| <= vc.numSlices
    ensures r.maxElements == vc.maxElements && r.numSlices == vc.numSlices
    ensures r.extraPadding == vc.extraPadding && r.minPadding == vc.minPadding
    ensures r.valid <==>
              |vc.elements| > 0
              && Loop(vc, fuel).Converged?
    ensures !r.valid ==> r.elements == vc.elements
    ensures r.valid ==>
              var n := |vc.elements|;
              var slice := Loop(vc, fuel).pass.slice;
              && slice > 0
              && |r.elements| == n + 1
              && PadsConsistent(r.elements)
              && (forall i :: 0 <= i < n ==>
                    && r.elements[i].orig == vc.elements[i].orig
                    && r.elements[i].user == vc.elements[i].user
                    && r.elements[i].pad >= vc.minPadding)
              && (forall i :: 0 <= i < |r.elements| ==> r.elements[i].cur % slice == 0)
              && r.elements[n].orig == 0 && r.elements[n].user == None
              && TotalSize(r.elements) >= vc.numSlices * slice
              && (TotalSize(r.elements[..n]) <= vc.numSlices * slice ==>
                    TotalSize(r.elements) == vc.numSlices * slice)
    ensures r.valid ==>
              var n := |vc.elements|;
              var pass := Loop(vc, fuel).pass;
              var f := FillerSize(vc.numSlices, TotalSize(pass.elements), pass.slice);
              r.elements[..n] == pass.elements && r.elements[n] == Element(0, f, f, None)
    ensures WellFormed(vc) ==> WellFormed(r)
  {
    var off := vc.(valid := false);
    if |vc.elements| == 0 then off
    else
      var res := Loop(vc, fuel);
      if res.Failed? then off
      else
        ConvergedLayout(vc.elements, vc.extraPadding, vc.numSlices, vc.minPadding, fuel);
        var els := WithFiller(res.pass, vc.numSlices);
        assert forall i :: 0 <= i < |vc.elements| ==> els[i] == res.pass.elements[i];
        off.(elements := els, valid := true)
  }

  /** A valid output holds, before its filler, the first attempt that passed
      the padding check: the iteration at padding extra_padding + 100 * k
      for some k below the fuel, with every attempt before it rejected. */
  lemma CalcIsFirstAcceptedAttempt<U>(vc: State<U>, fuel: nat)
    requires vc.numSlices > 0 && |vc.elements| <= vc.numSlices
    ensures var r, n := Calc(vc, fuel), |vc.elements|;
            r.valid ==>
              exists k: nat :: k < fuel
                && (var it := Iterate(StartOf(vc.elements, k), PaddingAt(vc.extraPadding, k), vc.numSlices);
                    it.Some? && PadSizesAtLeast(it.value.elements, vc.minPadding)
                    && r.elements[..n] == it.value.elements)
                && forall j: nat :: j < k ==>
                     var it := Iterate(StartOf(vc.elements, j), PaddingAt(vc.extraPadding, j), vc.numSlices);
                     it.Some? && !PadSizesAtLeast(it.value.elements, vc.minPadding)
  {
    var r := Calc(vc, fuel);
    if r.valid {
      LoopFindsFirstAcceptedAttempt(vc, fuel);
      var k := Loop(vc, fuel).retries;
      assert Iterate(StartOf(vc.elements, k), PaddingAt(vc.extraPadding, k), vc.numSlices)
             == Some(Loop(vc, fuel).pass);
    }
  }

  /** The retry loop of a session, started from its stored padding setting. */
  function Loop<U>(vc: State<U>, fuel: nat): LoopResult<U>
    requires vc.numSlices > 0
  {
    Retry(IterStep(vc.numSlices), vc.elements, vc.extraPadding, vc.minPadding, fuel)
  }

  /** The session's loop is the search of the retry lemmas: on convergence
      the accepted layout is the iteration at padding
      extra_padding + 100 * retries, on the lengths as they are for the first
      attempt and on the original lengths afterwards; every earlier attempt
      ran to the end and was rejected by the padding check. */
  lemma LoopFindsFirstAcceptedAttempt<U>(vc: State<U>, fuel: nat)
    requires vc.numSlices > 0
    ensures var r := Loop(vc, fuel);
            r.Converged? ==>
              && r.retries < fuel && PadSizesAtLeast(r.pass.elements, vc.minPadding)
              && Iterate(StartOf(vc.elements, r.retries), PaddingAt(vc.extraPadding, r.retries), vc.numSlices)
                 == Some(r.pass)
              && forall k: nat :: k < r.retries ==>
                   var it := Iterate(StartOf(vc.elements, k), PaddingAt(vc.extraPadding, k), vc.numSlices);
                   it.Some? && !PadSizesAtLeast(it.value.elements, vc.minPadding)
  {
    var els, p, numSlices, minPadding := vc.elements, vc.extraPadding, vc.numSlices, vc.minPadding;
    var step := IterStep<U>(numSlices);
    var r := Retry(step, els, p, minPadding, fuel);
    IterationIsWellBehaved<U>(numSlices);
    RetryAcceptsAttempt(step, els, p, minPadding, fuel);
    RetryRejectedEarlierAttempts(step, els, p, minPadding, fuel);
    if r.Converged? {
      AttemptOfIteration(els, p, r.retries, numSlices);
      forall k: nat | k < r.retries
        ensures var it := Iterate(StartOf(els, k), PaddingAt(p, k), numSlices);
                it.Some? && !PadSizesAtLeast(it.value.elements, minPadding)
      {
        assert Rejected(step, els, p, k, minPadding);
        AttemptOfIteration(els, p, k, numSlices);
      }
    }
  }

  /** An attempt of the code's loop is the iteration on that attempt's
      starting chain and padding. */
  lemma AttemptOfIteration<U>(els: seq<Element<U>>, p: nat, k: nat, numSlices: nat)
    requires numSlices > 0
    ensures Attempt(IterStep(numSlices), els, p, k)
            == Iterate(StartOf(els, k), PaddingAt(p, k), numSlices)
  {
  }

  /** The converged layout followed by the filler element: original length
      0, no user data, and the budget's free slices as its length and its
      padding. Every length stays a whole number of slices; the chain now
      takes at least `numSlices` slices, and exactly that many when the
      layout alone did not take more. */
  function WithFiller<U>(pass: Pass<U>, numSlices: nat): (r: seq<Element<U>>)
    requires pass.slice > 0
    requires forall i :: 0 <= i < |pass.elements| ==> pass.elements[i].cur % pass.slice == 0
    ensures |r| == |pass.elements| + 1 && r[..|pass.elements|] == pass.elements
    ensures var f := FillerSize(numSlices, TotalSize(pass.elements), pass.slice);
            r[|pass.elements|] == Element(0, f, f, None)
    ensures forall i :: 0 <= i < |r| ==> r[i].cur % pass.slice == 0
    ensures TotalSize(r) >= numSlices * pass.slice
    ensures TotalSize(pass.elements) <= numSlices * pass.slice ==>
              TotalSize(r) == numSlices * pass.slice
    ensures PadsConsistent(pass.elements) ==> PadsConsistent(r)
  {
    var f := FillerSize(numSlices, TotalSize(pass.elements), pass.slice);
    FilledChainTotal(pass.elements, f, numSlices, pass.slice);
    pass.elements + [Element(0, f, f, None)]
  }

  /** Totals of the converged layout followed by the filler. */
  lemma FilledChainTotal<U>(els: seq<Element<U>>, f: nat, numSlices: nat, slice: int)
    requires slice > 0
    requires forall i :: 0 <= i < |els| ==> els[i].cur % slice == 0
    requires f == FillerSize(numSlices, TotalSize(els), slice)
    ensures var all := els + [Element(0, f, f, None)];
            && all[..|els|] == els
            && TotalSize(all) == TotalSize(els) + f
            && TotalSize(all) >= numSlices * slice
            && (TotalSize(els) <= numSlices * slice ==> TotalSize(all) == numSlices * slice)
  {
    var all := els + [Element(0, f, f, None)];
    assert all[..|els|] == els;
    assert TotalSize(all) == TotalSize(els) + f;
    TotalOfMultiples(els, slice);
    FillerReachesBudget(TotalSize(els), numSlices, slice);
  }

  /** With the filler, an aligned total reaches the budget, and meets it
      exactly unless it was already over it. */
  lemma FillerReachesBudget(total: nat, numSlices: nat, slice: int)
    requires slice > 0 && total % slice == 0
    ensures var f := FillerSize(numSlices, total, slice);
            && total + f >= numSlices * slice
            && (total <= numSlices * slice ==> total + f == numSlices * slice)
  {
    if total / slice > numSlices {
      var q := total / slice;
      assert total == q * slice;
      MulMonotone(numSlices, q, slice);
    }
  }

  lemma MulMonotone(x: int, y: int, s: nat)
    requires x <= y
    ensures x * s <= y * s
  {
    MulNonNegative(y - x, s);
    assert y * s - x * s == (y - x) * s;
  }

  // ---------------------------------------------------------------------
  // Properties of the retry loop

  /** Two chains that agree on everything but the recorded padding. */
  ghost predicate SameLayout<U>(a: seq<Element<U>>, b: seq<Element<U>>)
  {
    && |a| == |b|
    && forall i :: 0 <= i < |a| ==>
         a[i].orig == b[i].orig && a[i].cur == b[i].cur && a[i].user == b[i].user
  }

  /** Two chains of the same elements as added: same count, same original
      lengths, same user data. */
  ghost predicate SameOrigins<U>(a: seq<Element<U>>, b: seq<Element<U>>)
  {
    && |a| == |b|
    && forall i :: 0 <= i < |a| ==> a[i].orig == b[i].orig && a[i].user == b[i].user
  }

  /** Restoring the original lengths of two chains of the same elements
      gives the same layout. */
  lemma RestoreGivesSameLayout<U>(a: seq<Element<U>>, b: seq<Element<U>>)
    requires SameOrigins(a, b)
    ensures SameLayout(RestoreOrigSizes(a), RestoreOrigSizes(b))
    ensures SameOrigins(RestoreOrigSizes(a), b)
  {
  }

  /** The chain the loop iterates on after `k` retries: the chain as it is
      for the first iteration, its original lengths afterwards. */
  function StartOf<U>(els: seq<Element<U>>, k: nat): (r: seq<Element<U>>)
    ensures SameOrigins(r, els)
  {
    if k == 0 then els else RestoreOrigSizes(els)
  }

  /** The local padding after `k` retries. */
  function PaddingAt(p: nat, k: nat): nat
  {
    p + 100 * k
  }

  /** The iteration the loop tries after `k` retries. */
  ghost function Attempt<U>(step: Step<U>, els: seq<Element<U>>, p: nat, k: nat): Option<Pass<U>>
  {
    step(StartOf(els, k), PaddingAt(p, k))
  }

  /** The attempt after `k` retries runs to the end but leaves some element
      short of `minPadding`. */
  ghost predicate Rejected<U>(step: Step<U>, els: seq<Element<U>>, p: nat, k: nat, minPadding: int)
  {
    var it := Attempt(step, els, p, k);
    it.Some? && !PadSizesAtLeast(it.value.elements, minPadding)
  }

  /** The loop is the search for the first padding p, p + 100, p + 200, ...
      whose iteration passes the check: on convergence the accepted layout
      is exactly the attempt at that padding. */
  lemma {:induction false} RetryAcceptsAttempt<U>(
    step: Step<U>, els: seq<Element<U>>, p: nat, minPadding: int, fuel: nat)
    requires forall a, b, x {:trigger SameLayout(a, b), step(a, x)} :: SameLayout(a, b) ==> step(a, x) == step(b, x)
    requires forall a, x :: step(a, x).Some? ==> SameOrigins(step(a, x).value.elements, a)
    ensures var r := Retry(step, els, p, minPadding, fuel);
            r.Converged? ==> Attempt(step, els, p, r.retries) == Some(r.pass)
    decreases fuel
  {
    assert Attempt(step, els, p, 0) == step(els, p);
    if fuel > 0 && Rejected(step, els, p, 0, minPadding) {
      var next := RestoreOrigSizes(step(els, p).value.elements);
      var q := p + 100;
      var rest := Retry(step, next, q, minPadding, fuel - 1);
      RetryAcceptsAttempt(step, next, q, minPadding, fuel - 1);
      if rest.Converged? {
        AttemptAfterRejection(step, els, p, rest.retries);
      }
    }
  }

  /** ... and every attempt before the accepted one was rejected. */
  lemma {:induction false} RetryRejectedEarlierAttempts<U>(
    step: Step<U>, els: seq<Element<U>>, p: nat, minPadding: int, fuel: nat)
    requires forall a, b, x {:trigger SameLayout(a, b), step(a, x)} :: SameLayout(a, b) ==> step(a, x) == step(b, x)
    requires forall a, x :: step(a, x).Some? ==> SameOrigins(step(a, x).value.elements, a)
    ensures var r := Retry(step, els, p, minPadding, fuel);
            r.Converged? ==> forall k: nat :: k < r.retries ==> Rejected(step, els, p, k, minPadding)
    decreases fuel
  {
    assert Attempt(step, els, p, 0) == step(els, p);
    if fuel > 0 && Rejected(step, els, p, 0, minPadding) {
      var next := RestoreOrigSizes(step(els, p).value.elements);
      var q := p + 100;
      var rest := Retry(step, next, q, minPadding, fuel - 1);
      RetryRejectedEarlierAttempts(step, next, q, minPadding, fuel - 1);
      if rest.Converged? {
        RejectionsShift(step, els, p, q, rest.retries, minPadding);
      }
    }
  }

  /** A zero slice size ends the search at an attempt that every earlier
      one precedes as rejected. */
  lemma {:induction false} RetryFailsAtZeroSliceAttempt<U>(
    step: Step<U>, els: seq<Element<U>>, p: nat, minPadding: int, fuel: nat)
    requires forall a, b, x {:trigger SameLayout(a, b), step(a, x)} :: SameLayout(a, b) ==> step(a, x) == step(b, x)
    requires forall a, x :: step(a, x).Some? ==> SameOrigins(step(a, x).value.elements, a)
    ensures Retry(step, els, p, minPadding, fuel) == Failed(ZeroSliceSize) ==>
              exists k: nat :: k < fuel && Attempt(step, els, p, k).None?
                && forall j: nat :: j < k ==> Rejected(step, els, p, j, minPadding)
    decreases fuel
  {
    assert Attempt(step, els, p, 0) == step(els, p);
    if fuel > 0 && Rejected(step, els, p, 0, minPadding) {
      var next := RestoreOrigSizes(step(els, p).value.elements);
      var q := p + 100;
      var rest := Retry(step, next, q, minPadding, fuel - 1);
      RetryFailsAtZeroSliceAttempt(step, next, q, minPadding, fuel - 1);
      if rest == Failed(ZeroSliceSize) {
        var k: nat :| k < fuel - 1 && Attempt(step, next, q, k).None?
          && forall j: nat :: j < k ==> Rejected(step, next, q, j, minPadding);
        AttemptAfterRejection(step, els, p, k);
        RejectionsShift(step, els, p, q, k, minPadding);
      }
    } else if fuel > 0 && step(els, p).None? {
      assert Attempt(step, els, p, 0).None?;
    }
  }

  /** Running out of fuel means every attempt the fuel allowed was rejected. */
  lemma {:induction false} RetryRunsOutAfterRejections<U>(
    step: Step<U>, els: seq<Element<U>>, p: nat, minPadding: int, fuel: nat)
    requires forall a, b, x {:trigger SameLayout(a, b), step(a, x)} :: SameLayout(a, b) ==> step(a, x) == step(b, x)
    requires forall a, x :: step(a, x).Some? ==> SameOrigins(step(a, x).value.elements, a)
    ensures Retry(step, els, p, minPadding, fuel) == Failed(NotConverged) ==>
              forall k: nat :: k < fuel ==> Rejected(step, els, p, k, minPadding)
    decreases fuel
  {
    assert Attempt(step, els, p, 0) == step(els, p);
    if fuel > 0 && Rejected(step, els, p, 0, minPadding) {
      var next := RestoreOrigSizes(step(els, p).value.elements);
      var q := p + 100;
      var rest := Retry(step, next, q, minPadding, fuel - 1);
      RetryRunsOutAfterRejections(step, next, q, minPadding, fuel - 1);
      if rest == Failed(NotConverged) {
        RejectionsShift(step, els, p, q, fuel - 1, minPadding);
      }
    }
  }

  /** Once the first iteration has run, the loop's later attempts are the
      original chain's attempts shifted by one. */
  lemma AttemptAfterRejection<U>(step: Step<U>, els: seq<Element<U>>, p: nat, k: nat)
    requires forall a, b, x {:trigger SameLayout(a, b), step(a, x)} :: SameLayout(a, b) ==> step(a, x) == step(b, x)
    requires forall a, x :: step(a, x).Some? ==> SameOrigins(step(a, x).value.elements, a)
    requires step(els, p).Some?
    ensures Attempt(step, RestoreOrigSizes(step(els, p).value.elements), p + 100, k)
            == Attempt(step, els, p, k + 1)
  {
    var pass := step(els, p).value;
    var next := RestoreOrigSizes(pass.elements);
    RestoreGivesSameLayout(pass.elements, els);
    RestoreGivesSameLayout(next, els);
    assert p + 100 + 100 * k == p + 100 * (k + 1);
  }

  /** A rejection by the restarted loop is a rejection one attempt later
      for the original chain. */
  lemma RejectionShifts<U>(step: Step<U>, els: seq<Element<U>>, p: nat, j: nat, minPadding: int)
    requires forall a, b, x {:trigger SameLayout(a, b), step(a, x)} :: SameLayout(a, b) ==> step(a, x) == step(b, x)
    requires forall a, x :: step(a, x).Some? ==> SameOrigins(step(a, x).value.elements, a)
    requires step(els, p).Some?
    requires Rejected(step, RestoreOrigSizes(step(els, p).value.elements), p + 100, j, minPadding)
    ensures Rejected(step, els, p, j + 1, minPadding)
  {
    AttemptAfterRejection(step, els, p, j);
  }

  /** When the first attempt is rejected, the restarted loop's first `k`
      rejections are the original chain's first `k + 1`. */
  lemma RejectionsShift<U>(step: Step<U>, els: seq<Element<U>>, p: nat, q: nat, k: nat, minPadding: int)
    requires forall a, b, x {:trigger SameLayout(a, b), step(a, x)} :: SameLayout(a, b) ==> step(a, x) == step(b, x)
    requires forall a, x :: step(a, x).Some? ==> SameOrigins(step(a, x).value.elements, a)
    requires Rejected(step, els, p, 0, minPadding) && q == p + 100
    requires forall j: nat :: j < k ==>
               Rejected(step, RestoreOrigSizes(step(els, p).value.elements), q, j, minPadding)
    ensures forall j: nat :: j < k + 1 ==> Rejected(step, els, p, j, minPadding)
  {
    forall j: nat | 0 < j < k + 1
      ensures Rejected(step, els, p, j, minPadding)
    {
      RejectionShifts(step, els, p, j - 1, minPadding);
    }
  }

  /** What a converged loop of the code hands to the filler step: a layout
      of the same elements as added, every length a whole number of slices,
      every recorded padding matching its lengths and at least
      `minPadding`, found at local padding p + 100 * retries. */
  lemma ConvergedLayout<U>(els: seq<Element<U>>, p: nat, numSlices: nat, minPadding: int, fuel: nat)
    requires numSlices > 0
    ensures var r := Retry(IterStep(numSlices), els, p, minPadding, fuel);
            r.Converged? ==>
              && |r.pass.elements| == |els| && r.pass.slice > 0
              && r.pass.padding == p + 100 * r.retries
              && PadsConsistent(r.pass.elements)
              && forall i :: 0 <= i < |els| ==>
                   && r.pass.elements[i].orig == els[i].orig
                   && r.pass.elements[i].user == els[i].user
                   && r.pass.elements[i].cur % r.pass.slice == 0
                   && r.pass.elements[i].pad >= minPadding
  {
    var step := IterStep<U>(numSlices);
    var r := Retry(step, els, p, minPadding, fuel);
    if r.Converged? {
      IterationIsWellBehaved<U>(numSlices);
      RetryAcceptsAttempt(step, els, p, minPadding, fuel);
      assert Iterate(StartOf(els, r.retries), PaddingAt(p, r.retries), numSlices) == Some(r.pass);
    }
  }

  /** Chains with the same layout give the same iteration: the padding step
      re-derives the recorded padding. */
  lemma IterateIgnoresStoredPads<U>(a: seq<Element<U>>, b: seq<Element<U>>, p: nat, numSlices: nat)
    requires numSlices > 0 && SameLayout(a, b)
    ensures Iterate(a, p, numSlices) == Iterate(b, p, numSlices)
  {
    var pa, pb := AddPadding(a, p), AddPadding(b, p);
    assert forall i :: 0 <= i < |pa| ==> pa[i] == pb[i];
    assert pa == pb;
  }

  /** What the loop relies on in an iteration holds for the code's one: it
      looks only at the lengths, not at the recorded padding, and it keeps
      the elements as added. */
  lemma IterationIsWellBehaved<U>(numSlices: nat)
    requires numSlices > 0
    ensures var step := IterStep<U>(numSlices);
            forall a, b, x {:trigger SameLayout(a, b), step(a, x)} :: SameLayout(a, b) ==> step(a, x) == step(b, x)
    ensures var step := IterStep<U>(numSlices);
            forall a, x :: step(a, x).Some? ==> SameOrigins(step(a, x).value.elements, a)
  {
    var step := IterStep<U>(numSlices);
    forall a, b, x | SameLayout(a, b)
      ensures step(a, x) == step(b, x)
    {
      IterateIgnoresStoredPads(a, b, x, numSlices);
    }
  }

  // ---------------------------------------------------------------------
  // The slice sizes are never 0 under the code's own bounds

  /** With 1 to numSlices + 1 elements and a padding of at least numSlices
      frames, neither slice size of an iteration comes out as 0, so the
      divisions the code performs are all by non-zero values. */
  lemma IterationNeverDividesByZero<U>(els: seq<Element<U>>, p: nat, numSlices: nat)
    requires 0 < numSlices <= p
    requires 0 < |els| <= numSlices + 1
    ensures Iterate(els, p, numSlices).Some?
  {
    var padded := AddPadding(els, p);
    assert MaxSize(padded) >= numSlices by { assert padded[0].cur >= p; }
    FirstSliceSizePositive(padded, numSlices);
    var a := FirstSliceSize(padded, numSlices);
    var aligned := AlignUp(padded, a);
    var total := TotalSize(aligned);
    assert total >= numSlices by { assert aligned[0].cur >= padded[0].cur >= p; }
    SecondSliceSizePositive(total, numSlices);
  }

  /** The first slice size is at least 1 when the chain holds 1 to
      numSlices + 1 elements and its largest one is at least numSlices. */
  lemma FirstSliceSizePositive<U>(els: seq<Element<U>>, numSlices: nat)
    requires 0 < numSlices <= MaxSize(els)
    requires 0 < |els| <= numSlices + 1
    ensures FirstSliceSize(els, numSlices) >= 1
  {
    var total := TotalSize(els);
    var max := MaxSize(els);
    assert max <= total;
    ChainWithinTwiceShare(els, numSlices);
    RoundedShareInRange(max, total, numSlices);
    var count := RoundHalfUp(numSlices * max, total);
    QuotientAtLeastOne(max, count);
  }

  /** A chain of at most numSlices + 1 elements totals at most twice
      numSlices times its largest length. */
  lemma ChainWithinTwiceShare<U>(els: seq<Element<U>>, numSlices: nat)
    requires 0 < numSlices && |els| <= numSlices + 1
    ensures TotalSize(els) <= 2 * (numSlices * MaxSize(els))
  {
    var k, m := |els|, MaxSize(els);
    TotalAtMostCountTimesMax(els);
    MulMonotone(k, numSlices + 1, m);
    MulSucc(numSlices, m);
    MulMonotone(1, numSlices, m);
  }

  /** The rounded share numSlices * m / t of an element of length m in a
      chain of total t lies between 1 and numSlices when m <= t and the
      chain is at most 2 * numSlices elements of length m. */
  lemma RoundedShareInRange(m: nat, t: nat, numSlices: nat)
    requires 0 < m <= t && t <= 2 * (numSlices * m)
    ensures 1 <= RoundHalfUp(numSlices * m, t) <= numSlices
  {
    var n := numSlices * m;
    var c := RoundHalfUp(n, t);
    RoundHalfUpIsNearest(n, t);
    NearestShareInRange(m, t, numSlices, n, c, t * c);
  }

  /** The bounds of the rounded share, from the nearest-integer property
      alone: `c` is the share, `n` the numerator and `tc` the product t * c. */
  lemma NearestShareInRange(m: nat, t: nat, numSlices: nat, n: nat, c: nat, tc: nat)
    requires 0 < m <= t && n == numSlices * m && t <= 2 * n
    requires tc == t * c && 2 * tc <= 2 * n + t < 2 * tc + 2 * t
    ensures 1 <= c <= numSlices
  {
    PositiveProductFactor(t, c);
    MulMonotone(m, t, numSlices);
    var u := t * numSlices;
    assert n <= u;
    MulSucc(numSlices, t);
    assert t * (numSlices + 1) == u + t;
    ProductCancelsLess(t, c, numSlices + 1);
  }

  lemma PositiveProductFactor(t: nat, c: nat)
    requires t * c > 0
    ensures c >= 1
  {
  }

  lemma ProductCancelsLess(t: nat, c: nat, k: nat)
    requires t * c < t * k
    ensures c < k
  {
    if c >= k {
      MulMonotone(k, c, t);
    }
  }

  lemma QuotientAtLeastOne(x: nat, d: nat)
    requires 0 < d <= x
    ensures x / d >= 1
  {
  }

  /** The second slice size is at least 1 once the aligned total reaches
      the slot budget. */
  lemma SecondSliceSizePositive(total: nat, numSlices: nat)
    requires 0 < numSlices <= total
    ensures SecondSliceSize(total, numSlices) >= 1
  {
  }

  /** A chain is at most as long as its count times its largest element. */
  lemma {:induction false} TotalAtMostCountTimesMax<U>(els: seq<Element<U>>)
    ensures TotalSize(els) <= |els| * MaxSize(els)
  {
    if |els| > 0 {
      var init := els[..|els| - 1];
      assert forall i :: 0 <= i < |init| ==> init[i] == els[i];
      var n, m0, m := |init|, MaxSize(init), MaxSize(els);
      var t0, last := TotalSize(init), els[|els| - 1].cur;
      assert TotalSize(els) == t0 + last;
      TotalAtMostCountTimesMax(init);
      assert t0 <= n * m0;
      assert m0 <= m && last <= m;
      MulMonotone(m0, m, n);
      assert n * m0 <= n * m by {
        assert m0 * n == n * m0 && m * n == n * m;
      }
      MulSucc(n, m);
    }
  }

  /** Under the same bounds the loop never fails on a zero slice size: it
      either converges or runs out of fuel. */
  lemma RetryNeverDividesByZero<U>(
    els: seq<Element<U>>, p: nat, numSlices: nat, minPadding: int, fuel: nat)
    requires 0 < numSlices <= p
    requires 0 < |els| <= numSlices + 1
    ensures Retry(IterStep(numSlices), els, p, minPadding, fuel) != Failed(ZeroSliceSize)
  {
    var step := IterStep<U>(numSlices);
    IterationIsWellBehaved<U>(numSlices);
    RetryFailsAtZeroSliceAttempt(step, els, p, minPadding, fuel);
    if Retry(step, els, p, minPadding, fuel) == Failed(ZeroSliceSize) {
      var k: nat :| k < fuel && Attempt(step, els, p, k).None?;
      IterationNeverDividesByZero(StartOf(els, k), PaddingAt(p, k), numSlices);
      assert false;
    }
  }

  /** The query surface of this strategy. */
  function View<U>(vc: State<U>): Chain.View<U>
  {
    Chain.View(vc.elements, vc.valid)
  }
}
