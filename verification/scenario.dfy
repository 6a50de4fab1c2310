/** The fixed-size packer's reference scenario: eleven waveforms on a
    120-slot target with 2000 frames of extra padding and a chain size of 11,
    which the packer rounds up to 12, the smallest divisor of 120 from 11 on. */
module Scenario {
  import opened Chain
  import SampleChain
  import Registry

  /** The lengths added, in order. */
  const TestSizes: seq<nat> :=
    [16980, 5878, 19156, 17850, 2395, 6531, 7401, 7619, 16980, 21551, 2830]

  /** Add every length in order, without user data. */
  function AddAll(sc: SampleChain.State<int>, sizes: seq<nat>): SampleChain.State<int>
    decreases |sizes|
  {
    if |sizes| == 0 then sc
    else AddAll(SampleChain.Add(sc, sizes[0], None).state, sizes[1..])
  }

  /** While there is room, adding a list of lengths grows the chain by one
      unpadded element per length, in order, and changes nothing else. */
  lemma {:induction false} AddAllAppends(sc: SampleChain.State<int>, sizes: seq<nat>)
    requires |sc.elements| + |sizes| <= sc.maxElements
    ensures var r := AddAll(sc, sizes);
            && r == sc.(elements := r.elements)
            && |r.elements| == |sc.elements| + |sizes|
            && r.elements[..|sc.elements|] == sc.elements
            && forall i :: 0 <= i < |sizes| ==> r.elements[|sc.elements| + i] == Fresh(sizes[i], None)
    decreases |sizes|
  {
    if |sizes| > 0 {
      var n := |sc.elements|;
      var next := SampleChain.Add(sc, sizes[0], None).state;
      var tail := sizes[1..];
      AddAllAppends(next, tail);
      var r := AddAll(next, tail);
      assert r.elements[..n] == sc.elements by {
        assert r.elements[..n] == r.elements[..n + 1][..n];
      }
      forall i | 0 <= i < |sizes|
        ensures r.elements[n + i] == Fresh(sizes[i], None)
      {
        if i > 0 {
          assert r.elements[(n + 1) + (i - 1)] == Fresh(tail[i - 1], None);
        } else {
          assert r.elements[..n + 1][n] == next.elements[n];
        }
      }
    }
  }

  /** A fresh 120-slot session with the extra padding set to 2000. */
  function Configured(): (sc: SampleChain.State<int>)
    ensures sc.numSlices == 120
  {
    var s0 := SampleChain.Init(120).value;
    SampleChain.SetParameterI(s0, "extra_padding", 2000).state
  }

  /** The scenario's chain after the lengths are added. */
  function Added(): (sc: SampleChain.State<int>)
    ensures sc.numSlices == 120
  {
    AddAll(Configured(), TestSizes)
  }

  /** The scenario's chain once the chain size is requested equal to the
      number of elements added. */
  function Prepared(): (sc: SampleChain.State<int>)
    ensures sc.numSlices == 120
  {
    var s2 := Added();
    SampleChain.SetParameterI(s2, "chain_size", |s2.elements|).state
  }

  /** The whole scenario: the preparation followed by the layout. */
  function RunTest(): (sc: SampleChain.State<int>)
    ensures sc.numSlices == 120
  {
    SampleChain.Calc(Prepared())
  }

  /** Every test length is positive and at most 21551, the tenth one. */
  lemma TestSizesBounded()
    ensures |TestSizes| == 11
    ensures forall i :: 0 <= i < |TestSizes| ==> 0 < TestSizes[i] <= 21551
    ensures TestSizes[9] == 21551
  {
  }

  /** The configured session is empty, holds up to 120 elements and pads by 2000. */
  lemma ConfiguredSession()
    ensures var sc := Configured();
            sc.elements == [] && sc.maxElements == 120 && sc.extraPadding == 2000
  {
  }

  /** Eleven lengths of 1 to 21551 frames, the tenth the longest, added to an
      empty session of capacity 120 give eleven unpadded elements with
      those lengths. */
  lemma AddedElevenLengths(sc: SampleChain.State<int>, sizes: seq<nat>)
    requires sc.elements == [] && sc.maxElements == 120
    requires |sizes| == 11
    requires forall i :: 0 <= i < 11 ==> 0 < sizes[i] <= 21551
    requires sizes[9] == 21551
    ensures var r := AddAll(sc, sizes);
            && |r.elements| == 11 && r.maxElements == 120 && r.extraPadding == sc.extraPadding
            && (forall i :: 0 <= i < 11 ==> 0 < r.elements[i].cur <= 21551)
            && r.elements[9].cur == 21551
  {
    var r := AddAll(sc, sizes);
    AddAllAppends(sc, sizes);
    forall i | 0 <= i < 11
      ensures r.elements[i] == Fresh(sizes[i], None)
    {
      assert r.elements[|sc.elements| + i] == Fresh(sizes[i], None);
    }
  }

  /** After the additions the chain holds the eleven lengths unpadded and
      the extra padding is 2000. */
  lemma AddedChain()
    ensures var sc := Added();
            && |sc.elements| == 11 && sc.maxElements == 120 && sc.extraPadding == 2000
            && (forall i :: 0 <= i < 11 ==> 0 < sc.elements[i].cur <= 21551)
            && sc.elements[9].cur == 21551
  {
    ConfiguredSession();
    TestSizesBounded();
    AddedElevenLengths(Configured(), TestSizes);
  }

  /** The requested chain size 11 is stored as 12, the smallest divisor of
      120 from 11 on; nothing else changes. */
  lemma PreparedChain()
    ensures var sc := Prepared();
            && |sc.elements| == 11 && sc.maxElements == 120
            && sc.chainSize == 12 && sc.extraPadding == 2000
            && (forall i :: 0 <= i < 11 ==> 0 < sc.elements[i].cur <= 21551)
            && sc.elements[9].cur == 21551
  {
    AddedChain();
    ChainSizeElevenBecomesTwelve(Added());
  }

  /** On 120 slots a chain size request of 11 is accepted and stored as 12. */
  lemma ChainSizeElevenBecomesTwelve(sc: SampleChain.State<int>)
    requires sc.numSlices == 120
    ensures SampleChain.SetParameterI(sc, "chain_size", 11) == Updated(true, sc.(chainSize := 12))
  {
    assert SampleChain.SmallestDivisorFrom(120, 11) == 12;
  }

  /** The granularity of the scenario is the longest waveform plus the extra
      padding: 21551 + 2000. */
  lemma ScenarioGranularity()
    ensures SampleChain.Granularity(Prepared()) == 23551
  {
    PreparedChain();
    GranularityOfEleven(Prepared());
  }

  /** Eleven waveforms of at most 21551 frames, the tenth exactly that
      long, filled up to 12 and padded by 2000 give a granularity of 23551:
      the one-frame filler does not change the maximum. */
  lemma GranularityOfEleven(sc: SampleChain.State<int>)
    requires |sc.elements| == 11 && sc.chainSize == 12 && sc.extraPadding == 2000
    requires forall i :: 0 <= i < 11 ==> sc.elements[i].cur <= 21551
    requires sc.elements[9].cur == 21551
    ensures SampleChain.Granularity(sc) == 23551
  {
    var filled := SampleChain.Filled(sc);
    assert |filled| == 12;
    assert forall i :: 0 <= i < 11 ==> filled[i] == sc.elements[i];
    assert filled[11] == SampleChain.Filler();
    assert forall i :: 0 <= i < |filled| ==> filled[i].cur <= 21551;
    assert filled[9].cur == 21551;
  }

  /** The layout of an eleven-element chain of non-empty waveforms with
      chain size 12 and granularity g: twelve slots of g each, and the last
      one ends at the total 12 * g. */
  lemma LayoutOfElevenInTwelve(sc: SampleChain.State<int>, g: int)
    requires |sc.elements| == 11 && sc.maxElements == 120
    requires sc.chainSize == 12 && sc.extraPadding > 0
    requires forall i :: 0 <= i < 11 ==> sc.elements[i].cur > 0
    requires SampleChain.Granularity(sc) == g
    ensures var r := SampleChain.Calc(sc);
            && r.valid && |r.elements| == 12 && r.chainSize == 12
            && (forall i :: 0 <= i < 12 ==> r.elements[i].cur == g)
            && SampleChain.View(r).Total() == 12 * g
            && SampleChain.View(r).Offset(11) + SampleChain.View(r).Size(11) == SampleChain.View(r).Total()
  {
    var r := SampleChain.Calc(sc);
    SampleChain.CalcTotalIsSlotsTimesGranularity(sc);
    OffsetsTile(SampleChain.View(r));
  }

  /** Index 1 selects the fixed-size packer; the chain size 11 is stored as
      12; the layout is twelve slots of 21551 + 2000 = 23551 frames (the
      eleven waveforms plus one filler), 282612 frames in all, and the last
      element ends at the total. */
  lemma ScenarioLayout()
    ensures Registry.Select(1) == Some(Registry.SampleChainStrategy)
    ensures RunTest().chainSize == 12
    ensures RunTest().valid && |RunTest().elements| == 12
    ensures forall i :: 0 <= i < 12 ==> RunTest().elements[i].cur == 23551
    ensures SampleChain.View(RunTest()).Total() == 282612
    ensures var v := SampleChain.View(RunTest());
            v.Offset(11) + v.Size(11) == v.Total()
  {
    PreparedChain();
    ScenarioGranularity();
    LayoutOfElevenInTwelve(Prepared(), 23551);
  }
}
