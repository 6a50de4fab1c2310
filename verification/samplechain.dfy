/** The fixed-size packer ("SampleChain"): the chain is filled up to a
    configured element count with one-frame silent fillers, then every
    element is rounded up to a multiple of (largest element + extra padding). */
module SampleChain {
  import opened Chain

  const DefaultExtraPadding: int := 2000

  /** One packing session. `maxElements` is the capacity fixed by `Init`,
      `numSlices` the slot budget of the target, `chainSize` the element
      count `Calc` fills up to, `valid` whether the output may be queried. */
  datatype State<U> = State(
    elements: seq<Element<U>>,
    maxElements: nat,
    numSlices: nat,
    chainSize: int,
    extraPadding: int,
    valid: bool)

  /** What every state reachable from `Init` satisfies. */
  predicate WellFormed<U>(sc: State<U>)
  {
    && sc.numSlices > 0
    && sc.maxElements == sc.numSlices
    && |sc.elements| <= sc.maxElements
    && 0 < sc.chainSize <= sc.numSlices
    && sc.numSlices % sc.chainSize == 0
    && sc.extraPadding > 0
  }

  /** A slot budget of 0 yields a null handle; otherwise an empty chain whose
      capacity and chain size are both the slot budget. */
  function Init<U>(numSlices: nat): (r: Option<State<U>>)
    ensures r.None? <==> numSlices == 0
    ensures r.Some? ==>
              && WellFormed(r.value)
              && r.value.elements == [] && !r.value.valid
              && r.value.maxElements == numSlices && r.value.numSlices == numSlices
              && r.value.chainSize == numSlices
              && r.value.extraPadding == DefaultExtraPadding
  {
    if numSlices > 0 then
      Some(State([], numSlices, numSlices, numSlices, DefaultExtraPadding, false))
    else None
  }

  /** The smallest value at or above `request` that divides `numSlices`:
      the chain-size search increments the request until the slices spread
      evenly, and stops at the latest at `numSlices` itself. */
  function SmallestDivisorFrom(numSlices: nat, request: nat): (d: nat)
    requires 0 < request <= numSlices
    ensures request <= d <= numSlices
    ensures numSlices % d == 0
    ensures forall k :: request <= k < d ==> numSlices % k != 0
    decreases numSlices - request
  {
    if numSlices % request == 0 then request
    else
      assert numSlices % numSlices == 0;
      SmallestDivisorFrom(numSlices, request + 1)
  }

  /** Integer parameters: "extra_padding" takes any positive value,
      "chain_size" any value in 1..numSlices, stored rounded up to a divisor
      of numSlices. Anything else is refused and changes nothing. */
  function SetParameterI<U>(sc: State<U>, name: string, value: int): (r: Updated<State<U>>)
    ensures r.ok <==>
              (name == "extra_padding" && value > 0)
              || (name == "chain_size" && 0 < value <= sc.numSlices)
    ensures !r.ok ==> r.state == sc
    ensures r.ok && name == "extra_padding" ==> r.state == sc.(extraPadding := value)
    ensures r.ok && name == "chain_size" ==>
              && r.state == sc.(chainSize := r.state.chainSize)
              && value <= r.state.chainSize <= sc.numSlices
              && sc.numSlices % r.state.chainSize == 0
              && forall k :: value <= k < r.state.chainSize ==> sc.numSlices % k != 0
    ensures WellFormed(sc) ==> WellFormed(r.state)
  {
    if name == "extra_padding" then
      if value > 0 then Updated(true, sc.(extraPadding := value)) else Updated(false, sc)
    else if name == "chain_size" then
      if 0 < value <= sc.numSlices
      then Updated(true, sc.(chainSize := SmallestDivisorFrom(sc.numSlices, value)))
      else Updated(false, sc)
    else Updated(false, sc)
  }

  /** No floating-point parameter exists: every call is refused. */
  function SetParameterF<U>(sc: State<U>, name: string, value: real): (r: Updated<State<U>>)
    ensures !r.ok && r.state == sc
  {
    Updated(false, sc)
  }

  /** Appends one unpadded element while there is room; a full chain refuses
      and is left as it is. The output-valid flag is not touched either way. */
  function Add<U>(sc: State<U>, size: nat, user: Option<U>): (r: Updated<State<U>>)
    ensures r.ok <==> |sc.elements| < sc.maxElements
    ensures r.ok ==> r.state == sc.(elements := sc.elements + [Element(size, size, 0, user)])
    ensures !r.ok ==> r.state == sc
    ensures WellFormed(sc) ==> WellFormed(r.state)
    ensures PadsConsistent(sc.elements) ==> PadsConsistent(r.state.elements)
  {
    if |sc.elements| < sc.maxElements
    then Updated(true, sc.(elements := sc.elements + [Fresh(size, user)]))
    else Updated(false, sc)
  }

  /** The silent element used to fill the chain up to its chain size. */
  function Filler<U>(): Element<U>
  {
    Element(1, 1, 0, None)
  }

  /** The elements `Calc` aligns: the chain, followed by fillers up to the
      chain size when it is short. A chain longer than the chain size keeps
      every element. */
  function Filled<U>(sc: State<U>): (r: seq<Element<U>>)
    requires sc.chainSize >= 0
    ensures |r| == if |sc.elements| < sc.chainSize then sc.chainSize else |sc.elements|
    ensures r[..|sc.elements|] == sc.elements
    ensures forall i :: |sc.elements| <= i < |r| ==> r[i] == Filler()
  {
    if |sc.elements| < sc.chainSize
    then sc.elements + seq(sc.chainSize - |sc.elements|, _ => Filler())
    else sc.elements
  }

  /** The alignment granularity: the largest length after filling, plus the
      extra padding. */
  function Granularity<U>(sc: State<U>): (g: int)
    requires sc.chainSize >= 0
    ensures g >= sc.extraPadding
    ensures forall i :: 0 <= i < |Filled(sc)| ==> Filled(sc)[i].cur + sc.extraPadding <= g
  {
    MaxSize(Filled(sc)) + sc.extraPadding
  }

  /** The granularity is attained: it is some filled element's length plus
      the extra padding, or the extra padding alone when nothing is filled.
      Together with the bound in its contract, g - extra_padding is exactly
      the largest filled length. */
  lemma GranularityIsAttained<U>(sc: State<U>)
    requires sc.chainSize >= 0
    ensures var filled, g := Filled(sc), Granularity(sc);
            && (|filled| > 0 ==> exists i :: 0 <= i < |filled| && filled[i].cur + sc.extraPadding == g)
            && (|filled| == 0 ==> g == sc.extraPadding)
  {
  }

  /** Lays the chain out. An empty chain (or a chain size of 0) leaves the
      elements as they are and the output invalid. Otherwise the elements
      become the layout of the filled chain (see `Layout`), which never
      exceeds the capacity, and the output becomes valid. */
  function Calc<U>(sc: State<U>): (r: State<U>)
    requires 0 <= sc.chainSize <= sc.maxElements && |sc.elements| <= sc.maxElements
    requires sc.extraPadding > 0
    ensures r.maxElements == sc.maxElements && r.numSlices == sc.numSlices
    ensures r.chainSize == sc.chainSize && r.extraPadding == sc.extraPadding
    ensures r.valid <==> |sc.elements| > 0 && sc.chainSize != 0
    ensures !r.valid ==> r.elements == sc.elements
    ensures r.valid ==> r.elements == Layout(sc) && |r.elements| <= r.maxElements
    ensures WellFormed(sc) ==> WellFormed(r)
  {
    var off := sc.(valid := false);
    if |sc.elements| > 0 && sc.chainSize != 0 then
      off.(elements := Layout(sc), valid := true)
    else off
  }

  /** The filled chain rounded up to the granularity: every element keeps
      its original length and user data and becomes g, or stays 0; every
      filler becomes a full slot of g with g - 1 frames of padding. */
  function Layout<U>(sc: State<U>): (r: seq<Element<U>>)
    requires sc.chainSize >= 0 && sc.extraPadding > 0
    ensures |r| == if |sc.elements| < sc.chainSize then sc.chainSize else |sc.elements|
    ensures forall i :: 0 <= i < |sc.elements| ==>
              && r[i].orig == sc.elements[i].orig
              && r[i].user == sc.elements[i].user
              && r[i].cur == (if sc.elements[i].cur == 0 then 0 else Granularity(sc))
    ensures forall i :: |sc.elements| <= i < |r| ==>
              r[i] == Element(1, Granularity(sc), Granularity(sc) - 1, None)
    ensures PadsConsistent(sc.elements) ==> PadsConsistent(r)
  {
    var filled := Filled(sc);
    var g := Granularity(sc);
    assert forall i :: 0 <= i < |sc.elements| ==> filled[i] == sc.elements[i];
    AlignUpBelowGranularity(filled, g);
    AlignUp(filled, g)
  }

  /** Rounding up to g a length below g gives g, except that 0 stays 0. */
  lemma AlignUpBelowGranularity<U>(els: seq<Element<U>>, g: int)
    requires g > 0
    requires forall i :: 0 <= i < |els| ==> els[i].cur < g
    ensures forall i :: 0 <= i < |els| ==>
              AlignUp(els, g)[i].cur == (if els[i].cur == 0 then 0 else g)
    ensures forall i :: 0 <= i < |els| && els[i].cur > 0 ==>
              AlignUp(els, g)[i].pad == g - els[i].orig
  {
    var r := AlignUp(els, g);
    forall i | 0 <= i < |els| && els[i].cur > 0
      ensures r[i].cur == g && r[i].pad == g - els[i].orig
    {
      assert r[i] == CeilElement(els[i], g);
      CeilBelowIsModulus(els[i].cur, g);
    }
  }

  /** A positive length below g rounds up to exactly g. */
  lemma CeilBelowIsModulus(x: nat, g: int)
    requires 0 < x < g
    ensures x % g != 0
    ensures CeilToMultiple(x, g) == g
  {
    assert x / g == 0;
  }

  /** A valid layout of a chain without empty elements is chain-size or
      more slots of exactly the granularity each, so its total is the
      element count times the granularity. */
  lemma CalcTotalIsSlotsTimesGranularity<U>(sc: State<U>)
    requires 0 <= sc.chainSize <= sc.maxElements && |sc.elements| <= sc.maxElements
    requires sc.extraPadding > 0
    requires forall i :: 0 <= i < |sc.elements| ==> sc.elements[i].cur > 0
    ensures var r := Calc(sc);
            r.valid ==> TotalSize(r.elements) == |r.elements| * Granularity(sc)
  {
    var r := Calc(sc);
    if r.valid {
      var g := Granularity(sc);
      assert g >= 0;
      TotalOfUniform(r.elements, g);
    }
  }

  /** The query surface of this strategy. */
  function View<U>(sc: State<U>): Chain.View<U>
  {
    Chain.View(sc.elements, sc.valid)
  }
}
