/** The element store shared by both packing strategies: the element record,
    the size helpers both strategies use (total, maximum, round-up alignment)
    and the query surface, which is a pure function of the element sequence
    plus the output-valid flag. */
module Chain {

  /** A possibly-null reference: the caller's opaque user data, or a null handle. */
  datatype Option<T> = None | Some(value: T)

  /** The result of a configuring call: whether it was accepted, and the state after it. */
  datatype Updated<S> = Updated(ok: bool, state: S)

  /** One waveform of the chain. `orig` is the length as added, `cur` the
      (possibly padded) length used for the layout, `pad` the padding the
      strategy last recorded, and `user` the caller's handle, stored and
      returned but never looked into. */
  datatype Element<U> = Element(orig: nat, cur: nat, pad: int, user: Option<U>)

  /** The element `add` stores: nothing padded yet. */
  function Fresh<U>(size: nat, user: Option<U>): Element<U>
  {
    Element(size, size, 0, user)
  }

  /** Every element's recorded padding is exactly the difference between its
      current and its original length. */
  predicate PadsConsistent<U>(els: seq<Element<U>>)
  {
    forall i :: 0 <= i < |els| ==> els[i].pad == els[i].cur - els[i].orig
  }

  /** Sum of the current lengths, accumulated front to back. */
  function TotalSize<U>(els: seq<Element<U>>): (t: nat)
    ensures forall i :: 0 <= i < |els| ==> els[i].cur <= t
  {
    if |els| == 0 then 0
    else
      var init := els[..|els| - 1];
      assert forall i :: 0 <= i < |init| ==> init[i] == els[i];
      TotalSize(init) + els[|els| - 1].cur
  }

  /** Largest current length; 0 for an empty chain (the scan starts from 0). */
  function MaxSize<U>(els: seq<Element<U>>): (m: nat)
    ensures forall i :: 0 <= i < |els| ==> els[i].cur <= m
    ensures m == 0 || exists i :: 0 <= i < |els| && els[i].cur == m
  {
    if |els| == 0 then 0
    else
      var init := els[..|els| - 1];
      assert forall i :: 0 <= i < |init| ==> init[i] == els[i];
      var m0 := MaxSize(init);
      if els[|els| - 1].cur > m0 then els[|els| - 1].cur else m0
  }

  lemma {:induction false} TotalOfAppend<U>(els: seq<Element<U>>, tail: seq<Element<U>>)
    ensures TotalSize(els + tail) == TotalSize(els) + TotalSize(tail)
    decreases |tail|
  {
    if |tail| == 0 {
      assert els + tail == els;
    } else {
      var init := tail[..|tail| - 1];
      assert (els + tail)[..|els + tail| - 1] == els + init;
      TotalOfAppend(els, init);
    }
  }

  /** A chain whose lengths are all `g` totals its count times `g`. */
  lemma {:induction false} TotalOfUniform<U>(els: seq<Element<U>>, g: nat)
    requires forall i :: 0 <= i < |els| ==> els[i].cur == g
    ensures TotalSize(els) == |els| * g
  {
    if |els| > 0 {
      var init := els[..|els| - 1];
      assert forall i :: 0 <= i < |init| ==> init[i] == els[i];
      TotalOfUniform(init, g);
      MulSucc(|init|, g);
    }
  }

  lemma MulSucc(n: nat, m: nat)
    ensures (n + 1) * m == n * m + m
  {
  }

  /** A sum of multiples of `s` is a multiple of `s`. */
  lemma {:induction false} TotalOfMultiples<U>(els: seq<Element<U>>, s: int)
    requires s > 0
    requires forall i :: 0 <= i < |els| ==> els[i].cur % s == 0
    ensures TotalSize(els) % s == 0
  {
    if |els| > 0 {
      var init := els[..|els| - 1];
      assert forall i :: 0 <= i < |init| ==> init[i] == els[i];
      TotalOfMultiples(init, s);
      ModOfSum(TotalSize(init), els[|els| - 1].cur, s);
    }
  }

  lemma ModOfSum(x: int, y: int, s: int)
    requires s > 0 && x % s == 0 && y % s == 0
    ensures (x + y) % s == 0
  {
    assert x == (x / s) * s;
    assert y == (y / s) * s;
    assert x + y == (x / s + y / s) * s;
    MultipleHasNoRemainder(x / s + y / s, s);
  }

  lemma MultipleHasNoRemainder(k: int, s: int)
    requires s > 0
    ensures (k * s) % s == 0
    ensures (k * s) / s == k
  {
    var q, r := (k * s) / s, (k * s) % s;
    var d := k - q;
    assert d * s == r by {
      assert k * s == q * s + r;
      assert d * s == k * s - q * s;
    }
    if d >= 1 {
      assert d * s == (d - 1) * s + s;
      MulNonNegative(d - 1, s);
    } else if d <= -1 {
      assert d * s == (d + 1) * s - s;
      MulNonNegative(-(d + 1), s);
    }
  }

  lemma MulNonNegative(a: int, b: int)
    requires a >= 0 && b >= 0
    ensures a * b >= 0
  {
  }

  /** Round `x` up to the next multiple of `s`; a multiple is left as it is.
      The result is the least multiple of `s` that is at least `x`. */
  function CeilToMultiple(x: nat, s: int): (r: nat)
    requires s > 0
    ensures r % s == 0
    ensures x <= r < x + s
    ensures x % s == 0 ==> r == x
  {
    if x % s == 0 then x
    else
      MultipleHasNoRemainder(x / s + 1, s);
      (x / s + 1) * s
  }

  /** One element after round-up alignment: an element already aligned is
      returned untouched, its recorded padding included; otherwise the
      padding is recomputed from the new length. */
  function CeilElement<U>(e: Element<U>, s: int): (r: Element<U>)
    requires s > 0
  {
    if e.cur % s == 0 then e
    else
      var c := CeilToMultiple(e.cur, s);
      e.(cur := c, pad := c - e.orig)
  }

  /** Round every element's length up to a multiple of `s`. */
  function AlignUp<U>(els: seq<Element<U>>, s: int): (r: seq<Element<U>>)
    requires s > 0
    ensures |r| == |els|
    ensures forall i :: 0 <= i < |r| ==>
              r[i].cur % s == 0 && els[i].cur <= r[i].cur < els[i].cur + s
    ensures forall i :: 0 <= i < |r| ==> r[i].orig == els[i].orig && r[i].user == els[i].user
    ensures forall i :: 0 <= i < |r| && els[i].cur % s == 0 ==> r[i] == els[i]
    ensures forall i :: 0 <= i < |r| && els[i].cur % s != 0 ==> r[i].pad == r[i].cur - r[i].orig
    ensures PadsConsistent(els) ==> PadsConsistent(r)
  {
    seq(|els|, i requires 0 <= i < |els| => CeilElement(els[i], s))
  }

  /** What the query functions see: the elements and the output-valid flag. */
  datatype View<U> = View(elements: seq<Element<U>>, valid: bool) {

    /** Number of elements, whether or not the output is valid. */
    function Count(): nat
    {
      |elements|
    }

    /** Sum of all current lengths, or 0 without a valid output. */
    function Total(): nat
    {
      if valid then TotalSize(elements) else 0
    }

    /** Start of element `i`: the sum of the lengths before it. */
    function Offset(i: nat): nat
    {
      if valid && i < |elements| then TotalSize(elements[..i]) else 0
    }

    /** Current (padded) length of element `i`. */
    function Size(i: nat): nat
    {
      if valid && i < |elements| then elements[i].cur else 0
    }

    /** Length of element `i` as added; needs no valid output. */
    function OriginalSize(i: nat): nat
    {
      if i < |elements| then elements[i].orig else 0
    }

    /** The caller's handle of element `i`; needs no valid output. */
    function UserData(i: nat): Option<U>
    {
      if i < |elements| then elements[i].user else None
    }
  }

  /** Size, offset and total queries answer 0 without a valid output and for
      an index past the end; original size and user data do not depend on
      the flag at all. */
  lemma QueriesGatedByValidity<U>(v: View<U>)
    ensures !v.valid ==> v.Total() == 0
    ensures forall i: nat :: (!v.valid || i >= v.Count()) ==> v.Offset(i) == 0 && v.Size(i) == 0
    ensures forall i: nat :: i >= v.Count() ==> v.OriginalSize(i) == 0 && v.UserData(i) == None
    ensures forall i: nat :: v.OriginalSize(i) == v.(valid := !v.valid).OriginalSize(i)
    ensures forall i: nat :: v.UserData(i) == v.(valid := !v.valid).UserData(i)
  {
  }

  /** With a valid output the elements tile the chain: the first starts at 0,
      each one starts where the previous one ends, and the last one ends at
      the total. These three facts pin every offset down as a prefix sum. */
  lemma {:induction false} OffsetsTile<U>(v: View<U>)
    requires v.valid
    ensures v.Count() > 0 ==> v.Offset(0) == 0
    ensures forall i :: 0 <= i < v.Count() - 1 ==> v.Offset(i + 1) == v.Offset(i) + v.Size(i)
    ensures v.Count() > 0 ==> v.Offset(v.Count() - 1) + v.Size(v.Count() - 1) == v.Total()
  {
    var els := v.elements;
    forall i | 0 <= i < |els| - 1
      ensures v.Offset(i + 1) == v.Offset(i) + v.Size(i)
    {
      assert els[..i + 1][..i] == els[..i];
    }
    if |els| > 0 {
      assert els[..|els|][..|els| - 1] == els[..|els| - 1];
      assert els[..|els|] == els;
    }
  }

  /** Every element lies inside the chain: its end is at most the total. */
  lemma {:induction false} ElementsInsideTotal<U>(v: View<U>, i: nat)
    requires v.valid && i < v.Count()
    ensures v.Offset(i) + v.Size(i) <= v.Total()
  {
    var els := v.elements;
    assert els[..i + 1][..i] == els[..i];
    assert els == els[..i + 1] + els[i + 1..];
    TotalOfAppend(els[..i + 1], els[i + 1..]);
  }
}
