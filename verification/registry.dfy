/** The strategy registry: the library offers a fixed list of packing
    strategies, selected by index. */
module Registry {
  import opened Chain

  datatype Strategy = VariChainStrategy | SampleChainStrategy

  /** How many strategies the registry offers. */
  const NumAlgorithms: nat := 2

  /** The strategy at `index`, or None for an index past the list. Index 0
      is the variable packer and index 1 the fixed-size one. */
  function Select(index: nat): (r: Option<Strategy>)
    ensures r.Some? <==> index < NumAlgorithms
    ensures index == 0 ==> r == Some(VariChainStrategy)
    ensures index == 1 ==> r == Some(SampleChainStrategy)
  {
    if index == 0 then Some(VariChainStrategy)
    else if index == 1 then Some(SampleChainStrategy)
    else None
  }

  /** The index a strategy is registered under. */
  function IndexOf(s: Strategy): (i: nat)
    ensures i < NumAlgorithms
  {
    match s
    case VariChainStrategy => 0
    case SampleChainStrategy => 1
  }

  /** Selection and registration index are inverse: every strategy is found
      under its index, and every index that selects something is the index
      of what it selects. */
  lemma SelectInvertsIndexOf()
    ensures forall s: Strategy :: Select(IndexOf(s)) == Some(s)
    ensures forall i: nat :: Select(i).Some? ==> IndexOf(Select(i).value) == i
  {
  }
}
