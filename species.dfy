/** The converter's fixed species table: element symbol to species index. */
module Species {
  import opened Wrappers

  /** The five supported elements and the species index each one is written with. */
  const SpeciesMap: map<string, nat> := map["C" := 1, "N" := 2, "O" := 3, "H" := 4, "S" := 5]

  /**
   * Dictionary lookup: an exact, case-sensitive match of the whole symbol.
   * Exactly the five symbols resolve, each to an index in 1..5.
   */
  function Lookup(symbol: string): (r: Option<nat>)
    ensures r.Some? <==> symbol == "C" || symbol == "N" || symbol == "O" || symbol == "H" || symbol == "S"
    ensures r.Some? ==> 1 <= r.value <= 5
  {
    if symbol in SpeciesMap then Some(SpeciesMap[symbol]) else None
  }

  /** The table entry by entry. */
  lemma LookupTable()
    ensures Lookup("C") == Some(1) && Lookup("N") == Some(2) && Lookup("O") == Some(3)
    ensures Lookup("H") == Some(4) && Lookup("S") == Some(5)
  {
  }

  /** No two symbols share a species index, so an index names one element. */
  lemma LookupInjective(a: string, b: string)
    requires Lookup(a).Some? && Lookup(a) == Lookup(b)
    ensures a == b
  {
  }
}
