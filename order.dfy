/** Rust's `std::cmp::Ordering` and the comparison of naturals it is built from. */
module Order {

  datatype Ordering = Less | Equal | Greater {

    /** `Ordering::reverse`. */
    function Reverse(): Ordering {
      match this
      case Less => Greater
      case Equal => Equal
      case Greater => Less
    }
  }

  /** `usize::cmp`. */
  function CompareNat(a: nat, b: nat): (o: Ordering)
    ensures o == Less <==> a < b
    ensures o == Equal <==> a == b
    ensures o == Greater <==> a > b
  {
    if a < b then Less else if a == b then Equal else Greater
  }

  /** The lexicographic combinator both card comparisons use: the first key decides unless it
      ties, then the second key does. */
  function ThenCompare(first: Ordering, second: Ordering): (o: Ordering)
    ensures first != Equal ==> o == first
    ensures first == Equal ==> o == second
  {
    match first
    case Equal => second
    case _ => first
  }
}
