/** The four standard suits, their numbering, their natural order and the two alternative
    suit rankings. */
module Suits {
  import opened Wrappers
  import opened Errors
  import opened Order
  import opened Symbol

  datatype Suit = Spades | Hearts | Diamonds | Clubs

  /** `Suit::SYMBOL_SPACE`. */
  const SUIT_SPACE: nat := 4

  /** `SUITS`: the suits in ascending order of number. */
  const SUITS: seq<Suit> := [Clubs, Diamonds, Hearts, Spades]

  /** `usize_index`. */
  function UsizeIndex(s: Suit): (r: nat)
    ensures r < SUIT_SPACE
  {
    match s
    case Spades => 3
    case Hearts => 2
    case Diamonds => 1
    case Clubs => 0
  }

  /** `from_usize_index`: the suit numbered `position`, or `WrongSuitPosition(position)`. */
  function FromUsizeIndex(position: nat): (r: Result<Suit, CardError>)
    ensures r.Ok? <==> position < SUIT_SPACE
    ensures r.Ok? ==> UsizeIndex(r.value) == position
    ensures r.Err? ==> r.error == WrongSuitPosition(position)
  {
    match position
    case 3 => Ok(Spades)
    case 2 => Ok(Hearts)
    case 1 => Ok(Diamonds)
    case 0 => Ok(Clubs)
    case _ => Err(WrongSuitPosition(position))
  }

  /** The suit's `CardSymbol` implementation. */
  function SuitSpace(): Space<Suit>
  {
    Space(SUIT_SPACE, UsizeIndex, FromUsizeIndex)
  }

  lemma IndexRoundTrip(s: Suit)
    ensures FromUsizeIndex(UsizeIndex(s)) == Ok(s)
  {
  }

  /** The suit numbering meets the `CardSymbol` obligation. */
  lemma SuitSpaceIsDense()
    ensures IsDense(SuitSpace())
  {
    forall s: Suit
      ensures FromUsizeIndex(UsizeIndex(s)) == Ok(s)
    {
      IndexRoundTrip(s);
    }
  }

  /** `SUITS[i]` is numbered `i`, and it is what the symbol iterator lists. */
  lemma SuitsInIndexOrder()
    ensures |SUITS| == SUIT_SPACE
    ensures forall i :: 0 <= i < |SUITS| ==> UsizeIndex(SUITS[i]) == i
    ensures forall i :: 0 <= i < |SUITS| ==> FromUsizeIndex(i) == Ok(SUITS[i])
    ensures Listed(SuitSpace(), SUIT_SPACE) == SUITS
  {
    assert Listed(SuitSpace(), 1) == [Clubs];
    assert Listed(SuitSpace(), 2) == [Clubs, Diamonds];
    assert Listed(SuitSpace(), 3) == [Clubs, Diamonds, Hearts];
  }

  /** `Ord for Suit`: by number. */
  function Cmp(l: Suit, r: Suit): Ordering
  {
    CompareNat(UsizeIndex(l), UsizeIndex(r))
  }

  /** The natural order is Spades > Hearts > Diamonds > Clubs, and only equal suits tie. */
  lemma CmpRanking(l: Suit, r: Suit)
    ensures Cmp(l, r) == Equal <==> l == r
    ensures Cmp(Spades, Hearts) == Greater && Cmp(Hearts, Diamonds) == Greater
    ensures Cmp(Diamonds, Clubs) == Greater
    ensures Cmp(l, r) == Cmp(r, l).Reverse()
  {
    IndexRoundTrip(l);
    IndexRoundTrip(r);
  }

  /** `ComparatorDCHS::compare`. */
  function ComparatorDCHS(l: Suit, r: Suit): Ordering
  {
    match l
    case Spades => (match r case Spades => Equal case _ => Greater)
    case Hearts => (match r case Spades => Less case Hearts => Equal case _ => Greater)
    case Clubs => (match r case Diamonds => Greater case Clubs => Equal case _ => Less)
    case Diamonds => (match r case Diamonds => Equal case _ => Less)
  }

  /** The rank each suit has under `ComparatorDCHS`: Spades > Hearts > Clubs > Diamonds. */
  function RankDCHS(s: Suit): nat
  {
    match s
    case Spades => 3
    case Hearts => 2
    case Clubs => 1
    case Diamonds => 0
  }

  /** `ComparatorDCHS` compares the suits' ranks, so it is a total order in which only equal
      suits compare `Equal`. */
  lemma ComparatorDCHSByRank(l: Suit, r: Suit)
    ensures ComparatorDCHS(l, r) == CompareNat(RankDCHS(l), RankDCHS(r))
    ensures ComparatorDCHS(l, r) == Equal <==> l == r
    ensures ComparatorDCHS(l, r) == ComparatorDCHS(r, l).Reverse()
  {
  }

  /** `ComparatorCDHS::compare`. */
  function ComparatorCDHS(l: Suit, r: Suit): Ordering
  {
    match l
    case Spades => (match r case Spades => Equal case _ => Greater)
    case Hearts => (match r case Spades => Less case Hearts => Equal case _ => Greater)
    case Diamonds => (match r case Clubs => Greater case Diamonds => Equal case _ => Less)
    case Clubs => (match r case Clubs => Equal case _ => Less)
  }

  /** `ComparatorCDHS` agrees with the natural order on every pair. */
  lemma ComparatorCDHSIsNatural(l: Suit, r: Suit)
    ensures ComparatorCDHS(l, r) == Cmp(l, r)
  {
  }
}
