/** `CardSetGeneric`: a card set kept as a hash set of cards of any card type. */
module CardSetGen {
  import opened Wrappers
  import opened Errors

  class CardSetGeneric<C(==)> {
    var cards: set<C>

    /** `empty()`. */
    constructor Empty()
      ensures cards == {}
    {
      cards := {};
    }

    /** `insert_card`: `HashSet::insert` tells whether the card was new; a card already there
        gives `CardDuplicated` and the set is unchanged. */
    method InsertCard(c: C) returns (r: Result<(), CardSetErrorGen<C>>)
      modifies this
      ensures c in cards
      ensures old(c in cards) ==> r == Err(CardDuplicated(c)) && cards == old(cards)
      ensures old(c !in cards) ==> r == Ok(()) && cards == old(cards) + {c} && Len() == old(Len()) + 1
    {
      if c !in cards {
        cards := cards + {c};
        r := Ok(());
      } else {
        r := Err(CardDuplicated(c));
      }
    }

    /** `remove_card`: `HashSet::remove` tells whether the card was there; an absent card gives
        `CardNotInSet` and the set is unchanged. */
    method RemoveCard(c: C) returns (r: Result<(), CardSetErrorGen<C>>)
      modifies this
      ensures c !in cards
      ensures old(c in cards) ==> r == Ok(()) && cards == old(cards) - {c} && Len() + 1 == old(Len())
      ensures old(c !in cards) ==> r == Err(CardNotInSet(c)) && cards == old(cards)
    {
      if c in cards {
        cards := cards - {c};
        r := Ok(());
      } else {
        r := Err(CardNotInSet(c));
      }
    }

    /** `contains`. */
    predicate Contains(c: C)
      reads this
    {
      c in cards
    }

    /** `len`: the number of distinct cards; zero exactly for the empty set. */
    function Len(): (n: nat)
      reads this
      ensures n == 0 <==> cards == {}
    {
      |cards|
    }

    /** `union`: a new set holding the cards of either operand; neither operand changes. */
    method Union(other: CardSetGeneric<C>) returns (u: CardSetGeneric<C>)
      ensures fresh(u)
      ensures forall c :: u.Contains(c) <==> Contains(c) || other.Contains(c)
    {
      u := new CardSetGeneric.Empty();
      u.cards := cards + other.cards;
    }

    /** `intersection`: a new set holding the cards of both operands. */
    method Intersection(other: CardSetGeneric<C>) returns (u: CardSetGeneric<C>)
      ensures fresh(u)
      ensures forall c :: u.Contains(c) <==> Contains(c) && other.Contains(c)
    {
      u := new CardSetGeneric.Empty();
      u.cards := cards * other.cards;
    }
  }

  /** Inserting an absent card and removing it again leaves the original cards. */
  method InsertRemoveRoundTrip<C(==)>(s: CardSetGeneric<C>, c: C)
    requires c !in s.cards
    modifies s
    ensures s.cards == old(s.cards)
  {
    var _ := s.InsertCard(c);
    var _ := s.RemoveCard(c);
  }
}
