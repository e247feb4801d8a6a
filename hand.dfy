/** The default methods of `HandTrait` (`is_empty`, `insert_card_noerr`,
    `insert_from_iterator`, `from_iterator`), for the standard card set. */
module Hand {
  import opened Wrappers
  import opened Errors
  import opened Cards
  import opened CardSets
  import opened StackHand

  /** `is_empty`: `len() == 0`, which holds exactly when the set has no members. */
  function IsEmpty(hand: CardSetStd): (r: bool)
    reads hand
    ensures r <==> forall c: Card :: !Contains(hand.cards, c)
  {
    EmptyIffNoMembers(hand.cards);
    Len(hand.cards) == 0
  }

  /** `insert_card_noerr`: `insert_card` with its error dropped; afterwards the card is a
      member and every other card is as it was. */
  method InsertCardNoErr(hand: CardSetStd, c: Card)
    modifies hand
    ensures Contains(hand.cards, c)
    ensures forall d: Card :: d != c ==> (Contains(hand.cards, d) <==> Contains(old(hand.cards), d))
    ensures hand.cards == InsertAll(old(hand.cards), [c])
  {
    var _ := hand.InsertCard(c);
    assert [c][..0] == [];
  }

  // ---------------------------------------------------------------------------------------------
  // Inserting a sequence of cards

  /** The word after inserting the cards one after the other, a present card leaving the word
      as it is. */
  function InsertAll(w: Cards52, cs: seq<Card>): Cards52
    decreases |cs|
  {
    if cs == [] then w
    else
      var before := InsertAll(w, cs[..|cs| - 1]);
      if Contains(before, cs[|cs| - 1]) then before else InsertWord(before, cs[|cs| - 1])
  }

  /** The first card of `cs` whose insertion fails, being already a member by then. */
  function FirstClash(w: Cards52, cs: seq<Card>): Option<Card>
    decreases |cs|
  {
    if cs == [] then None
    else
      match FirstClash(w, cs[..|cs| - 1])
      case Some(c) => Some(c)
      case None =>
        if Contains(InsertAll(w, cs[..|cs| - 1]), cs[|cs| - 1]) then Some(cs[|cs| - 1]) else None
  }

  /** None of `cs` is in `w` and no card of `cs` is repeated: every insertion succeeds. */
  ghost predicate AllNew(w: Cards52, cs: seq<Card>)
  {
    (forall i :: 0 <= i < |cs| ==> !Contains(w, cs[i])) &&
    (forall i, j :: 0 <= i < j < |cs| ==> cs[i] != cs[j])
  }

  lemma AllNewSnoc(w: Cards52, p: seq<Card>, x: Card)
    ensures AllNew(w, p + [x]) <==> AllNew(w, p) && !Contains(w, x) && x !in p
  {
    var cs := p + [x];
    assert cs[|p|] == x;
    assert forall i :: 0 <= i < |p| ==> cs[i] == p[i];
  }

  /** After inserting `cs` the members are those of `w` and the cards of `cs`. */
  lemma {:induction false} InsertAllMembers(w: Cards52, cs: seq<Card>, c: Card)
    ensures Contains(InsertAll(w, cs), c) <==> Contains(w, c) || c in cs
    decreases |cs|
  {
    if cs != [] {
      var p, x := cs[..|cs| - 1], cs[|cs| - 1];
      InsertAllMembers(w, p, c);
      InsertWordSpec(InsertAll(w, p), x, c);
      assert cs == p + [x];
    }
  }

  /** No insertion fails exactly when the cards are new and distinct. */
  lemma {:induction false} FirstClashNone(w: Cards52, cs: seq<Card>)
    ensures FirstClash(w, cs).None? <==> AllNew(w, cs)
    decreases |cs|
  {
    if cs != [] {
      var p, x := cs[..|cs| - 1], cs[|cs| - 1];
      FirstClashNone(w, p);
      InsertAllMembers(w, p, x);
      AllNewSnoc(w, p, x);
      assert cs == p + [x];
    }
  }

  /** The reported card is the first one of `cs` that is a member of `w` or repeats an earlier
      card. */
  lemma {:induction false} FirstClashIsFirst(w: Cards52, cs: seq<Card>)
    requires FirstClash(w, cs).Some?
    ensures exists i :: 0 <= i < |cs| && cs[i] == FirstClash(w, cs).value && AllNew(w, cs[..i]) &&
                        (Contains(w, cs[i]) || cs[i] in cs[..i])
    decreases |cs|
  {
    var p, x := cs[..|cs| - 1], cs[|cs| - 1];
    if FirstClash(w, p).Some? {
      FirstClashIsFirst(w, p);
      var i :| 0 <= i < |p| && p[i] == FirstClash(w, p).value && AllNew(w, p[..i]) &&
               (Contains(w, p[i]) || p[i] in p[..i]);
      assert cs[..i] == p[..i] && cs[i] == p[i];
    } else {
      FirstClashNone(w, p);
      InsertAllMembers(w, p, x);
      assert cs[..|p|] == p;
    }
  }

  /** Inserting new, distinct cards adds their number to the length. */
  lemma {:induction false} InsertAllLength(w: Cards52, cs: seq<Card>)
    requires AllNew(w, cs)
    ensures Len(InsertAll(w, cs)) == Len(w) + |cs|
    decreases |cs|
  {
    if cs != [] {
      var p, x := cs[..|cs| - 1], cs[|cs| - 1];
      assert cs == p + [x];
      AllNewSnoc(w, p, x);
      InsertAllLength(w, p);
      InsertAllMembers(w, p, x);
      InsertWordSpec(InsertAll(w, p), x, x);
    }
  }

  /** `insert_from_iterator`: every card is tried, even after a failure, and the first error is
      returned. */
  method InsertFromIterator(hand: CardSetStd, cs: seq<Card>) returns (r: Result<(), SetError>)
    modifies hand
    ensures hand.cards == InsertAll(old(hand.cards), cs)
    ensures FirstClash(old(hand.cards), cs).None? ==> r == Ok(())
    ensures FirstClash(old(hand.cards), cs).Some? ==>
              r == Err(CardDuplicated(FirstClash(old(hand.cards), cs).value))
  {
    ghost var w := hand.cards;
    r := Ok(());
    var i := 0;
    while i < |cs|
      invariant 0 <= i <= |cs|
      invariant hand.cards == InsertAll(w, cs[..i])
      invariant FirstClash(w, cs[..i]).None? ==> r == Ok(())
      invariant FirstClash(w, cs[..i]).Some? ==> r == Err(CardDuplicated(FirstClash(w, cs[..i]).value))
    {
      assert cs[..i + 1][..i] == cs[..i];
      var result := hand.InsertCard(cs[i]);
      if result.Err? && r.Ok? {
        r := result;
      }
      i := i + 1;
    }
    assert cs[..|cs|] == cs;
  }

  /** `from_iterator`: the cards inserted into `empty()`, errors ignored. */
  method FromIterator(cs: seq<Card>) returns (hand: CardSetStd)
    ensures fresh(hand)
    ensures hand.cards == InsertAll(0, cs)
  {
    hand := new CardSetStd.Empty();
    var _ := InsertFromIterator(hand, cs);
  }

  /** The set `from_iterator` builds holds exactly the listed cards, repetitions collapsing. */
  lemma FromIteratorMembers(cs: seq<Card>, c: Card)
    ensures Contains(InsertAll(0, cs), c) <==> c in cs
  {
    InsertAllMembers(0, cs, c);
    EmptyHasNoMembers(c);
  }

  /** A `card_set!` of `k` distinct cards topped up with `m` further new, distinct cards has
      `k + m` members. */
  lemma TopUpLength(cs: seq<Card>, sorted: seq<Card>, more: seq<Card>)
    requires Ascending(sorted) && forall c :: c in cs <==> c in sorted
    requires forall i :: 0 <= i < |more| ==> more[i] !in cs
    requires forall i, j :: 0 <= i < j < |more| ==> more[i] != more[j]
    ensures FirstClash(CardSetMacro(cs), more) == None
    ensures Len(InsertAll(CardSetMacro(cs), more)) == |sorted| + |more|
  {
    var w := CardSetMacro(cs);
    MacroElements(cs, sorted);
    LenIsMemberCount(w);
    assert Len(w) == |sorted|;
    forall i | 0 <= i < |more|
      ensures !Contains(w, more[i])
    {
      CardSetMacroMembers(cs, more[i]);
    }
    assert AllNew(w, more);
    FirstClashNone(w, more);
    InsertAllLength(w, more);
  }

  /** The documented example: four new cards inserted into a four-card hand give eight. */
  lemma InsertFromIteratorExample()
    ensures Len(InsertAll(CardSetMacro([ACE_SPADES, KING_HEARTS, FOUR_CLUBS, TWO_HEARTS]),
                          [KING_SPADES, QUEEN_DIAMONDS, FOUR_SPADES, THREE_CLUBS])) == 8
  {
    TopUpLength([ACE_SPADES, KING_HEARTS, FOUR_CLUBS, TWO_HEARTS], [FOUR_CLUBS, TWO_HEARTS, KING_HEARTS, ACE_SPADES],
                [KING_SPADES, QUEEN_DIAMONDS, FOUR_SPADES, THREE_CLUBS]);
  }
}
