/** The mutable side of `CardSetStd`: inserting and removing cards in place, and the
    double-ended iterators that walk its word with two single-bit cursors. */
module StackHand {
  import opened Wrappers
  import opened Errors
  import opened Bits
  import opened Cards
  import opened CardSets
  import S = Suits
  import Fg = Figures

  type SetError = CardSetErrorGen<Card>

  class CardSetStd {
    var cards: Cards52

    /** `empty()`. */
    constructor Empty()
      ensures cards == 0
    {
      cards := 0;
    }

    /** `From<u64>`. */
    constructor FromU64(w: Word)
      ensures cards == CardSets.FromU64(w)
    {
      cards := CardSets.FromU64(w);
    }

    /** `insert_card`: a member gives `CardDuplicated` and leaves the set alone; otherwise the
        card's bit is set and nothing else changes. */
    method InsertCard(c: Card) returns (r: Result<(), SetError>)
      modifies this
      ensures Contains(old(cards), c) ==> r == Err(CardDuplicated(c)) && cards == old(cards)
      ensures !Contains(old(cards), c) ==> r == Ok(()) && cards == InsertWord(old(cards), c)
      ensures Contains(cards, c)
      ensures forall d: Card :: d != c ==> (Contains(cards, d) <==> Contains(old(cards), d))
      ensures r.Ok? ==> Len(cards) == Len(old(cards)) + 1
    {
      if Contains(cards, c) {
        r := Err(CardDuplicated(c));
      } else {
        ghost var w := cards;
        forall d: Card
          ensures d != c ==> (Contains(InsertWord(w, c), d) <==> Contains(w, d))
        {
          InsertWordSpec(w, c, d);
        }
        InsertWordSpec(w, c, c);
        cards := InsertWord(cards, c);
        r := Ok(());
      }
    }

    /** `remove_card`: an absent card gives `CardNotInSet` and leaves the set alone; otherwise
        the card's bit is cleared and nothing else changes. */
    method RemoveCard(c: Card) returns (r: Result<(), SetError>)
      modifies this
      ensures !Contains(old(cards), c) ==> r == Err(CardNotInSet(c)) && cards == old(cards)
      ensures Contains(old(cards), c) ==> r == Ok(()) && cards == RemoveWord(old(cards), c)
      ensures !Contains(cards, c)
      ensures forall d: Card :: d != c ==> (Contains(cards, d) <==> Contains(old(cards), d))
      ensures r.Ok? ==> Len(cards) + 1 == Len(old(cards))
    {
      if Contains(cards, c) {
        ghost var w := cards;
        forall d: Card
          ensures d != c ==> (Contains(RemoveWord(w, c), d) <==> Contains(w, d))
        {
          RemoveWordSpec(w, c, d);
        }
        RemoveWordSpec(w, c, c);
        cards := RemoveWord(cards, c);
        r := Ok(());
      } else {
        r := Err(CardNotInSet(c));
      }
    }

    /** `into_iter`: the set's iterator over all its members. */
    method IntoIter() returns (it: StackHandIterator)
      ensures fresh(it) && it.Valid() && it.hand == cards && it.exactSize
      ensures it.Remaining() == Elements(cards)
    {
      it := new StackHandIterator.New(cards);
    }

    /** `suit_iterator`. */
    method SuitIterator(suit: S.Suit) returns (it: StackHandIterator)
      ensures fresh(it) && it.Valid() && it.hand == cards && !it.exactSize
      ensures it.Remaining() == CardsIn(cards, S.UsizeIndex(suit) * 13, S.UsizeIndex(suit) * 13 + 13)
    {
      it := new StackHandIterator.NewSuit(cards, suit);
    }

    /** `interval_iterator`. */
    method IntervalIterator(lowerCard: Card, higherCard: Card) returns (it: StackHandIterator)
      ensures fresh(it) && it.Valid() && it.hand == cards && !it.exactSize
      ensures it.Remaining() == CardsIn(cards, UsizeIndex(lowerCard), UsizeIndex(higherCard) + 1)
    {
      it := new StackHandIterator.NewInterval(cards, lowerCard, higherCard);
    }

    /** `excluding_interval_iterator`. */
    method ExcludingIntervalIterator(lowerCard: Card, higherCard: Card) returns (it: StackHandIterator)
      ensures fresh(it) && it.Valid() && it.hand == cards && !it.exactSize
      ensures it.Remaining() == CardsIn(cards, UsizeIndex(lowerCard) + 1, UsizeIndex(higherCard))
    {
      it := new StackHandIterator.NewExcluding(cards, lowerCard, higherCard);
    }
  }

  /** `StackHandIterator`, `StackHandSuitIterator` and `StackHandIntervalIterator`, which share
      their fields and their `next` and `next_back`: `lowerPosition` is the single bit `next`
      tests and shifts left, `higherPosition` the single bit `next_back` tests and shifts right,
      and the cards still to come are the members between the two cursors. */
  class StackHandIterator {
    const hand: Cards52
    /** Whether this is the whole-set `StackHandIterator`, the only one of the three Rust types
        that defines `size_hint` and is an `ExactSizeIterator`. */
    const exactSize: bool
    var lowerPosition: Word
    var higherPosition: Word
    /** The bit numbers of the cursors: `lowerPosition` is bit `lo`, and `higherPosition` is
        bit `hi - 1`, or 0 when `hi` is 0. */
    ghost var lo: nat
    ghost var hi: nat

    ghost predicate Valid()
      reads this
    {
      Cursors(lowerPosition, higherPosition, lo, hi)
    }

    /** The cursor words are the single bits at `l` and below `h`. */
    static ghost predicate Cursors(lower: Word, higher: Word, l: nat, h: nat)
    {
      l < 64 && h <= CARD_SPACE && lower == Pow2(l) && higher == (if h == 0 then 0 else Pow2(h - 1))
    }

    /** The members still between the cursors, in ascending order. */
    ghost function Remaining(): seq<Card>
      reads this
      requires Valid()
    {
      CardsIn(hand, lo, hi)
    }

    /** `StackHandIterator::new`: the cursors start at the lowest and highest set bit, or at
        `1 << 63` and 0 for the empty set. */
    constructor New(hand: Cards52)
      ensures Valid() && this.hand == hand && exactSize
      ensures Remaining() == Elements(hand)
    {
      this.hand := hand;
      exactSize := true;
      var trailingZeros := TrailingZeros(hand);
      if trailingZeros <= 63 {
        StartCursors(hand);
        var leadingZeros := LeadingZeros(hand);
        lowerPosition, higherPosition := Pow2(trailingZeros), Pow2(63 - leadingZeros);
        lo, hi := trailingZeros, 64 - leadingZeros;
      } else {
        EmptyCursors(hand);
        lowerPosition, higherPosition := TOP_BIT, 0;
        lo, hi := 63, 0;
      }
    }

    /** For a non-empty set the cursors start at its lowest set bit and at its highest, and
        every member lies between them. */
    static lemma StartCursors(hand: Cards52)
      requires TrailingZeros(hand) <= 63
      ensures 1 <= LeadingZeros(hand) <= 63
      ensures Pow2(TrailingZeros(hand)) < WORD_BOUND && Pow2(63 - LeadingZeros(hand)) < WORD_BOUND
      ensures TrailingZeros(hand) < 64 - LeadingZeros(hand) <= CARD_SPACE
      ensures CardsIn(hand, TrailingZeros(hand), 64 - LeadingZeros(hand)) == Elements(hand)
    {
      ElementsBetweenEnds(hand);
      Pow2IsWord(TrailingZeros(hand));
      Pow2IsWord(63 - LeadingZeros(hand));
    }

    /** A set with no lowest set bit is empty. */
    static lemma EmptyCursors(hand: Cards52)
      requires TrailingZeros(hand) > 63
      ensures hand == 0 && Elements(hand) == [] && Pow2(63) == TOP_BIT
    {
      if hand != 0 {
        ElementsBetweenEnds(hand);
      }
      CardsInOfZero(0, CARD_SPACE);
      Pow2Of64();
    }

    /** `StackHandSuitIterator::new`: the cursors span the suit's thirteen bits, or start at
        `1 << 63` and 0 for the empty set. */
    constructor NewSuit(hand: Cards52, suit: S.Suit)
      ensures Valid() && this.hand == hand && !exactSize
      ensures Remaining() == CardsIn(hand, S.UsizeIndex(suit) * 13, S.UsizeIndex(suit) * 13 + 13)
    {
      this.hand := hand;
      exactSize := false;
      var k := S.UsizeIndex(suit);
      PopCountZero(hand);
      if Len(hand) == 0 {
        Pow2IsWord(63);
        CardsInOfZero(k * 13, k * 13 + 13);
        lowerPosition := Pow2(63);
        higherPosition := 0;
        lo := 63;
        hi := 0;
      } else {
        Pow2IsWord(k * Fg.FIGURE_SPACE);
        Pow2IsWord(k * Fg.FIGURE_SPACE + Fg.FIGURE_SPACE - 1);
        lowerPosition := Pow2(k * Fg.FIGURE_SPACE);
        higherPosition := Pow2(k * Fg.FIGURE_SPACE + Fg.FIGURE_SPACE - 1);
        lo := k * 13;
        hi := k * 13 + 13;
      }
    }

    /** `StackHandIntervalIterator::new`: from the lower card's bit to the higher card's. */
    constructor NewInterval(hand: Cards52, lowerCard: Card, higherCard: Card)
      ensures Valid() && this.hand == hand && !exactSize
      ensures Remaining() == CardsIn(hand, UsizeIndex(lowerCard), UsizeIndex(higherCard) + 1)
    {
      this.hand := hand;
      exactSize := false;
      lowerPosition := Mask(lowerCard);
      higherPosition := Mask(higherCard);
      lo := UsizeIndex(lowerCard);
      hi := UsizeIndex(higherCard) + 1;
    }

    /** `StackHandIntervalIterator::new_excluding`: the cursors start one bit inside each end. */
    constructor NewExcluding(hand: Cards52, lowerCard: Card, higherCard: Card)
      ensures Valid() && this.hand == hand && !exactSize
      ensures Remaining() == CardsIn(hand, UsizeIndex(lowerCard) + 1, UsizeIndex(higherCard))
    {
      this.hand := hand;
      exactSize := false;
      Shl1Pow2(UsizeIndex(lowerCard));
      Shr1Pow2(UsizeIndex(higherCard));
      lowerPosition := Shl1(Mask(lowerCard));
      higherPosition := Shr1(Mask(higherCard));
      lo := UsizeIndex(lowerCard) + 1;
      hi := UsizeIndex(higherCard);
    }

    /** `next`: the lowest member still between the cursors, which the lower cursor then
        passes; `None` once the cursors have crossed. */
    method Next() returns (r: Option<Card>)
      requires Valid()
      modifies this
      ensures Valid()
      ensures r.Some? ==> old(Remaining()) == [r.value] + Remaining()
      ensures r.None? ==> old(Remaining()) == [] && Remaining() == []
    {
      r, lowerPosition, lo := SeekLower(hand, lowerPosition, higherPosition, lo, hi);
    }

    /** The loop of `next` on copies of the cursors: the lower cursor climbs to the lowest
        member still between them and passes it, or it climbs past the higher cursor. */
    static method SeekLower(hand: Cards52, lower0: Word, higher: Word, ghost l0: nat, ghost h: nat)
      returns (r: Option<Card>, lower: Word, ghost l: nat)
      requires Cursors(lower0, higher, l0, h)
      ensures Cursors(lower, higher, l, h)
      ensures r.Some? ==> CardsIn(hand, l0, h) == [r.value] + CardsIn(hand, l, h)
      ensures r.None? ==> CardsIn(hand, l0, h) == [] && CardsIn(hand, l, h) == []
    {
      lower, l := lower0, l0;
      r := None;
      while lower <= higher
        invariant Cursors(lower, higher, l, h) && CardsIn(hand, l, h) == CardsIn(hand, l0, h)
        decreases h - l
      {
        AdvanceLower(hand, lower, higher, l, h);
        CursorBit(hand, lower, l);
        if And(lower, hand) != 0 {
          var card := FromMask(lower).value;
          r := Some(card);
          lower, l := Shl1(lower), l + 1;
          return;
        }
        lower, l := Shl1(lower), l + 1;
      }
      LowerCrossed(hand, lower, higher, l, h);
    }

    /** One step of `next`: while the lower cursor is not above the higher one it is inside the
        card range, and passing it leaves the cursors well formed around the rest of the
        members. */
    static lemma AdvanceLower(hand: Cards52, lower: Word, higher: Word, l: nat, h: nat)
      requires Cursors(lower, higher, l, h) && lower <= higher
      ensures l < h && Cursors(Shl1(lower), higher, l + 1, h)
      ensures CardsIn(hand, l, h) == (if Bit(hand, l) then [CardAt(l)] else []) + CardsIn(hand, l + 1, h)
    {
      Pow2Compare(l, h - 1);
      Shl1Pow2(l);
    }

    /** The cursor at a card's bit tests that card's membership and decodes to that card. */
    static lemma CursorBit(hand: Cards52, cursor: Word, i: nat)
      requires i < CARD_SPACE && cursor == Pow2(i)
      ensures (And(cursor, hand) != 0) == Bit(hand, i)
      ensures Bit(hand, i) ==> FromMask(cursor).Ok? && FromMask(cursor).value == CardAt(i)
    {
      AndPow2(hand, i);
      FromMaskPow2(i);
    }

    /** Once the lower cursor is above the higher one no member lies between them. */
    static lemma LowerCrossed(hand: Cards52, lower: Word, higher: Word, l: nat, h: nat)
      requires Cursors(lower, higher, l, h) && higher < lower
      ensures CardsIn(hand, l, h) == []
    {
      if h > 0 {
        Pow2Compare(l, h - 1);
      }
    }

    /** `next_back`: the highest member still between the cursors, which the higher cursor then
        passes; `None` once the cursors have crossed. */
    method NextBack() returns (r: Option<Card>)
      requires Valid()
      modifies this
      ensures Valid()
      ensures r.Some? ==> old(Remaining()) == Remaining() + [r.value]
      ensures r.None? ==> old(Remaining()) == [] && Remaining() == []
    {
      r, higherPosition, hi := SeekHigher(hand, lowerPosition, higherPosition, lo, hi);
    }

    /** The loop of `next_back` on copies of the cursors: the higher cursor descends to the
        highest member still between them and passes it, or it descends below the lower
        cursor. */
    static method SeekHigher(hand: Cards52, lower: Word, higher0: Word, ghost l: nat, ghost h0: nat)
      returns (r: Option<Card>, higher: Word, ghost h: nat)
      requires Cursors(lower, higher0, l, h0)
      ensures Cursors(lower, higher, l, h)
      ensures r.Some? ==> CardsIn(hand, l, h0) == CardsIn(hand, l, h) + [r.value]
      ensures r.None? ==> CardsIn(hand, l, h0) == [] && CardsIn(hand, l, h) == []
    {
      higher, h := higher0, h0;
      r := None;
      while higher >= lower
        invariant Cursors(lower, higher, l, h) && CardsIn(hand, l, h) == CardsIn(hand, l, h0)
        decreases h
      {
        HigherIsBit(lower, higher, l, h);
        RetreatHigher(hand, lower, higher, l, h - 1);
        CursorBit(hand, higher, h - 1);
        if And(higher, hand) != 0 {
          var card := FromMask(higher).value;
          r := Some(card);
          higher, h := Shr1(higher), h - 1;
          return;
        }
        higher, h := Shr1(higher), h - 1;
      }
      LowerCrossed(hand, lower, higher, l, h);
    }

    /** One step of `next_back`, the mirror image of `AdvanceLower`: the higher cursor is bit
        `i`, and passing it leaves the cursors around the members below `i`. */
    static lemma RetreatHigher(hand: Cards52, lower: Word, higher: Word, l: nat, i: nat)
      requires Cursors(lower, higher, l, i + 1) && lower <= higher
      ensures l <= i && higher == Pow2(i) && Cursors(lower, Shr1(higher), l, i)
      ensures CardsIn(hand, l, i + 1) == CardsIn(hand, l, i) + (if Bit(hand, i) then [CardAt(i)] else [])
    {
      Pow2Compare(l, i);
      Shr1Pow2(i);
      CardsInLast(hand, l, i + 1);
    }

    /** While the higher cursor is not below the lower one it is a bit, not 0. */
    static lemma HigherIsBit(lower: Word, higher: Word, l: nat, h: nat)
      requires Cursors(lower, higher, l, h) && lower <= higher
      ensures h > 0
    {
    }

    /** `size_hint` of `StackHandIterator`: the mask of the bits from the lower cursor up to the
        higher one, built in a loop, counted against the set; exactly the number of cards still
        to come. The suit and interval iterators keep the default `(0, None)` of `Iterator`. */
    method SizeHint() returns (lower: nat, upper: Option<nat>)
      requires Valid()
      ensures exactSize ==> lower == |Remaining()| && upper == Some(lower)
      ensures !exactSize ==> lower == 0 && upper == None
    {
      if !exactSize {
        return 0, None;
      }
      var mask: Word := 0;
      var m: Word := lowerPosition;
      ghost var k: nat := lo;
      RangeMaskEmpty(lo);
      while m <= higherPosition
        invariant Covering(lowerPosition, higherPosition, lo, hi, k)
        invariant m == Pow2(k) && mask == RangeMask(lo, k)
        decreases hi - k
      {
        CoverStep(lowerPosition, higherPosition, lo, hi, k);
        mask := Or(mask, m);
        m := Shl1(m);
        k := k + 1;
      }
      CoverDone(hand, lowerPosition, higherPosition, lo, hi, k);
      var sum := PopCount(And(hand, mask));
      lower := sum;
      upper := Some(sum);
    }

    /** The loop of `size_hint` has covered the bits from `l` up to `k`, and `k` has not passed
        the higher cursor's bit. */
    static ghost predicate Covering(lower: Word, higher: Word, l: nat, h: nat, k: nat)
    {
      Cursors(lower, higher, l, h) && l <= k < 64 && (if l < h then k <= h else k == l)
    }

    /** One more bit: the cursor bit `k` is still inside the range, so the next one is a word
        and the mask grows by exactly that bit. */
    static lemma CoverStep(lower: Word, higher: Word, l: nat, h: nat, k: nat)
      requires Covering(lower, higher, l, h, k) && Pow2(k) <= higher
      ensures Covering(lower, higher, l, h, k + 1) && k < h
      ensures Pow2(k) < WORD_BOUND && Shl1(Pow2(k)) == Pow2(k + 1)
      ensures Or(RangeMask(l, k), Pow2(k)) == RangeMask(l, k + 1) && RangeMask(l, k + 1) < WORD_BOUND
    {
      Pow2Compare(k, h - 1);
      RangeMaskGrow(l, k);
      RangeMaskBound(l, k + 1);
      Pow2IsWord(k + 1);
      Shl1Pow2(k);
    }

    /** Once the cursor bit is above the higher cursor the mask covers exactly the cursors'
        range, so its count against the set is the number of members still to come. */
    static lemma CoverDone(hand: Cards52, lower: Word, higher: Word, l: nat, h: nat, k: nat)
      requires Covering(lower, higher, l, h, k) && higher < Pow2(k)
      ensures PopCount(And(hand, RangeMask(l, k))) == |CardsIn(hand, l, h)|
    {
      if h > 0 {
        Pow2Compare(k, h - 1);
      }
      PopCountInRange(hand, l, k);
      CardsInLength(hand, l, h);
    }
  }
  /** The documented walk over the spades of {A♣, K♥, Q♦, J♠, A♠, 2♠, 10♠} from both ends:
      `next` gives 2♠, `next_back` A♠ and then J♠, `next` 10♠, and then neither end gives
      anything. */
  method MixedEndsExample() returns (yielded: seq<Option<Card>>)
    ensures yielded == [Some(TWO_SPADES), Some(ACE_SPADES), Some(JACK_SPADES), Some(TEN_SPADES), None, None]
  {
    var it := SuitExampleIterator();
    ghost var r0 := it.Remaining();
    var a := it.Next();
    PeelFront(r0, TWO_SPADES, [TEN_SPADES, JACK_SPADES, ACE_SPADES], a, it.Remaining());
    ghost var r1 := it.Remaining();
    var b := it.NextBack();
    PeelBack(r1, [TEN_SPADES, JACK_SPADES], ACE_SPADES, b, it.Remaining());
    ghost var r2 := it.Remaining();
    var c := it.NextBack();
    PeelBack(r2, [TEN_SPADES], JACK_SPADES, c, it.Remaining());
    ghost var r3 := it.Remaining();
    var d := it.Next();
    PeelFront(r3, TEN_SPADES, [], d, it.Remaining());
    var e := it.Next();
    var f := it.NextBack();
    yielded := [a, b, c, d, e, f];
  }
  /** `StackHandSuitIterator::new` over the spades of the example hand. */
  method SuitExampleIterator() returns (it: StackHandIterator)
    ensures fresh(it) && it.Valid()
    ensures it.Remaining() == [TWO_SPADES] + [TEN_SPADES, JACK_SPADES, ACE_SPADES]
  {
    var hand := SuitExampleHand();
    it := new StackHandIterator.NewSuit(hand, S.Spades);
    ghost var rem := it.Remaining();
    assert S.UsizeIndex(S.Spades) * 13 == 39;
    assert rem == CardsIn(hand, 39, 52);
    FrontOfFour(TWO_SPADES, TEN_SPADES, JACK_SPADES, ACE_SPADES);
  }

  /** `card_set!` of the suit-iterator example hand. */
  method SuitExampleHand() returns (hand: Cards52)
    ensures CardsIn(hand, 39, 52) == [TWO_SPADES, TEN_SPADES, JACK_SPADES, ACE_SPADES]
  {
    hand := CardSetMacro(SUIT_EXAMPLE);
    SuitExampleSpades();
  }

  /** A four-element sequence is its first element followed by the other three. */
  lemma FrontOfFour<T>(a: T, b: T, c: T, d: T)
    ensures [a, b, c, d] == [a] + [b, c, d]
  {
  }

  /** Taking a value from the front of a known sequence. */
  lemma PeelFront<T>(before: seq<T>, x: T, tail: seq<T>, r: Option<T>, rest: seq<T>)
    requires before == [x] + tail
    requires r.Some? ==> before == [r.value] + rest
    requires r.None? ==> before == []
    ensures r == Some(x) && rest == tail
  {
    assert before[0] == x;
    assert before[1..] == tail;
    if r.Some? {
      assert before[1..] == rest;
    }
  }

  /** Taking a value from the back of a known sequence. */
  lemma PeelBack<T>(before: seq<T>, init: seq<T>, x: T, r: Option<T>, rest: seq<T>)
    requires before == init + [x]
    requires r.Some? ==> before == rest + [r.value]
    requires r.None? ==> before == []
    ensures r == Some(x) && rest == init
  {
    assert before[|init|] == x;
    assert before[..|init|] == init;
    if r.Some? {
      assert before[..|rest|] == rest;
    }
  }
}
