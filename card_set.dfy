/** `CardSetStd` as a word: one bit per standard card, bit `usize_index` holding the card,
    the legal bits 0..52, and the pure set operations on that word. */
module CardSets {
  import opened Wrappers
  import opened Bits
  import opened Cards
  import S = Suits
  import Fg = Figures

  /** 2^52: a card set uses the low 52 bits of its word. */
  const CARDS_BOUND: nat := 0x10_0000_0000_0000

  /** The `cards` word of a `CardSetStd`: no bit at 52 or above is ever set. */
  type Cards52 = w: nat | w < CARDS_BOUND

  // ---------------------------------------------------------------------------------------------
  // Suit masks

  /** The 13-bit segments of the four suits, suit `s` at bits `13 * s .. 13 * s + 13`. */
  const MASK_CLUBS: nat := RangeMask(0, 13)
  const MASK_DIAMONDS: nat := RangeMask(13, 26)
  const MASK_HEARTS: nat := RangeMask(26, 39)
  const MASK_SPADES: nat := RangeMask(39, 52)

  /** `MASK_STACK_HAND_LEGAL`. */
  const MASK_STACK_HAND_LEGAL: nat := Or(Or(Or(MASK_DIAMONDS, MASK_CLUBS), MASK_HEARTS), MASK_SPADES)

  /** `CardSetStd::suit_mask`. */
  function SuitMask(s: S.Suit): nat
  {
    match s
    case Spades => MASK_SPADES
    case Hearts => MASK_HEARTS
    case Diamonds => MASK_DIAMONDS
    case Clubs => MASK_CLUBS
  }

  /** A suit's mask holds exactly the thirteen numbers of that suit's cards. */
  lemma SuitMaskBits(s: S.Suit, i: nat)
    ensures Bit(SuitMask(s), i) <==> S.UsizeIndex(s) * 13 <= i < S.UsizeIndex(s) * 13 + 13
  {
    BitOfRangeMask(S.UsizeIndex(s) * 13, S.UsizeIndex(s) * 13 + 13, i);
  }

  /** The legal mask is the 52 card bits and nothing else. */
  lemma LegalMaskBits(i: nat)
    ensures Bit(MASK_STACK_HAND_LEGAL, i) <==> i < CARD_SPACE
  {
    BitOfRangeMask(0, 13, i);
    BitOfRangeMask(13, 26, i);
    BitOfRangeMask(26, 39, i);
    BitOfRangeMask(39, 52, i);
    BitOfFourOrs(MASK_DIAMONDS, MASK_CLUBS, MASK_HEARTS, MASK_SPADES, i);
  }

  /** A bit of `a | b | c | d` is a bit of one of the four. */
  lemma BitOfFourOrs(a: nat, b: nat, c: nat, d: nat, i: nat)
    ensures Bit(Or(Or(Or(a, b), c), d), i) <==> Bit(a, i) || Bit(b, i) || Bit(c, i) || Bit(d, i)
  {
    BitOfOr(Or(Or(a, b), c), d, i);
    BitOfOr(Or(a, b), c, i);
    BitOfOr(a, b, i);
  }

  lemma LegalMaskBound()
    ensures MASK_STACK_HAND_LEGAL < CARDS_BOUND
  {
    forall i: nat | 52 <= i
      ensures !Bit(MASK_STACK_HAND_LEGAL, i)
    {
      LegalMaskBits(i);
    }
    Pow2Of52();
    BoundFromBits(MASK_STACK_HAND_LEGAL, 52);
  }

  /** A card lies in a suit's segment exactly when it is of that suit. */
  lemma InSuitRange(c: Card, s: S.Suit)
    ensures S.UsizeIndex(s) * 13 <= UsizeIndex(c) < S.UsizeIndex(s) * 13 + 13 <==> c.suit == s
  {
    var k := S.UsizeIndex(s);
    LexCompare(S.UsizeIndex(c.suit), Fg.UsizeIndex(c.figure), k, 0, 13);
    LexCompare(S.UsizeIndex(c.suit), Fg.UsizeIndex(c.figure), k + 1, 0, 13);
    assert (k + 1) * 13 == k * 13 + 13;
    S.IndexRoundTrip(c.suit);
    S.IndexRoundTrip(s);
  }

  // ---------------------------------------------------------------------------------------------
  // Cards as bits

  /** The card numbered `i`. */
  function CardAt(i: nat): (c: Card)
    requires i < CARD_SPACE
    ensures UsizeIndex(c) == i
  {
    Card2SGen(S.FromUsizeIndex(i / 13).value, Fg.FromUsizeIndex(i % 13).value)
  }

  /** Card numbers are a bijection: every card is the card at its number. */
  lemma CardAtIndex(c: Card)
    ensures CardAt(UsizeIndex(c)) == c
  {
    var k, j := S.UsizeIndex(c.suit), Fg.UsizeIndex(c.figure);
    assert (k * 13 + j) / 13 == k && (k * 13 + j) % 13 == j;
    S.IndexRoundTrip(c.suit);
    Fg.IndexRoundTrip(c.figure);
  }

  /** `from_usize_index` decodes a number below 52 to the card at that number. */
  lemma CardAtDecodes(i: nat)
    requires i < CARD_SPACE
    ensures FromUsizeIndex(i) == Ok(CardAt(i))
  {
    DecodeCard(i);
    IndexInjective(FromUsizeIndex(i).value, CardAt(i));
  }

  lemma IndexInjective(c: Card, d: Card)
    ensures UsizeIndex(c) == UsizeIndex(d) <==> c == d
  {
    CardAtIndex(c);
    CardAtIndex(d);
  }

  /** A card's mask is a bit inside the legal range. */
  lemma MaskIsLegal(c: Card)
    ensures Mask(c) < CARDS_BOUND
  {
    Pow2Of52();
    Pow2Monotonic(UsizeIndex(c), 52);
  }

  /** `contains`: `card.mask() & self.cards != 0`, i.e. the card's bit is set. */
  function Contains(w: nat, c: Card): (r: bool)
    ensures r <==> Bit(w, UsizeIndex(c))
  {
    AndPow2(w, UsizeIndex(c));
    And(Mask(c), w) != 0
  }

  /** The cards whose bits are set at positions `lo <= i < hi`, in ascending order of number. */
  function CardsIn(w: nat, lo: nat, hi: nat): seq<Card>
    requires hi <= CARD_SPACE
    decreases hi - lo
  {
    if lo >= hi then [] else (if Bit(w, lo) then [CardAt(lo)] else []) + CardsIn(w, lo + 1, hi)
  }

  /** The members of a set in ascending order of number: what its iterator yields. */
  function Elements(w: nat): seq<Card>
  {
    CardsIn(w, 0, CARD_SPACE)
  }

  /** Strictly ascending by card number, so without repetitions. */
  ghost predicate Ascending(s: seq<Card>)
  {
    forall i, j :: 0 <= i < j < |s| ==> UsizeIndex(s[i]) < UsizeIndex(s[j])
  }

  /** `CardsIn` lists as many cards as the range has set bits. */
  lemma {:induction false} CardsInLength(w: nat, lo: nat, hi: nat)
    requires hi <= CARD_SPACE
    ensures |CardsIn(w, lo, hi)| == CountIn(w, lo, hi)
    decreases hi - lo
  {
    if lo < hi {
      CardsInLength(w, lo + 1, hi);
    }
  }

  /** `CardsIn` holds exactly the members numbered in `[lo, hi)`. */
  lemma {:induction false} CardsInMembers(w: nat, lo: nat, hi: nat, c: Card)
    requires hi <= CARD_SPACE
    ensures c in CardsIn(w, lo, hi) <==> lo <= UsizeIndex(c) < hi && Contains(w, c)
    decreases hi - lo
  {
    if lo < hi {
      CardsInMembers(w, lo + 1, hi, c);
      IndexInjective(c, CardAt(lo));
    }
  }

  /** `CardsIn` is strictly ascending. */
  lemma {:induction false} CardsInAscending(w: nat, lo: nat, hi: nat)
    requires hi <= CARD_SPACE
    ensures Ascending(CardsIn(w, lo, hi))
    decreases hi - lo
  {
    if lo < hi {
      CardsInAscending(w, lo + 1, hi);
      var rest := CardsIn(w, lo + 1, hi);
      if Bit(w, lo) {
        forall j | 0 <= j < |rest|
          ensures lo < UsizeIndex(rest[j])
        {
          CardsInMembers(w, lo + 1, hi, rest[j]);
        }
        AscendingCons(CardAt(lo), rest);
      } else {
        assert CardsIn(w, lo, hi) == rest;
      }
    }
  }

  /** A card numbered below all of an ascending list can go in front of it. */
  lemma AscendingCons(c: Card, rest: seq<Card>)
    requires Ascending(rest)
    requires forall j :: 0 <= j < |rest| ==> UsizeIndex(c) < UsizeIndex(rest[j])
    ensures Ascending([c] + rest)
  {
    var s := [c] + rest;
    forall i, j | 0 <= i < j < |s|
      ensures UsizeIndex(s[i]) < UsizeIndex(s[j])
    {
      assert s[j] == rest[j - 1];
      if i > 0 {
        assert s[i] == rest[i - 1];
      }
    }
  }

  /** A list whose neighbours ascend is ascending throughout. */
  lemma {:induction false} AscendingByNeighbours(s: seq<Card>)
    requires forall i :: 0 <= i < |s| - 1 ==> UsizeIndex(s[i]) < UsizeIndex(s[i + 1])
    ensures Ascending(s)
    decreases |s|
  {
    if |s| > 1 {
      var rest := s[1..];
      assert forall i :: 0 <= i < |rest| ==> rest[i] == s[i + 1];
      AscendingByNeighbours(rest);
      assert UsizeIndex(s[0]) < UsizeIndex(rest[0]);
      AscendingCons(s[0], rest);
      assert [s[0]] + rest == s;
    }
  }

  /** All three facts about `CardsIn` together. */
  lemma CardsInSpec(w: nat, lo: nat, hi: nat)
    requires hi <= CARD_SPACE
    ensures |CardsIn(w, lo, hi)| == CountIn(w, lo, hi)
    ensures forall c: Card :: c in CardsIn(w, lo, hi) <==> lo <= UsizeIndex(c) < hi && Contains(w, c)
    ensures Ascending(CardsIn(w, lo, hi))
  {
    CardsInLength(w, lo, hi);
    CardsInAscending(w, lo, hi);
    forall c: Card
      ensures c in CardsIn(w, lo, hi) <==> lo <= UsizeIndex(c) < hi && Contains(w, c)
    {
      CardsInMembers(w, lo, hi, c);
    }
  }

  /** `CardsIn` splits at any point of its range. */
  lemma {:induction false} CardsInSplit(w: nat, lo: nat, mid: nat, hi: nat)
    requires lo <= mid <= hi <= CARD_SPACE
    ensures CardsIn(w, lo, hi) == CardsIn(w, lo, mid) + CardsIn(w, mid, hi)
    decreases mid - lo
  {
    if lo < mid {
      CardsInSplit(w, lo + 1, mid, hi);
    }
  }

  /** Peeling the last position off the range, as `next_back` does. */
  lemma CardsInLast(w: nat, lo: nat, hi: nat)
    requires lo < hi <= CARD_SPACE
    ensures CardsIn(w, lo, hi) == CardsIn(w, lo, hi - 1) + (if Bit(w, hi - 1) then [CardAt(hi - 1)] else [])
  {
    CardsInSplit(w, lo, hi - 1, hi);
  }

  /** A range with no set bits lists no cards. */
  lemma {:induction false} CardsInNone(w: nat, lo: nat, hi: nat)
    requires hi <= CARD_SPACE
    requires forall i: nat :: lo <= i < hi ==> !Bit(w, i)
    ensures CardsIn(w, lo, hi) == []
    decreases hi - lo
  {
    if lo < hi {
      CardsInNone(w, lo + 1, hi);
    }
  }

  /** Two strictly ascending card lists with the same members are the same list. */
  lemma {:induction false} AscendingUnique(s: seq<Card>, t: seq<Card>)
    requires Ascending(s) && Ascending(t)
    requires forall c :: c in s <==> c in t
    ensures s == t
    decreases |s|
  {
    assert s != [] ==> s[0] in t;
    assert t != [] ==> t[0] in s;
    if s != [] && t != [] {
      assert s == [s[0]] + s[1..];
      assert t == [t[0]] + t[1..];
      AscendingTail(s);
      AscendingTail(t);
      assert UsizeIndex(t[0]) <= UsizeIndex(s[0]) && UsizeIndex(s[0]) <= UsizeIndex(t[0]);
      IndexInjective(s[0], t[0]);
      forall c
        ensures c in s[1..] <==> c in t[1..]
      {
        assert c in s <==> c == s[0] || c in s[1..];
        assert c in t <==> c == t[0] || c in t[1..];
        assert c in s[1..] ==> UsizeIndex(t[0]) < UsizeIndex(c);
        assert c in t[1..] ==> UsizeIndex(s[0]) < UsizeIndex(c);
      }
      AscendingUnique(s[1..], t[1..]);
    }
  }

  /** The tail of an ascending list is ascending and lies above its head. */
  lemma AscendingTail(s: seq<Card>)
    requires Ascending(s) && s != []
    ensures Ascending(s[1..])
    ensures forall c :: c in s[1..] ==> UsizeIndex(s[0]) < UsizeIndex(c)
  {
    forall c | c in s[1..]
      ensures UsizeIndex(s[0]) < UsizeIndex(c)
    {
      var k :| 0 <= k < |s[1..]| && s[1..][k] == c;
      assert s[k + 1] == c;
    }
    forall i, j | 0 <= i < j < |s[1..]|
      ensures UsizeIndex(s[1..][i]) < UsizeIndex(s[1..][j])
    {
      assert s[1..][i] == s[i + 1] && s[1..][j] == s[j + 1];
    }
  }

  /** A non-empty set's members lie between its lowest and its highest set bit, which is where
      `StackHandIterator::new` puts its cursors. */
  lemma ElementsBetweenEnds(w: Cards52)
    requires w != 0
    ensures LowestBit(w) < BitLength(w) <= CARD_SPACE
    ensures CardsIn(w, LowestBit(w), BitLength(w)) == Elements(w)
  {
    var lb, bl := LowestBit(w), BitLength(w);
    LowestBitIsLowest(w, 0);
    Pow2Of52();
    BitLengthBound(w, 52);
    BitLengthIsHighest(w, lb);
    forall i: nat | 0 <= i < lb
      ensures !Bit(w, i)
    {
      LowestBitIsLowest(w, i);
    }
    forall i: nat | bl <= i < CARD_SPACE
      ensures !Bit(w, i)
    {
      BitLengthIsHighest(w, i);
    }
    CardsInNone(w, 0, lb);
    CardsInNone(w, bl, CARD_SPACE);
    CardsInSplit(w, 0, lb, CARD_SPACE);
    CardsInSplit(w, lb, bl, CARD_SPACE);
  }

  /** The empty set lists nothing in any range. */
  lemma CardsInOfZero(lo: nat, hi: nat)
    requires hi <= CARD_SPACE
    ensures CardsIn(0, lo, hi) == []
  {
    forall i: nat | lo <= i < hi
      ensures !Bit(0, i)
    {
      BitOfZero(i);
    }
    CardsInNone(0, lo, hi);
  }

  // ---------------------------------------------------------------------------------------------
  // Construction, length and the set operations

  /** `From<u64>`: the word masked to the legal bits. */
  function FromU64(w: Word): Cards52
  {
    LegalMaskBound();
    Pow2Of52();
    AndBound(w, MASK_STACK_HAND_LEGAL, 52);
    And(w, MASK_STACK_HAND_LEGAL)
  }

  /** `From<u64>` rejects nothing: it keeps exactly the card bits of the word, and a word that
      already has no bit from 52 upward is kept as it is. */
  lemma FromU64Spec(w: Word, c: Card)
    ensures Contains(FromU64(w), c) <==> Bit(w, UsizeIndex(c))
    ensures w < CARDS_BOUND ==> FromU64(w) == w
  {
    BitOfAnd(w, MASK_STACK_HAND_LEGAL, UsizeIndex(c));
    LegalMaskBits(UsizeIndex(c));
    if w < CARDS_BOUND {
      forall i: nat
        ensures Bit(FromU64(w), i) == Bit(w, i)
      {
        BitOfAnd(w, MASK_STACK_HAND_LEGAL, i);
        LegalMaskBits(i);
        if 52 <= i {
          Pow2Of52();
          BitAboveBound(w, 52, i);
        }
      }
      BitsEqual(FromU64(w), w);
    }
  }

  /** `len`: `count_ones`. */
  function Len(w: Cards52): nat
  {
    PopCount(w)
  }

  /** The length is the number of members. */
  lemma LenIsMemberCount(w: Cards52)
    ensures Len(w) == |Elements(w)|
    ensures Len(w) == 0 <==> w == 0
  {
    Pow2Of52();
    PopCountIsCount(w, 52);
    CardsInSpec(w, 0, CARD_SPACE);
    PopCountZero(w);
  }

  /** Every member of a set is listed by `Elements`, and nothing else is. */
  lemma ElementsSpec(w: Cards52)
    ensures forall c: Card :: c in Elements(w) <==> Contains(w, c)
    ensures Ascending(Elements(w))
  {
    CardsInSpec(w, 0, CARD_SPACE);
  }

  /** `empty()`: the zero word has no members. */
  lemma EmptyHasNoMembers(c: Card)
    ensures !Contains(0, c) && Len(0) == 0 && Elements(0) == []
  {
    BitOfZero(UsizeIndex(c));
    LenIsMemberCount(0);
  }

  /** A set is determined by its members: two words with the same cards are the same word. */
  lemma MembersDetermineWord(a: Cards52, b: Cards52)
    requires forall c: Card :: Contains(a, c) <==> Contains(b, c)
    ensures a == b
  {
    forall i: nat
      ensures Bit(a, i) == Bit(b, i)
    {
      if i < CARD_SPACE {
        assert Contains(a, CardAt(i)) <==> Contains(b, CardAt(i));
      } else {
        Pow2Of52();
        BitAboveBound(a, 52, i);
        BitAboveBound(b, 52, i);
      }
    }
    BitsEqual(a, b);
  }

  /** A set is empty, of length zero, exactly when it has no members. */
  lemma EmptyIffNoMembers(w: Cards52)
    ensures Len(w) == 0 <==> forall c: Card :: !Contains(w, c)
  {
    LenIsMemberCount(w);
    if forall c: Card :: !Contains(w, c) {
      forall c: Card
        ensures Contains(w, c) <==> Contains(0, c)
      {
        EmptyHasNoMembers(c);
      }
      MembersDetermineWord(w, 0);
    } else {
      var c: Card :| Contains(w, c);
      EmptyHasNoMembers(c);
    }
  }

  /** `union`: `self.cards | other.cards`. */
  function Union(a: Cards52, b: Cards52): Cards52
  {
    Pow2Of52();
    OrBound(a, b, 52);
    Or(a, b)
  }

  /** `intersection`: `self.cards & other.cards`. */
  function Intersection(a: Cards52, b: Cards52): Cards52
  {
    Pow2Of52();
    AndBound(a, b, 52);
    And(a, b)
  }

  /** The union holds the cards of either operand; the intersection those of both. */
  lemma UnionIntersectionMembers(a: Cards52, b: Cards52, c: Card)
    ensures Contains(Union(a, b), c) <==> Contains(a, c) || Contains(b, c)
    ensures Contains(Intersection(a, b), c) <==> Contains(a, c) && Contains(b, c)
  {
    BitOfOr(a, b, UsizeIndex(c));
    BitOfAnd(a, b, UsizeIndex(c));
  }

  /** Union and intersection are commutative and idempotent as sets: the operands' order does
      not matter and combining a set with itself gives the set back. */
  lemma UnionIntersectionLaws(a: Cards52, b: Cards52)
    ensures Union(a, b) == Union(b, a) && Union(a, a) == a
    ensures Intersection(a, b) == Intersection(b, a) && Intersection(a, a) == a
  {
    forall c: Card
      ensures (Contains(Union(a, b), c) <==> Contains(Union(b, a), c)) &&
              (Contains(Union(a, a), c) <==> Contains(a, c))
      ensures (Contains(Intersection(a, b), c) <==> Contains(Intersection(b, a), c)) &&
              (Contains(Intersection(a, a), c) <==> Contains(a, c))
    {
      UnionIntersectionMembers(a, b, c);
      UnionIntersectionMembers(b, a, c);
      UnionIntersectionMembers(a, a, c);
    }
    MembersDetermineWord(Union(a, b), Union(b, a));
    MembersDetermineWord(Union(a, a), a);
    MembersDetermineWord(Intersection(a, b), Intersection(b, a));
    MembersDetermineWord(Intersection(a, a), a);
  }

  /** What `insert_card` stores on success: `cards |= card.mask()`. */
  function InsertWord(w: Cards52, c: Card): Cards52
  {
    MaskIsLegal(c);
    Pow2Of52();
    OrBound(w, Mask(c), 52);
    Or(w, Mask(c))
  }

  /** What `remove_card` stores on success: `cards ^= card.mask()`. */
  function RemoveWord(w: Cards52, c: Card): Cards52
  {
    MaskIsLegal(c);
    Pow2Of52();
    XorBound(w, Mask(c), 52);
    Xor(w, Mask(c))
  }

  /** After inserting `c`, `c` is a member and every other card is as it was; an absent card
      adds one to the length. */
  lemma InsertWordSpec(w: Cards52, c: Card, d: Card)
    ensures Contains(InsertWord(w, c), c)
    ensures d != c ==> (Contains(InsertWord(w, c), d) <==> Contains(w, d))
    ensures !Contains(w, c) ==> Len(InsertWord(w, c)) == Len(w) + 1
  {
    BitOfOr(w, Mask(c), UsizeIndex(c));
    BitOfPow2(UsizeIndex(c), UsizeIndex(c));
    BitOfOr(w, Mask(c), UsizeIndex(d));
    BitOfPow2(UsizeIndex(c), UsizeIndex(d));
    IndexInjective(c, d);
    if !Contains(w, c) {
      forall i: nat | i != UsizeIndex(c)
        ensures Bit(w, i) <==> Bit(InsertWord(w, c), i)
      {
        BitOfOr(w, Mask(c), i);
        BitOfPow2(UsizeIndex(c), i);
      }
      OneBitMore(w, InsertWord(w, c), UsizeIndex(c));
    }
  }

  /** Removing a member `c` clears it and keeps every other card; the length drops by one. */
  lemma RemoveWordSpec(w: Cards52, c: Card, d: Card)
    requires Contains(w, c)
    ensures !Contains(RemoveWord(w, c), c)
    ensures d != c ==> (Contains(RemoveWord(w, c), d) <==> Contains(w, d))
    ensures Len(RemoveWord(w, c)) + 1 == Len(w)
  {
    BitOfXor(w, Mask(c), UsizeIndex(c));
    BitOfPow2(UsizeIndex(c), UsizeIndex(c));
    BitOfXor(w, Mask(c), UsizeIndex(d));
    BitOfPow2(UsizeIndex(c), UsizeIndex(d));
    IndexInjective(c, d);
    forall i: nat | i != UsizeIndex(c)
      ensures Bit(RemoveWord(w, c), i) <==> Bit(w, i)
    {
      BitOfXor(w, Mask(c), i);
      BitOfPow2(UsizeIndex(c), i);
    }
    OneBitMore(RemoveWord(w, c), w, UsizeIndex(c));
  }

  /** Two legal words that differ only at bit `j`, set in `b`, differ by one in length. */
  lemma OneBitMore(a: Cards52, b: Cards52, j: nat)
    requires j < CARD_SPACE && !Bit(a, j) && Bit(b, j)
    requires forall i: nat :: i != j ==> (Bit(a, i) <==> Bit(b, i))
    ensures Len(b) == Len(a) + 1
  {
    Pow2Of52();
    PopCountIsCount(a, 52);
    PopCountIsCount(b, 52);
    CountInOneMore(a, b, 0, 52, j);
  }

  /** Inserting an absent card and removing it again restores the word, and removing a member
      and inserting it again does too. */
  lemma InsertRemoveRoundTrip(w: Cards52, c: Card)
    ensures !Contains(w, c) ==> RemoveWord(InsertWord(w, c), c) == w
    ensures Contains(w, c) ==> InsertWord(RemoveWord(w, c), c) == w
  {
    var i := UsizeIndex(c);
    if !Contains(w, c) {
      forall j: nat
        ensures Bit(RemoveWord(InsertWord(w, c), c), j) == Bit(w, j)
      {
        BitOfXor(InsertWord(w, c), Mask(c), j);
        BitOfOr(w, Mask(c), j);
        BitOfPow2(i, j);
      }
      BitsEqual(RemoveWord(InsertWord(w, c), c), w);
    } else {
      forall j: nat
        ensures Bit(InsertWord(RemoveWord(w, c), c), j) == Bit(w, j)
      {
        BitOfOr(RemoveWord(w, c), Mask(c), j);
        BitOfXor(w, Mask(c), j);
        BitOfPow2(i, j);
      }
      BitsEqual(InsertWord(RemoveWord(w, c), c), w);
    }
  }

  // ---------------------------------------------------------------------------------------------
  // Suit operations

  /** `only_in_suit`: the set masked to one suit. */
  function OnlyInSuit(w: Cards52, s: S.Suit): Cards52
  {
    Pow2Of52();
    AndBound(w, SuitMask(s), 52);
    And(w, SuitMask(s))
  }

  /** The suit's part of a set holds the set's cards of that suit and no others. */
  lemma OnlyInSuitMembers(w: Cards52, s: S.Suit, c: Card)
    ensures Contains(OnlyInSuit(w, s), c) <==> Contains(w, c) && c.suit == s
  {
    BitOfAnd(w, SuitMask(s), UsizeIndex(c));
    SuitMaskBits(s, UsizeIndex(c));
    InSuitRange(c, s);
  }

  /** `highest_in_suit`: from the leading zeros of the suit's part, the card at the highest set
      bit, or `None` when the count of leading zeros is 64. */
  function HighestInSuit(w: Cards52, s: S.Suit): Option<Card>
  {
    var m := OnlyInSuit(w, s);
    var leadingZeros := LeadingZeros(m);
    if leadingZeros <= 63 then
      Pow2Of52();
      BitLengthBound(m, 52);
      var pos := 63 - leadingZeros;
      FromMaskPow2(pos);
      Some(FromMask(Pow2(pos)).value)
    else
      None
  }

  /** The highest set bit of the suit's part is the card `highest_in_suit` decodes. */
  lemma HighestInSuitIsTopBit(w: Cards52, s: S.Suit)
    ensures OnlyInSuit(w, s) == 0 ==> HighestInSuit(w, s) == None
    ensures OnlyInSuit(w, s) != 0 ==>
              0 < BitLength(OnlyInSuit(w, s)) <= CARD_SPACE &&
              HighestInSuit(w, s) == Some(CardAt(BitLength(OnlyInSuit(w, s)) - 1))
  {
    var m := OnlyInSuit(w, s);
    Pow2Of52();
    BitLengthBound(m, 52);
    assert LeadingZeros(m) == 64 - BitLength(m);
    if m != 0 {
      var pos := BitLength(m) - 1;
      FromMaskPow2(pos);
      CardAtDecodes(pos);
      assert 63 - LeadingZeros(m) == pos;
      assert FromMask(Pow2(pos)).value == CardAt(pos);
    }
  }

  /** `highest_in_suit(s)` is `None` exactly when the set has no card of suit `s`; otherwise it
      is a member of suit `s` and no member of that suit has a higher figure. */
  lemma HighestInSuitSpec(w: Cards52, s: S.Suit)
    ensures HighestInSuit(w, s).None? <==> forall c: Card :: c.suit == s ==> !Contains(w, c)
    ensures HighestInSuit(w, s).Some? ==>
              var h := HighestInSuit(w, s).value;
              h.suit == s && Contains(w, h) &&
              forall c: Card :: c.suit == s && Contains(w, c) ==>
                UsizeIndex(c) <= UsizeIndex(h) && Fg.UsizeIndex(c.figure) <= Fg.UsizeIndex(h.figure)
  {
    HighestInSuitIsTopBit(w, s);
    if OnlyInSuit(w, s) == 0 {
      EmptySuitPart(w, s);
    } else {
      TopOfSuitPart(w, s);
    }
  }

  /** A suit whose part is zero has no members. */
  lemma EmptySuitPart(w: Cards52, s: S.Suit)
    requires OnlyInSuit(w, s) == 0
    ensures forall c: Card :: c.suit == s ==> !Contains(w, c)
  {
    forall c: Card | c.suit == s
      ensures !Contains(w, c)
    {
      OnlyInSuitMembers(w, s, c);
      BitOfZero(UsizeIndex(c));
    }
  }

  /** The card at the top bit of a non-zero suit part is a member of that suit, above every
      other member of the suit. */
  lemma TopOfSuitPart(w: Cards52, s: S.Suit)
    requires OnlyInSuit(w, s) != 0 && BitLength(OnlyInSuit(w, s)) <= CARD_SPACE
    ensures var h := CardAt(BitLength(OnlyInSuit(w, s)) - 1);
            h.suit == s && Contains(w, h) &&
            forall c: Card :: c.suit == s && Contains(w, c) ==>
              UsizeIndex(c) <= UsizeIndex(h) && Fg.UsizeIndex(c.figure) <= Fg.UsizeIndex(h.figure)
  {
    var m := OnlyInSuit(w, s);
    var pos := BitLength(m) - 1;
    var h := CardAt(pos);
    assert h.suit == s && Contains(w, h) by {
      BitLengthIsHighest(m, pos);
      assert Contains(m, h);
      OnlyInSuitMembers(w, s, h);
    }
    NothingAboveTop(w, s, m, h);
  }

  /** No card of the suit in the set is above the card at the suit part's top bit. */
  lemma NothingAboveTop(w: Cards52, s: S.Suit, m: nat, h: Card)
    requires m == OnlyInSuit(w, s) && h.suit == s && UsizeIndex(h) == BitLength(m) - 1
    ensures forall c: Card :: c.suit == s && Contains(w, c) ==>
              UsizeIndex(c) <= UsizeIndex(h) && Fg.UsizeIndex(c.figure) <= Fg.UsizeIndex(h.figure)
  {
    forall c: Card | c.suit == s && Contains(w, c)
      ensures UsizeIndex(c) <= UsizeIndex(h) && Fg.UsizeIndex(c.figure) <= Fg.UsizeIndex(h.figure)
    {
      OnlyInSuitMembers(w, s, c);
      BitLengthIsHighest(m, UsizeIndex(c));
      assert UsizeIndex(c) <= UsizeIndex(h);
      assert UsizeIndex(c) - UsizeIndex(h) == Fg.UsizeIndex(c.figure) - Fg.UsizeIndex(h.figure);
    }
  }

  /** `contains_in_suit`: the set's part in the suit is not empty. */
  function ContainsInSuit(w: Cards52, s: S.Suit): bool
  {
    And(w, SuitMask(s)) != 0
  }

  /** A set contains a suit exactly when it has a card of that suit, which is when
      `highest_in_suit` finds one. */
  lemma ContainsInSuitSpec(w: Cards52, s: S.Suit)
    ensures ContainsInSuit(w, s) <==> HighestInSuit(w, s).Some?
    ensures ContainsInSuit(w, s) <==> exists c: Card :: c.suit == s && Contains(w, c)
  {
    HighestInSuitSpec(w, s);
    if ContainsInSuit(w, s) {
      var h := HighestInSuit(w, s).value;
      assert h.suit == s && Contains(w, h);
    }
  }

  // ---------------------------------------------------------------------------------------------
  // The `card_set!` macro

  /** The macro's accumulator: `h |= x.mask()` for each listed card, from `h = 0`. */
  function MaskAll(cs: seq<Card>): Cards52
  {
    if cs == [] then 0
    else
      var init := MaskAll(cs[..|cs| - 1]);
      MaskIsLegal(cs[|cs| - 1]);
      Pow2Of52();
      OrBound(init, Mask(cs[|cs| - 1]), 52);
      Or(init, Mask(cs[|cs| - 1]))
  }

  /** `card_set![..]`. */
  function CardSetMacro(cs: seq<Card>): Cards52
  {
    FromU64(MaskAll(cs))
  }

  /** The macro's set holds exactly the listed cards, repetitions collapsing. */
  lemma {:induction false} CardSetMacroMembers(cs: seq<Card>, c: Card)
    ensures Contains(CardSetMacro(cs), c) <==> c in cs
    decreases |cs|
  {
    FromU64Spec(MaskAll(cs), c);
    MaskAllMembers(cs, c);
  }

  lemma {:induction false} MaskAllMembers(cs: seq<Card>, c: Card)
    ensures Contains(MaskAll(cs), c) <==> c in cs
    decreases |cs|
  {
    if cs == [] {
      BitOfZero(UsizeIndex(c));
    } else {
      var last := cs[|cs| - 1];
      MaskAllMembers(cs[..|cs| - 1], c);
      BitOfOr(MaskAll(cs[..|cs| - 1]), Mask(last), UsizeIndex(c));
      BitOfPow2(UsizeIndex(last), UsizeIndex(c));
      IndexInjective(c, last);
      assert cs == cs[..|cs| - 1] + [last];
    }
  }

  // ---------------------------------------------------------------------------------------------
  // Documented examples

  /** The set a `card_set!` of some cards makes lists, in order, any ascending arrangement of
      exactly those cards. */
  lemma MacroElements(cs: seq<Card>, sorted: seq<Card>)
    requires Ascending(sorted) && forall c :: c in cs <==> c in sorted
    ensures Elements(CardSetMacro(cs)) == sorted
  {
    var w := CardSetMacro(cs);
    ElementsSpec(w);
    forall c: Card
      ensures c in Elements(w) <==> c in sorted
    {
      CardSetMacroMembers(cs, c);
    }
    AscendingUnique(Elements(w), sorted);
  }

  /** `card_set![KING_SPADES, ACE_HEARTS, JACK_CLUBS, TEN_DIAMONDS]` lists its members as
      J♣, 10♦, A♥, K♠. */
  lemma IterationExample()
    ensures Elements(CardSetMacro([KING_SPADES, ACE_HEARTS, JACK_CLUBS, TEN_DIAMONDS]))
            == [JACK_CLUBS, TEN_DIAMONDS, ACE_HEARTS, KING_SPADES]
  {
    MacroElements([KING_SPADES, ACE_HEARTS, JACK_CLUBS, TEN_DIAMONDS], [JACK_CLUBS, TEN_DIAMONDS, ACE_HEARTS, KING_SPADES]);
  }

  /** In a `card_set!` the highest card of a suit is the listed card of that suit with the
      greatest number. */
  lemma MacroHighest(cs: seq<Card>, s: S.Suit, h: Card)
    requires h in cs && h.suit == s
    requires forall c :: c in cs && c.suit == s ==> UsizeIndex(c) <= UsizeIndex(h)
    ensures HighestInSuit(CardSetMacro(cs), s) == Some(h)
  {
    var w := CardSetMacro(cs);
    HighestInSuitSpec(w, s);
    CardSetMacroMembers(cs, h);
    var top := HighestInSuit(w, s).value;
    CardSetMacroMembers(cs, top);
    IndexInjective(h, top);
  }

  /** In {2♦, 3♣, J♣, K♣, A♥, 2♠} the highest club is K♣. */
  lemma HighestInSuitExample()
    ensures HighestInSuit(CardSetMacro([TWO_DIAMONDS, THREE_CLUBS, JACK_CLUBS, KING_CLUBS, ACE_HEARTS, TWO_SPADES]), S.Clubs)
            == Some(KING_CLUBS)
  {
    MacroHighest([TWO_DIAMONDS, THREE_CLUBS, JACK_CLUBS, KING_CLUBS, ACE_HEARTS, TWO_SPADES], S.Clubs, KING_CLUBS);
  }
  /** Every card numbered in `[lo, hi)`, in order. */
  ghost function Run(lo: nat, hi: nat): seq<Card>
    requires lo <= hi <= CARD_SPACE
  {
    seq(hi - lo, i requires 0 <= i < hi - lo => CardAt(lo + i))
  }

  /** The `i`-th card of a run is the card numbered `lo + i`. */
  lemma RunAt(lo: nat, hi: nat)
    requires lo <= hi <= CARD_SPACE
    ensures |Run(lo, hi)| == hi - lo
    ensures forall i :: 0 <= i < hi - lo ==> Run(lo, hi)[i] == CardAt(lo + i)
  {
  }

  /** A set that holds every card numbered in `[lo, hi)` lists exactly the cards at those
      numbers, in order. */
  lemma CardsInAll(w: nat, lo: nat, hi: nat)
    requires lo <= hi <= CARD_SPACE
    requires forall i :: lo <= i < hi ==> Bit(w, i)
    ensures CardsIn(w, lo, hi) == Run(lo, hi)
  {
    var s, t := CardsIn(w, lo, hi), Run(lo, hi);
    assert Ascending(s) by { CardsInSpec(w, lo, hi); }
    assert Ascending(t) by { RunAt(lo, hi); }
    assert forall c :: c in s <==> c in t by {
      CardsInSpec(w, lo, hi);
      RunAt(lo, hi);
      forall c: Card
        ensures c in s <==> c in t
      {
        if lo <= UsizeIndex(c) < hi {
          CardAtIndex(c);
          assert t[UsizeIndex(c) - lo] == c;
        }
        if c in t {
          var i :| 0 <= i < |t| && t[i] == c;
        }
      }
    }
    AscendingUnique(s, t);
  }

  /** The full deck (`from_iter(Card::iterator())`) iterates over all 52 cards, and its
      positions 13 .. 25 are the diamonds from the two up to the ace. */
  lemma FullDeckIteration(w: nat)
    requires forall c: Card :: Contains(w, c)
    ensures |Elements(w)| == CARD_SPACE
    ensures forall i :: 13 <= i < 26 ==> Elements(w)[i] == Card2SGen(S.Diamonds, Fg.FIGURES[i - 13])
  {
    forall i | 0 <= i < CARD_SPACE
      ensures Bit(w, i)
    {
      assert Contains(w, CardAt(i));
    }
    CardsInAll(w, 0, CARD_SPACE);
    RunAt(0, CARD_SPACE);
    Fg.FiguresNumbered();
    forall i | 13 <= i < 26
      ensures Elements(w)[i] == Card2SGen(S.Diamonds, Fg.FIGURES[i - 13])
    {
      IndexInjective(CardAt(i), Card2SGen(S.Diamonds, Fg.FIGURES[i - 13]));
    }
  }

  /** A range whose only set bits are the numbers of two cards lists those two cards. */
  lemma RangeOfTwo(w: nat, lo: nat, hi: nat, a: Card, b: Card)
    requires lo <= UsizeIndex(a) < UsizeIndex(b) < hi <= CARD_SPACE
    requires forall i :: lo <= i < hi ==> (Bit(w, i) <==> i == UsizeIndex(a) || i == UsizeIndex(b))
    ensures CardsIn(w, lo, hi) == [a, b]
  {
    var s, t := CardsIn(w, lo, hi), [a, b];
    assert Ascending(s) by { CardsInSpec(w, lo, hi); }
    assert Ascending(t) by { AscendingByNeighbours(t); }
    assert forall e :: e in s <==> e in t by {
      CardsInSpec(w, lo, hi);
      forall e: Card
        ensures e in s <==> e in t
      {
        IndexInjective(e, a);
        IndexInjective(e, b);
      }
    }
    AscendingUnique(s, t);
  }

  /** A range whose only set bits are the numbers of three cards lists those three cards. */
  lemma RangeOfThree(w: nat, lo: nat, hi: nat, a: Card, b: Card, c: Card)
    requires lo <= UsizeIndex(a) < UsizeIndex(b) < UsizeIndex(c) < hi <= CARD_SPACE
    requires forall i :: lo <= i < hi ==>
               (Bit(w, i) <==> i == UsizeIndex(a) || i == UsizeIndex(b) || i == UsizeIndex(c))
    ensures CardsIn(w, lo, hi) == [a, b, c]
  {
    var s, t := CardsIn(w, lo, hi), [a, b, c];
    assert Ascending(s) by { CardsInSpec(w, lo, hi); }
    assert Ascending(t) by { AscendingByNeighbours(t); }
    assert forall e :: e in s <==> e in t by {
      CardsInSpec(w, lo, hi);
      forall e: Card
        ensures e in s <==> e in t
      {
        IndexInjective(e, a);
        IndexInjective(e, b);
        IndexInjective(e, c);
      }
    }
    AscendingUnique(s, t);
  }

  /** The word `from_iter` builds from the cards numbered 1 modulo 4. */
  ghost predicate EveryFourth(w: nat)
  {
    forall i :: 0 <= i < CARD_SPACE ==> (Bit(w, i) <==> i % 4 == 1)
  }

  /** The numbers 1 modulo 4 in the ranges of the interval examples. */
  lemma OneModFour(i: int)
    ensures !(14 <= i < 17 && i % 4 == 1)
    ensures 13 <= i < 24 ==> (i % 4 == 1 <==> i == 13 || i == 17 || i == 21)
    ensures 14 <= i < 23 ==> (i % 4 == 1 <==> i == 17 || i == 21)
    ensures 42 <= i < 51 ==> (i % 4 == 1 <==> i == 45 || i == 49)
  {
  }

  /** The numbers of the cards in the interval examples. */
  lemma ExampleNumbers()
    ensures UsizeIndex(TWO_DIAMONDS) == 13 && UsizeIndex(THREE_DIAMONDS) == 14
    ensures UsizeIndex(FIVE_DIAMONDS) == 16 && UsizeIndex(SIX_DIAMONDS) == 17
    ensures UsizeIndex(TEN_DIAMONDS) == 21 && UsizeIndex(QUEEN_DIAMONDS) == 23
    ensures UsizeIndex(FOUR_SPADES) == 41 && UsizeIndex(EIGHT_SPADES) == 45
    ensures UsizeIndex(QUEEN_SPADES) == 49 && UsizeIndex(ACE_SPADES) == 51
  {
  }

  /** In the every-fourth deck the closed range 3♦ .. 5♦ holds nothing and 2♦ .. Q♦ holds
      2♦, 6♦, 10♦. */
  lemma IntervalExample(w: nat)
    requires EveryFourth(w)
    ensures CardsIn(w, UsizeIndex(THREE_DIAMONDS), UsizeIndex(FIVE_DIAMONDS) + 1) == []
    ensures CardsIn(w, UsizeIndex(TWO_DIAMONDS), UsizeIndex(QUEEN_DIAMONDS) + 1)
            == [TWO_DIAMONDS, SIX_DIAMONDS, TEN_DIAMONDS]
  {
    ExampleNumbers();
    forall i: nat | 14 <= i < 17
      ensures !Bit(w, i)
    {
      OneModFour(i);
    }
    CardsInNone(w, 14, 17);
    forall i | 13 <= i < 24
      ensures Bit(w, i) <==> i == 13 || i == 17 || i == 21
    {
      OneModFour(i);
    }
    RangeOfThree(w, 13, 24, TWO_DIAMONDS, SIX_DIAMONDS, TEN_DIAMONDS);
  }

  /** In the every-fourth deck the open range 2♦ .. Q♦ holds 6♦, 10♦ and the open range
      4♠ .. A♠ holds 8♠, Q♠. */
  lemma ExcludingIntervalExample(w: nat)
    requires EveryFourth(w)
    ensures CardsIn(w, UsizeIndex(TWO_DIAMONDS) + 1, UsizeIndex(QUEEN_DIAMONDS)) == [SIX_DIAMONDS, TEN_DIAMONDS]
    ensures CardsIn(w, UsizeIndex(FOUR_SPADES) + 1, UsizeIndex(ACE_SPADES)) == [EIGHT_SPADES, QUEEN_SPADES]
  {
    ExampleNumbers();
    forall i | 14 <= i < 23
      ensures Bit(w, i) <==> i == 17 || i == 21
    {
      OneModFour(i);
    }
    RangeOfTwo(w, 14, 23, SIX_DIAMONDS, TEN_DIAMONDS);
    forall i | 42 <= i < 51
      ensures Bit(w, i) <==> i == 45 || i == 49
    {
      OneModFour(i);
    }
    RangeOfTwo(w, 42, 51, EIGHT_SPADES, QUEEN_SPADES);
  }
  /** A range whose only set bits are the numbers of four cards lists those four cards. */
  lemma RangeOfFour(w: nat, lo: nat, hi: nat, a: Card, b: Card, c: Card, d: Card)
    requires lo <= UsizeIndex(a) < UsizeIndex(b) < UsizeIndex(c) < UsizeIndex(d) < hi <= CARD_SPACE
    requires forall i :: lo <= i < hi ==>
               (Bit(w, i) <==> i == UsizeIndex(a) || i == UsizeIndex(b) || i == UsizeIndex(c) || i == UsizeIndex(d))
    ensures CardsIn(w, lo, hi) == [a, b, c, d]
  {
    var s, t := CardsIn(w, lo, hi), [a, b, c, d];
    assert Ascending(s) by { CardsInSpec(w, lo, hi); }
    assert Ascending(t) by { AscendingByNeighbours(t); }
    assert forall e :: e in s <==> e in t by { FourMembers(w, lo, hi, a, b, c, d); }
    AscendingUnique(s, t);
  }

  /** The members of such a range are the four cards. */
  lemma FourMembers(w: nat, lo: nat, hi: nat, a: Card, b: Card, c: Card, d: Card)
    requires lo <= UsizeIndex(a) < UsizeIndex(b) < UsizeIndex(c) < UsizeIndex(d) < hi <= CARD_SPACE
    requires forall i :: lo <= i < hi ==>
               (Bit(w, i) <==> i == UsizeIndex(a) || i == UsizeIndex(b) || i == UsizeIndex(c) || i == UsizeIndex(d))
    ensures forall e :: e in CardsIn(w, lo, hi) <==> e in [a, b, c, d]
  {
    CardsInSpec(w, lo, hi);
    forall e: Card
      ensures e in CardsIn(w, lo, hi) <==> e in [a, b, c, d]
    {
      IndexInjective(e, a);
      IndexInjective(e, b);
      IndexInjective(e, c);
      IndexInjective(e, d);
    }
  }

  /** The hand of the suit-iterator examples. */
  const SUIT_EXAMPLE: seq<Card> :=
    [ACE_CLUBS, KING_HEARTS, QUEEN_DIAMONDS, JACK_SPADES, ACE_SPADES, TWO_SPADES, TEN_SPADES]

  /** The spades of the suit-iterator example hand are 2♠, 10♠, J♠, A♠. */
  lemma SuitExampleSpades()
    ensures CardsIn(CardSetMacro(SUIT_EXAMPLE), 39, 52) == [TWO_SPADES, TEN_SPADES, JACK_SPADES, ACE_SPADES]
  {
    var w := CardSetMacro(SUIT_EXAMPLE);
    forall i | 39 <= i < 52
      ensures Bit(w, i) <==> i == 39 || i == 47 || i == 48 || i == 51
    {
      SuitExampleBit(i);
    }
    RangeOfFour(w, 39, 52, TWO_SPADES, TEN_SPADES, JACK_SPADES, ACE_SPADES);
  }

  /** The numbers of the spades in the suit-iterator example hand. */
  lemma SpadeNumbers()
    ensures UsizeIndex(TWO_SPADES) == 39 && UsizeIndex(TEN_SPADES) == 47
    ensures UsizeIndex(JACK_SPADES) == 48 && UsizeIndex(ACE_SPADES) == 51
  {
  }

  /** A spade is in the suit-iterator example hand exactly when its number is one of the four. */
  lemma SpadeMembers(c: Card)
    requires c.suit == S.Spades
    ensures c in SUIT_EXAMPLE <==> UsizeIndex(c) in {39, 47, 48, 51}
  {
    assert c in SUIT_EXAMPLE <==> c == TWO_SPADES || c == TEN_SPADES || c == JACK_SPADES || c == ACE_SPADES;
    SpadeNumbers();
    IndexInjective(c, TWO_SPADES);
    IndexInjective(c, TEN_SPADES);
    IndexInjective(c, JACK_SPADES);
    IndexInjective(c, ACE_SPADES);
  }

  /** Which spades bits the suit-iterator example hand sets. */
  lemma SuitExampleBit(i: nat)
    requires 39 <= i < 52
    ensures Bit(CardSetMacro(SUIT_EXAMPLE), i) <==> i == 39 || i == 47 || i == 48 || i == 51
  {
    var c := CardAt(i);
    CardSetMacroMembers(SUIT_EXAMPLE, c);
    assert c.suit == S.Spades by {
      InSuitRange(c, S.Spades);
    }
    SpadeMembers(c);
    assert Contains(CardSetMacro(SUIT_EXAMPLE), c) <==> Bit(CardSetMacro(SUIT_EXAMPLE), i);
  }
}
