# karty in Dafny

A model of the core of **karty**, a Rust library of playing cards: suits, figures and the
52-card deck, their numbering, ordering and parsing, and the containers built on them. The
model follows the library's own modules:

- `Symbol`, `SymbolIterator`: the `CardSymbol` contract (a dense numbering `usize_index` /
  `from_usize_index` onto `0..SYMBOL_SPACE`, `higher_n`, `lower_n`) and the iterator that lists
  a symbol type in number order. The contract is a `Space` value together with the predicate
  `IsDense`, which states the trait's obligation.
- `Suits`, `Figures`, `Cards`, `CartesianIterator`, `Order`: the standard suit and figure tables,
  their masks, orders and comparators; the card numbering `suit * 13 + figure` with `div_rem`
  decoding; the suit-first and figure-first comparisons; the suit-major Cartesian product.
- `Bits`: the u64 word operations the bit sets use (`&`, `|`, `^`, `!`, shifts, `count_ones`,
  `trailing_zeros`, `leading_zeros`), on numbers below 2 to the 64.
- `CardSets`, `StackHand`: the bit-packed `CardSetStd` (one bit per card) and its three
  double-ended iterators. The word functions in `CardSets` are the specification. `StackHand`
  holds the class with `insert_card` and `remove_card` in place, and the iterator class whose
  cursor loops are proved against that specification.
- `Hand`: the default methods of the hand trait (`is_empty`, `insert_card_noerr`,
  `insert_from_iterator`, `from_iterator`).
- `CardSetGen`, `CardSetGenRepeating`: the hash set with duplicate and absence errors, and the
  counting multiset with its size estimator.
- `StandardRegister`, `SamplingRegister`: the u64 card register, the vector-plus-map sampling
  register and its complementary pair.
- `SuitMaps`: the four-slot `SuitMap` and its iteration order.
- `Nom`, `FigureParse`, `SuitParse`, `CardParse`, `CardSetParse`: the `nom` combinators the
  library uses (`tag`, `tag_no_case`, `alt`, `space0`), given the behaviour their documentation
  describes, then the figure, suit, card and dotted `S.H.D.C` hand parsers.
- `Errors`, `Wrappers`: the error enums and `Option`/`Result`.

Notes on the code:

- The symbol iterator (src/symbol/iterator.rs) has only a position and `next`. It is not
  double-ended and keeps no size.
- The error variants are those of karty/src/error: `CardDuplicated`, `CardNotInSet`,
  `WrongSuitPosition`, `WrongFigurePosition`, `WrongPosition` and `WrongMaskFormat`. In the
  card-set error type, the source's `ParseError` is called `SetParseError`, so that it does not
  clash with the card error's `ParseError`.
- `from_iter` of the bit set (karty/src/set/card_set/mod.rs:645-649) has the same body as the
  trait's `from_iterator`, and both are modelled by `Hand.FromIterator`.

## Model

| member | source | states |
|---|---|---|
| Symbol.CheckedSub | karty/src/symbol/trait.rs:87 | `checked_sub` is defined exactly when the subtrahend is not larger, and then adds back to the minuend |
| Symbol.HigherN | karty/src/symbol/trait.rs:83-85 | for a dense numbering, `higher_n(n)` is a symbol exactly when `usize_index + n < SYMBOL_SPACE`, and that symbol is numbered `usize_index + n` |
| Symbol.LowerN | karty/src/symbol/trait.rs:86-94 | `lower_n(n)` is `None` when `n` exceeds the number; for a dense numbering it is a symbol exactly when `n <= usize_index`, numbered `usize_index - n` |
| Symbol.HigherNZero | karty/src/symbol/trait.rs:83-85 | `higher_n(0)` is the symbol itself |
| Symbol.LowerNUndoesHigherN | karty/src/symbol/trait.rs:83-94 | `lower_n(n)` undoes a successful `higher_n(n)`, and `higher_n(n)` undoes a successful `lower_n(n)` |
| Symbol.ListedDense | karty/src/symbol/trait.rs:11-18 | under the dense-numbering obligation, listing numbers `0..k` gives `min(k, SYMBOL_SPACE)` symbols, the `i`-th numbered `i`, and nothing more past `SYMBOL_SPACE` |
| Symbol.ListedCovers | karty/src/symbol/trait.rs:63-82 | iterating a dense symbol type visits every symbol |
| SymbolIterator.CardSymbolIterator.constructor | src/symbol/iterator.rs:22-32 | `new` and `Default` start at position 0 with nothing yielded |
| SymbolIterator.CardSymbolIterator.Next | src/symbol/iterator.rs:37-41 | `next` returns the decoding of the current position and moves it on by exactly one; the yielded symbols stay the listing of all positions passed, so for a dense type it is `Some` exactly below `SYMBOL_SPACE` (and `None` forever after), with the symbol numbered by the position |
| Suits.UsizeIndex | karty/src/suits/standard.rs:79-86 | every suit's number is below `SYMBOL_SPACE` = 4 |
| Suits.FromUsizeIndex | karty/src/suits/standard.rs:88-96 | decoding succeeds exactly below 4, yields the suit with that number, and otherwise fails with `WrongSuitPosition(position)` |
| Suits.IndexRoundTrip | karty/src/suits/standard.rs:79-96 | decoding a suit's number gives the suit back |
| Suits.SuitSpaceIsDense | karty/src/symbol/trait.rs:11-18 | the suit numbering meets the dense-numbering obligation of `CardSymbol` |
| Suits.SuitsInIndexOrder | karty/src/suits/standard.rs:52-53 | `SUITS` has four entries, `SUITS[i]` is numbered `i`, and it is exactly what the symbol iterator yields for suits (Clubs, Diamonds, Hearts, Spades) |
| Suits.CmpRanking | karty/src/suits/standard.rs:66-74 | suit order is number order: Spades > Hearts > Diamonds > Clubs, only equal suits tie, and swapping the operands reverses the result |
| Suits.ComparatorDCHSByRank | karty/src/suits/standard.rs:131-158 | `ComparatorDCHS` compares the ranks Spades > Hearts > Clubs > Diamonds, so it is total, antisymmetric and `Equal` only on equal suits |
| Suits.ComparatorCDHSIsNatural | karty/src/suits/standard.rs:159-187 | `ComparatorCDHS` agrees with the natural suit order on every pair |
| Figures.NewNumberFigure | src/figures/standard.rs:36-41 | `NumberFigure::new(p)` for `2 <= p <= 10` has power `p`; other powers are excluded as the panic |
| Figures.OrderNumber | src/figures/standard.rs:46-48 | a numbered figure's order number is below 9 and is its power minus 2 |
| Figures.NumberFromPosition | src/figures/standard.rs:110-115 | `NumberFigure::from_position` succeeds exactly below 9, inverts the order number, and otherwise fails with `WrongFigurePosition(position)` |
| Figures.NumberPositionRoundTrip | src/figures/standard.rs:99-115 | decoding a numbered figure's position gives it back |
| Figures.Power | src/figures/standard.rs:163-171 | every power is in 2..14 |
| Figures.FromPower | src/figures/standard.rs:172-181 | `from_power` is defined exactly on 2..14 and inverts `power` |
| Figures.PowerRoundTrip | src/figures/standard.rs:163-181 | `from_power(f.power()) == Some(f)` |
| Figures.Mask | src/figures/standard.rs:141-161 | every figure's mask, including the literal court masks and `1 << power` for numbers, is the single bit at its power (Ace 0x4000 … F2 0x4) |
| Figures.FromMask | src/figures/standard.rs:190-199 | a figure decoded from a word means the word has exactly one bit and is that figure's mask |
| Figures.FromMaskRoundTrip | src/figures/standard.rs:182-199 | `from_mask(f.mask()) == Some(f)` |
| Figures.FromMaskOutsidePowers | src/figures/standard.rs:190-199 | a single bit outside powers 2..14 decodes to `None` |
| Figures.UsizeIndex | src/figures/standard.rs:215-223 | every figure's position is below 13 and is its power minus 2 |
| Figures.FromUsizeIndex | src/figures/standard.rs:231-240 | `from_position` succeeds exactly below 13, inverts the position, and otherwise fails with `WrongFigurePosition(position)` |
| Figures.IndexRoundTrip | src/figures/standard.rs:215-240 | decoding a figure's position gives it back |
| Figures.FigureSpaceIsDense | karty/src/symbol/trait.rs:11-18 | the figure numbering meets the dense-numbering obligation of `CardSymbol` |
| Figures.FiguresNumbered | src/figures/standard.rs:271-276 | `FIGURES` has 13 entries and `FIGURES[i]` is numbered `i` |
| Figures.FiguresInIndexOrder | karty/src/symbol/mod.rs:31-49 | the symbol iterator over figures yields exactly `FIGURES`: 2, …, 10, Jack, Queen, King, Ace |
| Figures.CmpIsIndexOrder | src/figures/standard.rs:278-318 | ordering figures by power is ordering them by position, only equal figures tie, and King > 10, 4 < 10, King < Ace |
| Cards.FromFigureAndSuit | karty/src/cards/card.rs:202-212 | the card built from a figure and a suit has that figure and that suit |
| Cards.CardSpaceIsDense | karty/src/cards/card.rs:314-324 | when both symbol types are dense, `suit * F::SPACE + figure` with `div_rem` decoding is a dense numbering of the `F::SPACE * S::SPACE` cards |
| Cards.DecodeEncodedGen | karty/src/cards/card.rs:317-324 | a card's number is below `F::SPACE * S::SPACE` and decodes back to the card |
| Cards.DecodeInRangeGen | karty/src/cards/card.rs:321-324 | every number below the card space decodes to a card with that number |
| Cards.DecodeOutOfRangeGen | karty/src/cards/card.rs:321-324 | a number at or beyond the card space fails, with the error of decoding its suit part |
| Cards.CompareSuitFirst | karty/src/cards/card.rs:25-32 | `compare_suit_first` is decided by the suits unless they tie, and then by the figures |
| Cards.CompareFigureFirst | karty/src/cards/card.rs:33-40 | `compare_figure_first` is decided by the figures unless they tie, and then by the suits |
| Cards.CmpSuitFigure | karty/src/cards/card.rs:279-284 | `cmp_suit_figure` is decided by the suit comparator unless it ties, and then by the figure comparator |
| Cards.CmpFigureSuit | karty/src/cards/card.rs:304-309 | `cmp_figure_suit` is decided by the figure comparator unless it ties, and then by the suit comparator |
| Cards.UsizeIndex | karty/src/cards/card.rs:314-319 | a standard card's number is `suit * 13 + figure` and lies below 52 |
| Cards.StdSpaceIsDense | karty/src/cards/card.rs:314-324 | the standard card numbering has space 52, is dense, round-trips, and numbers from 52 on fail with `WrongSuitPosition(i / 13)` |
| Cards.DecodeCard | karty/src/cards/card.rs:321-324 | every number below 52 decodes to the card with that number |
| Cards.Mask | karty/src/set/card_set/mod.rs:705 | a card's mask has exactly one set bit, the one at the card's number, so its popcount is 1 and its trailing-zero count is that number |
| Cards.FromMaskPow2 | karty/src/set/card_set/mod.rs:705 | a single bit below 52 decodes to the card numbered by its position |
| Cards.FromMaskRoundTrip | karty/src/set/card_set/mod.rs:705 | decoding a card's mask gives the card back |
| Cards.CompareSuitFirstIsIndexOrder | karty/src/cards/card.rs:25-32 | `compare_suit_first` is the order of card numbers |
| Cards.CompareFigureFirstIsFigureMajor | karty/src/cards/card.rs:33-40 | `compare_figure_first` is the order of the figure-major numbers `figure * 4 + suit` |
| Cards.DecodingExamples | karty/src/symbol/trait.rs:29-61 | the documented numbers hold: Spades 3 … Clubs 0, ten 8, king 11, figure 10 is the queen, suit 2 hearts, card 3 the five of clubs, card 48 the jack of spades; the queen of spades' mask is `1 << 49` |
| Cards.BridgeOrderTop | karty/src/cards/card.rs:265-284 | under `cmp_suit_figure` with either suit ranking, every card other than the king and ace of spades sorts below the king of spades, which sorts below the ace of spades |
| Cards.VisualOrderTop | karty/src/cards/card.rs:286-309 | under `cmp_figure_suit` with `ComparatorDCHS`, every non-ace sorts below the aces, which end in the order diamonds, clubs, hearts, spades |
| Cards.MachineColorExample | karty/src/cards/card.rs:170-177 | with three figures and four colours, number 10 decodes to (Bike, Red) and 5 to (Train, Green) |
| CartesianIterator.Row | src/cards/cartesian_iterator.rs:37-39 | one suit's row has one card per figure, the `j`-th with the `j`-th figure and that suit |
| CartesianIterator.CardSubsetLength | src/cards/cartesian_iterator.rs:23-28 | the product of figures and suits has as many cards as the number of figures times the number of suits |
| CartesianIterator.CardSubsetAt | src/cards/cartesian_iterator.rs:23-41 | the product is suit-major: position `i * F + j`, with `F` the number of figures, holds the `j`-th figure of the `i`-th suit |
| CartesianIterator.SubsetExample | src/cards/cartesian_iterator.rs:7-13 | `[Ace, King, Queen] × [Spades, Hearts]` yields AS, KS, QS, AH, KH, QH |
| CartesianIterator.FullDeck | karty/src/cards/card.rs:50-57 | the product of all figures and all suits has 52 cards |
| Cards.FromMaskExamples | karty/src/set/card_set/mod.rs:705 | a mask with no bit or with two bits is `WrongMaskFormat`; the ace of spades is number 51 and its mask decodes back to it |
| CardSets.SuitMaskBits | karty/src/set/card_set/mod.rs:33-40 | the mask of a suit has exactly the thirteen bits of that suit's numbers set |
| CardSets.LegalMaskBits | karty/src/set/card_set/mod.rs:19 | the legal mask has exactly the bits below 52 set |
| CardSets.InSuitRange | karty/src/set/card_set/mod.rs:33-40 | a card's number lies in a suit's block of thirteen exactly when the card is of that suit |
| CardSets.CardAt | karty/src/cards/card.rs:321-324 | the card at a position below 52 has that position as its number |
| CardSets.CardAtIndex | karty/src/cards/card.rs:314-324 | numbering a card and taking the card at that number gives the card back |
| CardSets.CardAtDecodes | karty/src/cards/card.rs:321-324 | `from_usize_index` succeeds on every number below 52, with the card at that number |
| CardSets.IndexInjective | karty/src/cards/card.rs:314-319 | two cards share a number exactly when they are the same card |
| CardSets.MaskIsLegal | karty/src/set/card_set/mod.rs:705 | every card's mask lies below bit 52, inside the legal mask |
| CardSets.Contains | karty/src/set/card_set/mod.rs:542-544 | a card is in the set exactly when the bit of its number is set |
| CardSets.CardsInLength | karty/src/set/card_set/mod.rs:255-269 | the cards an iterator yields between two cursors are as many as the set bits between them |
| CardSets.CardsInMembers | karty/src/set/card_set/mod.rs:255-269 | a card is yielded between two cursors exactly when its number lies between them and it is a member |
| CardSets.CardsInAscending | karty/src/set/card_set/mod.rs:255-269 | the cards yielded between two cursors come in strictly ascending number order |
| CardSets.CardsInSpec | karty/src/set/card_set/mod.rs:255-269 | the three facts together: count, members, ascending order |
| CardSets.CardsInSplit | karty/src/set/card_set/mod.rs:255-335 | the cards between two cursors are those below any middle point followed by those above it, so front and back iteration can meet |
| CardSets.CardsInLast | karty/src/set/card_set/mod.rs:322-335 | lowering the upper cursor by one drops exactly the card at that position when it is a member |
| CardSets.CardsInNone | karty/src/set/card_set/mod.rs:257-267 | a range with no set bit yields nothing |
| CardSets.FromU64Spec | karty/src/set/card_set/mod.rs:116-120 | `From<u64>` keeps exactly the cards whose bit is set in the word, and a word already below bit 52 is kept as it is |
| CardSets.LenIsMemberCount | karty/src/set/card_set/mod.rs:546-548 | `len` is the number of cards iteration yields, and is zero exactly for the empty word |
| CardSets.ElementsSpec | karty/src/set/card_set/mod.rs:505-513 | iterating a set yields exactly its members, in ascending number order |
| CardSets.EmptyHasNoMembers | karty/src/set/card_set/mod.rs:538-540 | the empty set holds no card, has length zero and yields nothing |
| CardSets.MembersDetermineWord | karty/src/set/card_set/mod.rs:22-26 | two legal sets with the same members are the same word |
| CardSets.EmptyIffNoMembers | karty/src/set/card_set/mod.rs:546-548 | the length is zero exactly when no card is a member |
| CardSets.UnionIntersectionMembers | karty/src/set/card_set/mod.rs:550-556 | a card is in the union exactly when it is in either set, and in the intersection exactly when it is in both |
| CardSets.UnionIntersectionLaws | karty/src/set/card_set/mod.rs:550-556 | union and intersection are commutative and idempotent |
| CardSets.InsertWordSpec | karty/src/set/card_set/mod.rs:518-526 | inserting a card makes it a member, leaves every other card as it was, and adds one to the length when the card was absent |
| CardSets.RemoveWordSpec | karty/src/set/card_set/mod.rs:528-536 | removing a member makes it absent, leaves every other card as it was, and lowers the length by one |
| CardSets.InsertRemoveRoundTrip | karty/src/set/card_set/mod.rs:518-536 | removing a freshly inserted card restores the set, and inserting a freshly removed card does too |
| CardSets.OnlyInSuitMembers | karty/src/set/card_set/mod.rs:42-44 | the cards kept by `only_in_suit` are exactly the members of that suit |
| CardSets.HighestInSuitIsTopBit | karty/src/set/card_set/mod.rs:64-73 | `highest_in_suit` is `None` for an empty suit part and otherwise the card at the highest set bit of that part |
| CardSets.HighestInSuitSpec | karty/src/set/card_set/mod.rs:64-73 | `highest_in_suit` is `None` exactly when no card of the suit is a member; otherwise it is a member of the suit with no member of the suit above it in number or figure |
| CardSets.ContainsInSuitSpec | karty/src/set/card_set/mod.rs:579-581 | `contains_in_suit` holds exactly when some card of the suit is a member, which is when `highest_in_suit` is defined |
| CardSets.CardSetMacroMembers | karty/src/set/card_set/mod.rs:664-675 | the set built by `card_set!` holds exactly the listed cards |
| CardSets.MaskAllMembers | karty/src/set/card_set/mod.rs:667-670 | the OR of the listed cards' masks has exactly their bits set |
| CardSets.MacroElements | karty/src/set/card_set/mod.rs:664-675 | iterating a `card_set!` yields the listed cards sorted in ascending number order, whatever order they were listed in |
| CardSets.IterationExample | karty/src/set/card_set/mod.rs:217-218 | the set of K♠, A♥, J♣, 10♦ iterates as J♣, 10♦, A♥, K♠ |
| CardSets.MacroHighest | karty/src/set/card_set/mod.rs:64-73 | in a `card_set!`, the highest card of a suit is the listed card of that suit with the greatest number |
| CardSets.HighestInSuitExample | karty/src/set/card_set/mod.rs:51-53 | in the documented set the highest club is K♣ |
| CardSets.FullDeckIteration | karty/src/set/card_set/mod.rs:243-251 | the full deck yields 52 cards, and positions 13 to 25 are the diamonds from two to ace |
| CardSets.IntervalExample | karty/src/set/card_set/mod.rs:75-81 | in the every-fourth-card set, the interval three to five of diamonds is empty and two to queen of diamonds yields 2♦, 6♦, 10♦ |
| CardSets.ExcludingIntervalExample | karty/src/set/card_set/mod.rs:90-97 | with both ends excluded, two to queen of diamonds yields 6♦, 10♦ and four to ace of spades yields 8♠, Q♠ |
| CardSets.SuitExampleSpades | karty/src/set/card_set/mod.rs:403-414 | the spades of the documented hand are 2♠, 10♠, J♠, A♠ in that order |
| StackHand.CardSetStd.Empty | karty/src/set/card_set/mod.rs:538-540 | the new set is the empty word |
| StackHand.CardSetStd.FromU64 | karty/src/set/card_set/mod.rs:116-120 | the new set holds the word masked to the legal bits |
| StackHand.CardSetStd.InsertCard | karty/src/set/card_set/mod.rs:518-526 | inserting a member fails with `CardDuplicated` and changes nothing; otherwise it succeeds, the card becomes a member, other cards are untouched and the length grows by one |
| StackHand.CardSetStd.RemoveCard | karty/src/set/card_set/mod.rs:528-536 | removing a non-member fails with `CardNotInSet` and changes nothing; otherwise it succeeds, the card becomes absent, other cards are untouched and the length drops by one |
| StackHand.CardSetStd.IntoIter | karty/src/set/card_set/mod.rs:505-513 | the new iterator will yield exactly the set's members in ascending order |
| StackHand.CardSetStd.SuitIterator | karty/src/set/card_set/mod.rs:604-606 | the new iterator will yield exactly the members in the suit's block of thirteen, in order |
| StackHand.CardSetStd.IntervalIterator | karty/src/set/card_set/mod.rs:86-88 | the new iterator will yield the members from the lower card to the higher card, both included |
| StackHand.CardSetStd.ExcludingIntervalIterator | karty/src/set/card_set/mod.rs:102-104 | the new iterator will yield the members strictly between the two cards |
| StackHand.StackHandIterator.New | karty/src/set/card_set/mod.rs:220-227 | a fresh iterator over the whole set, whose remaining cards are the set's members in order |
| StackHand.StackHandIterator.NewSuit | karty/src/set/card_set/mod.rs:350-362 | a fresh iterator whose remaining cards are the members of one suit in order |
| StackHand.StackHandIterator.NewInterval | karty/src/set/card_set/mod.rs:497-499 | a fresh iterator whose remaining cards are the members from one card to another, both included |
| StackHand.StackHandIterator.NewExcluding | karty/src/set/card_set/mod.rs:500-502 | a fresh iterator whose remaining cards are the members strictly between two cards |
| StackHand.StackHandIterator.Next | karty/src/set/card_set/mod.rs:255-269 | `next` returns the first remaining card and drops it from the front; `None` only when nothing remains; the cursors stay valid (the suit and interval iterators at 386-400 and 462-476 do the same) |
| StackHand.StackHandIterator.NextBack | karty/src/set/card_set/mod.rs:322-335 | `next_back` returns the last remaining card and drops it from the back; `None` only when nothing remains (as at 426-439 and 479-494) |
| StackHand.StackHandIterator.SizeHint | karty/src/set/card_set/mod.rs:294-304 | for the whole-set iterator the size hint is exact: both bounds equal the number of cards still to come; the suit and interval iterators report `(0, None)`, since they do not override `size_hint` |
| StackHand.MixedEndsExample | karty/src/set/card_set/mod.rs:403-424 | over the spades of the documented hand, alternating `next` and `next_back` yields 2♠, A♠, J♠, 10♠ and then `None` from both ends |
| StackHand.SuitExampleIterator | karty/src/set/card_set/mod.rs:407-415 | the suit iterator over the spades of the documented hand has 2♠, 10♠, J♠, A♠ to yield |
| StackHand.SuitExampleHand | karty/src/set/card_set/mod.rs:407-414 | the documented hand, built card by card, holds 2♠, 10♠, J♠, A♠ among the spades |
| StackHand.StackHandIterator.StartCursors | karty/src/set/card_set/mod.rs:220-224 | for a non-empty set the cursors of `new` sit at its lowest and highest set bit, inside the card range, and every member lies between them |
| StackHand.StackHandIterator.SeekLower | karty/src/set/card_set/mod.rs:257-267 | the loop of `next` yields the lowest member between the cursors and leaves the lower cursor past it, or yields nothing exactly when no member is left |
| StackHand.StackHandIterator.SeekHigher | karty/src/set/card_set/mod.rs:322-335 | the loop of `next_back` yields the highest member between the cursors and leaves the higher cursor below it, or yields nothing exactly when no member is left |
| StackHand.StackHandIterator.CoverDone | karty/src/set/card_set/mod.rs:295-301 | the mask the loop of `size_hint` builds, counted against the set, is the number of members between the cursors |
| Bits.LeadingZeros | karty/src/set/card_set/mod.rs:65 | `u64::leading_zeros` is at most 64 |
| Bits.Shl1IsWrapping | karty/src/set/card_set/mod.rs:259-264 | `<<= 1` on a u64 is doubling modulo 2 to the 64 |
| Bits.TrailingZerosPow2 | karty/src/set/card_set/mod.rs:221-222 | the trailing zeros of a single bit are its position |
| Bits.PopCountInRange | karty/src/set/card_set/mod.rs:301 | `count_ones` of a word masked to a range of bits is the number of set bits in that range |
| Hand.IsEmpty | src/hand/trait.rs:14-16 | `is_empty` holds exactly when no card is a member |
| Hand.InsertCardNoErr | src/hand/trait.rs:19-21 | the card becomes a member whether or not it was one, and every other card is unchanged |
| Hand.InsertAllMembers | src/hand/trait.rs:35-47 | after inserting a list of cards, a card is a member exactly when it was one before or is in the list |
| Hand.FirstClashNone | src/hand/trait.rs:35-47 | no insertion of the list fails exactly when every listed card is new to the set and to the cards before it |
| Hand.FirstClashIsFirst | src/hand/trait.rs:35-47 | the reported card is the first listed card that is already a member or repeats an earlier one |
| Hand.InsertAllLength | src/hand/trait.rs:35-47 | inserting new, distinct cards adds their number to the length |
| Hand.InsertFromIterator | src/hand/trait.rs:35-47 | every listed card is inserted even after a failure; the result is `Ok` when no insertion failed and otherwise `CardDuplicated` of the first card that clashed |
| Hand.FromIterator | src/hand/trait.rs:59-63 | the new hand is the empty set with all listed cards inserted |
| Hand.FromIteratorMembers | karty/src/set/card_set/mod.rs:635-649 | the set `from_iter` builds (the same as `from_iterator`) holds exactly the listed cards, repetitions collapsing |
| Hand.TopUpLength | src/hand/trait.rs:23-34 | a `card_set!` of k distinct cards topped up with m further new, distinct cards has no clash and k + m members |
| Hand.InsertFromIteratorExample | src/hand/trait.rs:23-34 | the documented four-card hand topped up with four new cards has eight cards |
| CardSetGen.CardSetGeneric.Empty | karty/src/set/card_set_gen.rs:49-51 | the new set has no cards |
| CardSetGen.CardSetGeneric.InsertCard | karty/src/set/card_set_gen.rs:33-40 | a present card gives `CardDuplicated` and no change; an absent card is added, with the length one larger |
| CardSetGen.CardSetGeneric.RemoveCard | karty/src/set/card_set_gen.rs:42-47 | an absent card gives `CardNotInSet` and no change; a present card is removed, with the length one smaller |
| CardSetGen.CardSetGeneric.Len | karty/src/set/card_set_gen.rs:56-58 | the length is zero exactly for the empty set |
| CardSetGen.CardSetGeneric.Union | karty/src/set/card_set_gen.rs:60-62 | a fresh set holding exactly the cards in either set |
| CardSetGen.CardSetGeneric.Intersection | karty/src/set/card_set_gen.rs:64-66 | a fresh set holding exactly the cards in both sets |
| CardSetGen.InsertRemoveRoundTrip | karty/src/set/card_set_gen.rs:33-47 | inserting an absent card and removing it again leaves the set as it was |
| CardSetGenRepeating.TotalRemove | karty/src/set/card_set_gen_repeating.rs:61-81 | the total of the counts is a key's count plus the total without that key |
| CardSetGenRepeating.TotalUpdate | karty/src/set/card_set_gen_repeating.rs:18-29 | setting a key's count changes the total by the difference between the new and the old count |
| CardSetGenRepeating.MaxCountsFrom | karty/src/set/card_set_gen_repeating.rs:101-125 | a map over the keys of either side holding the larger count of each key is the map of larger counts |
| CardSetGenRepeating.CardSetGenericRepeating.Empty | karty/src/set/card_set_gen_repeating.rs:83-88 | the new multiset has no card and an estimator of zero, and keeps the invariant that the estimator is the sum of positive counts |
| CardSetGenRepeating.CardSetGenericRepeating.InsertCopies | karty/src/set/card_set_gen_repeating.rs:18-29 | the card's count and the estimator both grow by the number of copies, and the invariant is kept when at least one copy is added |
| CardSetGenRepeating.CardSetGenericRepeating.InsertCard | karty/src/set/card_set_gen_repeating.rs:49-59 | inserting never fails; the card's count and the estimator grow by one |
| CardSetGenRepeating.CardSetGenericRepeating.RemoveCard | karty/src/set/card_set_gen_repeating.rs:61-81 | an absent card gives `CardNotInSet` and no change; a count of one removes the key, a larger count drops by one, and the estimator drops by one |
| CardSetGenRepeating.CardSetGenericRepeating.Contains | karty/src/set/card_set_gen_repeating.rs:90-95 | under the invariant, a card is contained exactly when it has a count |
| CardSetGenRepeating.CardSetGenericRepeating.Len | karty/src/set/card_set_gen_repeating.rs:97-99 | under the invariant, the length is the sum of all counts |
| CardSetGenRepeating.CardSetGenericRepeating.Union | karty/src/set/card_set_gen_repeating.rs:101-125 | a fresh valid multiset holding every card of either side with the larger of its two counts |
| CardSetGenRepeating.CardSetGenericRepeating.AddToCount | karty/src/set/card_set_gen_repeating.rs:18-29 | adding to a card's count keeps the running size equal to the sum of counts |
| CardSetGenRepeating.CardSetGenericRepeating.AddLarger | karty/src/set/card_set_gen_repeating.rs:107-117 | over the keys of the first side, each card gets the larger of its two counts, with the size the sum of counts |
| CardSetGenRepeating.CardSetGenericRepeating.AddMissing | karty/src/set/card_set_gen_repeating.rs:118-122 | adding the cards only the second side has completes the map of larger counts |
| CardSetGenRepeating.CardSetGenericRepeating.Intersection | karty/src/set/card_set_gen_repeating.rs:127-140 | a fresh valid multiset holding the cards of both sides, each with the smaller count |
| CardSetGenRepeating.CardSetGenericRepeating.IntoIter | karty/src/set/card_set_gen_repeating.rs:35-43 | every card is yielded exactly as many times as its count |
| StandardRegister.RegisterWord | karty/src/register/standard_register.rs:13-15 | the registered card's bit is set |
| StandardRegister.RegisterBits | karty/src/register/standard_register.rs:13-15 | registering sets the card's bit and no other |
| StandardRegister.UnregisterWord | karty/src/register/standard_register.rs:17-20 | the unregistered card's bit is clear |
| StandardRegister.UnregisterBits | karty/src/register/standard_register.rs:17-20 | unregistering clears the card's bit and no other |
| StandardRegister.UnregisterIdempotent | karty/src/register/standard_register.rs:17-20 | unregistering twice is unregistering once |
| StandardRegister.UnregisterAbsent | karty/src/register/standard_register.rs:17-20 | unregistering a card that is not registered changes nothing |
| StandardRegister.RegisterUnregisterRoundTrip | karty/src/register/standard_register.rs:13-20 | unregistering a newly registered card restores the memory |
| StandardRegister.CardRegister.constructor | karty/src/register/standard_register.rs:5-9 | the default register has no card registered |
| StandardRegister.CardRegister.IsRegistered | karty/src/register/standard_register.rs:22-24 | a card is registered exactly when its bit is set |
| StandardRegister.CardRegister.Register | karty/src/register/standard_register.rs:13-15 | the card becomes registered and every other card keeps its state |
| StandardRegister.CardRegister.Unregister | karty/src/register/standard_register.rs:17-20 | the card becomes unregistered and every other card keeps its state |
| SamplingRegister.SwapRemove | src/register/generic_sampling_register.rs:40 | `swap_remove(i)` shortens the vector by one, keeps every other slot, and puts the last element into slot `i` |
| SamplingRegister.SwapRemoveMultiset | src/register/generic_sampling_register.rs:59 | `swap_remove(i)` removes exactly one occurrence of the element at `i` and nothing else |
| SamplingRegister.IndexesMembers | src/register/generic_sampling_register.rs:46-48 | while the map indexes the vector, an element is a key of the map exactly when it is in the vector |
| SamplingRegister.AppendIndexes | src/register/generic_sampling_register.rs:30-35 | pushing a new element and mapping it to the last slot keeps the map indexing the vector |
| SamplingRegister.RemoveSlotIndexes | src/register/generic_sampling_register.rs:37-44 | removing a slot with `swap_remove` and re-indexing the moved element keeps the map indexing the vector, with the removed element's key gone |
| SamplingRegister.RemoveSlotAsWritten | src/register/generic_sampling_register.rs:57-62 | the removal as written: the removed element's key is gone and the vector is one shorter, but the moved element's entry is not updated |
| SamplingRegister.UnregisterAsWritten | src/register/generic_sampling_register.rs:37-44 | `unregister` as written: an absent element changes nothing, and a key with an in-range slot is removed |
| SamplingRegister.UnregisterAsWrittenPanics | src/register/generic_sampling_register.rs:37-44 | after registering a, b, c and unregistering a, the map no longer indexes the vector and unregistering c reaches a slot past the end |
| SamplingRegister.PopSampleAsWrittenStale | src/register/generic_sampling_register.rs:57-62 | drawing slot 0 from a, b, c leaves the same stale entry for c |
| SamplingRegister.RemoveSlotExample | src/register/generic_sampling_register.rs:37-44 | with the re-indexing, removing slot 0 from a, b, c moves c to slot 0 and the map indexes the vector |
| SamplingRegister.GenericSamplingRegister.constructor | src/register/generic_sampling_register.rs:14-24 | `new` and `default` give an empty map and an empty vector |
| SamplingRegister.GenericSamplingRegister.IsRegistered | src/register/generic_sampling_register.rs:46-48 | under the invariant, an element is registered exactly when it is in the vector |
| SamplingRegister.GenericSamplingRegister.Register | src/register/generic_sampling_register.rs:30-35 | a registered element changes nothing; a new one is pushed at the end and mapped to its slot; the keys gain the element and the invariant is kept |
| SamplingRegister.GenericSamplingRegister.RemoveAt | src/register/generic_sampling_register.rs:37-44 | removing a slot returns its element, removes exactly that element from the keys and from the vector's multiset, and keeps the invariant |
| SamplingRegister.GenericSamplingRegister.Unregister | src/register/generic_sampling_register.rs:37-44 | an unregistered element changes nothing; a registered one is removed from the keys and from the vector's multiset; the invariant is kept |
| SamplingRegister.GenericSamplingRegister.PeekSample | src/register/generic_sampling_register.rs:52-55 | peeking a slot in range returns an element of the vector, which is registered |
| SamplingRegister.GenericSamplingRegister.PopSample | src/register/generic_sampling_register.rs:57-62 | popping a slot returns its element, which was registered and no longer is; the vector loses that slot by `swap_remove` and the invariant is kept |
| SamplingRegister.RegisterThree | src/register/generic_sampling_register.rs:135-141 | registering three distinct elements maps them to slots 0, 1 and 2 in order |
| SamplingRegister.RegisterSpace | src/register/generic_sampling_register.rs:71-74 | the complementary register of `new` holds every symbol of the space in iteration order, with the invariant kept |
| SamplingRegister.NextIsNew | src/register/generic_sampling_register.rs:71-74 | the symbol iterator never yields an element twice, so each registration in `new` adds a new element |
| SamplingRegister.GenericSamplingRegisterCompl.constructor | src/register/generic_sampling_register.rs:70-76 | the main register starts empty and the complementary register holds every symbol |
| SamplingRegister.GenericSamplingRegisterCompl.IsRegistered | src/register/generic_sampling_register.rs:97-99 | an element is registered exactly when the main register holds it |
| SamplingRegister.GenericSamplingRegisterCompl.Register | src/register/generic_sampling_register.rs:86-90 | the element moves into the main register and out of the complementary one, and the two stay complementary |
| SamplingRegister.GenericSamplingRegisterCompl.Unregister | src/register/generic_sampling_register.rs:92-95 | the element moves out of the main register and into the complementary one, and the two stay complementary |
| SamplingRegister.GenericSamplingRegisterCompl.PeekSample | src/register/generic_sampling_register.rs:103-105 | peeking returns an element of the main register |
| SamplingRegister.GenericSamplingRegisterCompl.PopSample | src/register/generic_sampling_register.rs:107-112 | popping takes the slot's element out of the main register and adds it to the complementary one |
| SamplingRegister.GenericSamplingRegisterCompl.PeekSampleUnr | src/register/generic_sampling_register.rs:116-118 | peeking the complementary register returns an element that is not registered |
| SamplingRegister.GenericSamplingRegisterCompl.PopSampleUnr | src/register/generic_sampling_register.rs:120-125 | popping the complementary register returns its slot's element, which is then registered at the end of the main register |
| SamplingRegister.PopUnregisteredThenPop | src/register/generic_sampling_register.rs:172-174 | popping an unregistered element, registering it and popping the main register returns that same element |
| SuitMaps.SuitMap.New | src/suits/standard_map.rs:22-30 | each suit's slot holds the value given for it, with no privileged suit |
| SuitMaps.SuitMap.NewSymmetric | src/suits/standard_map.rs:32-42 | every suit's slot holds the same value, with no privileged suit |
| SuitMaps.SuitMap.NewFromF | src/suits/standard_map.rs:54-63 | each suit's slot holds the function applied to that suit |
| SuitMaps.SuitMap.SetAt | src/suits/standard_map.rs:45-47 | only the given suit's slot changes, to the given value |
| SuitMaps.SuitMap.WithPrivilege | src/suits/standard_map.rs:49-52 | only the privileged suit changes |
| SuitMaps.SuitMap.Map | src/suits/standard_map.rs:64-73 | a fresh map whose every slot is the function of the old slot, with the same privileged suit |
| SuitMaps.SuitMap.And | src/suits/standard_map.rs:75-77 | `and(f)` holds exactly when `f` holds of every suit's slot |
| SuitMaps.Single | src/suits/standard_map.rs:89-95 | the given suit holds the value and every other suit the default |
| SuitMaps.SumSymmetric | src/suits/standard_map.rs:80-84 | the sum of a map holding the same number everywhere is four times that number |
| SuitMaps.SumIsTotal | src/suits/standard_map.rs:80-84 | for numbers the sum is the total of the four slots |
| SuitMaps.IntoIter | src/suits/standard_map.rs:237-247 | iterating a map of vectors yields as many elements as the four vectors hold together |
| SuitMaps.IntoIterInSuitOrder | src/suits/standard_map.rs:237-247 | iteration visits the suits' vectors in ascending suit order, clubs first |
| SuitMaps.ReverseConcat | src/suits/standard_map.rs:217-222 | the reverse of a concatenation is the reverses concatenated the other way round |
| SuitMaps.RevIsReverse | src/suits/standard_map.rs:217-222 | iterating backwards yields exactly the reverse of iterating forwards |
| SuitMaps.IterationExample | src/suits/standard_map.rs:156-172 | the documented map iterates from J♣ through the diamonds and hearts up to A♠ |
| SuitMaps.RevIterationExample | src/suits/standard_map.rs:173-187 | backwards, the documented map iterates from A♠ down to J♣ |
| FigureParse.WordOrLetter | karty/src/figures/parse.rs:20-39 | the shared shape of the honour parsers: success exactly when the first character is the word's initial up to case; then the whole word is consumed when it is there, otherwise only the initial; a failure is a `Tag` error at the input |
| FigureParse.ParseAce | karty/src/figures/parse.rs:20-23 | success exactly on a leading `a` or `A`, consuming `ace` in any case when present and otherwise one letter; the result is the ace |
| FigureParse.ParseKing | karty/src/figures/parse.rs:24-27 | success exactly on a leading `k` in any case, consuming `king` when present and otherwise one letter; the result is the king |
| FigureParse.ParseQueen | karty/src/figures/parse.rs:28-31 | success exactly on a leading `q` in any case, consuming `queen` when present and otherwise one letter; the result is the queen |
| FigureParse.ParseJack | karty/src/figures/parse.rs:32-35 | success exactly on a leading `j` in any case, consuming `jack` when present and otherwise one letter; the result is the jack |
| FigureParse.ParseTen | karty/src/figures/parse.rs:36-39 | success exactly on a leading `t` in any case, consuming `ten` when present and otherwise one letter; the result is the numbered ten |
| FigureParse.ParseU8 | karty/src/figures/parse.rs:88-91 | `parse::<u8>` succeeds only with a value below 256 |
| FigureParse.NumeralsParse | karty/src/figures/parse.rs:74-95 | every numeral tag parses as a u8 between the smallest and the largest numbered figure, and prints back as the same tag, so the `Digit` and `Fail` errors of the source are never reached |
| FigureParse.ParseNumberedFigure | karty/src/figures/parse.rs:74-95 | the parser fails exactly when the input starts with none of the numerals 10, 9 down to 2, with a `Tag` error; otherwise it consumes the numeral and returns the numbered figure that prints as it |
| FigureParse.NumberedAccepts | karty/src/figures/parse.rs:74-86 | the numbered parser succeeds exactly on input starting with a digit from 2 to 9 or with `10` |
| FigureParse.DigitIsTag | karty/src/figures/parse.rs:74-86 | each digit from 2 to 9 is one of the numeral tags |
| FigureParse.TagShape | karty/src/figures/parse.rs:74-86 | each numeral tag is `10` or a single digit from 2 to 9 |
| FigureParse.ParseHighFigure | karty/src/figures/parse.rs:109-111 | `parse_high_figure` succeeds exactly on input that starts with a figure, and fails with a `Tag` error at the input otherwise |
| FigureParse.ParseFigure | karty/src/figures/parse.rs:122-124 | `parse_figure` succeeds exactly on input that starts with a figure, and fails with a `Tag` error at the input otherwise |
| FigureParse.ParseFigureIsHigh | karty/src/figures/parse.rs:109-124 | the second alternative of `parse_figure` is never needed: it is `parse_high_figure` |
| FigureParse.NumberedNumeral | karty/src/figures/parse.rs:74-95 | a numeral followed by anything parses as its numbered figure, leaving the rest |
| FigureParse.Dispatch | karty/src/figures/parse.rs:109-111 | the first character decides which alternative of `parse_figure` answers |
| FigureParse.DispatchDigit | karty/src/figures/parse.rs:109-111 | input starting with a digit is answered by the numbered parser |
| FigureParse.DispatchHonour | karty/src/figures/parse.rs:109-111 | input starting with an honour's initial is answered by that honour's parser |
| FigureParse.ParseFigureNumeral | karty/src/figures/parse.rs:122-124 | a numeral followed by anything parses as its figure, leaving the rest |
| FigureParse.ParseFigureSymbol | karty/src/figures/parse.rs:122-124 | a figure's one-letter form, in either case, followed by text that does not complete its word, parses as that figure leaving the text |
| FigureParse.ParseFigureWord | karty/src/figures/parse.rs:122-124 | a figure's printed word followed by anything parses as that figure, leaving the rest |
| FigureParse.FigureRun | karty/src/figures/parse.rs:133-144 | `fold_many0(parse_figure, ..)` leaves a suffix of the input at which `parse_figure` fails |
| FigureParse.FigureRunStep | karty/src/figures/parse.rs:133-144 | a figure parsed at the front is the first figure of the run |
| FigureParse.FigureRunSymbol | karty/src/figures/parse.rs:133-144 | a one-letter form at the front is the first figure of the run |
| FigureParse.FigureRunShortForms | karty/src/figures/parse.rs:133-144 | the one-letter forms of any figures, followed by a terminator, fold back to exactly those figures, leaving the terminator |
| FigureParse.ParseAceExamples | karty/src/figures/parse.rs:151-155 | `acedd` gives the ace leaving `dd`, `aCe dd` the ace leaving ` dd`, and `qd dd` a `Tag` error |
| FigureParse.NumberedTenExample | karty/src/figures/parse.rs:160 | `10fg` gives the ten leaving `fg` |
| FigureParse.NumberedElevenExample | karty/src/figures/parse.rs:161 | `11fg` gives a `Tag` error |
| FigureParse.NumberedFiveExample | karty/src/figures/parse.rs:162 | `512fg` gives the five leaving `12fg` |
| FigureParse.HighTenExample | karty/src/figures/parse.rs:163 | `tfg` gives the ten leaving `fg` |
| FigureParse.FigureKingExample | karty/src/figures/parse.rs:117 | `kc` gives the king leaving `c` |
| FigureParse.FigureQueenExample | karty/src/figures/parse.rs:118 | `qdiamonds` gives the queen leaving `diamonds` |
| FigureParse.FigureNineExample | karty/src/figures/parse.rs:119 | `9hggg` gives the nine leaving `hggg` |
| FigureParse.FigureFailExample | karty/src/figures/parse.rs:120 | `deadfish` gives a `Tag` error |
| FigureParse.FigureRunExample | karty/src/figures/parse.rs:133-144 | folding `AT86.` gives ace, ten, eight, six and leaves `.` |
| SuitParse.Tags | src/suits/parse.rs:17-36 | each suit is recognised by at least four tags: its name, its initial and its two glyphs (and `diax` for diamonds) |
| SuitParse.ParseOne | src/suits/parse.rs:17-36 | each per-suit parser succeeds exactly when the input starts with one of that suit's forms, consuming the form its first matching tag gives; a failure is a `Tag` error at the input |
| SuitParse.TagsAccept | src/suits/parse.rs:17-36 | some tag of a suit matches the input up to case exactly when the input starts with one of the suit's forms |
| SuitParse.StartsWithUnique | src/suits/parse.rs:65-67 | no input starts with forms of two different suits, so the order of the alternatives does not matter |
| SuitParse.ParseSuit | src/suits/parse.rs:65-67 | `parse_suit` succeeds exactly on input starting with a suit's form, returning that suit and the rest after the form; otherwise a `Tag` error at the input |
| SuitParse.ParseSuitOf | src/suits/parse.rs:65-67 | input starting with a form of a given suit parses as that suit |
| SuitParse.ParseSuitOfAny | src/suits/parse.rs:65-67 | for every suit, input starting with one of its forms parses as that suit |
| SuitParse.ParseSuitName | src/suits/parse.rs:38-40 | a suit's name in any case parses as that suit, leaving the rest |
| SuitParse.ParseSuitGlyph | src/suits/parse.rs:43-44 | either glyph of a suit parses as that suit, leaving the rest |
| SuitParse.ParseSuitLetter | src/suits/parse.rs:41-42 | a suit's initial in any case, not followed by the rest of its name, parses as that suit leaving the rest |
| SuitParse.SuitFromStr | src/suits/parse.rs:95-101 | `from_str` succeeds exactly on input starting with a suit's form, gives that suit, and otherwise the parser's `Tag` error |
| SuitParse.SpadesNameExample | src/suits/parse.rs:108 | `spadesacedd` gives spades leaving `acedd` |
| SuitParse.SpadesLetterExample | src/suits/parse.rs:109 | `s aCe dd` gives spades leaving ` aCe dd` |
| SuitParse.SpadesGlyphExample | src/suits/parse.rs:110 | `♠ aCe dd` gives spades leaving ` aCe dd` |
| SuitParse.SuitLetterExample | src/suits/parse.rs:58 | `sgq` gives spades leaving `gq`, and `from_str` gives spades |
| SuitParse.SuitNameExample | src/suits/parse.rs:59 | `diamondsda` gives diamonds leaving `da`, and `from_str` gives diamonds |
| SuitParse.SuitFailExample | src/suits/parse.rs:60 | `eadfish` gives a `Tag` error and `from_str` an error |
| SuitParse.SuitGlyphExample | src/suits/parse.rs:61 | `♦K` gives diamonds leaving `K`, and `from_str` gives diamonds |
| CardParse.SuitIsNotFigure | src/cards/parse.rs:73-75 | no input starts with both a suit and a figure, so at most one of the two card orders can succeed |
| CardParse.ParseCardFs | src/cards/parse.rs:25-31 | figure-then-suit fails with a `Tag` error at the input when no figure starts it, every error is a `Tag` error at a suffix, and a success consumes at least two characters |
| CardParse.ParseCardSf | src/cards/parse.rs:50-55 | suit-then-figure fails with a `Tag` error at the input when no suit starts it, every error is a `Tag` error at a suffix, and a success consumes at least two characters |
| CardParse.ParseCardFsParts | src/cards/parse.rs:25-31 | a figure, any spaces and a suit parse as the card of that figure and suit, leaving what follows the suit |
| CardParse.ParseCardSfParts | src/cards/parse.rs:50-55 | a suit, any spaces and a figure parse as the card of that suit and figure, leaving what follows the figure |
| CardParse.Delimited | src/cards/parse.rs:44-46 | the trailing `space0` of `delimited` keeps success and failure, skips the spaces after the card and keeps the error as it is |
| CardParse.ParseCardFsDelimited | src/cards/parse.rs:44-46 | a success leaves input that does not start with a space, and a failure is a `Tag` error inside the input after the leading spaces |
| CardParse.ParseCardSfDelimited | src/cards/parse.rs:57-59 | a success leaves input that does not start with a space, and a failure is a `Tag` error inside the input after the leading spaces |
| CardParse.ParseCard | src/cards/parse.rs:73-75 | input starting with a figure is read figure first, and fails at the input when that fails; input starting with a suit is read suit first; any other input is a `Tag` error at the input |
| CardParse.ParseCardDelimited | src/cards/parse.rs:89-91 | a success leaves input that does not start with a space, and a failure is a `Tag` error inside the input after the leading spaces |
| CardParse.DelimitedIgnoresLeadingSpaces | src/cards/parse.rs:44-59 | the three delimited parsers give the same answer with or without leading spaces |
| CardParse.CardFromStr | src/cards/parse.rs:106-112 | `from_str` succeeds exactly when `parse_card` does, with its card, ignoring what follows; input starting with neither a figure nor a suit is a `Tag` error |
| CardParse.ParseCardWordName | src/cards/parse.rs:73-75 | a figure's word, spaces and a suit's name parse as that card |
| CardParse.ParseCardSfNameWord | src/cards/parse.rs:50-55 | a suit's name, spaces and a figure's word parse suit first as that card |
| CardParse.ParseCardNameWord | src/cards/parse.rs:73-75 | a suit's name, spaces and a figure's word parse as that card |
| CardParse.ParseCardFsOf | src/cards/parse.rs:25-31 | when the figure parses and the suit parses after the spaces, figure-then-suit gives that card and what follows the suit |
| CardParse.ParseCardFsShortGlyph | src/cards/parse.rs:25-31 | a figure's one-letter form followed at once by a suit glyph parses figure first as that card |
| CardParse.ParseCardShortGlyph | src/cards/parse.rs:73-75 | a figure's one-letter form followed at once by a suit glyph parses as that card |
| CardParse.NumeralThenInitial | src/cards/parse.rs:73-75 | a numeral, spaces and a suit's initial not followed by the rest of its name parse as that card |
| CardParse.LetterThenInitial | src/cards/parse.rs:73-75 | an honour's letter, spaces and a suit's initial parse as that card |
| CardParse.InitialThenLetter | src/cards/parse.rs:73-75 | a suit's initial, spaces and a figure's letter parse suit first as that card |
| CardParse.LetterThenNoSuit | src/cards/parse.rs:73-75 | a figure's letter followed by no suit fails figure first at the text after the letter, and `parse_card` fails at the whole input |
| CardParse.DelimitedSkips | src/cards/parse.rs:89-91 | `parse_card_delimited` is `parse_card` after the leading spaces, with the trailing spaces skipped |
| CardParse.DelimitedCardOk | src/cards/parse.rs:89-91 | a card parsed after leading spaces leaves the text after the trailing spaces |
| CardParse.DelimitedFsCardOk | src/cards/parse.rs:44-46 | a card parsed figure first after leading spaces leaves the text after the trailing spaces |
| CardParse.DelimitedNumeralThenInitial | src/cards/parse.rs:44-46 | spaces, a numeral, spaces, a suit's initial and spaces parse delimited as that card |
| CardParse.DelimitedLetterThenInitial | src/cards/parse.rs:44-46 | spaces, an honour's letter, spaces, a suit's initial and spaces parse delimited as that card |
| CardParse.DelimitedInitialThenLetter | src/cards/parse.rs:89-91 | spaces, a suit's initial, spaces, a figure's letter and spaces parse delimited as that card |
| CardParse.DelimitedLetterThenNoSuit | src/cards/parse.rs:44-46 | a figure's letter after spaces with no suit after it fails at the text after the letter |
| CardParse.DelimitedCardErr | src/cards/parse.rs:89-91 | an error of `parse_card` after the leading spaces is the error of the delimited parser |
| CardParse.DelimitedFsSkips | src/cards/parse.rs:44-46 | `parse_card_fs_delimited` is `parse_card_fs` after the leading spaces, with the trailing spaces skipped |
| CardParse.TenDiamondsExample | src/cards/parse.rs:21 | `10 dxg` gives 10♦ leaving `xg`, figure first and through `parse_card` (line 68) |
| CardParse.AceSpadesExample | src/cards/parse.rs:22 | `A  sdiax` gives A♠ leaving `diax`, figure first and through `parse_card` (line 69) |
| CardParse.AceTenFailExample | src/cards/parse.rs:23 | `A10  sdiax` fails figure first at `10  sdiax`, and `parse_card` fails at the whole input (line 71) |
| CardParse.JackHeartsExample | src/cards/parse.rs:70 | `h  jv` gives J♥ leaving `v` |
| CardParse.TenDiamondsDelimitedExample | src/cards/parse.rs:40 | the delimited figure-first parse of `  10 d` tab `xg` gives 10♦ leaving `xg` |
| CardParse.AceSpadesDelimitedExample | src/cards/parse.rs:41 | the delimited figure-first parse of ` A  s` tab `diax  ` gives A♠ leaving `diax  ` |
| CardParse.AceTenDelimitedFailExample | src/cards/parse.rs:42 | the delimited figure-first parse of tab `A10  sdiax  ` fails at `10  sdiax  ` |
| CardParse.CardDelimitedTenExample | src/cards/parse.rs:84 | `10 d  xg` gives 10♦ leaving `xg` |
| CardParse.CardDelimitedJackExample | src/cards/parse.rs:86 | `   h  jv` gives J♥ leaving `v` |
| CardParse.FromStrAceExample | src/cards/parse.rs:101 | `A s` is the ace of spades |
| CardParse.FromStrFourExample | src/cards/parse.rs:102 | `4caa` is the four of clubs |
| CardParse.FromStrFailExample | src/cards/parse.rs:103 | `jq` is an error |
| CardParse.FromStrGlyphExample | src/cards/parse.rs:104 | `9♠` is the nine of spades |
| CardSetParse.CardsOf | karty/src/set/card_set/parse.rs:15-53 | each folded figure becomes the card of that figure in the run's suit, one card per figure |
| CardSetParse.RunSetMembers | karty/src/set/card_set/parse.rs:15-23 | a fold's set holds exactly the cards of the run's suit whose figure was read |
| CardSetParse.RunSetIsMacro | karty/src/set/card_set/parse.rs:15-23 | a fold's set is the `card_set!` of the run's cards |
| CardSetParse.RunSetSnoc | karty/src/set/card_set/parse.rs:18-21 | each fold step is `insert_card_noerr` of the new card into the accumulated set |
| CardSetParse.SplitRuns | karty/src/set/card_set/parse.rs:14-56 | when the four runs and three dots are read, the rest is a suffix at which no figure starts; a missing dot is a `Tag` error at a suffix that does not start with a dot |
| CardSetParse.SetOfMembers | karty/src/set/card_set/parse.rs:57-58 | the union of the four runs holds a card exactly when its figure is in the run of its suit |
| CardSetParse.ParseCardSetWord | karty/src/set/card_set/parse.rs:12-60 | `parse_card_set` succeeds exactly when the runs and dots are read; then it leaves the rest after the clubs and holds exactly the cards whose figure is in their suit's run; otherwise it returns the dot's error |
| CardSetParse.FoldFigures | karty/src/set/card_set/parse.rs:15-23 | one `fold_many0` from the empty set gives a fresh set of the run's cards and the input where the run stops |
| CardSetParse.ParseCardSet | karty/src/set/card_set/parse.rs:12-60 | the four folds with the dots between them and the union of their sets agree with `ParseCardSetWord` in success, rest, set and error |
| CardSetParse.CardSetFromStr | karty/src/set/card_set/parse.rs:62-72 | `from_str` gives the parsed set whatever follows it, and `ParseError` when parsing fails |
| CardSetParse.DottedText | karty/src/set/card_set/parse.rs:12-60 | the dotted text of four runs is as long as their figures, three dots and the rest |
| CardSetParse.SplitRunsOfText | karty/src/set/card_set/parse.rs:12-60 | the dotted text of any four runs of one-letter forms, followed by text no figure starts, reads back as those runs and that text |
| CardSetParse.ParseCardSetText | karty/src/set/card_set/parse.rs:12-60 | parsing the dotted text of four runs gives their union and leaves the rest |
| CardSetParse.SetOfElements | karty/src/set/card_set/parse.rs:57-58 | iterating the union lists its cards in ascending number order |
| CardSetParse.FromStrExample | karty/src/set/card_set/parse.rs:103-105 | `AT86.KJT93.4T.2A` iterates as 2♣ A♣ 4♦ 10♦ 3♥ 9♥ 10♥ J♥ K♥ 6♠ 8♠ 10♠ A♠ |
| CardSetParse.EmptyRunsExample | karty/src/set/card_set/parse.rs:106-108 | `AT86...2A`, with empty hearts and diamonds, iterates as 2♣ A♣ 6♠ 8♠ 10♠ A♠ |
| CardSetParse.FoldExample | karty/src/set/card_set/parse.rs:86-99 | folding `AJ86.` into spades gives the `card_set!` of A♠ J♠ 8♠ 6♠ and leaves `.` |
| Nom.MapValue | karty/src/figures/parse.rs:22 | `.map(..)` on a parse result replaces the value on success and keeps the rest and the error |
| Nom.MatchTag | karty/src/figures/parse.rs:75 | `tag(t)` succeeds exactly when the input starts with `t`, returning `t` and the rest, and otherwise gives a `Tag` error at the input |
| Nom.Lower | karty/src/figures/parse.rs:21 | the case folding the model gives `tag_no_case`: ASCII upper-case letters become lower-case and every other character is kept |
| Nom.PrefixNoCaseAt | karty/src/figures/parse.rs:21 | a tag matches up to case exactly when it is no longer than the input and agrees with it character by character after folding |
| Nom.TagNoCase | karty/src/figures/parse.rs:21 | `tag_no_case(t)` succeeds exactly when the input starts with `t` up to ASCII case, consuming as many characters as `t` has; otherwise a `Tag` error at the input |
| Nom.AltTag | karty/src/figures/parse.rs:74-86 | `alt` over tags fails exactly when no tag is a prefix, with a `Tag` error at the input; a success consumes one of the tags |
| Nom.AltTagNoCase | karty/src/figures/parse.rs:21 | `alt` over case-free tags fails exactly when none matches; a success consumes the first tag that matches |
| Nom.WordsThenLetters | karty/src/figures/parse.rs:21-37 | an alternative of words before one-letter tags consumes the first word that matches, or one character when no word does |
| Nom.Space0 | src/cards/parse.rs:26 | `space0` leaves a suffix that does not start with a space, and everything it skips is a space or tab |
| Nom.Space0Skips | src/cards/parse.rs:26 | `space0` on spaces followed by text that does not start with one leaves exactly that text |
| Nom.Space0AfterSpaces | src/cards/parse.rs:45 | leading spaces do not change what `space0` leaves |
| Order.CompareNat | karty/src/cards/card.rs:25-40 | `cmp` on numbers is `Less`, `Equal` or `Greater` exactly as the first is smaller, equal or larger |
| Order.ThenCompare | karty/src/cards/card.rs:25-40 | comparing by one key and then another keeps the first answer unless it is `Equal`, and then takes the second |

## Left out

- Randomness: `gen_range` becomes an index parameter of the sampling registers. The requirement `index < len` is the panic of `gen_range(0..0)` when a register is empty.
- Floating point: the fuzzy card sets and their probabilities are not part of this model.
- Serialisation and display: the serde and speedy adapters, the `Display` impls and the random-element generators are not part of this model.
- The older duplicates under src/ whose current versions live under karty/ are not part of this model. These include the 16-bit-per-suit card masks, the old stack hand and the `digit1` figure parser.
- The HashSet registers, the symbol map and the symbol comparator are not part of this model. They only wrap a set, an index or a comparison.
- karty/src/cards/standard.rs is not part of this model. `Card::mask` is defined as `1 << usize_index`, `Card::from_mask` as a popcount check followed by `trailing_zeros`, and the suit masks as thirteen bits starting at `13 * suit`.
- The nom library is not part of this model. Its combinators are given the behaviour its documentation describes: `alt` returns the first success, or the last alternative's error; errors carry the input at the point of failure; `space0` skips spaces and tabs.
- Cards are specialised to the standard figures and suits (13 × 4). The generic numbering is modelled once, for any two dense spaces (`Cards.CardSpaceIsDense`); the Machine × Color example is covered only for its two documented decodings.
- Integer widths: u64 words are numbers below 2 to the 64 with explicit wrapping shifts. The `usize` results of `len`, `usize_index` and `higher_n` are `nat`, so the overflow of `usize_index + n` in `higher_n` is not modelled. The u64 counts and the size estimator of the repeating card set (`*count += number` in karty/src/set/card_set_gen_repeating.rs) are `nat` as well, so their overflow is not modelled.
- `StackHand.StackHandIterator.Next`: the three Rust iterator types (whole set, one suit, interval) are one class with four constructors, since their fields and their `next` and `next_back` bodies are identical. Only the whole-set type defines `size_hint` and `ExactSizeIterator`; the class records which type it stands for in `exactSize`, and `SizeHint` gives the default `(0, None)` for the other two. The separate types, and the fact that only one of them is an `ExactSizeIterator`, are not modelled as types.
- `Nom.Lower`: folding is ASCII-only. nom's `&str` comparison lowercases with `char::to_lowercase` and `tag_no_case` splits at the tag's byte length, so non-ASCII input that folds to an ASCII letter is not modelled. An example is the Kelvin sign U+212A, which nom folds to `k`; on such input nom either panics inside the multi-byte character or reads King, while the model gives a `Tag` error. This carries over to `Nom.TagNoCase` and to the figure and suit parsers built on it. Byte-length consumption is not modelled either.
- `SuitMaps.SuitMap.WithPrivilege`: `SuitMap` is a `Copy` value in Rust and `with_privilege` returns a changed copy; the model is a class, so the change is made in place.
- `SuitMaps.IntoIter`: the iterator is modelled by the sequence it yields; the `Chain` adaptor state is not modelled.
- `SuitParse.SuitFromStr`: the error is the parser's error, not the `String` that `format!` makes of it. This applies to `CardParse.CardFromStr` as well.
- `CardSetGenRepeating.CardSetGenericRepeating.IntoIter`: the source's order is the hash map's, which is unspecified, so only the number of copies of each card is stated.
- The error variants `EmptyHand`, `HandFull`, `HandNotInitialised`, `DifferentLengths` and `ExpectedEqualCardSets` are never raised by the modelled code; `ExpectedEqualCardSets` is left out of the datatype because its payload is two vectors used only in comparisons.
- `SamplingRegister.GenericSamplingRegister.RemoveAt`: the map positions are re-indexed after `swap_remove`, which the source does not do (see Findings). The as-written behaviour is modelled separately by `SamplingRegister.RemoveSlotAsWritten` and `SamplingRegister.UnregisterAsWritten`.

## Findings

| source | as written | input that shows it | evidently intended | confidence | as-written member | corrected member |
|---|---|---|---|---|---|---|
| src/register/generic_sampling_register.rs:40 | `unregister`, and `pop_sample` at line 59, remove a slot with `swap_remove`, which moves the last element into the freed slot, but the map keeps the moved element's old position | register a, b, c; unregister a; the map still says c is at slot 2 of a two-slot vector, so unregistering c calls `swap_remove(2)` and panics | after `swap_remove(i)`, the moved element's map entry is set to `i` | not executed | SamplingRegister.UnregisterAsWrittenPanics | SamplingRegister.RemoveSlotIndexes |
