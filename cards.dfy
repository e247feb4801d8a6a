/** Two-symbol cards (`Card2SGen`): a figure and a suit, numbered suit-major, the two
    lexicographic comparisons, and the standard 52-card instance. */
module Cards {
  import opened Wrappers
  import opened Errors
  import opened Order
  import opened Bits
  import opened Symbol
  import S = Suits
  import Fg = Figures

  datatype Card2SGen<F, S> = Card2SGen(suit: S, figure: F)

  /** `from_figure_and_suit` (and `Card2SGen::new`). */
  function FromFigureAndSuit<F, S>(figure: F, suit: S): (c: Card2SGen<F, S>)
    ensures c.figure == figure && c.suit == suit
  {
    Card2SGen(suit, figure)
  }

  // ---------------------------------------------------------------------------------------------
  // Index arithmetic

  lemma {:induction false} MulGap(x: nat, y: nat, n: nat)
    requires x < y
    ensures x * n + n <= y * n
    decreases y - x
  {
    assert (x + 1) * n == x * n + n;
    if x + 1 < y {
      MulGap(x + 1, y, n);
    }
  }

  /** `div_rem(q * n + r, n) == (q, r)` for `r < n`. */
  lemma DivRemUnique(q: nat, r: nat, n: nat)
    requires r < n
    ensures (q * n + r) / n == q && (q * n + r) % n == r
  {
    var a := q * n + r;
    var q', r' := a / n, a % n;
    assert a == q' * n + r';
    if q' < q {
      MulGap(q', q, n);
    } else if q < q' {
      MulGap(q, q', n);
    }
  }

  /** Numbers of the form `major * n + minor` compare lexicographically. */
  lemma LexCompare(a: nat, b: nat, c: nat, d: nat, n: nat)
    requires b < n && d < n
    ensures a * n + b < c * n + d <==> a < c || (a == c && b < d)
    ensures a * n + b == c * n + d <==> a == c && b == d
  {
    if a < c {
      MulGap(a, c, n);
    } else if c < a {
      MulGap(c, a, n);
    }
  }

  /** The quotient of `div_rem(i, n)` is below `m` exactly when `i < n * m`. */
  lemma QuotientBound(i: nat, n: nat, m: nat)
    requires n > 0
    ensures i / n < m <==> i < n * m
  {
    var q, r := i / n, i % n;
    assert i == q * n + r;
    assert m * n == n * m;
    if q < m {
      MulGap(q, m, n);
    } else if m < q {
      MulGap(m, q, n);
    }
  }

  // ---------------------------------------------------------------------------------------------
  // The generic card as a symbol

  /** `Card2SGen::usize_index`: `suit * F::SYMBOL_SPACE + figure`. */
  function IndexGen<F(!new), S(!new)>(fs: Space<F>, ss: Space<S>, c: Card2SGen<F, S>): nat
  {
    ss.index(c.suit) * fs.size + fs.index(c.figure)
  }

  /** `Card2SGen::from_usize_index`: `div_rem` by the figure space, decoding the figure first
      and the suit second, each failing with its own error. */
  function FromUsizeIndexGen<F(!new), S(!new)>(fs: Space<F>, ss: Space<S>, position: nat)
    : Result<Card2SGen<F, S>, CardError>
    requires fs.size > 0
  {
    var suit, figure := position / fs.size, position % fs.size;
    match fs.fromIndex(figure)
    case Err(e) => Err(e)
    case Ok(f) =>
      match ss.fromIndex(suit)
      case Err(e) => Err(e)
      case Ok(s) => Ok(Card2SGen(s, f))
  }

  /** `Card2SGen`'s `CardSymbol` implementation: `SYMBOL_SPACE = F::SPACE * S::SPACE`. */
  function CardSpace<F(!new), S(!new)>(fs: Space<F>, ss: Space<S>): Space<Card2SGen<F, S>>
    requires fs.size > 0
  {
    Space(fs.size * ss.size, c => IndexGen(fs, ss, c), p => FromUsizeIndexGen(fs, ss, p))
  }

  /** Pairing two dense numberings gives a dense numbering of the cards. */
  lemma CardSpaceIsDense<F(!new), S(!new)>(fs: Space<F>, ss: Space<S>)
    requires IsDense(fs) && IsDense(ss) && fs.size > 0
    ensures IsDense(CardSpace(fs, ss))
  {
    var cs := CardSpace(fs, ss);
    forall c: Card2SGen<F, S>
      ensures cs.index(c) < cs.size && cs.fromIndex(cs.index(c)) == Ok(c)
    {
      DecodeEncodedGen(fs, ss, c);
    }
    forall i: nat | i < cs.size
      ensures cs.fromIndex(i).Ok? && cs.index(cs.fromIndex(i).value) == i
    {
      DecodeInRangeGen(fs, ss, i);
    }
    forall i: nat | cs.size <= i
      ensures cs.fromIndex(i).Err?
    {
      QuotientBound(i, fs.size, ss.size);
    }
  }

  lemma DecodeEncodedGen<F(!new), S(!new)>(fs: Space<F>, ss: Space<S>, c: Card2SGen<F, S>)
    requires IsDense(fs) && IsDense(ss) && fs.size > 0
    ensures IndexGen(fs, ss, c) < fs.size * ss.size
    ensures FromUsizeIndexGen(fs, ss, IndexGen(fs, ss, c)) == Ok(c)
  {
    var s, f := ss.index(c.suit), fs.index(c.figure);
    DivRemUnique(s, f, fs.size);
    QuotientBound(IndexGen(fs, ss, c), fs.size, ss.size);
  }

  lemma DecodeInRangeGen<F(!new), S(!new)>(fs: Space<F>, ss: Space<S>, i: nat)
    requires IsDense(fs) && IsDense(ss) && fs.size > 0 && i < fs.size * ss.size
    ensures FromUsizeIndexGen(fs, ss, i).Ok?
    ensures IndexGen(fs, ss, FromUsizeIndexGen(fs, ss, i).value) == i
  {
    QuotientBound(i, fs.size, ss.size);
    assert i == (i / fs.size) * fs.size + i % fs.size;
  }

  /** A number past the card space fails in the suit decode, with the suit's error for the
      quotient. */
  lemma DecodeOutOfRangeGen<F(!new), S(!new)>(fs: Space<F>, ss: Space<S>, i: nat)
    requires IsDense(fs) && IsDense(ss) && fs.size > 0 && fs.size * ss.size <= i
    ensures ss.fromIndex(i / fs.size).Err?
    ensures FromUsizeIndexGen(fs, ss, i) == Err(ss.fromIndex(i / fs.size).error)
  {
    QuotientBound(i, fs.size, ss.size);
  }

  // ---------------------------------------------------------------------------------------------
  // Comparisons

  /** `compare_suit_first`: suits decide, figures break ties. */
  function CompareSuitFirst(l: Card, r: Card): (o: Ordering)
    ensures S.Cmp(l.suit, r.suit) != Equal ==> o == S.Cmp(l.suit, r.suit)
    ensures S.Cmp(l.suit, r.suit) == Equal ==> o == Fg.Cmp(l.figure, r.figure)
  {
    ThenCompare(S.Cmp(l.suit, r.suit), Fg.Cmp(l.figure, r.figure))
  }

  /** `compare_figure_first`: figures decide, suits break ties. */
  function CompareFigureFirst(l: Card, r: Card): (o: Ordering)
    ensures Fg.Cmp(l.figure, r.figure) != Equal ==> o == Fg.Cmp(l.figure, r.figure)
    ensures Fg.Cmp(l.figure, r.figure) == Equal ==> o == S.Cmp(l.suit, r.suit)
  {
    ThenCompare(Fg.Cmp(l.figure, r.figure), S.Cmp(l.suit, r.suit))
  }

  /** `CardComparatorGen::cmp_suit_figure` with the pluggable suit and figure comparators. */
  function CmpSuitFigure<F, S>(suitCmp: (S, S) -> Ordering, figureCmp: (F, F) -> Ordering,
                               l: Card2SGen<F, S>, r: Card2SGen<F, S>): (o: Ordering)
    ensures suitCmp(l.suit, r.suit) != Equal ==> o == suitCmp(l.suit, r.suit)
    ensures suitCmp(l.suit, r.suit) == Equal ==> o == figureCmp(l.figure, r.figure)
  {
    match suitCmp(l.suit, r.suit)
    case Equal => figureCmp(l.figure, r.figure)
    case ordering => ordering
  }

  /** `CardComparatorGen::cmp_figure_suit`. */
  function CmpFigureSuit<F, S>(suitCmp: (S, S) -> Ordering, figureCmp: (F, F) -> Ordering,
                               l: Card2SGen<F, S>, r: Card2SGen<F, S>): (o: Ordering)
    ensures figureCmp(l.figure, r.figure) != Equal ==> o == figureCmp(l.figure, r.figure)
    ensures figureCmp(l.figure, r.figure) == Equal ==> o == suitCmp(l.suit, r.suit)
  {
    match figureCmp(l.figure, r.figure)
    case Equal => suitCmp(l.suit, r.suit)
    case ordering => ordering
  }

  // ---------------------------------------------------------------------------------------------
  // The standard card

  type Card = Card2SGen<Fg.Figure, S.Suit>

  /** `Card::SYMBOL_SPACE`. */
  const CARD_SPACE: nat := 52

  function StdSpace(): Space<Card>
  {
    CardSpace(Fg.FigureSpace(), S.SuitSpace())
  }

  /** `usize_index` of a standard card. */
  function UsizeIndex(c: Card): (r: nat)
    ensures r == S.UsizeIndex(c.suit) * 13 + Fg.UsizeIndex(c.figure)
    ensures r < CARD_SPACE
  {
    BelowCardSpace(c);
    IndexGen(Fg.FigureSpace(), S.SuitSpace(), c)
  }

  lemma BelowCardSpace(c: Card)
    ensures IndexGen(Fg.FigureSpace(), S.SuitSpace(), c) < CARD_SPACE
  {
    LexCompare(S.UsizeIndex(c.suit), Fg.UsizeIndex(c.figure), 3, 12, 13);
  }

  /** `from_usize_index` of a standard card. */
  function FromUsizeIndex(position: nat): Result<Card, CardError>
  {
    FromUsizeIndexGen(Fg.FigureSpace(), S.SuitSpace(), position)
  }

  /** The standard card numbering is dense on `0..52`; past it the suit decode fails with
      `WrongSuitPosition(position / 13)`. */
  lemma StdSpaceIsDense()
    ensures StdSpace().size == CARD_SPACE
    ensures IsDense(StdSpace())
    ensures forall c: Card :: FromUsizeIndex(UsizeIndex(c)) == Ok(c)
    ensures forall i: nat :: CARD_SPACE <= i ==> FromUsizeIndex(i) == Err(WrongSuitPosition(i / 13))
  {
    Fg.FigureSpaceIsDense();
    S.SuitSpaceIsDense();
    CardSpaceIsDense(Fg.FigureSpace(), S.SuitSpace());
    forall i: nat | CARD_SPACE <= i
      ensures FromUsizeIndex(i) == Err(WrongSuitPosition(i / 13))
    {
      DecodeOutOfRangeGen(Fg.FigureSpace(), S.SuitSpace(), i);
    }
  }

  lemma DecodeCard(i: nat)
    requires i < CARD_SPACE
    ensures FromUsizeIndex(i).Ok? && UsizeIndex(FromUsizeIndex(i).value) == i
  {
    StdSpaceIsDense();
  }

  /** `Card::mask`: the word whose one set bit is the card's number, so that `from_mask`'s
      popcount and trailing-zeros tests find that number. */
  function Mask(c: Card): (r: Word)
    ensures forall i :: Bit(r, i) <==> i == UsizeIndex(c)
    ensures PopCount(r) == 1 && TrailingZeros(r) == UsizeIndex(c)
  {
    Pow2IsWord(UsizeIndex(c));
    OnlyBitOfPow2(UsizeIndex(c));
    PopCountPow2(UsizeIndex(c));
    TrailingZerosPow2(UsizeIndex(c));
    Pow2(UsizeIndex(c))
  }

  /** `Card::from_mask`: a word with one bit decodes to the card at that bit. */
  function FromMask(mask: Word): Result<Card, CardError>
  {
    if PopCount(mask) != 1 then Err(WrongMaskFormat) else FromUsizeIndex(TrailingZeros(mask))
  }

  /** The single bit at a card number decodes to that card, so `from_mask(..).unwrap()` on a
      cursor inside the card range never fails. */
  lemma FromMaskPow2(i: nat)
    requires i < CARD_SPACE
    ensures Pow2(i) < WORD_BOUND
    ensures FromMask(Pow2(i)) == FromUsizeIndex(i)
    ensures FromMask(Pow2(i)).Ok? && UsizeIndex(FromMask(Pow2(i)).value) == i
  {
    Pow2IsWord(i);
    PopCountPow2(i);
    TrailingZerosPow2(i);
    DecodeCard(i);
  }

  lemma FromMaskRoundTrip(c: Card)
    ensures FromMask(Mask(c)) == Ok(c)
  {
    FromMaskPow2(UsizeIndex(c));
    StdSpaceIsDense();
  }

  /** A word without bits and a word with two bits are not masks; the bit at 51 is the ace of
      spades. */
  lemma FromMaskExamples()
    ensures FromMask(0) == Err(WrongMaskFormat) && FromMask(3) == Err(WrongMaskFormat)
    ensures UsizeIndex(ACE_SPADES) == 51 && FromMask(Mask(ACE_SPADES)) == Ok(ACE_SPADES)
  {
    FromMaskRoundTrip(ACE_SPADES);
  }

  /** `compare_suit_first` is the order of card numbers. */
  lemma CompareSuitFirstIsIndexOrder(l: Card, r: Card)
    ensures CompareSuitFirst(l, r) == CompareNat(UsizeIndex(l), UsizeIndex(r))
  {
    LexCompare(S.UsizeIndex(l.suit), Fg.UsizeIndex(l.figure), S.UsizeIndex(r.suit),
               Fg.UsizeIndex(r.figure), 13);
    Fg.CmpIsIndexOrder(l.figure, r.figure);
  }

  /** The figure-major number `figure * 4 + suit` of a card. */
  function FigureMajorIndex(c: Card): nat
  {
    Fg.UsizeIndex(c.figure) * 4 + S.UsizeIndex(c.suit)
  }

  /** `compare_figure_first` is the order of figure-major numbers. */
  lemma CompareFigureFirstIsFigureMajor(l: Card, r: Card)
    ensures CompareFigureFirst(l, r) == CompareNat(FigureMajorIndex(l), FigureMajorIndex(r))
  {
    LexCompare(Fg.UsizeIndex(l.figure), S.UsizeIndex(l.suit), Fg.UsizeIndex(r.figure),
               S.UsizeIndex(r.suit), 4);
    Fg.CmpIsIndexOrder(l.figure, r.figure);
    S.CmpRanking(l.suit, r.suit);
  }

  // Card constants of the standard deck used by the examples.
  const FIVE_CLUBS: Card := Card2SGen(S.Clubs, Fg.F(5))
  const JACK_SPADES: Card := Card2SGen(S.Spades, Fg.Jack)
  const QUEEN_SPADES: Card := Card2SGen(S.Spades, Fg.Queen)
  const KING_SPADES: Card := Card2SGen(S.Spades, Fg.King)
  const ACE_SPADES: Card := Card2SGen(S.Spades, Fg.Ace)
  const ACE_HEARTS: Card := Card2SGen(S.Hearts, Fg.Ace)
  const ACE_DIAMONDS: Card := Card2SGen(S.Diamonds, Fg.Ace)
  const ACE_CLUBS: Card := Card2SGen(S.Clubs, Fg.Ace)
  const KING_CLUBS: Card := Card2SGen(S.Clubs, Fg.King)
  const JACK_CLUBS: Card := Card2SGen(S.Clubs, Fg.Jack)
  const THREE_CLUBS: Card := Card2SGen(S.Clubs, Fg.F(3))
  const TEN_DIAMONDS: Card := Card2SGen(S.Diamonds, Fg.F(10))
  const TWO_DIAMONDS: Card := Card2SGen(S.Diamonds, Fg.F(2))
  const TWO_SPADES: Card := Card2SGen(S.Spades, Fg.F(2))
  const KING_HEARTS: Card := Card2SGen(S.Hearts, Fg.King)
  const TWO_HEARTS: Card := Card2SGen(S.Hearts, Fg.F(2))
  const FOUR_CLUBS: Card := Card2SGen(S.Clubs, Fg.F(4))
  const QUEEN_DIAMONDS: Card := Card2SGen(S.Diamonds, Fg.Queen)
  const FOUR_SPADES: Card := Card2SGen(S.Spades, Fg.F(4))
  const FIVE_SPADES: Card := Card2SGen(S.Spades, Fg.F(5))
  const SIX_SPADES: Card := Card2SGen(S.Spades, Fg.F(6))
  const NINE_SPADES: Card := Card2SGen(S.Spades, Fg.F(9))
  const THREE_HEARTS: Card := Card2SGen(S.Hearts, Fg.F(3))
  const FOUR_HEARTS: Card := Card2SGen(S.Hearts, Fg.F(4))
  const NINE_HEARTS: Card := Card2SGen(S.Hearts, Fg.F(9))
  const QUEEN_HEARTS: Card := Card2SGen(S.Hearts, Fg.Queen)
  const JACK_HEARTS: Card := Card2SGen(S.Hearts, Fg.Jack)
  const TEN_HEARTS: Card := Card2SGen(S.Hearts, Fg.F(10))
  const TEN_SPADES: Card := Card2SGen(S.Spades, Fg.F(10))
  const EIGHT_SPADES: Card := Card2SGen(S.Spades, Fg.F(8))
  const FOUR_DIAMONDS: Card := Card2SGen(S.Diamonds, Fg.F(4))
  const TWO_CLUBS: Card := Card2SGen(S.Clubs, Fg.F(2))
  const SIX_DIAMONDS: Card := Card2SGen(S.Diamonds, Fg.F(6))
  const NINE_DIAMONDS: Card := Card2SGen(S.Diamonds, Fg.F(9))
  const THREE_DIAMONDS: Card := Card2SGen(S.Diamonds, Fg.F(3))
  const FIVE_DIAMONDS: Card := Card2SGen(S.Diamonds, Fg.F(5))

  /** The documented numbers: Spades 3, Hearts 2, Diamonds 1, Clubs 0, the ten 8, the king 11;
      figure 10 is the queen and suit 2 the hearts; card 3 is the five of clubs and 48 the jack
      of spades; the queen of spades has mask `1 << 49`. */
  lemma DecodingExamples()
    ensures S.UsizeIndex(S.Spades) == 3 && S.UsizeIndex(S.Hearts) == 2
    ensures S.UsizeIndex(S.Diamonds) == 1 && S.UsizeIndex(S.Clubs) == 0
    ensures Fg.UsizeIndex(Fg.F(10)) == 8 && Fg.UsizeIndex(Fg.King) == 11
    ensures Fg.FromUsizeIndex(10) == Ok(Fg.Queen) && S.FromUsizeIndex(2) == Ok(S.Hearts)
    ensures FromUsizeIndex(3) == Ok(FIVE_CLUBS)
    ensures FromUsizeIndex(48) == Ok(JACK_SPADES)
    ensures Mask(QUEEN_SPADES) == Pow2(49)
  {
    StdSpaceIsDense();
  }

  /** With either suit ranking and figures by power, `cmp_suit_figure` puts the king of spades
      directly below the ace of spades: every other card sorts below it. */
  lemma BridgeOrderTop(c: Card)
    requires c != KING_SPADES && c != ACE_SPADES
    ensures CmpSuitFigure(S.ComparatorCDHS, Fg.Cmp, c, KING_SPADES) == Less
    ensures CmpSuitFigure(S.ComparatorDCHS, Fg.Cmp, c, KING_SPADES) == Less
    ensures CmpSuitFigure(S.ComparatorCDHS, Fg.Cmp, KING_SPADES, ACE_SPADES) == Less
    ensures CmpSuitFigure(S.ComparatorDCHS, Fg.Cmp, KING_SPADES, ACE_SPADES) == Less
  {
    Fg.CmpIsIndexOrder(c.figure, Fg.King);
  }

  /** With `ComparatorDCHS` and figures by power, `cmp_figure_suit` ends the deck with the aces
      in the order diamonds, clubs, hearts, spades, all above every other card. */
  lemma VisualOrderTop(c: Card)
    requires c.figure != Fg.Ace
    ensures CmpFigureSuit(S.ComparatorDCHS, Fg.Cmp, c, ACE_DIAMONDS) == Less
    ensures CmpFigureSuit(S.ComparatorDCHS, Fg.Cmp, ACE_DIAMONDS, ACE_CLUBS) == Less
    ensures CmpFigureSuit(S.ComparatorDCHS, Fg.Cmp, ACE_CLUBS, ACE_HEARTS) == Less
    ensures CmpFigureSuit(S.ComparatorDCHS, Fg.Cmp, ACE_HEARTS, ACE_SPADES) == Less
  {
    Fg.CmpIsIndexOrder(c.figure, Fg.Ace);
  }

  // ---------------------------------------------------------------------------------------------
  // The three-by-four example card of the `Card2SGen` documentation

  datatype Color = Red | Blue | Green | Yellow
  datatype Machine = Train | Bike | Car

  function ColorIndex(c: Color): nat
  {
    match c
    case Red => 3
    case Blue => 2
    case Green => 1
    case Yellow => 0
  }

  function ColorFromIndex(p: nat): Result<Color, CardError>
  {
    match p
    case 3 => Ok(Red)
    case 2 => Ok(Blue)
    case 1 => Ok(Green)
    case 0 => Ok(Yellow)
    case _ => Err(WrongSuitPosition(p))
  }

  function MachineIndex(m: Machine): nat
  {
    match m
    case Train => 2
    case Bike => 1
    case Car => 0
  }

  function MachineFromIndex(p: nat): Result<Machine, CardError>
  {
    match p
    case 2 => Ok(Train)
    case 1 => Ok(Bike)
    case 0 => Ok(Car)
    case _ => Err(WrongFigurePosition(p))
  }

  /** With three figures, number 10 decodes to (bike, red) and 5 to (train, green). */
  lemma MachineColorExample()
    ensures FromUsizeIndexGen(Space(3, MachineIndex, MachineFromIndex), Space(4, ColorIndex, ColorFromIndex), 10)
            == Ok(Card2SGen(Red, Bike))
    ensures FromUsizeIndexGen(Space(3, MachineIndex, MachineFromIndex), Space(4, ColorIndex, ColorFromIndex), 5)
            == Ok(Card2SGen(Green, Train))
  {
    DivRemUnique(3, 1, 3);
    DivRemUnique(1, 2, 3);
  }
}
