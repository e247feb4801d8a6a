/** The thirteen standard figures: the numbered ones 2..10 and Jack, Queen, King, Ace; their
    powers, single-bit masks, numbering and order. */
module Figures {
  import opened Wrappers
  import opened Errors
  import opened Order
  import opened Bits
  import opened Symbol

  /** `MIN_NUMBER_FIGURE` and `MAX_NUMBER_FIGURE`. */
  const MIN_NUMBER_FIGURE: nat := 2
  const MAX_NUMBER_FIGURE: nat := 10

  /** The power of a numbered figure; `NumberFigure` keeps `power` private, so it is always in
      range. */
  type NumberPower = p: nat | MIN_NUMBER_FIGURE <= p <= MAX_NUMBER_FIGURE witness 2

  datatype NumberFigure = NumberFigure(power: NumberPower)

  datatype Figure = Ace | King | Queen | Jack | Numbered(number: NumberFigure)

  /** `NumberFigure::SYMBOL_SPACE` and `Figure::SYMBOL_SPACE`. */
  const NUMBER_FIGURE_SPACE: nat := 9
  const FIGURE_SPACE: nat := 13

  /** `NumberFigure::new`; it panics outside 2..=10. */
  function NewNumberFigure(power: nat): (r: NumberFigure)
    requires MIN_NUMBER_FIGURE <= power <= MAX_NUMBER_FIGURE
    ensures r.power == power
  {
    NumberFigure(power)
  }

  /** `NumberFigure::order_number`, which is also its `position`. */
  function OrderNumber(n: NumberFigure): (r: nat)
    ensures r < NUMBER_FIGURE_SPACE
    ensures r + 2 == n.power
  {
    n.power - 2
  }

  /** `NumberFigure::from_position`. */
  function NumberFromPosition(position: nat): (r: Result<NumberFigure, CardError>)
    ensures r.Ok? <==> position < NUMBER_FIGURE_SPACE
    ensures r.Ok? ==> OrderNumber(r.value) == position
    ensures r.Err? ==> r.error == WrongFigurePosition(position)
  {
    if position <= 8 then Ok(NumberFigure(position + 2)) else Err(WrongFigurePosition(position))
  }

  lemma NumberPositionRoundTrip(n: NumberFigure)
    ensures NumberFromPosition(OrderNumber(n)) == Ok(n)
  {
  }

  /** `NumberFigure::mask`: `1 << power`. */
  function NumberMask(n: NumberFigure): nat
  {
    Pow2(n.power)
  }

  /** `Figure::power`. */
  function Power(f: Figure): (r: nat)
    ensures 2 <= r <= 14
  {
    match f
    case Ace => 14
    case King => 13
    case Queen => 12
    case Jack => 11
    case Numbered(n) => n.power
  }

  /** `Figure::from_power`. */
  function FromPower(power: nat): (r: Option<Figure>)
    ensures r.Some? <==> 2 <= power <= 14
    ensures r.Some? ==> Power(r.value) == power
  {
    match power
    case 14 => Some(Ace)
    case 13 => Some(King)
    case 12 => Some(Queen)
    case 11 => Some(Jack)
    case _ => if 2 <= power <= 10 then Some(Numbered(NumberFigure(power))) else None
  }

  lemma PowerRoundTrip(f: Figure)
    ensures FromPower(Power(f)) == Some(f)
  {
  }

  /** `Figure::mask`, with the literal masks of the court figures: every figure's mask is the
      single bit `1 << power`, so Ace is 0x4000 and F2 is 0x4. */
  function Mask(f: Figure): (r: Word)
    ensures r == Pow2(Power(f))
  {
    CourtPowers();
    Pow2IsWord(Power(f));
    match f
    case Ace => 0x4000
    case King => 0x2000
    case Queen => 0x1000
    case Jack => 0x800
    case Numbered(n) => NumberMask(n)
  }

  lemma CourtPowers()
    ensures Pow2(11) == 0x800 && Pow2(12) == 0x1000 && Pow2(13) == 0x2000 && Pow2(14) == 0x4000
  {
  }

  /** `Figure::from_mask`: the figure whose power is the position of the mask's only bit. */
  function FromMask(mask: Word): (r: Option<Figure>)
    ensures r.Some? ==> PopCount(mask) == 1 && mask == Mask(r.value)
  {
    if PopCount(mask) != 1 then None
    else
      var r := FromPower(TrailingZeros(mask));
      MaskFromOneBit(mask, r);
      r
  }

  /** A word that has one bit, at the position that is a figure's power, is that figure's mask. */
  lemma MaskFromOneBit(mask: nat, r: Option<Figure>)
    requires PopCount(mask) == 1 && r == FromPower(TrailingZeros(mask))
    ensures r.Some? ==> mask == Mask(r.value)
  {
    if r.Some? {
      assert mask != 0;
      var i := LowestBit(mask);
      OneBitIsPow2(mask, i);
    }
  }

  /** A word with exactly one set bit is the power of two at its lowest set bit. */
  lemma OneBitIsPow2(w: nat, i: nat)
    requires w > 0 && PopCount(w) == 1 && i == LowestBit(w)
    ensures w == Pow2(i)
  {
    var n := BitLength(w);
    forall j: nat | n <= j
      ensures !Bit(w, j)
    {
      BitLengthIsHighest(w, j);
    }
    BoundFromBits(w, n);
    PopCountIsCount(w, n);
    LowestBitIsLowest(w, 0);
    if n <= i {
      BitLengthIsHighest(w, i);
    }
    CountInSplit(w, 0, i, n);
    CountInSplit(w, i, i + 1, n);
    assert CountIn(w, i + 1, n) == 0;
    forall j: nat
      ensures Bit(w, j) == Bit(Pow2(i), j)
    {
      BitOfPow2(i, j);
      LowestBitIsLowest(w, j);
      if i < j < n {
        NoBitsInEmptyCount(w, i + 1, n, j);
      } else if n <= j {
        BitLengthIsHighest(w, j);
      }
    }
    BitsEqual(w, Pow2(i));
  }

  /** A range that counts no set bits holds none. */
  lemma {:induction false} NoBitsInEmptyCount(w: nat, lo: nat, hi: nat, j: nat)
    requires lo <= j < hi && CountIn(w, lo, hi) == 0
    ensures !Bit(w, j)
    decreases hi - lo
  {
    if lo < j {
      NoBitsInEmptyCount(w, lo + 1, hi, j);
    }
  }

  /** `from_mask(f.mask()) == Some(f)`. */
  lemma FromMaskRoundTrip(f: Figure)
    ensures FromMask(Mask(f)) == Some(f)
  {
    Pow2Compare(Power(f), 64);
    PopCountPow2(Power(f));
    TrailingZerosPow2(Power(f));
    PowerRoundTrip(f);
  }

  /** A lone bit outside powers 2..14 is no figure's mask. */
  lemma FromMaskOutsidePowers(i: nat)
    requires i < 64 && (i < 2 || 14 < i)
    ensures Pow2(i) < WORD_BOUND && FromMask(Pow2(i)) == None
  {
    Pow2IsWord(i);
    PopCountPow2(i);
    TrailingZerosPow2(i);
  }

  /** `Figure::position`, i.e. its `usize_index`. */
  function UsizeIndex(f: Figure): (r: nat)
    ensures r < FIGURE_SPACE
    ensures r + 2 == Power(f)
  {
    match f
    case Ace => 12
    case King => 11
    case Queen => 10
    case Jack => 9
    case Numbered(n) => OrderNumber(n)
  }

  /** `Figure::from_position`, i.e. its `from_usize_index`. */
  function FromUsizeIndex(position: nat): (r: Result<Figure, CardError>)
    ensures r.Ok? <==> position < FIGURE_SPACE
    ensures r.Ok? ==> UsizeIndex(r.value) == position
    ensures r.Err? ==> r.error == WrongFigurePosition(position)
  {
    if position <= 8 then
      match NumberFromPosition(position)
      case Ok(n) => Ok(Numbered(n))
      case Err(e) => Err(e)
    else
      match position
      case 9 => Ok(Jack)
      case 10 => Ok(Queen)
      case 11 => Ok(King)
      case 12 => Ok(Ace)
      case _ => Err(WrongFigurePosition(position))
  }

  lemma IndexRoundTrip(f: Figure)
    ensures FromUsizeIndex(UsizeIndex(f)) == Ok(f)
  {
  }

  /** The figure's `CardSymbol` implementation. */
  function FigureSpace(): Space<Figure>
  {
    Space(FIGURE_SPACE, UsizeIndex, FromUsizeIndex)
  }

  /** The figure numbering meets the `CardSymbol` obligation. */
  lemma FigureSpaceIsDense()
    ensures IsDense(FigureSpace())
  {
    forall f: Figure
      ensures FromUsizeIndex(UsizeIndex(f)) == Ok(f)
    {
      IndexRoundTrip(f);
    }
  }

  function F(power: NumberPower): Figure
  {
    Numbered(NumberFigure(power))
  }

  /** `FIGURES`: the figures in ascending order. */
  const FIGURES: seq<Figure> := [F(2), F(3), F(4), F(5), F(6), F(7), F(8), F(9), F(10),
                                 Jack, Queen, King, Ace]

  /** `FIGURES[i]` is numbered `i`: 2, …, 10, Jack, Queen, King, Ace. */
  lemma FiguresNumbered()
    ensures |FIGURES| == FIGURE_SPACE
    ensures forall i :: 0 <= i < |FIGURES| ==> UsizeIndex(FIGURES[i]) == i
  {
  }

  /** `FIGURES` is what the symbol iterator lists. */
  lemma FiguresInIndexOrder()
    ensures Listed(FigureSpace(), FIGURE_SPACE) == FIGURES
  {
    FiguresNumbered();
    FigureSpaceIsDense();
    ListedDense(FigureSpace(), FIGURE_SPACE);
    var l := Listed(FigureSpace(), FIGURE_SPACE);
    forall i | 0 <= i < |FIGURES|
      ensures l[i] == FIGURES[i]
    {
      IndexRoundTrip(l[i]);
      IndexRoundTrip(FIGURES[i]);
    }
  }

  /** `Ord for Figure` and `FigureComparator`: by power. */
  function Cmp(l: Figure, r: Figure): Ordering
  {
    CompareNat(Power(l), Power(r))
  }

  /** Ordering by power is ordering by number, and only equal figures tie: King > 10,
      4 < 10, King < Ace. */
  lemma CmpIsIndexOrder(l: Figure, r: Figure)
    ensures Cmp(l, r) == CompareNat(UsizeIndex(l), UsizeIndex(r))
    ensures Cmp(l, r) == Equal <==> l == r
    ensures Cmp(King, F(10)) == Greater && Cmp(F(4), F(10)) == Less && Cmp(King, Ace) == Less
  {
    IndexRoundTrip(l);
    IndexRoundTrip(r);
  }
}
