/** `Card2SGenSubset`: the cards of a list of figures and a list of suits, suit-major. */
module CartesianIterator {
  import opened Cards
  import S = Suits
  import Fg = Figures

  /** One suit paired with every figure, in the figures' order. */
  function Row<F, S>(figures: seq<F>, suit: S): (r: seq<Card2SGen<F, S>>)
    ensures |r| == |figures|
    ensures forall j :: 0 <= j < |r| ==> r[j] == Card2SGen(suit, figures[j])
  {
    seq(|figures|, j requires 0 <= j < |figures| => FromFigureAndSuit(figures[j], suit))
  }

  /** What `Card2SGenSubset::new(figures, suits)` yields: `suits.cartesian_product(figures)`
      mapped through `from_figure_and_suit`. */
  function CardSubset<F, S>(figures: seq<F>, suits: seq<S>): seq<Card2SGen<F, S>>
  {
    if suits == [] then [] else Row(figures, suits[0]) + CardSubset(figures, suits[1..])
  }

  /** The product has `|figures| * |suits|` cards. */
  lemma {:induction false} CardSubsetLength<F, S>(figures: seq<F>, suits: seq<S>)
    ensures |CardSubset(figures, suits)| == |figures| * |suits|
  {
    if suits != [] {
      CardSubsetLength(figures, suits[1..]);
      assert |figures| * |suits| == |figures| + |figures| * (|suits| - 1);
    }
  }

  /** The card at `i * |figures| + j` pairs suit `i` with figure `j`. */
  lemma {:induction false} CardSubsetAt<F, S>(figures: seq<F>, suits: seq<S>, i: nat, j: nat)
    requires i < |suits| && j < |figures|
    ensures i * |figures| + j < |CardSubset(figures, suits)|
    ensures CardSubset(figures, suits)[i * |figures| + j] == Card2SGen(suits[i], figures[j])
  {
    if i > 0 {
      CardSubsetAt(figures, suits[1..], i - 1, j);
      assert i * |figures| + j == |figures| + ((i - 1) * |figures| + j);
    }
  }

  /** The documented example: (Ace, King, Queen) by (Spades, Hearts). */
  lemma SubsetExample()
    ensures CardSubset([Fg.Ace, Fg.King, Fg.Queen], [S.Spades, S.Hearts])
            == [Card2SGen(S.Spades, Fg.Ace), Card2SGen(S.Spades, Fg.King), Card2SGen(S.Spades, Fg.Queen),
                Card2SGen(S.Hearts, Fg.Ace), Card2SGen(S.Hearts, Fg.King), Card2SGen(S.Hearts, Fg.Queen)]
  {
    var r := CardSubset([Fg.Ace, Fg.King, Fg.Queen], [S.Spades, S.Hearts]);
    assert [S.Spades, S.Hearts][1..] == [S.Hearts];
    assert [S.Hearts][1..] == [];
  }

  /** Every figure by every suit gives the 52 cards. */
  lemma FullDeck()
    ensures |CardSubset(Fg.FIGURES, S.SUITS)| == 52
  {
    CardSubsetLength(Fg.FIGURES, S.SUITS);
  }
}
