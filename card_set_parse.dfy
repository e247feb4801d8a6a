/** Parsing a card set from the dotted hand format (karty/src/set/card_set/parse.rs): four
    runs of figures for spades, hearts, diamonds and clubs, in that order, separated by dots,
    as in "AT86.KJT93.4T.2A". Each run is folded into a fresh set by repeated insertion, and
    the four sets are joined. */
module CardSetParse {
  import opened Wrappers
  import opened Errors
  import opened Nom
  import opened Figures
  import opened Suits
  import opened FigureParse
  import opened Cards
  import opened CardSets
  import opened StackHand
  import opened Hand

  /** The cards of a run of figures in one suit. */
  function CardsOf(fs: seq<Figure>, suit: Suit): (cs: seq<Card>)
    ensures |cs| == |fs|
    ensures forall i :: 0 <= i < |fs| ==> cs[i] == Card2SGen(suit, fs[i])
  {
    seq(|fs|, i requires 0 <= i < |fs| => FromFigureAndSuit(fs[i], suit))
  }

  /** The set a run folds into: the empty set with the run's cards inserted in order. */
  function RunSet(fs: seq<Figure>, suit: Suit): Cards52
  {
    InsertAll(0, CardsOf(fs, suit))
  }

  /** A run's set holds exactly the run's figures in that suit. */
  lemma RunSetMembers(fs: seq<Figure>, suit: Suit, c: Card)
    ensures Contains(RunSet(fs, suit), c) <==> c.suit == suit && c.figure in fs
  {
    InsertAllMembers(0, CardsOf(fs, suit), c);
    EmptyHasNoMembers(c);
    if c.suit == suit && c.figure in fs {
      var i :| 0 <= i < |fs| && fs[i] == c.figure;
      assert CardsOf(fs, suit)[i] == c;
    }
  }

  /** Folding a run makes the same set as `card_set!` of the run's cards. */
  lemma RunSetIsMacro(fs: seq<Figure>, suit: Suit)
    ensures RunSet(fs, suit) == CardSetMacro(CardsOf(fs, suit))
  {
    var cs := CardsOf(fs, suit);
    forall c: Card
      ensures Contains(RunSet(fs, suit), c) <==> Contains(CardSetMacro(cs), c)
    {
      RunSetMembers(fs, suit, c);
      CardSetMacroMembers(cs, c);
      if c.suit == suit && c.figure in fs {
        var i :| 0 <= i < |fs| && fs[i] == c.figure;
        assert cs[i] == c;
      }
    }
    MembersDetermineWord(RunSet(fs, suit), CardSetMacro(cs));
  }

  /** Extending a run by one figure inserts one more card. */
  lemma RunSetSnoc(fs: seq<Figure>, f: Figure, suit: Suit)
    ensures RunSet(fs + [f], suit) == InsertAll(RunSet(fs, suit), [Card2SGen(suit, f)])
  {
    var cs := CardsOf(fs + [f], suit);
    assert cs[..|cs| - 1] == CardsOf(fs, suit);
    assert [Card2SGen(suit, f)][..0] == [];
  }

  // ---------------------------------------------------------------------------------------------
  // The runs

  /** The four runs of a dotted hand and the input left after the last. */
  datatype Dotted = Dotted(spades: seq<Figure>, hearts: seq<Figure>, diamonds: seq<Figure>,
                           clubs: seq<Figure>, rest: string)

  /** The run of a suit. */
  function RunOf(d: Dotted, suit: Suit): seq<Figure>
  {
    match suit
    case Spades => d.spades
    case Hearts => d.hearts
    case Diamonds => d.diamonds
    case Clubs => d.clubs
  }

  /** The structure `parse_card_set` reads: a run, a dot, a run, a dot, a run, a dot and a run;
      a missing dot is the `Tag` error of `tag(".")`, at the input where the dot should be. */
  function SplitRuns(s: string): (r: Result<Dotted, Error>)
    ensures r.Ok? ==> IsSuffix(r.value.rest, s) && ParseFigure(r.value.rest).Err?
    ensures r.Err? ==> r.error.code == Tag && IsSuffix(r.error.input, s) && !(['.'] <= r.error.input)
  {
    var (sp, r1) := FigureRun(s);
    match MatchTag(".", r1)
    case Err(e) => Err(e)
    case Ok((t1, _)) =>
      SuffixAfterDot(t1, r1, s);
      var (h, r2) := FigureRun(t1);
      SuffixTrans(r2, t1, s);
      match MatchTag(".", r2)
      case Err(e) => Err(e)
      case Ok((t2, _)) =>
        SuffixAfterDot(t2, r2, s);
        var (d, r3) := FigureRun(t2);
        SuffixTrans(r3, t2, s);
        match MatchTag(".", r3)
        case Err(e) => Err(e)
        case Ok((t3, _)) =>
          SuffixAfterDot(t3, r3, s);
          var (c, r4) := FigureRun(t3);
          SuffixTrans(r4, t3, s);
          Ok(Dotted(sp, h, d, c, r4))
  }

  /** What follows a dot after a suffix is a suffix. */
  lemma SuffixAfterDot(t: string, r: string, s: string)
    requires IsSuffix(r, s) && "." + t == r
    ensures IsSuffix(t, s)
  {
    assert IsSuffix(t, r);
    SuffixTrans(t, r, s);
  }

  /** The union of the four runs' sets, spades first (`s.union(&h).union(&d).union(&c)`). */
  function SetOf(d: Dotted): Cards52
  {
    Union(Union(Union(RunSet(d.spades, Spades), RunSet(d.hearts, Hearts)), RunSet(d.diamonds, Diamonds)),
          RunSet(d.clubs, Clubs))
  }

  /** The set holds a card exactly when its figure is in the run of its suit. */
  lemma SetOfMembers(d: Dotted, c: Card)
    ensures Contains(SetOf(d), c) <==> c.figure in RunOf(d, c.suit)
  {
    var a := Union(RunSet(d.spades, Spades), RunSet(d.hearts, Hearts));
    var b := Union(a, RunSet(d.diamonds, Diamonds));
    UnionIntersectionMembers(RunSet(d.spades, Spades), RunSet(d.hearts, Hearts), c);
    UnionIntersectionMembers(a, RunSet(d.diamonds, Diamonds), c);
    UnionIntersectionMembers(b, RunSet(d.clubs, Clubs), c);
    RunSetMembers(d.spades, Spades, c);
    RunSetMembers(d.hearts, Hearts, c);
    RunSetMembers(d.diamonds, Diamonds, c);
    RunSetMembers(d.clubs, Clubs, c);
  }

  /** `parse_card_set` as a value: the rest after the clubs and the union of the runs. */
  function ParseCardSetWord(s: string): (r: IResult<Cards52>)
    ensures r.Ok? <==> SplitRuns(s).Ok?
    ensures r.Ok? ==> r.value.0 == SplitRuns(s).value.rest &&
                      forall c: Card :: Contains(r.value.1, c) <==> c.figure in RunOf(SplitRuns(s).value, c.suit)
    ensures r.Err? ==> r.error == SplitRuns(s).error
  {
    match SplitRuns(s)
    case Ok(d) =>
      forall c: Card
        ensures Contains(SetOf(d), c) <==> c.figure in RunOf(d, c.suit)
      {
        SetOfMembers(d, c);
      }
      Ok((d.rest, SetOf(d)))
    case Err(e) => Err(e)
  }

  // ---------------------------------------------------------------------------------------------
  // The imperative parser

  /** `fold_many0(parse_figure, CardSetStd::empty, ..)`: starting from an empty set, each
      figure parsed is inserted, in the given suit, with `insert_card_noerr`, until the figure
      parser fails. */
  method FoldFigures(s: string, suit: Suit) returns (acc: CardSetStd, rest: string)
    ensures fresh(acc)
    ensures acc.cards == RunSet(FigureRun(s).0, suit) && rest == FigureRun(s).1
  {
    acc := new CardSetStd.Empty();
    rest := s;
    ghost var done: seq<Figure> := [];
    assert [] + FigureRun(s).0 == FigureRun(s).0;
    var r := ParseFigure(rest);
    while r.Ok?
      invariant r == ParseFigure(rest)
      invariant FigureRun(s).0 == done + FigureRun(rest).0 && FigureRun(s).1 == FigureRun(rest).1
      invariant acc.cards == RunSet(done, suit)
      decreases |rest|
    {
      var (i, f) := r.value;
      FigureRunStep(rest, i, f);
      RunIsPrefix(FigureRun(s).0, done, FigureRun(rest).0, f, FigureRun(i).0);
      RunSetSnoc(done, f, suit);
      InsertCardNoErr(acc, FromFigureAndSuit(f, suit));
      done := done + [f];
      rest := i;
      r := ParseFigure(rest);
    }
    assert done + [] == done;
  }

  /** One more figure parsed: the figures so far grow by one and the run of the rest shrinks
      by one. */
  lemma RunIsPrefix(run: seq<Figure>, done: seq<Figure>, prev: seq<Figure>, f: Figure, tail: seq<Figure>)
    requires run == done + prev && prev == [f] + tail
    ensures run == (done + [f]) + tail
  {
    SnocAssoc(done, f, tail);
  }

  /** Moving one figure from the front of the remainder to the end of the prefix. */
  lemma SnocAssoc(done: seq<Figure>, f: Figure, tail: seq<Figure>)
    ensures done + ([f] + tail) == (done + [f]) + tail
  {
  }

  /** `parse_card_set`: the four folds with a `tag(".")` between them, the first error ending
      the parse, and the union of the four sets. */
  method ParseCardSet(s: string) returns (r: Result<(string, CardSetStd), Error>)
    ensures r.Ok? <==> ParseCardSetWord(s).Ok?
    ensures r.Ok? ==> fresh(r.value.1) && r.value.0 == ParseCardSetWord(s).value.0 &&
                      r.value.1.cards == ParseCardSetWord(s).value.1
    ensures r.Err? ==> r.error == ParseCardSetWord(s).error
  {
    var spades, r1 := FoldFigures(s, Spades);
    var d1 := MatchTag(".", r1);
    if d1.Err? {
      return Err(d1.error);
    }
    var hearts, r2 := FoldFigures(d1.value.0, Hearts);
    var d2 := MatchTag(".", r2);
    if d2.Err? {
      return Err(d2.error);
    }
    var diamonds, r3 := FoldFigures(d2.value.0, Diamonds);
    var d3 := MatchTag(".", r3);
    if d3.Err? {
      return Err(d3.error);
    }
    var clubs, r4 := FoldFigures(d3.value.0, Clubs);
    var joined := new CardSetStd.Empty();
    joined.cards := Union(Union(Union(spades.cards, hearts.cards), diamonds.cards), clubs.cards);
    r := Ok((r4, joined));
  }

  /** `CardSetStd::from_str`: the parsed set, whatever follows it; any parse error becomes
      `ParseError`. */
  method CardSetFromStr(s: string) returns (r: Result<CardSetStd, SetError>)
    ensures r.Ok? <==> ParseCardSetWord(s).Ok?
    ensures r.Ok? ==> fresh(r.value) && r.value.cards == ParseCardSetWord(s).value.1
    ensures r.Err? ==> r.error == SetParseError
  {
    var p := ParseCardSet(s);
    match p
    case Ok((_, joined)) => r := Ok(joined);
    case Err(_) => r := Err(SetParseError);
  }

  // ---------------------------------------------------------------------------------------------
  // Round trip and documented examples

  /** The dotted text of four runs: each run's short forms, dots between the runs, and the rest
      after the clubs. */
  function DottedText(d: Dotted): (t: string)
    ensures |t| == |d.spades| + |d.hearts| + |d.diamonds| + |d.clubs| + 3 + |d.rest|
  {
    ShortForms(d.spades) + ("." + (ShortForms(d.hearts) + ("." + (ShortForms(d.diamonds) + ("." +
      (ShortForms(d.clubs) + d.rest))))))
  }

  /** A run of short forms before a dot is read up to the dot, which is then matched. */
  lemma RunThenDot(fs: seq<Figure>, t: string)
    ensures FigureRun(ShortForms(fs) + ("." + t)) == (fs, "." + t)
    ensures MatchTag(".", "." + t) == Ok((t, "."))
  {
    assert EndsRun("." + t);
    FigureRunShortForms(fs, "." + t);
  }

  /** The dotted text of four runs, followed by text that cannot continue a run, splits back
      into those runs and that text. */
  lemma SplitRunsOfText(d: Dotted)
    requires EndsRun(d.rest)
    ensures SplitRuns(DottedText(d)) == Ok(d)
  {
    var t3 := ShortForms(d.clubs) + d.rest;
    var t2 := ShortForms(d.diamonds) + ("." + t3);
    var t1 := ShortForms(d.hearts) + ("." + t2);
    RunThenDot(d.spades, t1);
    RunThenDot(d.hearts, t2);
    RunThenDot(d.diamonds, t3);
    FigureRunShortForms(d.clubs, d.rest);
  }

  /** Parsing the dotted text gives the rest and the union of the runs' sets. */
  lemma ParseCardSetText(d: Dotted)
    requires EndsRun(d.rest)
    ensures ParseCardSetWord(DottedText(d)) == Ok((d.rest, SetOf(d)))
  {
    SplitRunsOfText(d);
  }

  /** The set of four runs lists, in order, any ascending arrangement of exactly the runs'
      cards. */
  lemma SetOfElements(d: Dotted, sorted: seq<Card>)
    requires Ascending(sorted)
    requires forall c: Card :: c in sorted <==> c.figure in RunOf(d, c.suit)
    ensures Elements(SetOf(d)) == sorted
  {
    ElementsSpec(SetOf(d));
    forall c: Card
      ensures c in Elements(SetOf(d)) <==> c in sorted
    {
      SetOfMembers(d, c);
    }
    AscendingUnique(Elements(SetOf(d)), sorted);
  }

  /** "AT86.KJT93.4T.2A" is the dotted text of its four runs. */
  lemma FromStrExampleText(s: string, d: Dotted)
    requires s == "AT86.KJT93.4T.2A"
    requires d == Dotted([Ace, F(10), F(8), F(6)], [King, Jack, F(10), F(9), F(3)], [F(4), F(10)], [F(2), Ace], "")
    ensures s == DottedText(d) && EndsRun(d.rest)
  {
    ExampleShortForms(d.spades, d.hearts, d.diamonds, d.clubs);
    ExampleJoin();
  }

  /** "AT86.KJT93.4T.2A" is its four runs joined by dots. */
  lemma ExampleJoin()
    ensures "AT86" + ("." + ("KJT93" + ("." + ("4T" + ("." + ("2A" + "")))))) == "AT86.KJT93.4T.2A"
  {
    ExampleJoinTail();
    assert "AT86" + ("." + "KJT93.4T.2A") == "AT86.KJT93.4T.2A";
  }

  lemma ExampleJoinTail()
    ensures "KJT93" + ("." + ("4T" + ("." + ("2A" + "")))) == "KJT93.4T.2A"
  {
    assert "4T" + ("." + ("2A" + "")) == "4T.2A";
  }

  /** The short forms of the four runs of "AT86.KJT93.4T.2A". */
  lemma ExampleShortForms(sp: seq<Figure>, h: seq<Figure>, d: seq<Figure>, c: seq<Figure>)
    requires sp == [Ace, F(10), F(8), F(6)] && h == [King, Jack, F(10), F(9), F(3)]
    requires d == [F(4), F(10)] && c == [F(2), Ace]
    ensures ShortForms(sp) == "AT86" && ShortForms(h) == "KJT93"
    ensures ShortForms(d) == "4T" && ShortForms(c) == "2A"
  {
    ShortFormsFour(sp);
    ShortFormsFive(h);
    ShortFormsTwo(d, "4T");
    ShortFormsTwo(c, "2A");
  }

  /** The short forms of a two-figure run. */
  lemma ShortFormsTwo(fs: seq<Figure>, t: string)
    requires (fs == [F(4), F(10)] && t == "4T") || (fs == [F(2), Ace] && t == "2A")
    ensures ShortForms(fs) == t
  {
    assert fs[1..][1..] == [];
  }

  lemma ShortFormsFour(sp: seq<Figure>)
    requires sp == [Ace, F(10), F(8), F(6)]
    ensures ShortForms(sp) == "AT86"
  {
    assert ShortForms([Ace, F(10), F(8), F(6)]) == "AT86";
  }

  lemma ShortFormsFive(h: seq<Figure>)
    requires h == [King, Jack, F(10), F(9), F(3)]
    ensures ShortForms(h) == "KJT93"
  {
    assert ShortForms([King, Jack, F(10), F(9), F(3)]) == "KJT93";
  }

  /** The cards of those runs, by suit and then by figure. */
  lemma FromStrExampleCards(d: Dotted, sorted: seq<Card>)
    requires d == Dotted([Ace, F(10), F(8), F(6)], [King, Jack, F(10), F(9), F(3)], [F(4), F(10)], [F(2), Ace], "")
    requires sorted == [TWO_CLUBS, ACE_CLUBS, FOUR_DIAMONDS, TEN_DIAMONDS, THREE_HEARTS, NINE_HEARTS, TEN_HEARTS,
                        JACK_HEARTS, KING_HEARTS, SIX_SPADES, EIGHT_SPADES, TEN_SPADES, ACE_SPADES]
    ensures Ascending(sorted)
    ensures forall c: Card :: c in sorted <==> c.figure in RunOf(d, c.suit)
  {
    AscendingByNeighbours(sorted);
  }

  /** "AT86.KJT93.4T.2A" holds 2♣ A♣, 4♦ 10♦, 3♥ 9♥ 10♥ J♥ K♥ and 6♠ 8♠ 10♠ A♠, listed in
      that order. */
  lemma FromStrExample(s: string)
    requires s == "AT86.KJT93.4T.2A"
    ensures ParseCardSetWord(s).Ok?
    ensures Elements(ParseCardSetWord(s).value.1) ==
            [TWO_CLUBS, ACE_CLUBS, FOUR_DIAMONDS, TEN_DIAMONDS, THREE_HEARTS, NINE_HEARTS, TEN_HEARTS,
             JACK_HEARTS, KING_HEARTS, SIX_SPADES, EIGHT_SPADES, TEN_SPADES, ACE_SPADES]
  {
    var d := Dotted([Ace, F(10), F(8), F(6)], [King, Jack, F(10), F(9), F(3)], [F(4), F(10)], [F(2), Ace], "");
    var sorted := [TWO_CLUBS, ACE_CLUBS, FOUR_DIAMONDS, TEN_DIAMONDS, THREE_HEARTS, NINE_HEARTS, TEN_HEARTS,
                   JACK_HEARTS, KING_HEARTS, SIX_SPADES, EIGHT_SPADES, TEN_SPADES, ACE_SPADES];
    FromStrExampleText(s, d);
    ParseCardSetText(d);
    FromStrExampleCards(d, sorted);
    SetOfElements(d, sorted);
  }

  /** "AT86...2A", with no hearts and no diamonds, is the dotted text of its four runs. */
  lemma EmptyRunsExampleText(s: string, d: Dotted)
    requires s == "AT86...2A"
    requires d == Dotted([Ace, F(10), F(8), F(6)], [], [], [F(2), Ace], "")
    ensures s == DottedText(d) && EndsRun(d.rest)
  {
    ShortFormsFour(d.spades);
    assert ShortForms(d.clubs) == "2A";
    assert s == "AT86" + ("." + ("" + ("." + ("" + ("." + ("2A" + ""))))));
  }

  /** The cards of those runs, by suit and then by figure. */
  lemma EmptyRunsExampleCards(d: Dotted, sorted: seq<Card>)
    requires d == Dotted([Ace, F(10), F(8), F(6)], [], [], [F(2), Ace], "")
    requires sorted == [TWO_CLUBS, ACE_CLUBS, SIX_SPADES, EIGHT_SPADES, TEN_SPADES, ACE_SPADES]
    ensures Ascending(sorted)
    ensures forall c: Card :: c in sorted <==> c.figure in RunOf(d, c.suit)
  {
    AscendingByNeighbours(sorted);
  }

  /** Empty runs are allowed: "AT86...2A" holds 2♣ A♣ and 6♠ 8♠ 10♠ A♠, listed in that
      order. */
  lemma EmptyRunsExample(s: string)
    requires s == "AT86...2A"
    ensures ParseCardSetWord(s).Ok?
    ensures Elements(ParseCardSetWord(s).value.1) == [TWO_CLUBS, ACE_CLUBS, SIX_SPADES, EIGHT_SPADES, TEN_SPADES, ACE_SPADES]
  {
    var d := Dotted([Ace, F(10), F(8), F(6)], [], [], [F(2), Ace], "");
    var sorted := [TWO_CLUBS, ACE_CLUBS, SIX_SPADES, EIGHT_SPADES, TEN_SPADES, ACE_SPADES];
    EmptyRunsExampleText(s, d);
    ParseCardSetText(d);
    EmptyRunsExampleCards(d, sorted);
    SetOfElements(d, sorted);
  }

  /** Folding "AJ86." in spades gives {A♠, J♠, 8♠, 6♠} and leaves the dot. */
  lemma FoldExample(s: string)
    requires s == "AJ86."
    ensures RunSet(FigureRun(s).0, Spades) == CardSetMacro([ACE_SPADES, JACK_SPADES, EIGHT_SPADES, SIX_SPADES])
    ensures FigureRun(s).1 == "."
  {
    var fs := [Ace, Jack, F(8), F(6)];
    assert s == ShortForms(fs) + ".";
    FigureRunShortForms(fs, ".");
    FoldExampleSet(fs, [ACE_SPADES, JACK_SPADES, EIGHT_SPADES, SIX_SPADES]);
  }

  /** The run A J 8 6 in spades makes the same set as `card_set!` of those four cards. */
  lemma FoldExampleSet(fs: seq<Figure>, cs: seq<Card>)
    requires fs == [Ace, Jack, F(8), F(6)]
    requires cs == [ACE_SPADES, JACK_SPADES, EIGHT_SPADES, SIX_SPADES]
    ensures RunSet(fs, Spades) == CardSetMacro(cs)
  {
    RunSetIsMacro(fs, Spades);
    var run := CardsOf(fs, Spades);
    assert run[0] == cs[0] && run[1] == cs[1] && run[2] == cs[2] && run[3] == cs[3];
    SameFour(run, cs);
  }

  /** Two lists of four cards agreeing at each place are equal. */
  lemma SameFour(a: seq<Card>, b: seq<Card>)
    requires |a| == 4 && |b| == 4
    requires a[0] == b[0] && a[1] == b[1] && a[2] == b[2] && a[3] == b[3]
    ensures a == b
  {
    assert forall i :: 0 <= i < 4 ==> a[i] == b[i];
  }
}
