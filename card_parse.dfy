/** Parsing cards from text (src/cards/parse.rs): a figure and a suit, in either order,
    optionally separated by spaces and tabs. */
module CardParse {
  import opened Wrappers
  import opened Nom
  import opened Figures
  import opened Suits
  import opened FigureParse
  import opened SuitParse
  import opened Cards

  /** Text that starts a suit never starts a figure: suits begin with s, h, d, c or a glyph,
      figures with t, a, k, q, j or a digit. */
  lemma SuitIsNotFigure(s: string)
    ensures StartsSuit(s) ==> !StartsFigure(s)
  {
  }

  /** `s` is a run of spaces and tabs. */
  predicate Spaces(sp: string)
  {
    forall i :: 0 <= i < |sp| ==> IsSpace(sp[i])
  }

  /** `parse_card_fs`: `separated_pair(parse_figure, space0, parse_suit)`, the figure first.
      Either parser's error is passed on, at the input where it failed. */
  function ParseCardFs(s: string): (r: IResult<Card>)
    ensures !StartsFigure(s) ==> r == Err(Error(s, Tag))
    ensures r.Err? ==> r.error.code == Tag && IsSuffix(r.error.input, s)
    ensures r.Ok? ==> IsSuffix(r.value.0, s) && |r.value.0| + 2 <= |s|
  {
    match ParseFigure(s)
    case Err(e) => Err(e)
    case Ok((i, figure)) =>
      SuffixTrans(Space0(i), i, s);
      match ParseSuit(Space0(i))
      case Err(e) => SuffixTrans(e.input, Space0(i), s); Err(e)
      case Ok((j, suit)) => SuffixTrans(j, Space0(i), s); Ok((j, Card2SGen(suit, figure)))
  }

  /** `parse_card_sf`: `separated_pair(parse_suit, space0, parse_figure)`, the suit first. */
  function ParseCardSf(s: string): (r: IResult<Card>)
    ensures !StartsSuit(s) ==> r == Err(Error(s, Tag))
    ensures r.Err? ==> r.error.code == Tag && IsSuffix(r.error.input, s)
    ensures r.Ok? ==> IsSuffix(r.value.0, s) && |r.value.0| + 2 <= |s|
  {
    match ParseSuit(s)
    case Err(e) => Err(e)
    case Ok((i, suit)) =>
      SuffixTrans(Space0(i), i, s);
      match ParseFigure(Space0(i))
      case Err(e) => SuffixTrans(e.input, Space0(i), s); Err(e)
      case Ok((j, figure)) => SuffixTrans(j, Space0(i), s); Ok((j, Card2SGen(suit, figure)))
  }

  /** A figure's text, spaces and a suit's text are read as that card. */
  lemma ParseCardFsParts(ft: string, figure: Figure, sp: string, st: string, suit: Suit, rest: string)
    requires ParseFigure(ft + (sp + (st + rest))) == Ok((sp + (st + rest), figure))
    requires Spaces(sp) && (st == [] || !IsSpace(st[0]))
    requires ParseSuit(st + rest) == Ok((rest, suit))
    ensures ParseCardFs(ft + (sp + (st + rest))) == Ok((rest, Card2SGen(suit, figure)))
  {
    Space0Skips(sp, st + rest);
  }

  /** A suit's text, spaces and a figure's text are read as that card. */
  lemma ParseCardSfParts(st: string, suit: Suit, sp: string, ft: string, figure: Figure, rest: string)
    requires ParseSuit(st + (sp + (ft + rest))) == Ok((sp + (ft + rest), suit))
    requires Spaces(sp) && (ft == [] || !IsSpace(ft[0]))
    requires ParseFigure(ft + rest) == Ok((rest, figure))
    ensures ParseCardSf(st + (sp + (ft + rest))) == Ok((rest, Card2SGen(suit, figure)))
  {
    Space0Skips(sp, ft + rest);
  }

  /** `delimited(space0, p, space0)`: spaces and tabs skipped before and after `p`; `p`'s
      error is at the input after the leading spaces. */
  function Delimited(r: IResult<Card>): (q: IResult<Card>)
    ensures q.Ok? <==> r.Ok?
    ensures q.Ok? ==> q.value == (Space0(r.value.0), r.value.1)
    ensures q.Err? ==> q.error == r.error
  {
    match r
    case Ok((i, card)) => Ok((Space0(i), card))
    case Err(e) => Err(e)
  }

  /** `parse_card_fs_delimited`. */
  function ParseCardFsDelimited(s: string): (r: IResult<Card>)
    ensures r.Ok? ==> r.value.0 == [] || !IsSpace(r.value.0[0])
    ensures r.Err? ==> r.error.code == Tag && IsSuffix(r.error.input, Space0(s))
  {
    Delimited(ParseCardFs(Space0(s)))
  }

  /** `parse_card_sf_delimited`. */
  function ParseCardSfDelimited(s: string): (r: IResult<Card>)
    ensures r.Ok? ==> r.value.0 == [] || !IsSpace(r.value.0[0])
    ensures r.Err? ==> r.error.code == Tag && IsSuffix(r.error.input, Space0(s))
  {
    Delimited(ParseCardSf(Space0(s)))
  }

  /** `parse_card`: `alt((parse_card_fs, parse_card_sf))`. Text starting with a suit is read
      suit first; text starting with a figure is read figure first, and when that fails the
      error is the suit-first parser's, at the whole input. */
  function ParseCard(s: string): (r: IResult<Card>)
    ensures StartsFigure(s) ==> r == if ParseCardFs(s).Ok? then ParseCardFs(s) else Err(Error(s, Tag))
    ensures StartsSuit(s) ==> r == ParseCardSf(s)
    ensures !StartsFigure(s) && !StartsSuit(s) ==> r == Err(Error(s, Tag))
    ensures r.Err? ==> r.error.code == Tag && IsSuffix(r.error.input, s)
    ensures r.Ok? ==> IsSuffix(r.value.0, s) && |r.value.0| + 2 <= |s|
  {
    SuitIsNotFigure(s);
    match ParseCardFs(s)
    case Ok(v) => Ok(v)
    case Err(_) => ParseCardSf(s)
  }

  /** `parse_card_delimited`. */
  function ParseCardDelimited(s: string): (r: IResult<Card>)
    ensures r.Ok? ==> r.value.0 == [] || !IsSpace(r.value.0[0])
    ensures r.Err? ==> r.error.code == Tag && IsSuffix(r.error.input, Space0(s))
  {
    Delimited(ParseCard(Space0(s)))
  }

  /** Leading spaces and tabs do not change what a delimited parser reads. */
  lemma DelimitedIgnoresLeadingSpaces(sp: string, s: string)
    requires Spaces(sp)
    ensures ParseCardDelimited(sp + s) == ParseCardDelimited(s)
    ensures ParseCardFsDelimited(sp + s) == ParseCardFsDelimited(s)
    ensures ParseCardSfDelimited(sp + s) == ParseCardSfDelimited(s)
  {
    Space0AfterSpaces(sp, s);
  }

  /** `Card::from_str`: the card `parse_card` reads, whatever follows it. */
  function CardFromStr(s: string): (r: Result<Card, Error>)
    ensures r.Ok? <==> ParseCard(s).Ok?
    ensures r.Ok? ==> r.value == ParseCard(s).value.1
    ensures !StartsFigure(s) && !StartsSuit(s) ==> r == Err(Error(s, Tag))
  {
    match ParseCard(s)
    case Ok((_, card)) => Ok(card)
    case Err(e) => Err(e)
  }

  // ---------------------------------------------------------------------------------------------
  // Round trips

  /** A suit's name is written in lower case. */
  lemma NameIsLower(suit: Suit)
    ensures forall i :: 0 <= i < |Name(suit)| ==> Lower(Name(suit)[i]) == Name(suit)[i]
  {
  }

  /** A figure's word, spaces and a suit's name are read as that card, figure first. */
  lemma ParseCardWordName(figure: Figure, sp: string, suit: Suit, rest: string)
    requires Spaces(sp)
    ensures ParseCard(Word(figure) + (sp + (Name(suit) + rest))) == Ok((rest, Card2SGen(suit, figure)))
  {
    ParseFigureWord(figure, sp + (Name(suit) + rest));
    NameIsLower(suit);
    ParseSuitName(suit, Name(suit), rest);
    ParseCardFsParts(Word(figure), figure, sp, Name(suit), suit, rest);
  }

  /** A figure's word starts with a letter or a digit. */
  lemma WordStart(figure: Figure)
    ensures Word(figure) != [] && !IsSpace(Word(figure)[0])
  {
  }

  /** The suit-first parser reads a suit's name, spaces and a figure's word. */
  lemma ParseCardSfNameWord(suit: Suit, sp: string, figure: Figure, rest: string)
    requires Spaces(sp)
    ensures ParseCardSf(Name(suit) + (sp + (Word(figure) + rest))) == Ok((rest, Card2SGen(suit, figure)))
  {
    NameIsLower(suit);
    ParseSuitName(suit, Name(suit), sp + (Word(figure) + rest));
    ParseFigureWord(figure, rest);
    WordStart(figure);
    ParseCardSfParts(Name(suit), suit, sp, Word(figure), figure, rest);
  }

  /** A suit's name, spaces and a figure's word are read as that card, suit first. */
  lemma ParseCardNameWord(suit: Suit, sp: string, figure: Figure, rest: string)
    requires Spaces(sp)
    ensures ParseCard(Name(suit) + (sp + (Word(figure) + rest))) == Ok((rest, Card2SGen(suit, figure)))
  {
    ParseCardSfNameWord(suit, sp, figure, rest);
  }

  /** No figure's word continues with a suit's glyph. */
  lemma GlyphSeparates(figure: Figure, suit: Suit, g: char, rest: string)
    requires g == Solid(suit) || g == Outlined(suit)
    ensures Separated(figure, [g] + rest)
  {
    if !(figure.Numbered? && figure.number.power != 10) {
      var t := Word(figure)[1..];
      assert t != [] && 'a' <= t[0] <= 'z';
      PrefixNoCaseOne(t[0], [g] + rest);
      PrefixNoCaseOfPrefix(t, [g] + rest, 1);
      assert t[..1] == [t[0]];
    }
  }

  /** The figure-first parser composes its two parts. */
  lemma ParseCardFsOf(s: string, i: string, figure: Figure, j: string, suit: Suit)
    requires ParseFigure(s) == Ok((i, figure)) && ParseSuit(Space0(i)) == Ok((j, suit))
    ensures ParseCardFs(s) == Ok((j, Card2SGen(suit, figure)))
  {
  }

  /** A short form followed by a glyph is read as the figure, the glyph left. */
  lemma FigureBeforeGlyph(figure: Figure, suit: Suit, g: char, rest: string)
    requires g == Solid(suit) || g == Outlined(suit)
    ensures ParseFigure(ShortForm(figure) + ([g] + rest)) == Ok(([g] + rest, figure))
  {
    ShortFormIsOneChar(figure);
    GlyphSeparates(figure, suit, g, rest);
    ParseFigureSymbol(figure, ShortForm(figure)[0], [g] + rest);
  }

  /** The figure-first parser reads a short form followed by a glyph. */
  lemma ParseCardFsShortGlyph(figure: Figure, suit: Suit, g: char, rest: string)
    requires g == Solid(suit) || g == Outlined(suit)
    ensures ParseCardFs(ShortForm(figure) + ([g] + rest)) == Ok((rest, Card2SGen(suit, figure)))
  {
    var t := [g] + rest;
    FigureBeforeGlyph(figure, suit, g, rest);
    GlyphAfterFigure(suit, g, rest);
    ParseCardFsOf(ShortForm(figure) + t, t, figure, rest, suit);
  }

  /** A glyph right after the figure is the suit, with no spaces to skip. */
  lemma GlyphAfterFigure(suit: Suit, g: char, rest: string)
    requires g == Solid(suit) || g == Outlined(suit)
    ensures ParseSuit(Space0([g] + rest)) == Ok((rest, suit))
  {
    var t := [g] + rest;
    assert Space0(t) == t by {
      assert t[0] == g && !IsSpace(g);
      Space0NoSpace(t);
    }
    assert ParseSuit(t) == Ok((rest, suit)) by {
      ParseSuitGlyph(suit, g, rest);
    }
  }

  /** A figure's short form followed by a suit's glyph, as in "A♠" or "T♦", is read as that
      card. */
  lemma ParseCardShortGlyph(figure: Figure, suit: Suit, g: char, rest: string)
    requires g == Solid(suit) || g == Outlined(suit)
    ensures ParseCard(ShortForm(figure) + ([g] + rest)) == Ok((rest, Card2SGen(suit, figure)))
  {
    ParseCardFsShortGlyph(figure, suit, g, rest);
  }

  // ---------------------------------------------------------------------------------------------
  // The documented examples

  /** A numeral, spaces and a suit's initial are read as that card, figure first. */
  lemma NumeralThenInitial(p: NumberPower, sp: string, c: char, suit: Suit, rest: string)
    requires Spaces(sp) && Lower(c) == Name(suit)[0]
    requires !PrefixNoCase(Name(suit)[1..], rest) && (suit == Diamonds ==> !PrefixNoCase("iax", rest))
    ensures ParseCardFs(Numeral(p) + (sp + ([c] + rest))) == Ok((rest, Card2SGen(suit, F(p))))
    ensures ParseCard(Numeral(p) + (sp + ([c] + rest))) == Ok((rest, Card2SGen(suit, F(p))))
  {
    ParseFigureNumeral(p, sp + ([c] + rest));
    ParseSuitLetter(suit, c, rest);
    ParseCardFsParts(Numeral(p), F(p), sp, [c], suit, rest);
  }

  /** A figure's letter, spaces and a suit's initial are read as that card, figure first. */
  lemma LetterThenInitial(figure: Figure, c1: char, sp: string, c2: char, suit: Suit, rest: string)
    requires Lower(c1) == Lower(ShortForm(figure)[0]) && Separated(figure, sp + ([c2] + rest))
    requires Spaces(sp) && Lower(c2) == Name(suit)[0]
    requires !PrefixNoCase(Name(suit)[1..], rest) && (suit == Diamonds ==> !PrefixNoCase("iax", rest))
    ensures ParseCardFs([c1] + (sp + ([c2] + rest))) == Ok((rest, Card2SGen(suit, figure)))
    ensures ParseCard([c1] + (sp + ([c2] + rest))) == Ok((rest, Card2SGen(suit, figure)))
  {
    ParseFigureSymbol(figure, c1, sp + ([c2] + rest));
    ParseSuitLetter(suit, c2, rest);
    ParseCardFsParts([c1], figure, sp, [c2], suit, rest);
  }

  /** A suit's initial, spaces and a figure's letter are read as that card, suit first. */
  lemma InitialThenLetter(suit: Suit, c1: char, sp: string, figure: Figure, c2: char, rest: string)
    requires Lower(c1) == Name(suit)[0] && !PrefixNoCase(Name(suit)[1..], sp + ([c2] + rest))
    requires suit == Diamonds ==> !PrefixNoCase("iax", sp + ([c2] + rest))
    requires Spaces(sp) && Lower(c2) == Lower(ShortForm(figure)[0]) && Separated(figure, rest)
    ensures ParseCardSf([c1] + (sp + ([c2] + rest))) == Ok((rest, Card2SGen(suit, figure)))
    ensures ParseCard([c1] + (sp + ([c2] + rest))) == Ok((rest, Card2SGen(suit, figure)))
  {
    var s := [c1] + (sp + ([c2] + rest));
    assert ParseSuit(s) == Ok((sp + ([c2] + rest), suit)) by {
      ParseSuitLetter(suit, c1, sp + ([c2] + rest));
    }
    assert ParseCardSf(s) == Ok((rest, Card2SGen(suit, figure))) by {
      ParseFigureSymbol(figure, c2, rest);
      ParseCardSfParts([c1], suit, sp, [c2], figure, rest);
    }
  }

  /** A figure's letter followed by text that is not a suit: the figure-first parser fails at
      that text, and `parse_card` at the whole input. */
  lemma LetterThenNoSuit(figure: Figure, c: char, t: string)
    requires Lower(c) == Lower(ShortForm(figure)[0]) && Separated(figure, t)
    requires (t == [] || !IsSpace(t[0])) && !StartsSuit(t)
    ensures ParseCardFs([c] + t) == Err(Error(t, Tag))
    ensures ParseCard([c] + t) == Err(Error([c] + t, Tag))
  {
    ParseFigureSymbol(figure, c, t);
    Space0NoSpace(t);
  }

  /** The delimited parsers skip the leading spaces and then run the undelimited ones. */
  lemma DelimitedSkips(sp: string, t: string)
    requires Spaces(sp) && (t == [] || !IsSpace(t[0]))
    ensures ParseCardDelimited(sp + t) == Delimited(ParseCard(t))
  {
    Space0Skips(sp, t);
  }

  /** A card read after leading spaces, with spaces after it: the delimited parser skips both
      runs. */
  lemma DelimitedCardOk(sp: string, t: string, sp2: string, rest: string, card: Card)
    requires Spaces(sp) && (t == [] || !IsSpace(t[0]))
    requires Spaces(sp2) && (rest == [] || !IsSpace(rest[0]))
    requires ParseCard(t) == Ok((sp2 + rest, card))
    ensures ParseCardDelimited(sp + t) == Ok((rest, card))
  {
    DelimitedSkips(sp, t);
    Space0Skips(sp2, rest);
  }

  /** The same for the figure-first parser. */
  lemma DelimitedFsCardOk(sp: string, t: string, sp2: string, rest: string, card: Card)
    requires Spaces(sp) && (t == [] || !IsSpace(t[0]))
    requires Spaces(sp2) && (rest == [] || !IsSpace(rest[0]))
    requires ParseCardFs(t) == Ok((sp2 + rest, card))
    ensures ParseCardFsDelimited(sp + t) == Ok((rest, card))
  {
    DelimitedFsSkips(sp, t);
    Space0Skips(sp2, rest);
  }

  /** `NumeralThenInitial` between spaces, for both delimited parsers. */
  lemma DelimitedNumeralThenInitial(sp: string, p: NumberPower, sp2: string, c: char, suit: Suit,
                                    sp3: string, rest: string)
    requires Spaces(sp) && Spaces(sp2) && Lower(c) == Name(suit)[0]
    requires !PrefixNoCase(Name(suit)[1..], sp3 + rest) && (suit == Diamonds ==> !PrefixNoCase("iax", sp3 + rest))
    requires Spaces(sp3) && (rest == [] || !IsSpace(rest[0]))
    ensures ParseCardFsDelimited(sp + (Numeral(p) + (sp2 + ([c] + (sp3 + rest))))) == Ok((rest, Card2SGen(suit, F(p))))
    ensures ParseCardDelimited(sp + (Numeral(p) + (sp2 + ([c] + (sp3 + rest))))) == Ok((rest, Card2SGen(suit, F(p))))
  {
    var t := Numeral(p) + (sp2 + ([c] + (sp3 + rest)));
    assert t[0] == Numeral(p)[0];
    NumeralThenInitial(p, sp2, c, suit, sp3 + rest);
    DelimitedFsCardOk(sp, t, sp3, rest, Card2SGen(suit, F(p)));
    DelimitedCardOk(sp, t, sp3, rest, Card2SGen(suit, F(p)));
  }

  /** `LetterThenInitial` between spaces, for the figure-first delimited parser. */
  lemma DelimitedLetterThenInitial(sp: string, figure: Figure, c1: char, sp2: string, c2: char, suit: Suit,
                                   sp3: string, rest: string)
    requires Spaces(sp) && !IsSpace(c1)
    requires Lower(c1) == Lower(ShortForm(figure)[0]) && Separated(figure, sp2 + ([c2] + (sp3 + rest)))
    requires Spaces(sp2) && Lower(c2) == Name(suit)[0]
    requires !PrefixNoCase(Name(suit)[1..], sp3 + rest) && (suit == Diamonds ==> !PrefixNoCase("iax", sp3 + rest))
    requires Spaces(sp3) && (rest == [] || !IsSpace(rest[0]))
    ensures ParseCardFsDelimited(sp + ([c1] + (sp2 + ([c2] + (sp3 + rest))))) == Ok((rest, Card2SGen(suit, figure)))
  {
    LetterThenInitial(figure, c1, sp2, c2, suit, sp3 + rest);
    DelimitedFsCardOk(sp, [c1] + (sp2 + ([c2] + (sp3 + rest))), sp3, rest, Card2SGen(suit, figure));
  }

  /** `InitialThenLetter` between spaces, for `parse_card_delimited`. */
  lemma DelimitedInitialThenLetter(sp: string, suit: Suit, c1: char, sp2: string, figure: Figure, c2: char,
                                   sp3: string, rest: string)
    requires Spaces(sp) && !IsSpace(c1)
    requires Lower(c1) == Name(suit)[0] && !PrefixNoCase(Name(suit)[1..], sp2 + ([c2] + (sp3 + rest)))
    requires suit == Diamonds ==> !PrefixNoCase("iax", sp2 + ([c2] + (sp3 + rest)))
    requires Spaces(sp2) && Lower(c2) == Lower(ShortForm(figure)[0]) && Separated(figure, sp3 + rest)
    requires Spaces(sp3) && (rest == [] || !IsSpace(rest[0]))
    ensures ParseCardDelimited(sp + ([c1] + (sp2 + ([c2] + (sp3 + rest))))) == Ok((rest, Card2SGen(suit, figure)))
  {
    InitialThenLetter(suit, c1, sp2, figure, c2, sp3 + rest);
    DelimitedCardOk(sp, [c1] + (sp2 + ([c2] + (sp3 + rest))), sp3, rest, Card2SGen(suit, figure));
  }

  /** `LetterThenNoSuit` after spaces, for the figure-first delimited parser. */
  lemma DelimitedLetterThenNoSuit(sp: string, figure: Figure, c: char, t: string)
    requires Spaces(sp) && !IsSpace(c)
    requires Lower(c) == Lower(ShortForm(figure)[0]) && Separated(figure, t)
    requires (t == [] || !IsSpace(t[0])) && !StartsSuit(t)
    ensures ParseCardFsDelimited(sp + ([c] + t)) == Err(Error(t, Tag))
  {
    LetterThenNoSuit(figure, c, t);
    DelimitedFsSkips(sp, [c] + t);
  }

  /** A failure after leading spaces is the delimited parser's failure. */
  lemma DelimitedCardErr(sp: string, t: string, e: Error)
    requires Spaces(sp) && (t == [] || !IsSpace(t[0]))
    requires ParseCard(t) == Err(e)
    ensures ParseCardDelimited(sp + t) == Err(e)
  {
    DelimitedSkips(sp, t);
  }

  /** The same for the figure-first parser. */
  lemma DelimitedFsSkips(sp: string, t: string)
    requires Spaces(sp) && (t == [] || !IsSpace(t[0]))
    ensures ParseCardFsDelimited(sp + t) == Delimited(ParseCardFs(t))
  {
    Space0Skips(sp, t);
  }

  /** "10 dxg": the ten of diamonds, "xg" left, by either parser. */
  lemma TenDiamondsExample(s: string)
    requires s == "10 dxg"
    ensures ParseCardFs(s) == Ok(("xg", TEN_DIAMONDS))
    ensures ParseCard(s) == Ok(("xg", TEN_DIAMONDS))
  {
    assert s == Numeral(10) + (" " + (['d'] + "xg"));
    NumeralThenInitial(10, " ", 'd', Diamonds, "xg");
  }

  /** "A  sdiax": the ace of spades, "diax" left: the single "s" is the suit. */
  lemma AceSpadesExample(s: string)
    requires s == "A  sdiax"
    ensures ParseCardFs(s) == Ok(("diax", ACE_SPADES))
    ensures ParseCard(s) == Ok(("diax", ACE_SPADES))
  {
    assert s == ['A'] + ("  " + (['s'] + "diax"));
    LetterThenInitial(Ace, 'A', "  ", 's', Spades, "diax");
  }

  /** "A10  sdiax": what follows the ace is not a suit; the figure-first parser fails at
      "10  sdiax", `parse_card` at the whole input. */
  lemma AceTenFailExample(s: string)
    requires s == "A10  sdiax"
    ensures ParseCardFs(s) == Err(Error("10  sdiax", Tag))
    ensures ParseCard(s) == Err(Error(s, Tag))
  {
    assert s == ['A'] + "10  sdiax";
    LetterThenNoSuit(Ace, 'A', "10  sdiax");
  }

  /** "h  jv": the jack of hearts, suit first, "v" left. */
  lemma JackHeartsExample(s: string)
    requires s == "h  jv"
    ensures ParseCard(s) == Ok(("v", JACK_HEARTS))
  {
    assert s == ['h'] + ("  " + (['j'] + "v"));
    InitialThenLetter(Hearts, 'h', "  ", Jack, 'j', "v");
  }

  /** "  10 d\txg", figure first and delimited: the spaces and tabs around the card are
      skipped. */
  lemma TenDiamondsDelimitedExample(s: string)
    requires s == "  10 d\txg"
    ensures ParseCardFsDelimited(s) == Ok(("xg", TEN_DIAMONDS))
  {
    assert s == "  " + (Numeral(10) + (" " + (['d'] + ("\t" + "xg"))));
    DelimitedNumeralThenInitial("  ", 10, " ", 'd', Diamonds, "\t", "xg");
  }

  /** " A  s\tdiax  ", figure first and delimited: only the spaces before "diax" are
      skipped. */
  lemma AceSpadesDelimitedExample(s: string)
    requires s == " A  s\tdiax  "
    ensures ParseCardFsDelimited(s) == Ok(("diax  ", ACE_SPADES))
  {
    assert s == " " + (['A'] + ("  " + (['s'] + ("\t" + "diax  "))));
    DelimitedLetterThenInitial(" ", Ace, 'A', "  ", 's', Spades, "\t", "diax  ");
  }

  /** "\tA10  sdiax  ", figure first and delimited: the error is at "10  sdiax  ". */
  lemma AceTenDelimitedFailExample(s: string)
    requires s == "\tA10  sdiax  "
    ensures ParseCardFsDelimited(s) == Err(Error("10  sdiax  ", Tag))
  {
    assert s == "\t" + (['A'] + "10  sdiax  ");
    DelimitedLetterThenNoSuit("\t", Ace, 'A', "10  sdiax  ");
  }

  /** "10 d  xg", delimited: the ten of diamonds, "xg" left. */
  lemma CardDelimitedTenExample(s: string)
    requires s == "10 d  xg"
    ensures ParseCardDelimited(s) == Ok(("xg", TEN_DIAMONDS))
  {
    assert s == "" + (Numeral(10) + (" " + (['d'] + ("  " + "xg"))));
    DelimitedNumeralThenInitial("", 10, " ", 'd', Diamonds, "  ", "xg");
  }

  /** "   h  jv", delimited: the jack of hearts, "v" left. */
  lemma CardDelimitedJackExample(s: string)
    requires s == "   h  jv"
    ensures ParseCardDelimited(s) == Ok(("v", JACK_HEARTS))
  {
    assert s == "   " + (['h'] + ("  " + (['j'] + ("" + "v"))));
    DelimitedInitialThenLetter("   ", Hearts, 'h', "  ", Jack, 'j', "", "v");
  }

  /** `Card::from_str("A s")` is the ace of spades. */
  lemma FromStrAceExample(s: string)
    requires s == "A s"
    ensures CardFromStr(s) == Ok(ACE_SPADES)
  {
    assert s == ['A'] + (" " + (['s'] + ""));
    LetterThenInitial(Ace, 'A', " ", 's', Spades, "");
  }

  /** `Card::from_str("4caa")` is the four of clubs; what follows is ignored. */
  lemma FromStrFourExample(s: string)
    requires s == "4caa"
    ensures CardFromStr(s) == Ok(FOUR_CLUBS)
  {
    assert s == Numeral(4) + ("" + (['c'] + "aa"));
    NumeralThenInitial(4, "", 'c', Clubs, "aa");
  }

  /** `Card::from_str("jq")` fails: a jack, but no suit. */
  lemma FromStrFailExample(s: string)
    requires s == "jq"
    ensures CardFromStr(s).Err?
  {
    assert s == ['j'] + "q";
    LetterThenNoSuit(Jack, 'j', "q");
  }

  /** `Card::from_str("9♠")` is the nine of spades. */
  lemma FromStrGlyphExample(s: string)
    requires s == "9♠"
    ensures CardFromStr(s) == Ok(NINE_SPADES)
  {
    assert s == ShortForm(F(9)) + (['♠'] + "");
    ParseCardShortGlyph(F(9), Spades, '♠', "");
  }
}
