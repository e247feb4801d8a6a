/** Parsing suits from text (src/suits/parse.rs): each suit by its name, its first letter or
    either of its two glyphs, letters in either case, the name tried first. */
module SuitParse {
  import opened Wrappers
  import opened Nom
  import opened Suits

  /** The tags of a suit, in the order its parser tries them. */
  function Tags(suit: Suit): (tags: seq<string>)
    ensures |tags| >= 4
  {
    match suit
    case Spades => ["spades", "s", "♠", "♤"]
    case Hearts => ["hearts", "h", "♥", "♡"]
    case Diamonds => ["diamonds", "diax", "d", "♦", "♢"]
    case Clubs => ["clubs", "c", "♣", "♧"]
  }

  /** The number of whole words among a suit's tags: one, and "diax" besides for diamonds. */
  function Words(suit: Suit): nat
  {
    if suit == Diamonds then 2 else 1
  }

  /** The suit's full name. */
  function Name(suit: Suit): string
  {
    Tags(suit)[0]
  }

  /** The solid and the outlined glyph of a suit. */
  function Solid(suit: Suit): char
  {
    match suit
    case Spades => '♠'
    case Hearts => '♥'
    case Diamonds => '♦'
    case Clubs => '♣'
  }

  function Outlined(suit: Suit): char
  {
    match suit
    case Spades => '♤'
    case Hearts => '♡'
    case Diamonds => '♢'
    case Clubs => '♧'
  }

  /** The input starts with one of the suit's tags: its initial in either case or one of its
      glyphs. */
  predicate StartsWith(suit: Suit, s: string)
  {
    s != [] && (Lower(s[0]) == Name(suit)[0] || s[0] == Solid(suit) || s[0] == Outlined(suit))
  }

  /** What is left after a suit's tags: after the first whole word that matches, else after
      one character. */
  function RestAfter(suit: Suit, s: string): string
    requires StartsWith(suit, s)
  {
    if PrefixNoCase(Name(suit), s) then s[|Name(suit)|..]
    else if suit == Diamonds && PrefixNoCase("diax", s) then s[4..]
    else s[1..]
  }

  /** `parse_spades`, `parse_hearts`, `parse_diamonds` and `parse_clubs`: `alt` of
      `tag_no_case` over the suit's tags, mapped to the suit. */
  function ParseOne(suit: Suit, s: string): (r: IResult<Suit>)
    ensures r.Ok? <==> StartsWith(suit, s)
    ensures r.Ok? ==> r.value == (RestAfter(suit, s), suit)
    ensures r.Err? ==> r.error == Error(s, Tag)
    ensures Consumes(r, s)
  {
    var tags := Tags(suit);
    WordsThenLetters(tags, Words(suit), s);
    AltTagNoCaseConsumes(tags, s);
    TagsAccept(suit, s);
    MapValue(AltTagNoCase(tags, s), suit)
  }

  /** Some tag of the suit matches exactly when the input starts with the suit's initial or
      glyph: the words start with the initial. */
  lemma TagsAccept(suit: Suit, s: string)
    ensures (exists t :: t in Tags(suit) && PrefixNoCase(t, s)) <==> StartsWith(suit, s)
  {
    var tags := Tags(suit);
    PrefixNoCaseOne(Name(suit)[0], s);
    PrefixNoCaseOne(Solid(suit), s);
    PrefixNoCaseOne(Outlined(suit), s);
    forall t | t in tags
      ensures PrefixNoCase(t, s) ==> StartsWith(suit, s)
    {
      PrefixNoCaseOfPrefix(t, s, 1);
      PrefixNoCaseOne(t[0], s);
      assert t[..1] == [t[0]];
    }
    if StartsWith(suit, s) {
      if Lower(s[0]) == Name(suit)[0] {
        assert [Name(suit)[0]] in tags;
      } else if s[0] == Solid(suit) {
        assert [Solid(suit)] in tags;
      } else {
        assert [Outlined(suit)] in tags;
      }
    }
  }

  /** Different suits start with different initials and glyphs. */
  lemma StartsWithUnique(a: Suit, b: Suit, s: string)
    requires StartsWith(a, s) && StartsWith(b, s)
    ensures a == b
  {
  }

  /** The input starts with the tag of some suit. */
  predicate StartsSuit(s: string)
  {
    StartsWith(Spades, s) || StartsWith(Hearts, s) || StartsWith(Diamonds, s) || StartsWith(Clubs, s)
  }

  /** `parse_suit`: `alt` over the four suit parsers, spades first; when none matches, the
      clubs parser's `Tag` error. The suit found is the only one whose tags the input starts
      with. */
  function ParseSuit(s: string): (r: IResult<Suit>)
    ensures r.Ok? <==> StartsSuit(s)
    ensures r.Ok? ==> StartsWith(r.value.1, s) && r.value.0 == RestAfter(r.value.1, s)
    ensures r.Err? ==> r.error == Error(s, Tag)
    ensures Consumes(r, s)
  {
    match ParseOne(Spades, s)
    case Ok(v) => Ok(v)
    case Err(_) =>
      match ParseOne(Hearts, s)
      case Ok(v) => Ok(v)
      case Err(_) =>
        match ParseOne(Diamonds, s)
        case Ok(v) => Ok(v)
        case Err(_) => ParseOne(Clubs, s)
  }

  /** Whichever suit's tags the input starts with is the suit read. */
  lemma ParseSuitOf(suit: Suit, s: string)
    requires StartsWith(suit, s)
    ensures ParseSuit(s) == Ok((RestAfter(suit, s), suit))
  {
    var r := ParseSuit(s);
    StartsWithUnique(suit, r.value.1, s);
  }

  /** `ParseSuitOf` for every suit at once. */
  lemma ParseSuitOfAny(s: string)
    ensures forall suit :: StartsWith(suit, s) ==> ParseSuit(s) == Ok((RestAfter(suit, s), suit))
  {
    forall suit | StartsWith(suit, s)
      ensures ParseSuit(s) == Ok((RestAfter(suit, s), suit))
    {
      ParseSuitOf(suit, s);
    }
  }

  /** A suit's name, in any case, is read whole. */
  lemma ParseSuitName(suit: Suit, t: string, rest: string)
    requires |t| == |Name(suit)| && forall i :: 0 <= i < |t| ==> Lower(t[i]) == Name(suit)[i]
    ensures ParseSuit(t + rest) == Ok((rest, suit))
  {
    var s := t + rest;
    assert forall i :: 0 <= i < |t| ==> s[i] == t[i];
    assert Lower(Name(suit)[0]) == Name(suit)[0];
    PrefixNoCaseAt(Name(suit), s);
    assert s[|t|..] == rest;
    ParseSuitOf(suit, s);
  }

  /** A suit's glyph is read as one character. */
  lemma ParseSuitGlyph(suit: Suit, c: char, rest: string)
    requires c == Solid(suit) || c == Outlined(suit)
    ensures ParseSuit([c] + rest) == Ok((rest, suit))
  {
    var s := [c] + rest;
    PrefixNoCaseOfPrefix(Name(suit), s, 1);
    PrefixNoCaseOne(Name(suit)[0], s);
    assert Name(suit)[..1] == [Name(suit)[0]];
    PrefixNoCaseOfPrefix("diax", s, 1);
    PrefixNoCaseOne('d', s);
    assert "diax"[..1] == ['d'];
    assert s[1..] == rest;
    ParseSuitOf(suit, s);
  }

  /** A suit's initial, in either case, is read as one character unless the characters after
      it complete the name (or "diax" for diamonds). */
  lemma ParseSuitLetter(suit: Suit, c: char, rest: string)
    requires Lower(c) == Name(suit)[0]
    requires !PrefixNoCase(Name(suit)[1..], rest)
    requires suit == Diamonds ==> !PrefixNoCase("iax", rest)
    ensures ParseSuit([c] + rest) == Ok((rest, suit))
  {
    var s := [c] + rest;
    assert s[1..] == rest;
    assert "diax"[1..] == "iax";
    ParseSuitOf(suit, s);
  }

  /** `Suit::from_str`: the suit that `parse_suit` reads, whatever follows it. */
  function SuitFromStr(s: string): (r: Result<Suit, Error>)
    ensures r.Ok? <==> StartsSuit(s)
    ensures forall suit :: StartsWith(suit, s) ==> r == Ok(suit)
    ensures r.Err? ==> r.error == Error(s, Tag)
  {
    ParseSuitOfAny(s);
    match ParseSuit(s)
    case Ok((_, suit)) => Ok(suit)
    case Err(e) => Err(e)
  }

  // ---------------------------------------------------------------------------------------------
  // The documented examples

  /** `parse_spades("spadesacedd")` reads the whole name. */
  lemma SpadesNameExample(s: string)
    requires s == "spadesacedd"
    ensures ParseOne(Spades, s) == Ok(("acedd", Spades))
  {
    assert Name(Spades) <= s;
    PrefixIsPrefixNoCase(Name(Spades), s);
  }

  /** `parse_spades("s aCe dd")` reads the initial. */
  lemma SpadesLetterExample(s: string)
    requires s == "s aCe dd"
    ensures ParseOne(Spades, s) == Ok((" aCe dd", Spades))
  {
    PrefixNoCaseAt(Name(Spades), s);
    assert Lower(Name(Spades)[1]) != Lower(s[1]);
  }

  /** `parse_spades("♠ aCe dd")` reads the glyph. */
  lemma SpadesGlyphExample(s: string)
    requires s == "♠ aCe dd"
    ensures ParseOne(Spades, s) == Ok((" aCe dd", Spades))
  {
    PrefixNoCaseAt(Name(Spades), s);
    assert Lower(Name(Spades)[0]) != Lower(s[0]);
  }

  /** `parse_suit("sgq")` is spades with "gq" left. */
  lemma SuitLetterExample(s: string)
    requires s == "sgq"
    ensures ParseSuit(s) == Ok(("gq", Spades))
    ensures SuitFromStr(s) == Ok(Spades)
  {
    PrefixNoCaseAt(Name(Spades), s);
    assert Lower(Name(Spades)[1]) != Lower(s[1]);
    ParseSuitOf(Spades, s);
  }

  /** `parse_suit("diamondsda")` is diamonds with "da" left. */
  lemma SuitNameExample(s: string)
    requires s == "diamondsda"
    ensures ParseSuit(s) == Ok(("da", Diamonds))
    ensures SuitFromStr(s) == Ok(Diamonds)
  {
    assert Name(Diamonds) <= s;
    PrefixIsPrefixNoCase(Name(Diamonds), s);
    ParseSuitOf(Diamonds, s);
  }

  /** `parse_suit("eadfish")` fails with a `Tag` error at the input. */
  lemma SuitFailExample(s: string)
    requires s == "eadfish"
    ensures ParseSuit(s) == Err(Error(s, Tag))
    ensures SuitFromStr(s).Err?
  {
    assert s[0] == 'e' && Lower(s[0]) == 'e';
    assert !StartsSuit(s);
  }

  /** `parse_suit("♦K")` is diamonds with "K" left. */
  lemma SuitGlyphExample(s: string)
    requires s == "♦K"
    ensures ParseSuit(s) == Ok(("K", Diamonds))
    ensures SuitFromStr(s) == Ok(Diamonds)
  {
    assert s == ['♦'] + "K";
    ParseSuitGlyph(Diamonds, '♦', "K");
  }
}
