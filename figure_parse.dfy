/** Parsing figures from text (karty/src/figures/parse.rs): the honours and the ten by word or
    letter, case-insensitively, and the numbered figures by their numerals. */
module FigureParse {
  import opened Wrappers
  import opened Nom
  import opened Figures

  // ---------------------------------------------------------------------------------------------
  // Honours and the ten

  /** `alt((tag_no_case(word), tag_no_case(letter)))` mapped to `f`, where `letter` is the
      word's first letter: the word is tried first, so it is consumed whole when present. */
  function WordOrLetter(word: string, f: Figure, s: string): (r: IResult<Figure>)
    requires word != []
    ensures r.Ok? <==> s != [] && Lower(s[0]) == Lower(word[0])
    ensures r.Ok? ==> r.value == (if PrefixNoCase(word, s) then s[|word|..] else s[1..], f)
    ensures r.Err? ==> r.error == Error(s, Tag)
    ensures Consumes(r, s)
  {
    PrefixNoCaseOfPrefix(word, s, 1);
    assert word[..1] == [word[0]];
    PrefixNoCaseOne(word[0], s);
    match TagNoCase(word, s)
    case Ok((i, _)) => Ok((i, f))
    case Err(_) => MapValue(TagNoCase(word[..1], s), f)
  }

  /** `parse_ace`: "ace" or "a". */
  function ParseAce(s: string): (r: IResult<Figure>)
    ensures r.Ok? <==> s != [] && Lower(s[0]) == 'a'
    ensures r.Ok? ==> r.value == (if PrefixNoCase("ace", s) then s[3..] else s[1..], Ace)
    ensures r.Err? ==> r.error == Error(s, Tag)
    ensures Consumes(r, s)
  {
    WordOrLetter("ace", Ace, s)
  }

  /** `parse_king`: "king" or "k". */
  function ParseKing(s: string): (r: IResult<Figure>)
    ensures r.Ok? <==> s != [] && Lower(s[0]) == 'k'
    ensures r.Ok? ==> r.value == (if PrefixNoCase("king", s) then s[4..] else s[1..], King)
    ensures r.Err? ==> r.error == Error(s, Tag)
    ensures Consumes(r, s)
  {
    WordOrLetter("king", King, s)
  }

  /** `parse_queen`: "queen" or "q". */
  function ParseQueen(s: string): (r: IResult<Figure>)
    ensures r.Ok? <==> s != [] && Lower(s[0]) == 'q'
    ensures r.Ok? ==> r.value == (if PrefixNoCase("queen", s) then s[5..] else s[1..], Queen)
    ensures r.Err? ==> r.error == Error(s, Tag)
    ensures Consumes(r, s)
  {
    WordOrLetter("queen", Queen, s)
  }

  /** `parse_jack`: "jack" or "j". */
  function ParseJack(s: string): (r: IResult<Figure>)
    ensures r.Ok? <==> s != [] && Lower(s[0]) == 'j'
    ensures r.Ok? ==> r.value == (if PrefixNoCase("jack", s) then s[4..] else s[1..], Jack)
    ensures r.Err? ==> r.error == Error(s, Tag)
    ensures Consumes(r, s)
  {
    WordOrLetter("jack", Jack, s)
  }

  /** `parse_ten`: "ten" or "t", giving the numbered figure 10. */
  function ParseTen(s: string): (r: IResult<Figure>)
    ensures r.Ok? <==> s != [] && Lower(s[0]) == 't'
    ensures r.Ok? ==> r.value == (if PrefixNoCase("ten", s) then s[3..] else s[1..], F(10))
    ensures r.Err? ==> r.error == Error(s, Tag)
    ensures Consumes(r, s)
  {
    WordOrLetter("ten", F(10), s)
  }

  // ---------------------------------------------------------------------------------------------
  // Numbered figures

  /** The numerals `parse_numbered_figure` tries, in its order: "10" before the digits. */
  const NUMBER_TAGS: seq<string> := ["10", "9", "8", "7", "6", "5", "4", "3", "2"]

  /** The numeral of a numbered figure's power. */
  function Numeral(p: NumberPower): (t: string)
    ensures t in NUMBER_TAGS
  {
    if p == 10 then "10" else [('0' as int + p) as char]
  }

  predicate IsDigit(c: char)
  {
    '0' <= c <= '9'
  }

  predicate AllDigits(d: string)
  {
    forall i :: 0 <= i < |d| ==> IsDigit(d[i])
  }

  /** The number a string of decimal digits denotes. */
  function DecimalValue(d: string): nat
    requires AllDigits(d)
    decreases |d|
  {
    if d == [] then 0
    else
      assert AllDigits(d[..|d| - 1]) by {
        assert forall i :: 0 <= i < |d| - 1 ==> d[..|d| - 1][i] == d[i];
      }
      DecimalValue(d[..|d| - 1]) * 10 + (d[|d| - 1] as int - '0' as int)
  }

  /** `str::parse::<u8>`: one or more decimal digits after an optional `+`, denoting at most
      255; anything else is an error (`None`). */
  function ParseU8(t: string): (r: Option<nat>)
    ensures r.Some? ==> r.value < 256
  {
    var digits := if t != [] && t[0] == '+' then t[1..] else t;
    if digits != [] && AllDigits(digits) && DecimalValue(digits) < 256 then Some(DecimalValue(digits))
    else None
  }

  /** Each numeral the numbered parser matches reads back as the power it names, inside the
      range of numbered figures. */
  lemma NumeralsParse(t: string)
    requires t in NUMBER_TAGS
    ensures ParseU8(t).Some?
    ensures MIN_NUMBER_FIGURE <= ParseU8(t).value <= MAX_NUMBER_FIGURE
    ensures Numeral(ParseU8(t).value) == t
  {
    assert "10"[..1] == "1";
    assert DecimalValue("1") == 1 by {
      assert "1"[..0] == [];
    }
    if t != "10" {
      assert |t| == 1 && t[..0] == [];
    }
  }

  /** `parse_numbered_figure`: the first numeral the input starts with, read as a number. The
      input a numeral matches always reads as a number in 2..=10, so the `Digit` and `Fail`
      branches are never taken and every error is the `Tag` error of the last numeral. */
  function ParseNumberedFigure(s: string): (r: IResult<Figure>)
    ensures r.Err? <==> forall t :: t in NUMBER_TAGS ==> !(t <= s)
    ensures r.Err? ==> r.error == Error(s, Tag)
    ensures r.Ok? ==> r.value.1.Numbered? && Numeral(r.value.1.number.power) + r.value.0 == s
    ensures Consumes(r, s)
  {
    match AltTag(NUMBER_TAGS, s)
    case Err(e) => Err(e)
    case Ok((rem, t)) =>
      NumeralsParse(t);
      assert s[|s| - |rem|..] == rem by {
        assert s == t + rem;
      }
      match ParseU8(t)
      case Some(n) =>
        if MIN_NUMBER_FIGURE <= n <= MAX_NUMBER_FIGURE then Ok((rem, Numbered(NewNumberFigure(n))))
        else Err(Error(s, Digit))
      case None => Err(Error(s, Fail))
  }

  // ---------------------------------------------------------------------------------------------
  // Any figure

  /** The input starts with something a figure parser accepts: a figure's letter (either
      case), a digit 2..9, or "10". */
  predicate StartsFigure(s: string)
  {
    s != [] && (Lower(s[0]) == 't' || Lower(s[0]) == 'a' || Lower(s[0]) == 'k' ||
                Lower(s[0]) == 'q' || Lower(s[0]) == 'j' || '2' <= s[0] <= '9' || "10" <= s)
  }

  /** The numbered parser accepts exactly the inputs starting with a digit 2..9 or with
      "10". */
  lemma NumberedAccepts(s: string)
    ensures ParseNumberedFigure(s).Ok? <==> s != [] && ('2' <= s[0] <= '9' || "10" <= s)
  {
    if s != [] && '2' <= s[0] <= '9' {
      DigitIsTag(s[0]);
      assert [s[0]] <= s;
    }
    if ParseNumberedFigure(s).Ok? {
      var t :| t in NUMBER_TAGS && t <= s;
      TagShape(t);
      assert t[0] == s[0];
    }
  }

  /** Every digit 2..9 is a numeral tag on its own. */
  lemma DigitIsTag(c: char)
    requires '2' <= c <= '9'
    ensures [c] in NUMBER_TAGS
  {
    if c == '2' { assert NUMBER_TAGS[8] == [c]; }
    else if c == '3' { assert NUMBER_TAGS[7] == [c]; }
    else if c == '4' { assert NUMBER_TAGS[6] == [c]; }
    else if c == '5' { assert NUMBER_TAGS[5] == [c]; }
    else if c == '6' { assert NUMBER_TAGS[4] == [c]; }
    else if c == '7' { assert NUMBER_TAGS[3] == [c]; }
    else if c == '8' { assert NUMBER_TAGS[2] == [c]; }
    else { assert NUMBER_TAGS[1] == [c]; }
  }

  /** The numeral tags are "10" and the single digits 2..9. */
  lemma TagShape(t: string)
    requires t in NUMBER_TAGS
    ensures t == "10" || (|t| == 1 && '2' <= t[0] <= '9')
  {
  }

  /** `parse_high_figure`: ten, numbered, ace, king, queen, jack, in that order; the first
      that succeeds, else the jack's error. */
  function ParseHighFigure(s: string): (r: IResult<Figure>)
    ensures r.Ok? <==> StartsFigure(s)
    ensures r.Err? ==> r.error == Error(s, Tag)
    ensures Consumes(r, s)
  {
    NumberedAccepts(s);
    match ParseTen(s)
    case Ok(v) => Ok(v)
    case Err(_) =>
      match ParseNumberedFigure(s)
      case Ok(v) => Ok(v)
      case Err(_) =>
        match ParseAce(s)
        case Ok(v) => Ok(v)
        case Err(_) =>
          match ParseKing(s)
          case Ok(v) => Ok(v)
          case Err(_) =>
            match ParseQueen(s)
            case Ok(v) => Ok(v)
            case Err(_) => ParseJack(s)
  }

  /** `parse_figure`: `alt((parse_high_figure, parse_numbered_figure))`. */
  function ParseFigure(s: string): (r: IResult<Figure>)
    ensures r.Ok? <==> StartsFigure(s)
    ensures r.Err? ==> r.error == Error(s, Tag)
    ensures Consumes(r, s)
  {
    NumberedAccepts(s);
    match ParseHighFigure(s)
    case Ok(v) => Ok(v)
    case Err(_) => ParseNumberedFigure(s)
  }

  /** The second alternative of `parse_figure` is never reached with success: every input the
      numbered parser accepts the high-figure parser accepts first. */
  lemma ParseFigureIsHigh(s: string)
    ensures ParseFigure(s) == ParseHighFigure(s)
  {
  }

  // ---------------------------------------------------------------------------------------------
  // Round trips

  /** The letter of an honour or the ten, and the numeral of another numbered figure: the
      short form the dotted hand format uses. */
  function ShortForm(f: Figure): string
  {
    match f
    case Ace => "A"
    case King => "K"
    case Queen => "Q"
    case Jack => "J"
    case Numbered(n) => if n.power == 10 then "T" else Numeral(n.power)
  }

  /** A short form is a single character. */
  lemma ShortFormIsOneChar(figure: Figure)
    ensures |ShortForm(figure)| == 1 && ShortForm(figure) == [ShortForm(figure)[0]]
  {
  }

  /** The full word of an honour or the ten, the numeral of another numbered figure. */
  function Word(f: Figure): string
  {
    match f
    case Ace => "ace"
    case King => "king"
    case Queen => "queen"
    case Jack => "jack"
    case Numbered(n) => if n.power == 10 then "ten" else Numeral(n.power)
  }

  /** The figure is a numeral 2..9, or what follows its letter does not complete its word. */
  predicate Separated(f: Figure, rest: string)
  {
    (f.Numbered? && f.number.power != 10) || !PrefixNoCase(Word(f)[1..], rest)
  }

  /** A numeral is read back as its number, whatever follows. */
  lemma NumberedNumeral(p: NumberPower, rest: string)
    ensures ParseNumberedFigure(Numeral(p) + rest) == Ok((rest, F(p)))
  {
    var s := Numeral(p) + rest;
    NumberedAccepts(s);
    if p == 10 {
      assert s[..2] == "10";
    } else {
      assert s[0] == Numeral(p)[0];
    }
    var r := ParseNumberedFigure(s);
    var q := r.value.1.number.power;
    assert s[0] == Numeral(q)[0] by {
      assert s == Numeral(q) + r.value.0;
    }
    assert q == p;
    assert r.value.0 == rest by {
      assert Numeral(q) + r.value.0 == Numeral(p) + rest;
    }
  }

  /** Which alternative of `parse_figure` answers, by the first character of the input. */
  lemma Dispatch(s: string)
    ensures s != [] && Lower(s[0]) == 't' ==> ParseFigure(s) == ParseTen(s)
    ensures s != [] && Lower(s[0]) == 'a' ==> ParseFigure(s) == ParseAce(s)
    ensures s != [] && Lower(s[0]) == 'k' ==> ParseFigure(s) == ParseKing(s)
    ensures s != [] && Lower(s[0]) == 'q' ==> ParseFigure(s) == ParseQueen(s)
    ensures s != [] && Lower(s[0]) == 'j' ==> ParseFigure(s) == ParseJack(s)
    ensures s != [] && IsDigit(s[0]) ==> ParseFigure(s) == ParseNumberedFigure(s)
  {
    ParseFigureIsHigh(s);
    if s != [] {
      if IsDigit(s[0]) {
        DispatchDigit(s);
      } else if Lower(s[0]) != 't' {
        DispatchHonour(s);
      }
    }
  }

  /** An input starting with a digit is not the ten's and goes to the numbered parser. */
  lemma DispatchDigit(s: string)
    requires s != [] && IsDigit(s[0])
    ensures ParseHighFigure(s) == ParseNumberedFigure(s)
  {
    assert Lower(s[0]) == s[0];
    NumberedAccepts(s);
  }

  /** An input starting with neither a digit nor a `t` passes the ten and numbered parsers
      and goes to the honours in turn. */
  lemma DispatchHonour(s: string)
    requires s != [] && !IsDigit(s[0]) && Lower(s[0]) != 't'
    ensures Lower(s[0]) == 'a' ==> ParseHighFigure(s) == ParseAce(s)
    ensures Lower(s[0]) == 'k' ==> ParseHighFigure(s) == ParseKing(s)
    ensures Lower(s[0]) == 'q' ==> ParseHighFigure(s) == ParseQueen(s)
    ensures Lower(s[0]) == 'j' ==> ParseHighFigure(s) == ParseJack(s)
  {
    NumberedAccepts(s);
    assert ParseTen(s).Err? && ParseNumberedFigure(s).Err?;
  }

  /** A numeral 2..10 is read by `parse_figure` as that numbered figure, whatever follows. */
  lemma ParseFigureNumeral(p: NumberPower, rest: string)
    ensures ParseFigure(Numeral(p) + rest) == Ok((rest, F(p)))
  {
    var s := Numeral(p) + rest;
    assert s[0] == Numeral(p)[0];
    Dispatch(s);
    NumberedNumeral(p, rest);
  }

  /** A figure's short form, in either case, is read back as that figure, provided the text
      after a letter does not spell out the rest of the word. */
  lemma ParseFigureSymbol(f: Figure, c: char, rest: string)
    requires Lower(c) == Lower(ShortForm(f)[0]) && Separated(f, rest)
    ensures ParseFigure([c] + rest) == Ok((rest, f))
  {
    var s := [c] + rest;
    assert s[0] == c;
    Dispatch(s);
    if f.Numbered? && f.number.power != 10 {
      assert c == ShortForm(f)[0];
      assert s == ShortForm(f) + rest;
      NumberedNumeral(f.number.power, rest);
    } else {
      assert s[1..] == rest;
      assert Lower(c) == Word(f)[0];
      assert !PrefixNoCase(Word(f), s);
    }
  }

  /** A figure's full word is read back as that figure, whatever follows. */
  lemma ParseFigureWord(f: Figure, rest: string)
    ensures ParseFigure(Word(f) + rest) == Ok((rest, f))
  {
    var s := Word(f) + rest;
    assert s[0] == Word(f)[0];
    Dispatch(s);
    if f.Numbered? && f.number.power != 10 {
      NumberedNumeral(f.number.power, rest);
    } else {
      PrefixIsPrefixNoCase(Word(f), s);
      assert s[|Word(f)|..] == rest;
    }
  }

  // ---------------------------------------------------------------------------------------------
  // Repetition

  /** `fold_many0(parse_figure, ..)` collecting into a vector: the figures parsed one after
      another until the parser fails, and the input left at that point. */
  function FigureRun(s: string): (r: (seq<Figure>, string))
    ensures IsSuffix(r.1, s)
    ensures ParseFigure(r.1).Err?
    decreases |s|
  {
    match ParseFigure(s)
    case Err(_) => ([], s)
    case Ok((i, f)) =>
      var (fs, rest) := FigureRun(i);
      ([f] + fs, rest)
  }

  // ---------------------------------------------------------------------------------------------
  // Documented examples

  /** `parse_ace` takes the whole word when present, whatever its case, and fails with the
      input when there is no ace. */
  lemma ParseAceExamples()
    ensures ParseAce("acedd") == Ok(("dd", Ace))
    ensures ParseAce("aCe dd") == Ok((" dd", Ace))
    ensures ParseAce("qd dd") == Err(Error("qd dd", Tag))
  {
    PrefixNoCaseAt("ace", "acedd");
    PrefixNoCaseAt("ace", "aCe dd");
    assert "acedd"[3..] == "dd";
    assert "aCe dd"[3..] == " dd";
  }

  /** "10" is tried before the digits. */
  lemma NumberedTenExample(s: string)
    requires s == "10fg"
    ensures ParseNumberedFigure(s) == Ok(("fg", F(10)))
  {
    assert s == Numeral(10) + "fg";
    NumberedNumeral(10, "fg");
  }

  /** A lone "1" is no numeral. */
  lemma NumberedElevenExample(s: string)
    requires s == "11fg"
    ensures ParseNumberedFigure(s) == Err(Error("11fg", Tag))
  {
    NumberedAccepts(s);
  }

  /** Only one digit is taken. */
  lemma NumberedFiveExample(s: string)
    requires s == "512fg"
    ensures ParseNumberedFigure(s) == Ok(("12fg", F(5)))
  {
    assert s == Numeral(5) + "12fg";
    NumberedNumeral(5, "12fg");
  }

  /** A lower-case "t" is the ten. */
  lemma HighTenExample(s: string)
    requires s == "tfg"
    ensures ParseHighFigure(s) == Ok(("fg", F(10)))
  {
    assert s == ['t'] + "fg";
    ParseFigureSymbol(F(10), 't', "fg");
    ParseFigureIsHigh(s);
  }

  /** `parse_figure` takes a king's letter and leaves the rest. */
  lemma FigureKingExample(s: string)
    requires s == "kc"
    ensures ParseFigure(s) == Ok(("c", King))
  {
    assert s == ['k'] + "c";
    ParseFigureSymbol(King, 'k', "c");
  }

  /** A queen's letter followed by a suit's name. */
  lemma FigureQueenExample(s: string)
    requires s == "qdiamonds"
    ensures ParseFigure(s) == Ok(("diamonds", Queen))
  {
    assert s == ['q'] + "diamonds";
    ParseFigureSymbol(Queen, 'q', "diamonds");
  }

  /** A digit followed by letters. */
  lemma FigureNineExample(s: string)
    requires s == "9hggg"
    ensures ParseFigure(s) == Ok(("hggg", F(9)))
  {
    assert s == ['9'] + "hggg";
    ParseFigureSymbol(F(9), '9', "hggg");
  }

  /** No figure starts with "d": the error carries the whole input. */
  lemma FigureFailExample(s: string)
    requires s == "deadfish"
    ensures ParseFigure(s) == Err(Error("deadfish", Tag))
  {
    assert s[0] == 'd';
  }

  /** A run starting with a figure's short form starts with that figure. */
  lemma FigureRunSymbol(f: Figure, c: char, rest: string)
    requires Lower(c) == Lower(ShortForm(f)[0]) && Separated(f, rest)
    ensures FigureRun([c] + rest) == ([f] + FigureRun(rest).0, FigureRun(rest).1)
  {
    ParseFigureSymbol(f, c, rest);
    FigureRunStep([c] + rest, rest, f);
  }

  /** One step of the run. */
  lemma FigureRunStep(s: string, rest: string, f: Figure)
    requires ParseFigure(s) == Ok((rest, f))
    ensures FigureRun(s) == ([f] + FigureRun(rest).0, FigureRun(rest).1)
  {
  }

  /** The short forms of a sequence of figures, written one after another. */
  function ShortForms(fs: seq<Figure>): (t: string)
    ensures |t| == |fs|
  {
    if fs == [] then [] else ShortForm(fs[0]) + ShortForms(fs[1..])
  }

  /** The text ends a run of figures: it is empty or starts with neither a letter nor a
      digit. */
  predicate EndsRun(rest: string)
  {
    rest == [] || !('a' <= Lower(rest[0]) <= 'z' || IsDigit(rest[0]))
  }

  /** The text does not start with the second letter of any figure's word. */
  predicate NoWordTail(t: string)
  {
    t == [] || (Lower(t[0]) != 'c' && Lower(t[0]) != 'i' && Lower(t[0]) != 'u' && Lower(t[0]) != 'e')
  }

  /** Short forms followed by the end of a run never continue a figure's word. */
  lemma ShortFormsNoWordTail(fs: seq<Figure>, rest: string)
    requires EndsRun(rest)
    ensures NoWordTail(ShortForms(fs) + rest)
  {
    if fs != [] {
      assert (ShortForms(fs) + rest)[0] == ShortForm(fs[0])[0];
    }
  }

  /** A figure's short form is separated from what follows when that is other short forms and
      then the end of the run. */
  lemma ShortFormSeparated(f: Figure, fs: seq<Figure>, rest: string)
    requires EndsRun(rest)
    ensures Separated(f, ShortForms(fs) + rest)
  {
    if f == Jack {
      JackSeparated(fs, rest);
    } else {
      ShortFormsNoWordTail(fs, rest);
    }
  }

  /** The jack's word continues with "ack", and an "a" among short forms is an ace's, which is
      never followed by a "c". */
  lemma JackSeparated(fs: seq<Figure>, rest: string)
    requires EndsRun(rest)
    ensures Separated(Jack, ShortForms(fs) + rest)
  {
    var t := ShortForms(fs) + rest;
    assert Word(Jack)[1..] == "ack";
    if fs != [] && Lower(t[0]) == 'a' {
      ShortFormFirst(fs, rest);
      ShortFormsNoWordTail(fs[1..], rest);
      assert t[1..] == ShortForms(fs[1..]) + rest;
    }
  }

  /** Nothing is parsed at the end of a run. */
  lemma FigureRunEnd(rest: string)
    requires EndsRun(rest)
    ensures FigureRun(rest) == ([], rest)
  {
    assert !StartsFigure(rest);
  }

  /** A one-character string in front of a concatenation. */
  lemma ConsAssoc(h: string, t: string, rest: string)
    requires |h| == 1
    ensures (h + t) + rest == [h[0]] + (t + rest)
  {
    assert h == [h[0]];
  }

  /** Short forms start with the first figure's single character. */
  lemma ShortFormFirst(fs: seq<Figure>, rest: string)
    requires fs != []
    ensures ShortForms(fs) + rest == [ShortForm(fs[0])[0]] + (ShortForms(fs[1..]) + rest)
  {
    ShortFormIsOneChar(fs[0]);
    ConsAssoc(ShortForm(fs[0]), ShortForms(fs[1..]), rest);
  }

  /** The first of several short forms is parsed first. */
  lemma FigureRunShortFormsStep(fs: seq<Figure>, rest: string)
    requires fs != [] && EndsRun(rest)
    ensures var tail := FigureRun(ShortForms(fs[1..]) + rest);
            FigureRun(ShortForms(fs) + rest) == ([fs[0]] + tail.0, tail.1)
  {
    ShortFormFirst(fs, rest);
    ShortFormSeparated(fs[0], fs[1..], rest);
    FigureRunSymbol(fs[0], ShortForm(fs[0])[0], ShortForms(fs[1..]) + rest);
  }

  /** Short forms up to the end of a run are read back, by repeated parsing, as the figures they
      stand for. */
  lemma {:induction false} FigureRunShortForms(fs: seq<Figure>, rest: string)
    requires EndsRun(rest)
    ensures FigureRun(ShortForms(fs) + rest) == (fs, rest)
    decreases |fs|
  {
    if fs == [] {
      assert ShortForms(fs) + rest == rest;
      FigureRunEnd(rest);
    } else {
      FigureRunShortFormsStep(fs, rest);
      FigureRunShortForms(fs[1..], rest);
      assert [fs[0]] + fs[1..] == fs;
    }
  }

  /** Repeated parsing of "AT86." gives the ace, ten, eight and six and stops at the dot. */
  lemma FigureRunExample(s: string)
    requires s == "AT86."
    ensures FigureRun(s) == ([Ace, F(10), F(8), F(6)], ".")
  {
    var fs := [Ace, F(10), F(8), F(6)];
    assert s == ShortForms(fs) + ".";
    FigureRunShortForms(fs, ".");
  }
}
