/** The library's error values (`CardError` and `CardSetErrorGen`); plain data, no logic. */
module Errors {

  /** Errors of symbol decoding (karty/src/error/card.rs). */
  datatype CardError =
    | WrongSuitPosition(suitPosition: nat)
    | WrongFigurePosition(figurePosition: nat)
    | WrongPosition(position: nat)
    | WrongMaskFormat
    | MaskSpaceViolated
    | ParseError

  /** Errors of card-set operations (karty/src/error/card_set.rs), generic in the card type.
      `ExpectedEqualCardSets` is not raised anywhere in the modelled code and is left out. */
  datatype CardSetErrorGen<C> =
    | CardNotInSet(missing: C)
    | EmptyHand
    | HandFull
    | CardDuplicated(duplicate: C)
    | HandNotInitialised
    | DifferentLengths(left: nat, right: nat)
    | SetParseError
}
