/** The messages `OurReader` can record, one constructor per message text. */
module ReaderErrors {
  datatype ErrorKind =
    | ValueExpected
    | MissingNameOrBrace
    | MissingColon
    | DuplicateKey
    | MissingCommaOrBrace
    | MissingCommaOrBracket
    | NotANumber
    | EmptyEscape
    | BadEscape
    | FourDigitsExpected
    | HexDigitExpected
    | SixCharactersExpected
    | SecondHalfExpected
    | ExtraAfterValue
    | RootNotContainer
}
