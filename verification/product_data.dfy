/** The product record as it travels from the form to the API: five named fields. The
    browser sends them as strings, the server reads them from decoded JSON. */
module ProductData {

  /** A text field: absent (undefined or null in JavaScript, unset or null in PHP) or a string. */
  datatype Field = Missing | Given(text: string)

  /** The price field, classified by the number readings the two sides apply to it
      (JavaScript's isNaN, which goes through Number, and parseFloat; PHP's is_numeric and
      `(float)`):
      - PriceMissing: undefined or null;
      - PriceEmpty: the empty string;
      - PriceWhitespace: a non-empty string of whitespace only, which Number reads as 0 and
        parseFloat as NaN, and which is_numeric rejects;
      - PriceJsOnly(positive): text that Number reads as a number but is_numeric rejects:
        "Infinity" and "-Infinity", the "0x", "0o" and "0b" integer literals, and a decimal
        numeral padded with white space PHP does not skip (such as U+00A0); `positive` says
        whether parseFloat reads a value above 0 from it (it reads 0 from "0x10");
      - PriceNotNumber: any other text that neither side reads as a number;
      - PriceNumber(value): a decimal numeral both sides accept, and the value Number,
        parseFloat and `(float)` all read from it. */
  datatype Price =
    | PriceMissing | PriceEmpty | PriceWhitespace | PriceJsOnly(positive: bool)
    | PriceNotNumber | PriceNumber(value: real)

  datatype ProductInput = ProductInput(codigo: Field, nombre: Field, talla: Field, precio: Price, emailCreador: Field)

  /** The five fields, in the order both validators check them. */
  datatype FieldName = Codigo | Nombre | Talla | Precio | EmailCreador

  /** The text of a present field; the empty string for an absent one. */
  function TextOf(f: Field): string {
    if f.Given? then f.text else ""
  }
}
