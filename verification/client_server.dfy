/** How the browser's checks (app.js) and the server's checks (api.php) relate. The two
    are written separately and differ in their string primitives: JavaScript trims the
    Unicode white space and counts UTF-16 units, PHP trims six ASCII characters and counts
    bytes. On "portable" text (ASCII without NUL and form feed) the codigo, nombre and talla
    rules fire in the same cases with the same meaning. The price rules agree exactly on the
    prices both sides read alike, and differ on a whitespace-only price and on text only
    JavaScript takes for a number ("Infinity", "0x10"). The email rules are not compared,
    because the server delegates to filter_var. */
module ClientServer {
  import opened Text
  import opened Wrappers
  import opened ProductData
  import opened ProductClient
  import opened ProductApi

  /** The browser's message for the rule a server complaint reports. */
  function ClientMessage(c: Complaint): string {
    match c
    case CodigoRequired => MsgCodigoRequired
    case CodigoWrongLength => MsgCodigoLength
    case NombreRequired => MsgNombreRequired
    case NombreTooLong => MsgNombreLength
    case TallaRequired => MsgTallaRequired
    case TallaNotAllowed => MsgTallaInvalid
    case PrecioRequired => MsgPrecioRequired
    case PrecioNotNumber => MsgPrecioNotNumber
    case PrecioNotPositive => MsgPrecioNotPositive
    case EmailRequired => MsgEmailRequired
    case EmailNotValid => MsgEmailFormat
  }

  /** A server verdict read as the browser would word it. */
  function AsClient(c: Option<Complaint>): Option<string> {
    match c
    case None => None
    case Some(k) => Some(ClientMessage(k))
  }

  /** A field the user filled with portable text only (or left out). */
  predicate PortableField(f: Field) {
    f.Given? ==> AllPortable(f.text)
  }

  /** Trimming keeps text portable: the result is a piece of the input. */
  lemma TrimmedPortable(s: string)
    requires AllPortable(s)
    ensures AllPortable(JsTrim(s))
  {
    TrimIsSlice(s, IsJsSpace);
    var t := JsTrim(s);
    var i :| OccursAt(t, s, i);
    forall k | 0 <= k < |t| ensures IsPortable(t[k]) {
      assert t[k] == s[i + k];
    }
  }

  /** Both sides trim a portable text to the same ASCII text, whose length both count
      as its number of characters. */
  lemma PortableTrim(s: string)
    requires AllPortable(s)
    ensures JsTrim(s) == PhpTrim(s)
    ensures Utf16Length(JsTrim(s)) == |JsTrim(s)| == Utf8Length(PhpTrim(s))
  {
    PortableTrimsAgree(s);
    TrimmedPortable(s);
    AsciiLengths(JsTrim(s));
  }

  lemma CodigoAgrees(f: Field)
    requires PortableField(f)
    ensures CodigoError(f) == AsClient(CodigoCheck(f))
  {
    if f.Given? {
      PortableTrim(f.text);
    }
  }

  lemma NombreAgrees(f: Field)
    requires PortableField(f)
    ensures NombreError(f) == AsClient(NombreCheck(f))
  {
    if f.Given? {
      PortableTrim(f.text);
    }
  }

  /** The browser upper-cases and then trims, the server trims and then upper-cases; on
      portable text both reach the same size name. */
  lemma TallaAgrees(f: Field)
    requires PortableField(f)
    ensures TallaError(f) == AsClient(TallaCheck(f))
  {
    if f.Given? {
      var s := f.text;
      PortableTrim(s);
      TrimUpperCommute(s);
      TrimmedPortable(s);
      AsciiUppersAgree(JsTrim(s));
      assert JsTrim(ToUpper(s)) == AsciiUpper(PhpTrim(s));
      assert AllowedSizes == ServerSizes;
    }
  }

  /** A price text both sides read alike: neither whitespace only nor a number for
      JavaScript alone. */
  predicate SharedReading(p: Price) {
    !p.PriceWhitespace? && !p.PriceJsOnly?
  }

  /** The price rules give the same verdict, with the same meaning, exactly on the prices
      both sides read alike. */
  lemma PrecioAgrees(p: Price)
    ensures PrecioError(p) == AsClient(PrecioCheck(p)) <==> SharedReading(p)
  {
  }

  /** A whitespace-only price passes the browser and is refused by the server. */
  lemma WhitespacePriceDiverges()
    ensures PrecioError(PriceWhitespace) == None
    ensures PrecioCheck(PriceWhitespace) == Some(PrecioNotNumber)
  {
  }

  /** A price only JavaScript reads as a number is refused by the server as "not a number",
      while the browser lets "Infinity" through and calls "0x10" or "-Infinity" not above 0. */
  lemma JsOnlyPriceDiverges(positive: bool)
    ensures PrecioCheck(PriceJsOnly(positive)) == Some(PrecioNotNumber)
    ensures PrecioError(PriceJsOnly(positive)) ==
      if positive then None else Some(MsgPrecioNotPositive)
  {
  }

  /** A form feed in front of a code: JavaScript's trim strips it and PHP's keeps it, so the
      browser accepts "\fCAM-00123" while the server counts ten bytes. */
  lemma FormFeedCodigoDiverges()
    ensures CodigoError(Given("\U{000C}CAM-00123")) == None
    ensures CodigoCheck(Given("\U{000C}CAM-00123")) == Some(CodigoWrongLength)
  {
    var s := "CAM-00123";
    var fed := "\U{000C}CAM-00123";
    assert fed[1..] == s;
    TrimUnpadded(s, IsJsSpace);
    assert JsTrim(fed) == s;
    AsciiLengths(s);
    TrimUnpadded(fed, IsPhpSpace);
    AsciiLengths(fed);
  }

  /** A NUL after a code: PHP's trim strips it and JavaScript's keeps it, so the server
      accepts "CAM-00123\0" while the browser counts ten characters. */
  lemma NulCodigoDiverges()
    ensures CodigoError(Given("CAM-00123\0")) == Some(MsgCodigoLength)
    ensures CodigoCheck(Given("CAM-00123\0")) == None
  {
    var s := "CAM-00123";
    var ended := "CAM-00123\0";
    assert ended[..|ended| - 1] == s;
    TrimUnpadded(ended, IsJsSpace);
    AsciiLengths(ended);
    TrimUnpadded(s, IsPhpSpace);
    assert TrimStart(ended, IsPhpSpace) == ended;
    assert PhpTrim(ended) == s;
    AsciiLengths(s);
  }

  /** Where the server's email test were the browser's pattern, a portable form whose price
      both sides read alike would be accepted by one side exactly when by the other. */
  lemma FormsAgree(d: ProductInput, acceptsEmail: string -> bool)
    requires PortableField(d.codigo) && PortableField(d.nombre) && PortableField(d.talla)
    requires PortableField(d.emailCreador) && SharedReading(d.precio)
    requires forall x :: acceptsEmail(x) == EmailTest(x)
    ensures ValidateForm(d).valid <==> Complaints(d, acceptsEmail) == []
  {
    CodigoAgrees(d.codigo);
    NombreAgrees(d.nombre);
    TallaAgrees(d.talla);
    PrecioAgrees(d.precio);
    if d.emailCreador.Given? {
      PortableTrim(d.emailCreador.text);
    }
    ValidIffAcceptable(d);
    NoComplaintsIffAcceptable(d, acceptsEmail);
    CodigoRule(d.codigo);
    NombreRule(d.nombre);
    TallaRule(d.talla);
    PrecioRule(d.precio);
    EmailRule(d.emailCreador);
    CodigoCheckRule(d.codigo);
    NombreCheckRule(d.nombre);
    TallaCheckRule(d.talla);
    PrecioCheckRule(d.precio);
    EmailCheckRule(d.emailCreador, acceptsEmail);
  }

  /** The id the browser puts in a search URL is the id the server reads back from it. */
  lemma SearchUrlRoundTrip(id: nat)
    ensures IdUrl(id)[..11] == "api.php?id="
    ensures RequestId(Some(IdUrl(id)[11..])) == Some(id)
  {
    assert IdUrl(id)[11..] == DecimalText(id);
    IdRoundTrip(id);
  }
}
