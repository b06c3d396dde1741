/** The browser side of the clothing-shop CRUD page (app.js): the CONFIG constants, the
    VALIDACION module that checks the product form before anything is sent, and the two
    decisions of the APP controller that depend on it: whether a search by id is sent,
    and whether saving the form sends nothing, a PUT or a POST. */
module ProductClient {
  import opened Text
  import opened Wrappers
  import opened ProductData

  // ---------------------------------------------------------------- CONFIG

  const ApiUrl: string := "api.php"
  const AllowedSizes: seq<string> := ["S", "M", "L", "XL", "XXL"]
  const CodeLength: nat := 9
  const MaxName: nat := 100

  // ---------------------------------------------------------------- messages

  const MsgCodigoRequired: string := "El código es obligatorio"
  const MsgCodigoLength: string := "El código debe tener exactamente 9 caracteres"
  const MsgNombreRequired: string := "El nombre es obligatorio"
  const MsgNombreLength: string := "El nombre no puede superar los 100 caracteres"
  const MsgTallaRequired: string := "La talla es obligatoria"
  const MsgTallaInvalid: string := "La talla debe ser: S, M, L, XL, XXL"
  const MsgPrecioRequired: string := "El precio es obligatorio"
  const MsgPrecioNotNumber: string := "El precio debe ser un número válido"
  const MsgPrecioNotPositive: string := "El precio debe ser mayor que 0"
  const MsgEmailRequired: string := "El email es obligatorio"
  const MsgEmailFormat: string := "El formato del email no es válido"

  /** The length message is built from CONFIG.LONGITUD_CODIGO. */
  lemma CodeLengthMessage()
    ensures MsgCodigoLength == "El código debe tener exactamente " + DecimalText(CodeLength) + " caracteres"
  {
    assert DecimalText(CodeLength) == "9";
  }

  /** The size message lists CONFIG.TALLAS_PERMITIDAS joined with ", ". */
  lemma SizesMessage()
    ensures MsgTallaInvalid == "La talla debe ser: " + Join(AllowedSizes, ", ")
  {
    assert Join(AllowedSizes, ", ") == "S, M, L, XL, XXL";
  }

  // ---------------------------------------------------------------- the e-mail pattern

  /** A character of the class `[^\s@]`. */
  predicate EmailChar(c: char) {
    !IsJsSpace(c) && c != '@'
  }

  /** The language of /^[^\s@]+@[^\s@]+\.[^\s@]+$/: a non-empty run of EmailChar, '@', a
      non-empty run, '.', a non-empty run. With `at` and `dot` the positions of the two
      literals, every other position holds an EmailChar. */
  ghost predicate InEmailLanguage(s: string) {
    exists at: int, dot: int | 0 < at && at + 1 < dot && dot + 1 < |s| ::
      s[at] == '@' && s[dot] == '.' && forall k | 0 <= k < |s| && k != at :: EmailChar(s[k])
  }

  /** The regular-expression test as a scan of the text: exactly one '@', not in first
      place, no whitespace, and a '.' after it that is neither right after the '@' nor last. */
  function EmailTest(s: string): bool {
    var at := IndexOf(s, '@');
    && 0 < at && at + 3 < |s|
    && (forall k | at < k < |s| :: s[k] != '@')
    && (forall k | 0 <= k < |s| :: !IsJsSpace(s[k]))
    && (exists k | at + 1 < k < |s| - 1 :: s[k] == '.')
  }

  /** The scan accepts exactly the strings of the pattern's language. */
  lemma EmailTestIsPattern(s: string)
    ensures EmailTest(s) <==> InEmailLanguage(s)
  {
    var at := IndexOf(s, '@');
    if EmailTest(s) {
      var dot :| at + 1 < dot < |s| - 1 && s[dot] == '.';
      assert forall k | 0 <= k < |s| && k != at :: EmailChar(s[k]);
      assert 0 < at && at + 1 < dot && dot + 1 < |s| && s[at] == '@' && s[dot] == '.';
    }
    if InEmailLanguage(s) {
      var a, dot :| 0 < a && a + 1 < dot && dot + 1 < |s| && s[a] == '@' && s[dot] == '.'
        && forall k | 0 <= k < |s| && k != a :: EmailChar(s[k]);
      assert at == a by {
        assert at <= a;
        assert at < |s| ==> s[at] == '@';
      }
      assert at + 1 < dot < |s| - 1 && s[dot] == '.';
    }
  }

  // ---------------------------------------------------------------- per-field rules

  function CodigoError(f: Field): Option<string> {
    if f.Missing? || JsTrim(f.text) == "" then Some(MsgCodigoRequired)
    else if Utf16Length(JsTrim(f.text)) != CodeLength then Some(MsgCodigoLength)
    else None
  }

  function NombreError(f: Field): Option<string> {
    if f.Missing? || JsTrim(f.text) == "" then Some(MsgNombreRequired)
    else if Utf16Length(JsTrim(f.text)) > MaxName then Some(MsgNombreLength)
    else None
  }

  /** The size is upper-cased first and trimmed afterwards, as the page does. */
  function TallaError(f: Field): Option<string> {
    if f.Missing? || JsTrim(f.text) == "" then Some(MsgTallaRequired)
    else if JsTrim(ToUpper(f.text)) !in AllowedSizes then Some(MsgTallaInvalid)
    else None
  }

  /** Empty or absent, then `isNaN`, then `parseFloat(...) <= 0`. A whitespace-only price is
      a number for `isNaN` (it reads as 0) and NaN for `parseFloat`, so no branch fires. */
  function PrecioError(p: Price): Option<string> {
    match p
    case PriceMissing => Some(MsgPrecioRequired)
    case PriceEmpty => Some(MsgPrecioRequired)
    case PriceNotNumber => Some(MsgPrecioNotNumber)
    case PriceWhitespace => None
    case PriceJsOnly(positive) => if positive then None else Some(MsgPrecioNotPositive)
    case PriceNumber(v) => if v <= 0.0 then Some(MsgPrecioNotPositive) else None
  }

  function EmailError(f: Field): Option<string> {
    if f.Missing? || JsTrim(f.text) == "" then Some(MsgEmailRequired)
    else if !EmailTest(JsTrim(f.text)) then Some(MsgEmailFormat)
    else None
  }

  function FieldError(d: ProductInput, n: FieldName): Option<string> {
    match n
    case Codigo => CodigoError(d.codigo)
    case Nombre => NombreError(d.nombre)
    case Talla => TallaError(d.talla)
    case Precio => PrecioError(d.precio)
    case EmailCreador => EmailError(d.emailCreador)
  }

  // ---------------------------------------------------------------- validarFormulario

  /** The result object `{valido, errores}`. */
  datatype Validation = Validation(valid: bool, errors: map<FieldName, string>)

  /** `errores[n] = message` when a rule fired. */
  function Record(errors: map<FieldName, string>, n: FieldName, e: Option<string>): map<FieldName, string> {
    if e.Some? then errors[n := e.value] else errors
  }

  /** The result object built from the five rules' outcomes, recorded in checking order:
      codigo, nombre, talla, precio, email_creador. */
  function Gather(o1: Option<string>, o2: Option<string>, o3: Option<string>,
                  o4: Option<string>, o5: Option<string>): (v: Validation)
    ensures v.valid <==> v.errors == map[]
  {
    var e0: map<FieldName, string> := map[];
    var e1 := Record(e0, Codigo, o1);
    var e2 := Record(e1, Nombre, o2);
    var e3 := Record(e2, Talla, o3);
    var e4 := Record(e3, Precio, o4);
    var e5 := Record(e4, EmailCreador, o5);
    assert e5 != map[] ==> |e5| != 0 by {
      if e5 != map[] {
        var n :| n in e5;
        assert n in e5.Keys;
      }
    }
    Validation(|e5| == 0, e5)
  }

  /** VALIDACION.validarFormulario: each field is checked once and a failing field gets
      one message; `valido` is whether no message was recorded. */
  function ValidateForm(d: ProductInput): (v: Validation)
    ensures v.valid <==> v.errors == map[]
  {
    Gather(CodigoError(d.codigo), NombreError(d.nombre), TallaError(d.talla),
           PrecioError(d.precio), EmailError(d.emailCreador))
  }

  /** The message ValidateForm reports for field n, if any. */
  function ErrorAt(v: Validation, n: FieldName): Option<string> {
    if n in v.errors then Some(v.errors[n]) else None
  }

  /** The outcome among o1..o5 that belongs to field n. */
  function Pick(o1: Option<string>, o2: Option<string>, o3: Option<string>,
                o4: Option<string>, o5: Option<string>, n: FieldName): Option<string> {
    match n
    case Codigo => o1
    case Nombre => o2
    case Talla => o3
    case Precio => o4
    case EmailCreador => o5
  }

  /** Recording an outcome for m changes the slot of m only, and only when a rule fired. */
  lemma RecordAt(e: map<FieldName, string>, m: FieldName, o: Option<string>, n: FieldName)
    ensures var r := Record(e, m, o);
      && (n in r <==> n in e || (n == m && o.Some?))
      && (n in r ==> r[n] == if n == m && o.Some? then o.value else e[n])
  {
  }

  /** Each field's slot of the gathered map holds that field's outcome and nothing else. */
  lemma GatherAt(o1: Option<string>, o2: Option<string>, o3: Option<string>,
                 o4: Option<string>, o5: Option<string>, n: FieldName)
    ensures ErrorAt(Gather(o1, o2, o3, o4, o5), n) == Pick(o1, o2, o3, o4, o5, n)
  {
    var e0: map<FieldName, string> := map[];
    var e1 := Record(e0, Codigo, o1);
    var e2 := Record(e1, Nombre, o2);
    var e3 := Record(e2, Talla, o3);
    var e4 := Record(e3, Precio, o4);
    RecordAt(e0, Codigo, o1, n);
    RecordAt(e1, Nombre, o2, n);
    RecordAt(e2, Talla, o3, n);
    RecordAt(e3, Precio, o4, n);
    RecordAt(e4, EmailCreador, o5, n);
  }

  /** errores holds, for each field, exactly the message of that field's rule, if it fired:
      one message at most per field, and none for a field that passes. */
  lemma ErrorsArePerField(d: ProductInput, n: FieldName)
    ensures ErrorAt(ValidateForm(d), n) == FieldError(d, n)
  {
    GatherAt(CodigoError(d.codigo), NombreError(d.nombre), TallaError(d.talla),
             PrecioError(d.precio), EmailError(d.emailCreador), n);
  }

  /** codigo passes exactly when it is present and its trimmed text is 9 UTF-16 units long;
      the blank case needs no rule of its own, since blank text has length 0. */
  lemma CodigoRule(f: Field)
    ensures CodigoError(f).None? <==> f.Given? && Utf16Length(JsTrim(f.text)) == CodeLength
  {
    if f.Given? && JsTrim(f.text) == "" {
      assert Utf16Length(JsTrim(f.text)) == 0;
    }
  }

  /** nombre passes exactly when its trimmed text is non-empty and at most 100 units long. */
  lemma NombreRule(f: Field)
    ensures NombreError(f).None? <==> f.Given? && 0 < Utf16Length(JsTrim(f.text)) <= MaxName
  {
    if f.Given? {
      var t := JsTrim(f.text);
      assert t == "" <==> Utf16Length(t) == 0;
    }
  }

  /** talla passes exactly when its trimmed, upper-cased text is one of S, M, L, XL, XXL. */
  lemma TallaRule(f: Field)
    ensures TallaError(f).None? <==> f.Given? && ToUpper(JsTrim(f.text)) in AllowedSizes
  {
    if f.Given? {
      TrimUpperCommute(f.text);
      if JsTrim(f.text) == "" {
        assert ToUpper(JsTrim(f.text)) == "";
      }
    }
  }

  /** precio: absent or empty gives "obligatorio", non-numeric gives "número válido", a
      number at most 0 gives "mayor que 0"; exactly one of them, and nothing otherwise. */
  lemma PrecioRule(p: Price)
    ensures (p.PriceMissing? || p.PriceEmpty?) ==> PrecioError(p) == Some(MsgPrecioRequired)
    ensures p.PriceNotNumber? ==> PrecioError(p) == Some(MsgPrecioNotNumber)
    ensures p.PriceNumber? && p.value <= 0.0 ==> PrecioError(p) == Some(MsgPrecioNotPositive)
    ensures p.PriceJsOnly? && !p.positive ==> PrecioError(p) == Some(MsgPrecioNotPositive)
    ensures PrecioError(p).None? <==>
      p.PriceWhitespace? || (p.PriceJsOnly? && p.positive) || (p.PriceNumber? && p.value > 0.0)
  {
  }

  /** email_creador passes exactly when its trimmed text is in the pattern's language. */
  lemma EmailRule(f: Field)
    ensures EmailError(f).None? <==> f.Given? && InEmailLanguage(JsTrim(f.text))
  {
    if f.Given? {
      var t := JsTrim(f.text);
      EmailTestIsPattern(t);
      if t == "" {
        assert !EmailTest(t);
      }
    }
  }

  /** The form is valid exactly when every field rule holds. */
  ghost predicate Acceptable(d: ProductInput) {
    && d.codigo.Given? && Utf16Length(JsTrim(d.codigo.text)) == CodeLength
    && d.nombre.Given? && 0 < Utf16Length(JsTrim(d.nombre.text)) <= MaxName
    && d.talla.Given? && ToUpper(JsTrim(d.talla.text)) in AllowedSizes
    && (|| d.precio.PriceWhitespace? || (d.precio.PriceJsOnly? && d.precio.positive)
        || (d.precio.PriceNumber? && d.precio.value > 0.0))
    && d.emailCreador.Given? && InEmailLanguage(JsTrim(d.emailCreador.text))
  }

  lemma ValidIffAcceptable(d: ProductInput)
    ensures ValidateForm(d).valid <==> Acceptable(d)
  {
    CodigoRule(d.codigo);
    NombreRule(d.nombre);
    TallaRule(d.talla);
    PrecioRule(d.precio);
    EmailRule(d.emailCreador);
    var v := ValidateForm(d);
    ErrorsArePerField(d, Codigo);
    ErrorsArePerField(d, Nombre);
    ErrorsArePerField(d, Talla);
    ErrorsArePerField(d, Precio);
    ErrorsArePerField(d, EmailCreador);
    assert v.valid <==> (Codigo !in v.errors && Nombre !in v.errors && Talla !in v.errors
                          && Precio !in v.errors && EmailCreador !in v.errors) by {
      if !v.valid {
        var n :| n in v.errors;
        assert n == Codigo || n == Nombre || n == Talla || n == Precio || n == EmailCreador;
      }
    }
  }

  /** A 9-character code passes. */
  lemma CodigoExactLength()
    ensures CodigoError(Given("CAM-00123")) == None
  {
    PlainAscii("CAM-00123");
  }

  /** Blanks around a code are not counted. */
  lemma CodigoIgnoresPadding(s: string)
    requires s != [] && !IsJsSpace(s[0]) && !IsJsSpace(s[|s| - 1])
    ensures CodigoError(Given([' '] + s + [' '])) == CodigoError(Given(s))
  {
    PaddedTrim([' '] + s + [' '], s);
    TrimUnpadded(s, IsJsSpace);
  }

  lemma CodigoPadded()
    ensures CodigoError(Given(" CAM-00123 ")) == None
  {
    assert " CAM-00123 " == [' '] + "CAM-00123" + [' '];
    CodigoIgnoresPadding("CAM-00123");
    CodigoExactLength();
  }

  lemma CodigoTooShort()
    ensures CodigoError(Given("CAM-0012")) == Some(MsgCodigoLength)
  {
    PlainAscii("CAM-0012");
  }

  lemma PaddedSizeNormalises()
    ensures JsTrim(" xl ") == "xl" && JsTrim(ToUpper(" xl ")) == "XL"
  {
    PaddedTrim(" xl ", "xl");
    UpperOf(" xl ", " XL ");
    PaddedTrim(" XL ", "XL");
  }

  /** A size written " xl " passes. */
  lemma TallaLowerPadded()
    ensures TallaError(Given(" xl ")) == None
  {
    PaddedSizeNormalises();
  }

  lemma UnknownSizeNormalises()
    ensures JsTrim("xs") == "xs" && JsTrim(ToUpper("xs")) == "XS"
  {
    PlainAscii("xs");
    UpperOf("xs", "XS");
    PlainAscii("XS");
  }

  /** "xs" is not one of the sizes. */
  lemma TallaUnknown()
    ensures TallaError(Given("xs")) == Some(MsgTallaInvalid)
  {
    UnknownSizeNormalises();
  }

  /** A name of exactly 100 characters passes and one of 101 fails. */
  lemma NombreExamples()
    ensures NombreError(Given(seq(100, _ => 'a'))) == None
    ensures NombreError(Given(seq(101, _ => 'a'))) == Some(MsgNombreLength)
  {
    var a100: string := seq(100, _ => 'a');
    var a101: string := seq(101, _ => 'a');
    AsciiLengths(a100);
    AsciiLengths(a101);
    assert TrimStart(a100, IsJsSpace) == a100 && TrimEnd(a100, IsJsSpace) == a100;
    assert TrimStart(a101, IsJsSpace) == a101 && TrimEnd(a101, IsJsSpace) == a101;
  }

  // ---------------------------------------------------------------- validarCampo

  /** One field and its value, as the blur handler passes them. */
  datatype FieldValue =
    | CodigoValue(f: Field)
    | NombreValue(f: Field)
    | TallaValue(f: Field)
    | PrecioValue(p: Price)
    | EmailValue(f: Field)
  {
    function Name(): FieldName {
      match this
      case CodigoValue(_) => Codigo
      case NombreValue(_) => Nombre
      case TallaValue(_) => Talla
      case PrecioValue(_) => Precio
      case EmailValue(_) => EmailCreador
    }
  }

  /** `datos[campo] = valor`. */
  function WithField(d: ProductInput, v: FieldValue): ProductInput {
    match v
    case CodigoValue(f) => d.(codigo := f)
    case NombreValue(f) => d.(nombre := f)
    case TallaValue(f) => d.(talla := f)
    case PrecioValue(p) => d.(precio := p)
    case EmailValue(f) => d.(emailCreador := f)
  }

  /** The temporary record validarCampo starts from: every field the empty string. */
  const EmptyForm: ProductInput := ProductInput(Given(""), Given(""), Given(""), PriceEmpty, Given(""))

  /** VALIDACION.validarCampo: validate the empty record with one field set, and return that
      field's message, or null when it has none (`|| null` also turns an empty message into null). */
  function ValidateField(v: FieldValue): Option<string> {
    var r := ValidateForm(WithField(EmptyForm, v));
    if v.Name() in r.errors && r.errors[v.Name()] != "" then Some(r.errors[v.Name()]) else None
  }

  /** The rule of field v.Name() reads that field only. */
  lemma FieldErrorIsLocal(d: ProductInput, v: FieldValue)
    ensures FieldError(WithField(d, v), v.Name()) == FieldError(WithField(EmptyForm, v), v.Name())
  {
    match v
    case CodigoValue(_) =>
    case NombreValue(_) =>
    case TallaValue(_) =>
    case PrecioValue(_) =>
    case EmailValue(_) =>
  }

  /** No rule reports an empty message. */
  lemma FieldErrorNotEmpty(d: ProductInput, n: FieldName)
    ensures FieldError(d, n).Some? ==> FieldError(d, n).value != ""
  {
  }

  /** A field's error depends on that field alone: validarCampo gives, for any record
      holding the value, the message validarFormulario reports for the field. */
  lemma ValidateFieldIsLocal(d: ProductInput, v: FieldValue)
    ensures ValidateField(v) == ErrorAt(ValidateForm(WithField(d, v)), v.Name())
  {
    var n := v.Name();
    ErrorsArePerField(WithField(d, v), n);
    ErrorsArePerField(WithField(EmptyForm, v), n);
    FieldErrorIsLocal(d, v);
    FieldErrorNotEmpty(WithField(EmptyForm, v), n);
  }

  // ---------------------------------------------------------------- APP decisions

  datatype SearchRequest = SearchRejected | SearchSent(id: int)

  /** The guard of APP.buscarPorId: `parsed` is what parseInt read from the search box
      (None for NaN); no request goes out for NaN or an id at most 0. */
  method SearchById(parsed: Option<int>) returns (req: SearchRequest)
    ensures req.SearchSent? <==> parsed.Some? && parsed.value > 0
    ensures req.SearchSent? ==> req.id == parsed.value
  {
    if parsed.None? || parsed.value <= 0 {
      return SearchRejected;
    }
    req := SearchSent(parsed.value);
  }

  /** The query string of a request for one product: `api.php?id=<id>`. */
  function IdUrl(id: nat): string {
    ApiUrl + "?id=" + DecimalText(id)
  }

  datatype SaveRequest =
    | NotSent(errors: map<FieldName, string>)
    | PutSent(id: Option<int>, data: ProductInput)
    | PostSent(data: ProductInput)

  /** The decision of APP.guardarProducto: an invalid form sends nothing and shows its
      errors; otherwise a non-empty hidden `productoId` means an edit (PUT) and an empty
      one a creation (POST), both carrying the form data unchanged. The PUT goes to the id
      `parsedId` that parseInt read from `productoId` (None for NaN). */
  method SaveProduct(d: ProductInput, productoId: string, parsedId: Option<int>) returns (req: SaveRequest)
    ensures req.NotSent? <==> !ValidateForm(d).valid
    ensures req.NotSent? ==> req.errors == ValidateForm(d).errors && req.errors != map[]
    ensures req.PutSent? <==> ValidateForm(d).valid && productoId != ""
    ensures req.PostSent? <==> ValidateForm(d).valid && productoId == ""
    ensures !req.NotSent? ==> req.data == d
    ensures req.PutSent? ==> req.id == parsedId
  {
    var validation := ValidateForm(d);
    if !validation.valid {
      return NotSent(validation.errors);
    }
    var isEdit := productoId != "";
    if isEdit {
      req := PutSent(parsedId, d);
    } else {
      req := PostSent(d);
    }
  }
}
