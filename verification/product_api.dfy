/** The server side of the clothing-shop CRUD page (api.php): the field validation that
    mirrors the browser's, the reading of the `?id` parameter, and the four handlers that
    read and change the `productos` table, dispatched on the HTTP method. The MySQL table
    is a map from id to row with an auto-increment counter; the JSON body is either not
    JSON at all or an object with the five product fields. */
module ProductApi {
  import opened Text
  import opened Wrappers
  import opened ProductData

  // ---------------------------------------------------------------- validation messages

  const ServerSizes: seq<string> := ["S", "M", "L", "XL", "XXL"]
  const ServerCodeLength: nat := 9
  const ServerMaxName: nat := 100

  /** The messages validarCampos can report, each about one field. */
  datatype Complaint =
    | CodigoRequired | CodigoWrongLength
    | NombreRequired | NombreTooLong
    | TallaRequired | TallaNotAllowed
    | PrecioRequired | PrecioNotNumber | PrecioNotPositive
    | EmailRequired | EmailNotValid
  {
    function Field(): FieldName {
      match this
      case CodigoRequired | CodigoWrongLength => Codigo
      case NombreRequired | NombreTooLong => Nombre
      case TallaRequired | TallaNotAllowed => Talla
      case PrecioRequired | PrecioNotNumber | PrecioNotPositive => Precio
      case EmailRequired | EmailNotValid => EmailCreador
    }

    /** The text that goes into the `errores` list of the JSON answer. */
    function Text(): string {
      match this
      case CodigoRequired => "El campo 'codigo' es obligatorio"
      case CodigoWrongLength => "El campo 'codigo' debe tener exactamente 9 caracteres"
      case NombreRequired => "El campo 'nombre' es obligatorio"
      case NombreTooLong => "El campo 'nombre' no puede superar los 100 caracteres"
      case TallaRequired => "El campo 'talla' es obligatorio"
      case TallaNotAllowed => "El campo 'talla' debe ser: S, M, L, XL, XXL"
      case PrecioRequired => "El campo 'precio' es obligatorio"
      case PrecioNotNumber => "El campo 'precio' debe ser un número válido"
      case PrecioNotPositive => "El campo 'precio' debe ser mayor que 0"
      case EmailRequired => "El campo 'email_creador' es obligatorio"
      case EmailNotValid => "El campo 'email_creador' no tiene formato de email válido"
    }
  }

  /** The size message lists the allowed sizes joined with ", ". */
  lemma ServerSizesMessage()
    ensures TallaNotAllowed.Text() == "El campo 'talla' debe ser: " + Join(ServerSizes, ", ")
  {
    var listed := Join(ServerSizes, ", ");
    assert listed == "S, M, L, XL, XXL";
    assert TallaNotAllowed.Text() == "El campo 'talla' debe ser: " + listed;
  }

  /** Position of a field in the order validarCampos checks them. */
  function Rank(n: FieldName): (k: nat)
    ensures k < 5
  {
    match n
    case Codigo => 0
    case Nombre => 1
    case Talla => 2
    case Precio => 3
    case EmailCreador => 4
  }

  // ---------------------------------------------------------------- per-field rules

  function CodigoCheck(f: Field): (c: Option<Complaint>)
    ensures c.Some? ==> c.value.Field() == Codigo
  {
    if f.Missing? || PhpTrim(f.text) == "" then Some(CodigoRequired)
    else if Utf8Length(PhpTrim(f.text)) != ServerCodeLength then Some(CodigoWrongLength)
    else None
  }

  function NombreCheck(f: Field): (c: Option<Complaint>)
    ensures c.Some? ==> c.value.Field() == Nombre
  {
    if f.Missing? || PhpTrim(f.text) == "" then Some(NombreRequired)
    else if Utf8Length(PhpTrim(f.text)) > ServerMaxName then Some(NombreTooLong)
    else None
  }

  /** PHP trims first and upper-cases afterwards, with strtoupper's ASCII letters only. */
  function TallaCheck(f: Field): (c: Option<Complaint>)
    ensures c.Some? ==> c.value.Field() == Talla
  {
    if f.Missing? || PhpTrim(f.text) == "" then Some(TallaRequired)
    else if AsciiUpper(PhpTrim(f.text)) !in ServerSizes then Some(TallaNotAllowed)
    else None
  }

  /** Only the empty string counts as absent; blank text fails is_numeric. */
  function PrecioCheck(p: Price): (c: Option<Complaint>)
    ensures c.Some? ==> c.value.Field() == Precio
  {
    match p
    case PriceMissing => Some(PrecioRequired)
    case PriceEmpty => Some(PrecioRequired)
    case PriceWhitespace => Some(PrecioNotNumber)
    case PriceJsOnly(_) => Some(PrecioNotNumber)
    case PriceNotNumber => Some(PrecioNotNumber)
    case PriceNumber(v) => if v <= 0.0 then Some(PrecioNotPositive) else None
  }

  /** `acceptsEmail` stands for filter_var(..., FILTER_VALIDATE_EMAIL). */
  function EmailCheck(f: Field, acceptsEmail: string -> bool): (c: Option<Complaint>)
    ensures c.Some? ==> c.value.Field() == EmailCreador
  {
    if f.Missing? || PhpTrim(f.text) == "" then Some(EmailRequired)
    else if !acceptsEmail(PhpTrim(f.text)) then Some(EmailNotValid)
    else None
  }

  function FieldCheck(d: ProductInput, n: FieldName, acceptsEmail: string -> bool): (c: Option<Complaint>)
    ensures c.Some? ==> c.value.Field() == n
  {
    match n
    case Codigo => CodigoCheck(d.codigo)
    case Nombre => NombreCheck(d.nombre)
    case Talla => TallaCheck(d.talla)
    case Precio => PrecioCheck(d.precio)
    case EmailCreador => EmailCheck(d.emailCreador, acceptsEmail)
  }

  function AsSeq(c: Option<Complaint>): (r: seq<Complaint>)
    ensures if c.Some? then r == [c.value] else r == []
  {
    if c.Some? then [c.value] else []
  }

  /** The complaints of the five fields, in checking order, absent ones skipped. */
  function Collect(c1: Option<Complaint>, c2: Option<Complaint>, c3: Option<Complaint>,
                   c4: Option<Complaint>, c5: Option<Complaint>): (r: seq<Complaint>)
    ensures |r| <= 5
  {
    AsSeq(c1) + AsSeq(c2) + AsSeq(c3) + AsSeq(c4) + AsSeq(c5)
  }

  /** The list validarCampos returns, as a specification. */
  function Complaints(d: ProductInput, acceptsEmail: string -> bool): (r: seq<Complaint>)
    ensures |r| <= 5
  {
    Collect(CodigoCheck(d.codigo), NombreCheck(d.nombre), TallaCheck(d.talla),
            PrecioCheck(d.precio), EmailCheck(d.emailCreador, acceptsEmail))
  }

  /** validarCampos: five independent `if / elseif` chains, one per field in checking
      order, each appending at most one message to `$errores`. */
  method ValidateFields(d: ProductInput, acceptsEmail: string -> bool) returns (errores: seq<Complaint>)
    ensures errores == Complaints(d, acceptsEmail)
  {
    errores := [];
    var codigo := CodigoCheck(d.codigo);
    if codigo.Some? {
      errores := errores + [codigo.value];
    }
    assert errores == AsSeq(codigo);
    var nombre := NombreCheck(d.nombre);
    if nombre.Some? {
      errores := errores + [nombre.value];
    }
    assert errores == AsSeq(codigo) + AsSeq(nombre);
    var talla := TallaCheck(d.talla);
    if talla.Some? {
      errores := errores + [talla.value];
    }
    assert errores == AsSeq(codigo) + AsSeq(nombre) + AsSeq(talla);
    var precio := PrecioCheck(d.precio);
    if precio.Some? {
      errores := errores + [precio.value];
    }
    assert errores == AsSeq(codigo) + AsSeq(nombre) + AsSeq(talla) + AsSeq(precio);
    var email := EmailCheck(d.emailCreador, acceptsEmail);
    if email.Some? {
      errores := errores + [email.value];
    }
    assert errores == AsSeq(codigo) + AsSeq(nombre) + AsSeq(talla) + AsSeq(precio) + AsSeq(email);
  }

  /** Complaints in strictly increasing field order: one field at most once. */
  predicate InFieldOrder(cs: seq<Complaint>) {
    forall i, j | 0 <= i < j < |cs| :: Rank(cs[i].Field()) < Rank(cs[j].Field())
  }

  /** Each of c1..c5, when present, is about the field of that rank. */
  predicate RankedChecks(c1: Option<Complaint>, c2: Option<Complaint>, c3: Option<Complaint>,
                         c4: Option<Complaint>, c5: Option<Complaint>) {
    && (c1.Some? ==> Rank(c1.value.Field()) == 0)
    && (c2.Some? ==> Rank(c2.value.Field()) == 1)
    && (c3.Some? ==> Rank(c3.value.Field()) == 2)
    && (c4.Some? ==> Rank(c4.value.Field()) == 3)
    && (c5.Some? ==> Rank(c5.value.Field()) == 4)
  }

  lemma AppendInOrder(cs: seq<Complaint>, c: Option<Complaint>, k: nat)
    requires InFieldOrder(cs) && forall i | 0 <= i < |cs| :: Rank(cs[i].Field()) < k
    requires c.Some? ==> Rank(c.value.Field()) == k
    ensures InFieldOrder(cs + AsSeq(c))
    ensures forall i | 0 <= i < |cs + AsSeq(c)| :: Rank((cs + AsSeq(c))[i].Field()) <= k
  {
  }

  lemma CollectInOrder(c1: Option<Complaint>, c2: Option<Complaint>, c3: Option<Complaint>,
                       c4: Option<Complaint>, c5: Option<Complaint>)
    requires RankedChecks(c1, c2, c3, c4, c5)
    ensures InFieldOrder(Collect(c1, c2, c3, c4, c5))
  {
    AppendInOrder([], c1, 0);
    AppendInOrder(AsSeq(c1), c2, 1);
    AppendInOrder(AsSeq(c1) + AsSeq(c2), c3, 2);
    AppendInOrder(AsSeq(c1) + AsSeq(c2) + AsSeq(c3), c4, 3);
    AppendInOrder(AsSeq(c1) + AsSeq(c2) + AsSeq(c3) + AsSeq(c4), c5, 4);
  }

  /** The messages come in checking order, one field at most once. */
  lemma ComplaintsInOrder(d: ProductInput, acceptsEmail: string -> bool)
    ensures InFieldOrder(Complaints(d, acceptsEmail))
  {
    var c1, c2, c3, c4, c5 := CodigoCheck(d.codigo), NombreCheck(d.nombre), TallaCheck(d.talla),
      PrecioCheck(d.precio), EmailCheck(d.emailCreador, acceptsEmail);
    assert RankedChecks(c1, c2, c3, c4, c5);
    CollectInOrder(c1, c2, c3, c4, c5);
  }

  /** The check of rank k among c1..c5. */
  function Nth(c1: Option<Complaint>, c2: Option<Complaint>, c3: Option<Complaint>,
               c4: Option<Complaint>, c5: Option<Complaint>, k: nat): Option<Complaint>
    requires k < 5
  {
    if k == 0 then c1 else if k == 1 then c2 else if k == 2 then c3 else if k == 3 then c4 else c5
  }

  /** In the collected list r, the entries about field n are the check c of n's rank, and
      that check, when it fails, is in r. */
  lemma CollectMentions(c1: Option<Complaint>, c2: Option<Complaint>, c3: Option<Complaint>,
                        c4: Option<Complaint>, c5: Option<Complaint>, n: FieldName,
                        r: seq<Complaint>, c: Option<Complaint>)
    requires RankedChecks(c1, c2, c3, c4, c5)
    requires r == Collect(c1, c2, c3, c4, c5) && c == Nth(c1, c2, c3, c4, c5, Rank(n))
    ensures forall i | 0 <= i < |r| && r[i].Field() == n :: c == Some(r[i])
    ensures c.Some? ==> c.value in r
  {
    forall i | 0 <= i < |r| && r[i].Field() == n
      ensures c == Some(r[i])
    {
      assert r[i] in AsSeq(c1) + AsSeq(c2) + AsSeq(c3) + AsSeq(c4) + AsSeq(c5);
    }
  }

  /** The check FieldCheck names for n is the one of rank n in Complaints. */
  lemma FieldCheckIsNth(d: ProductInput, acceptsEmail: string -> bool, n: FieldName)
    ensures FieldCheck(d, n, acceptsEmail) == Nth(CodigoCheck(d.codigo), NombreCheck(d.nombre),
      TallaCheck(d.talla), PrecioCheck(d.precio), EmailCheck(d.emailCreador, acceptsEmail), Rank(n))
  {
    match n
    case Codigo =>
    case Nombre =>
    case Talla =>
    case Precio =>
    case EmailCreador =>
  }

  /** Every complaint in the list about field n is that field's own complaint. */
  lemma ComplaintOfField(d: ProductInput, acceptsEmail: string -> bool, n: FieldName)
    ensures forall i | 0 <= i < |Complaints(d, acceptsEmail)| && Complaints(d, acceptsEmail)[i].Field() == n ::
      FieldCheck(d, n, acceptsEmail) == Some(Complaints(d, acceptsEmail)[i])
  {
    FieldCheckIsNth(d, acceptsEmail, n);
    CollectMentions(CodigoCheck(d.codigo), NombreCheck(d.nombre), TallaCheck(d.talla),
      PrecioCheck(d.precio), EmailCheck(d.emailCreador, acceptsEmail), n,
      Complaints(d, acceptsEmail), FieldCheck(d, n, acceptsEmail));
  }

  /** A field whose rule fails has its complaint in the list. */
  lemma FailedFieldIsListed(d: ProductInput, acceptsEmail: string -> bool, n: FieldName)
    ensures FieldCheck(d, n, acceptsEmail).Some? ==> FieldCheck(d, n, acceptsEmail).value in Complaints(d, acceptsEmail)
  {
    FieldCheckIsNth(d, acceptsEmail, n);
    CollectMentions(CodigoCheck(d.codigo), NombreCheck(d.nombre), TallaCheck(d.talla),
      PrecioCheck(d.precio), EmailCheck(d.emailCreador, acceptsEmail), n,
      Complaints(d, acceptsEmail), FieldCheck(d, n, acceptsEmail));
  }

  /** codigo passes exactly when present and nine bytes long once trimmed. */
  lemma CodigoCheckRule(f: Field)
    ensures CodigoCheck(f) == None <==> f.Given? && Utf8Length(PhpTrim(f.text)) == 9
  {
  }

  /** nombre passes exactly when present, not blank and at most 100 bytes once trimmed. */
  lemma NombreCheckRule(f: Field)
    ensures NombreCheck(f) == None <==>
      f.Given? && PhpTrim(f.text) != "" && Utf8Length(PhpTrim(f.text)) <= 100
  {
  }

  /** talla passes exactly when its trimmed, ASCII-upper-cased text is an allowed size. */
  lemma TallaCheckRule(f: Field)
    ensures TallaCheck(f) == None <==> f.Given? && AsciiUpper(PhpTrim(f.text)) in ServerSizes
  {
    if f.Given? && AsciiUpper(PhpTrim(f.text)) in ServerSizes {
      assert |AsciiUpper(PhpTrim(f.text))| > 0;
    }
  }

  /** precio passes exactly when it is a number above 0. */
  lemma PrecioCheckRule(p: Price)
    ensures PrecioCheck(p) == None <==> p.PriceNumber? && p.value > 0.0
  {
  }

  lemma EmailCheckRule(f: Field, acceptsEmail: string -> bool)
    ensures EmailCheck(f, acceptsEmail) == None <==>
      f.Given? && PhpTrim(f.text) != "" && acceptsEmail(PhpTrim(f.text))
  {
  }

  /** The data a successful POST or PUT needs, said declaratively. */
  ghost predicate ServerAcceptable(d: ProductInput, acceptsEmail: string -> bool) {
    && d.codigo.Given? && Utf8Length(PhpTrim(d.codigo.text)) == 9
    && d.nombre.Given? && PhpTrim(d.nombre.text) != "" && Utf8Length(PhpTrim(d.nombre.text)) <= 100
    && d.talla.Given? && AsciiUpper(PhpTrim(d.talla.text)) in ServerSizes
    && d.precio.PriceNumber? && d.precio.value > 0.0
    && d.emailCreador.Given? && PhpTrim(d.emailCreador.text) != "" && acceptsEmail(PhpTrim(d.emailCreador.text))
  }

  lemma CollectEmpty(c1: Option<Complaint>, c2: Option<Complaint>, c3: Option<Complaint>,
                     c4: Option<Complaint>, c5: Option<Complaint>)
    ensures Collect(c1, c2, c3, c4, c5) == [] <==> c1.None? && c2.None? && c3.None? && c4.None? && c5.None?
  {
  }

  /** An empty `$errores` means exactly that every field is acceptable. */
  lemma NoComplaintsIffAcceptable(d: ProductInput, acceptsEmail: string -> bool)
    ensures Complaints(d, acceptsEmail) == [] <==> ServerAcceptable(d, acceptsEmail)
  {
    CollectEmpty(CodigoCheck(d.codigo), NombreCheck(d.nombre), TallaCheck(d.talla),
                 PrecioCheck(d.precio), EmailCheck(d.emailCreador, acceptsEmail));
    CodigoCheckRule(d.codigo);
    NombreCheckRule(d.nombre);
    TallaCheckRule(d.talla);
    PrecioCheckRule(d.precio);
    EmailCheckRule(d.emailCreador, acceptsEmail);
  }

  // ---------------------------------------------------------------- the id parameter

  /** The characters PHP skips before a number: space, tab, newline, carriage return,
      vertical tab and form feed. */
  predicate IsNumberSpace(c: char) {
    c == ' ' || c == '\t' || c == '\n' || c == '\r' || c == '\U{000B}' || c == '\U{000C}'
  }

  /** The longest prefix made of decimal digits. */
  function LeadingDigits(s: string): (r: string)
    ensures |r| <= |s| && r == s[..|r|] && (forall k | 0 <= k < |r| :: IsDigit(r[k]))
    ensures |r| < |s| ==> !IsDigit(s[|r|])
  {
    if s != [] && IsDigit(s[0]) then [s[0]] + LeadingDigits(s[1..]) else []
  }

  /** PHP's `(int)` on a string: skip leading blanks, read an optional sign and the digits
      after it; text that does not start that way reads as 0. */
  function PhpIntCast(s: string): int {
    var t := TrimStart(s, IsNumberSpace);
    if t != [] && (t[0] == '-' || t[0] == '+') then
      var v: int := DigitsValue(LeadingDigits(t[1..]));
      if t[0] == '-' then -v else v
    else
      DigitsValue(LeadingDigits(t))
  }

  /** `isset($_GET['id']) ? (int)$_GET['id'] : null`. */
  function RequestId(idParam: Option<string>): (id: Option<int>)
    ensures id.None? <==> idParam.None?
  {
    if idParam.Some? then Some(PhpIntCast(idParam.value)) else None
  }

  /** Text made of digits only is all leading digits. */
  lemma AllLeadingDigits(s: string)
    requires forall k | 0 <= k < |s| :: IsDigit(s[k])
    ensures LeadingDigits(s) == s
  {
    var l := LeadingDigits(s);
    assert |l| == |s|;
  }

  /** Text made of digits only is read as the number it denotes. */
  lemma DigitsCast(s: string)
    requires s != [] && forall k | 0 <= k < |s| :: IsDigit(s[k])
    ensures PhpIntCast(s) == DigitsValue(s)
  {
    assert !IsNumberSpace(s[0]) && s[0] != '-' && s[0] != '+';
    assert TrimStart(s, IsNumberSpace) == s;
    AllLeadingDigits(s);
  }

  /** A numeral written the way the page writes ids is read back as the same id. */
  lemma IdRoundTrip(n: nat)
    ensures RequestId(Some(DecimalText(n))) == Some(n)
  {
    DigitsCast(DecimalText(n));
    DecimalRoundTrip(n);
  }

  /** Text that does not begin with a number, after blanks, reads as id 0. */
  lemma NonNumericIdIsZero(s: string)
    requires var t := TrimStart(s, IsNumberSpace);
      t == [] || (!IsDigit(t[0]) && t[0] != '-' && t[0] != '+')
    ensures RequestId(Some(s)) == Some(0)
  {
  }

  // ---------------------------------------------------------------- the table

  /** One row of `productos`, without its id. */
  datatype Row = Row(codigo: string, nombre: string, talla: string, precio: real, emailCreador: string)

  /** The request body: text json_decode rejects, or an object with the five fields. */
  datatype Body = NotJson | JsonObject(data: ProductInput)

  /** What the handlers answer; Status gives the HTTP status of each. */
  datatype Reply =
    | Preflight                          // OPTIONS
    | MethodNotAllowed(verb: string)
    | MissingId
    | NotFound(id: int)
    | BadJson
    | Invalid(errores: seq<Complaint>)
    | DuplicateCode(codigo: string)
    | Found(id: int, row: Row)
    | Listing(entries: seq<(int, Row)>)
    | Created(id: int, row: Row)
    | Updated(id: int, row: Row)
    | Deleted(id: int, nombre: string)

  function Status(r: Reply): int {
    match r
    case Preflight => 200
    case MethodNotAllowed(_) => 405
    case MissingId => 400
    case NotFound(_) => 404
    case BadJson => 400
    case Invalid(_) => 400
    case DuplicateCode(_) => 409
    case Found(_, _) => 200
    case Listing(_) => 200
    case Created(_, _) => 201
    case Updated(_, _) => 200
    case Deleted(_, _) => 200
  }

  /** PHP's `(float)` on the price field: the number read from numeric text, 0 otherwise. */
  function PriceCast(p: Price): real {
    if p.PriceNumber? then p.value else 0.0
  }

  /** The row a validated body is stored as: trimmed texts, talla upper-cased. */
  function NewRow(d: ProductInput): Row {
    Row(PhpTrim(TextOf(d.codigo)), PhpTrim(TextOf(d.nombre)), AsciiUpper(PhpTrim(TextOf(d.talla))),
        PriceCast(d.precio), PhpTrim(TextOf(d.emailCreador)))
  }

  predicate CodeTaken(rows: map<int, Row>, codigo: string) {
    exists id | id in rows :: rows[id].codigo == codigo
  }

  /** `SELECT id FROM productos WHERE codigo = ? AND id != ?` finds a row. */
  predicate CodeTakenByOther(rows: map<int, Row>, codigo: string, id: int) {
    exists other | other in rows && other != id :: rows[other].codigo == codigo
  }

  /** No two rows share a codigo. */
  predicate CodesUnique(rows: map<int, Row>) {
    forall a, b | a in rows && b in rows && a != b :: rows[a].codigo != rows[b].codigo
  }

  /** Text with no PHP blank at either end. */
  predicate Unpadded(s: string) {
    s != [] ==> !IsPhpSpace(s[0]) && !IsPhpSpace(s[|s| - 1])
  }

  /** A row as validarCampos lets it through: trimmed texts that satisfy the rules. */
  predicate WellFormedRow(r: Row) {
    && Utf8Length(r.codigo) == 9 && Unpadded(r.codigo)
    && r.nombre != "" && Utf8Length(r.nombre) <= 100 && Unpadded(r.nombre)
    && r.talla in ServerSizes
    && r.precio > 0.0
    && r.emailCreador != "" && Unpadded(r.emailCreador)
  }

  predicate AllWellFormed(rows: map<int, Row>) {
    forall id | id in rows :: WellFormedRow(rows[id])
  }

  /** Entries in strictly increasing id order. */
  predicate AscendingIds(entries: seq<(int, Row)>) {
    forall k, l | 0 <= k < l < |entries| :: entries[k].0 < entries[l].0
  }

  /** Every entry is a row of the table with its id, and every row is listed. */
  predicate ListsTable(entries: seq<(int, Row)>, rows: map<int, Row>) {
    && (forall k | 0 <= k < |entries| :: entries[k].0 in rows && rows[entries[k].0] == entries[k].1)
    && (forall id | id in rows :: exists k | 0 <= k < |entries| :: entries[k].0 == id)
  }

  /** The listing built so far covers exactly the rows with ids below i, in ascending order. */
  ghost predicate ListsBelow(entries: seq<(int, Row)>, rows: map<int, Row>, i: int) {
    && AscendingIds(entries)
    && (forall k | 0 <= k < |entries| ::
          entries[k].0 < i && entries[k].0 in rows && rows[entries[k].0] == entries[k].1)
    && (forall id | id in rows && id < i :: exists k | 0 <= k < |entries| :: entries[k].0 == id)
  }

  /** One turn of the listing loop: row i, if there is one, goes to the end. */
  lemma ListingStep(entries: seq<(int, Row)>, rows: map<int, Row>, i: int)
    requires ListsBelow(entries, rows, i)
    ensures ListsBelow(if i in rows then entries + [(i, rows[i])] else entries, rows, i + 1)
  {
    if i in rows {
      var next := entries + [(i, rows[i])];
      forall id | id in rows && id < i + 1
        ensures exists k | 0 <= k < |next| :: next[k].0 == id
      {
        if id < i {
          var k :| 0 <= k < |entries| && entries[k].0 == id;
          assert next[k] == entries[k];
        } else {
          assert next[|entries|].0 == id;
        }
      }
    }
  }

  /** A validated body is stored as a well-formed row. */
  lemma AcceptedRowIsWellFormed(d: ProductInput, acceptsEmail: string -> bool)
    requires Complaints(d, acceptsEmail) == []
    ensures WellFormedRow(NewRow(d))
  {
    NoComplaintsIffAcceptable(d, acceptsEmail);
    TrimEnds(d.codigo.text, IsPhpSpace);
    TrimEnds(d.nombre.text, IsPhpSpace);
    TrimEnds(d.emailCreador.text, IsPhpSpace);
  }

  /** Adding a row under a new id keeps codes unique when its code is not taken. */
  lemma InsertKeepsCodesUnique(rows: map<int, Row>, id: int, r: Row)
    requires CodesUnique(rows) && id !in rows && !CodeTaken(rows, r.codigo)
    ensures CodesUnique(rows[id := r])
  {
    var rows' := rows[id := r];
    forall a, b | a in rows' && b in rows' && a != b
      ensures rows'[a].codigo != rows'[b].codigo
    {
      if a == id {
        assert rows'[b] == rows[b];
      } else if b == id {
        assert rows'[a] == rows[a];
      }
    }
  }

  /** Replacing row id keeps codes unique when no other row has the new code. */
  lemma ReplaceKeepsCodesUnique(rows: map<int, Row>, id: int, r: Row)
    requires CodesUnique(rows) && !CodeTakenByOther(rows, r.codigo, id)
    ensures CodesUnique(rows[id := r])
  {
    var rows' := rows[id := r];
    forall a, b | a in rows' && b in rows' && a != b
      ensures rows'[a].codigo != rows'[b].codigo
    {
      if a == id {
        assert rows'[b] == rows[b];
      } else if b == id {
        assert rows'[a] == rows[a];
      }
    }
  }

  /** Storing a well-formed row keeps every row well-formed. */
  lemma StoreKeepsWellFormed(rows: map<int, Row>, id: int, r: Row)
    requires AllWellFormed(rows) && WellFormedRow(r)
    ensures AllWellFormed(rows[id := r])
  {
  }

  /** The `productos` table behind the API, with MySQL's auto-increment counter. */
  class ProductTable {
    var rows: map<int, Row>
    var nextId: int
    /** The server's filter_var(..., FILTER_VALIDATE_EMAIL). */
    const acceptsEmail: string -> bool

    /** Ids are positive and below the next id to be handed out. */
    predicate Valid()
      reads this
    {
      1 <= nextId && forall id | id in rows :: 1 <= id < nextId
    }

    constructor(initial: map<int, Row>, next: int, acceptsEmail: string -> bool)
      requires 1 <= next && forall id | id in initial :: 1 <= id < next
      ensures Valid() && rows == initial && nextId == next && this.acceptsEmail == acceptsEmail
    {
      rows := initial;
      nextId := next;
      this.acceptsEmail := acceptsEmail;
    }

    /** What obtenerProductos answers from the current rows: without an id every row in
        ascending id order; with one, that row, or 404 when no row has the id. */
    predicate GetOutcome(id: Option<int>, reply: Reply)
      reads this
    {
      match id
      case None => reply.Listing? && AscendingIds(reply.entries) && ListsTable(reply.entries, rows)
      case Some(n) => if n in rows then reply == Found(n, rows[n]) else reply == NotFound(n)
    }

    /** What crearProducto answers and stores: 400 for a body that is not a JSON object or
        that validarCampos refuses, with every complaint; 409 for a code some row already
        has; otherwise the new row under the next id, which then advances. Only the last
        changes the table. */
    twostate predicate CreateOutcome(body: Body, reply: Reply)
      reads this
    {
      match body
      case NotJson => reply == BadJson && unchanged(this)
      case JsonObject(d) =>
        var r := NewRow(d);
        if Complaints(d, acceptsEmail) != [] then
          reply == Invalid(Complaints(d, acceptsEmail)) && unchanged(this)
        else if CodeTaken(old(rows), r.codigo) then
          reply == DuplicateCode(r.codigo) && unchanged(this)
        else
          && reply == Created(old(nextId), r)
          && rows == old(rows)[old(nextId) := r]
          && nextId == old(nextId) + 1
    }

    /** What actualizarProducto answers and stores: 400 without an id and 404 for an id with
        no row, before the body is looked at; then 400 for a body that is not a JSON object or
        that validarCampos refuses; 409 for a code another row has (the row may keep its
        own); otherwise the row is replaced. The next id never moves. */
    twostate predicate UpdateOutcome(id: Option<int>, body: Body, reply: Reply)
      reads this
    {
      match id
      case None => reply == MissingId && unchanged(this)
      case Some(n) =>
        if n !in old(rows) then
          reply == NotFound(n) && unchanged(this)
        else if body.NotJson? then
          reply == BadJson && unchanged(this)
        else
          var r := NewRow(body.data);
          if Complaints(body.data, acceptsEmail) != [] then
            reply == Invalid(Complaints(body.data, acceptsEmail)) && unchanged(this)
          else if CodeTakenByOther(old(rows), r.codigo, n) then
            reply == DuplicateCode(r.codigo) && unchanged(this)
          else
            && reply == Updated(n, r)
            && rows == old(rows)[n := r]
            && nextId == old(nextId)
    }

    /** What eliminarProducto answers and stores: 400 without an id, 404 for an id with no
        row, otherwise the row is removed and its name reported. The next id never moves. */
    twostate predicate DeleteOutcome(id: Option<int>, reply: Reply)
      reads this
    {
      match id
      case None => reply == MissingId && unchanged(this)
      case Some(n) =>
        if n !in old(rows) then
          reply == NotFound(n) && unchanged(this)
        else
          && reply == Deleted(n, old(rows)[n].nombre)
          && rows == old(rows) - {n}
          && nextId == old(nextId)
    }

    /** obtenerProductos: one row by id, or all rows in ascending id order. */
    method GetProducts(id: Option<int>) returns (reply: Reply)
      requires Valid()
      ensures Status(reply) != 405
      ensures GetOutcome(id, reply)
    {
      if id.Some? {
        if id.value in rows {
          return Found(id.value, rows[id.value]);
        }
        return NotFound(id.value);
      }
      var productos: seq<(int, Row)> := [];
      var i := 1;
      while i < nextId
        invariant 1 <= i <= nextId
        invariant ListsBelow(productos, rows, i)
      {
        ListingStep(productos, rows, i);
        if i in rows {
          productos := productos + [(i, rows[i])];
        }
        i := i + 1;
      }
      reply := Listing(productos);
    }

    /** The duplicate check and INSERT of crearProducto, for a row already built. */
    method InsertRow(r: Row) returns (reply: Reply)
      requires Valid()
      modifies this
      ensures Status(reply) != 405
      ensures Valid()
      ensures CodeTaken(old(rows), r.codigo) ==> reply == DuplicateCode(r.codigo) && unchanged(this)
      ensures !CodeTaken(old(rows), r.codigo) ==>
        && reply == Created(old(nextId), r)
        && rows == old(rows)[old(nextId) := r]
        && nextId == old(nextId) + 1
      ensures old(CodesUnique(rows)) ==> CodesUnique(rows)
      ensures old(AllWellFormed(rows)) && WellFormedRow(r) ==> AllWellFormed(rows)
    {
      if CodeTaken(rows, r.codigo) {
        return DuplicateCode(r.codigo);
      }
      if CodesUnique(rows) {
        InsertKeepsCodesUnique(rows, nextId, r);
      }
      if AllWellFormed(rows) && WellFormedRow(r) {
        StoreKeepsWellFormed(rows, nextId, r);
      }
      var nuevoId := nextId;
      rows := rows[nuevoId := r];
      nextId := nextId + 1;
      reply := Created(nuevoId, r);
    }

    /** crearProducto. */
    method CreateProduct(body: Body) returns (reply: Reply)
      requires Valid()
      modifies this
      ensures Status(reply) != 405
      ensures Valid()
      ensures CreateOutcome(body, reply)
      ensures old(CodesUnique(rows)) ==> CodesUnique(rows)
      ensures old(AllWellFormed(rows)) ==> AllWellFormed(rows)
    {
      if body.NotJson? {
        return BadJson;
      }
      var datos := body.data;
      var errores := ValidateFields(datos, acceptsEmail);
      if errores != [] {
        return Invalid(errores);
      }
      AcceptedRowIsWellFormed(datos, acceptsEmail);
      reply := InsertRow(NewRow(datos));
    }

    /** The duplicate check and UPDATE of actualizarProducto, for a row already built:
        the code may stay with its own row but not be taken from another. */
    method ReplaceRow(id: int, r: Row) returns (reply: Reply)
      requires Valid() && id in rows
      modifies this
      ensures Status(reply) != 405
      ensures Valid() && nextId == old(nextId)
      ensures CodeTakenByOther(old(rows), r.codigo, id) ==> reply == DuplicateCode(r.codigo) && unchanged(this)
      ensures !CodeTakenByOther(old(rows), r.codigo, id) ==> reply == Updated(id, r) && rows == old(rows)[id := r]
      ensures old(CodesUnique(rows)) ==> CodesUnique(rows)
      ensures old(AllWellFormed(rows)) && WellFormedRow(r) ==> AllWellFormed(rows)
    {
      if CodeTakenByOther(rows, r.codigo, id) {
        return DuplicateCode(r.codigo);
      }
      if CodesUnique(rows) {
        ReplaceKeepsCodesUnique(rows, id, r);
      }
      if AllWellFormed(rows) && WellFormedRow(r) {
        StoreKeepsWellFormed(rows, id, r);
      }
      rows := rows[id := r];
      reply := Updated(id, r);
    }

    /** actualizarProducto once row id is known to exist: parse, validate, then replace. */
    method UpdateExisting(id: int, body: Body) returns (reply: Reply)
      requires Valid() && id in rows
      modifies this
      ensures Status(reply) != 405
      ensures Valid()
      ensures UpdateOutcome(Some(id), body, reply)
      ensures old(CodesUnique(rows)) ==> CodesUnique(rows)
      ensures old(AllWellFormed(rows)) ==> AllWellFormed(rows)
    {
      if body.NotJson? {
        return BadJson;
      }
      var datos := body.data;
      var errores := ValidateFields(datos, acceptsEmail);
      if errores != [] {
        return Invalid(errores);
      }
      AcceptedRowIsWellFormed(datos, acceptsEmail);
      reply := ReplaceRow(id, NewRow(datos));
    }

    /** actualizarProducto: the id is looked up before the body is read. */
    method UpdateProduct(id: Option<int>, body: Body) returns (reply: Reply)
      requires Valid()
      modifies this
      ensures Status(reply) != 405
      ensures Valid()
      ensures UpdateOutcome(id, body, reply)
      ensures old(CodesUnique(rows)) ==> CodesUnique(rows)
      ensures old(AllWellFormed(rows)) ==> AllWellFormed(rows)
    {
      if id.None? {
        return MissingId;
      }
      if id.value !in rows {
        return NotFound(id.value);
      }
      reply := UpdateExisting(id.value, body);
    }

    /** eliminarProducto: answers with the name of the removed row. */
    method DeleteProduct(id: Option<int>) returns (reply: Reply)
      requires Valid()
      modifies this
      ensures Status(reply) != 405
      ensures Valid()
      ensures DeleteOutcome(id, reply)
      ensures old(CodesUnique(rows)) ==> CodesUnique(rows)
      ensures old(AllWellFormed(rows)) ==> AllWellFormed(rows)
    {
      if id.None? {
        return MissingId;
      }
      if id.value !in rows {
        return NotFound(id.value);
      }
      var productoEliminado := rows[id.value];
      rows := rows - {id.value};
      reply := Deleted(id.value, productoEliminado.nombre);
    }

    /** The script as a whole: OPTIONS is answered before anything else, then the `?id`
        parameter is read with `(int)` and the method selects the handler. An id that does
        not read as a positive number (`?id=abc` reads as 0) names no row, so GET, PUT and
        DELETE answer 404 for it and change nothing. */
    method Route(verb: string, idParam: Option<string>, body: Body) returns (reply: Reply)
      requires Valid()
      modifies this
      ensures Valid()
      ensures verb == "OPTIONS" ==> reply == Preflight && unchanged(this)
      ensures verb == "GET" ==> GetOutcome(RequestId(idParam), reply) && unchanged(this)
      ensures verb == "POST" ==> CreateOutcome(body, reply)
      ensures verb == "PUT" ==> UpdateOutcome(RequestId(idParam), body, reply)
      ensures verb == "DELETE" ==> DeleteOutcome(RequestId(idParam), reply)
      ensures verb !in {"OPTIONS", "GET", "POST", "PUT", "DELETE"} ==>
        reply == MethodNotAllowed(verb) && unchanged(this)
      ensures Status(reply) == 405 <==> verb !in {"OPTIONS", "GET", "POST", "PUT", "DELETE"}
      ensures verb in {"GET", "PUT", "DELETE"} && idParam.Some? && PhpIntCast(idParam.value) < 1 ==>
        reply == NotFound(PhpIntCast(idParam.value)) && unchanged(this)
      ensures old(CodesUnique(rows)) ==> CodesUnique(rows)
      ensures old(AllWellFormed(rows)) ==> AllWellFormed(rows)
    {
      if verb == "OPTIONS" {
        return Preflight;
      }
      var id := RequestId(idParam);
      if verb == "GET" {
        reply := GetProducts(id);
      } else if verb == "POST" {
        reply := CreateProduct(body);
      } else if verb == "PUT" {
        reply := UpdateProduct(id, body);
      } else if verb == "DELETE" {
        reply := DeleteProduct(id);
      } else {
        reply := MethodNotAllowed(verb);
      }
    }
  }
}
