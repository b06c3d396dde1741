# Verified model of five small JavaScript/PHP exercises

This project is a Dafny model of the logic in five pieces of a web-development coursework
repository. Each piece has its contracts and lemmas proved.

- **The clothing-shop product form, browser side** (`EXAMENES/EXAMEN3/app.js`), module `ProductClient`:
  - the `CONFIG` constants;
  - `VALIDACION.validarFormulario`, with per-field rules for codigo, nombre, talla, precio and email_creador;
  - `VALIDACION.validarCampo`;
  - the id guard of `APP.buscarPorId`;
  - the choice `APP.guardarProducto` makes between sending nothing, a PUT and a POST.
- **The product REST endpoint, server side** (`EXAMENES/EXAMEN3/api.php`), module `ProductApi`:
  - `validarCampos`;
  - the reading of `?id`;
  - the method switch;
  - the four handlers `obtenerProductos`, `crearProducto`, `actualizarProducto` and `eliminarProducto`.

  The MySQL table `productos` is a `map<int, Row>` with an auto-increment counter, held by the class `ProductTable`. Every handler is proved to keep `codigo` unique across rows.
- **The relation between the two validators**, module `ClientServer`:
  - on portable text (ASCII without NUL or form feed) the codigo, nombre and talla rules fire in the same cases. A form feed, which only JavaScript trims, or a NUL, which only PHP trims, makes them differ;
  - the price rules agree exactly on the prices both sides read alike, and differ on a whitespace-only price and on text only JavaScript reads as a number (such as "Infinity" or "0x10");
  - a search URL built by the browser is read back by the server as the same id.
- **The city Map** (`TEMA1/Ejercicios/js/ejercicio8.js`), module `Cities`:
  - a JavaScript `Map` modelled as an insertion-ordered sequence with unique keys;
  - the add, edit, delete, count, most-populated and least-populated buttons, as methods of class `CityMap`.
- **The recursive palindrome check** (`TEMA4/polinocro.js`), module `Palindrome`.
- **The star drawing** (`EXAMENES/EXAMEN1/ejercicio1/ejercicio1.js`), module `StarTriangle`.

Shared modules:
- `Text` holds the string primitives of the two runtimes:
  - JavaScript `trim`, `toUpperCase`/`toLowerCase` and `.length` (UTF-16 units);
  - PHP `trim`, `strtoupper` and `strlen` (bytes);
  - decimal numerals.
- `ProductData` holds the product form's input.
- `Wrappers` holds `Option`.

A price field is abstracted to the way both runtimes read it:
- absent;
- empty;
- whitespace only;
- a number for JavaScript only: "Infinity", "-Infinity", the `0x`, `0o` and `0b` literals, or a numeral padded with white space PHP does not skip; the model keeps whether `parseFloat` reads a value above 0 from it;
- not a number for either side;
- a number for both, with the one value both read.

The e-mail check of PHP (`filter_var(..., FILTER_VALIDATE_EMAIL)`) is a function parameter of the table.

## Model

| member | source | states |
|---|---|---|
| ProductClient.CodeLengthMessage | EXAMENES/EXAMEN3/app.js:189-190 | the codigo length message is built from CONFIG.LONGITUD_CODIGO (9) |
| ProductClient.SizesMessage | EXAMENES/EXAMEN3/app.js:205-206 | the talla message lists CONFIG.TALLAS_PERMITIDAS joined with ", " |
| ProductClient.EmailTestIsPattern | EXAMENES/EXAMEN3/app.js:221 | the scan used for the e-mail check accepts exactly the language of `^[^\s@]+@[^\s@]+\.[^\s@]+$` |
| ProductClient.Gather | EXAMENES/EXAMEN3/app.js:229-233 | `valido` is true exactly when `errores` has no key |
| ProductClient.ValidateForm | EXAMENES/EXAMEN3/app.js:181-234 | validarFormulario: `valido` iff no field has an error |
| ProductClient.ErrorsArePerField | EXAMENES/EXAMEN3/app.js:183-227 | `errores[n]` is exactly the message of field n's own rule, or absent when that rule passes |
| ProductClient.CodigoRule | EXAMENES/EXAMEN3/app.js:187-191 | codigo passes iff present and its trimmed text is exactly 9 units long |
| ProductClient.NombreRule | EXAMENES/EXAMEN3/app.js:195-199 | nombre passes iff present and its trimmed length is between 1 and 100 |
| ProductClient.TallaRule | EXAMENES/EXAMEN3/app.js:203-207 | talla passes iff its trimmed, upper-cased text is one of S, M, L, XL, XXL |
| ProductClient.PrecioRule | EXAMENES/EXAMEN3/app.js:211-217 | in order: absent or empty gives "obligatorio", non-numeric gives "número válido", a number ≤ 0 gives "mayor que 0", and so does a JavaScript-only number that parseFloat reads as ≤ 0; it passes iff it is whitespace only, a JavaScript-only number above 0 for parseFloat, or a number > 0 |
| ProductClient.EmailRule | EXAMENES/EXAMEN3/app.js:221-227 | email passes iff its trimmed text is in the pattern's language |
| ProductClient.ValidIffAcceptable | EXAMENES/EXAMEN3/app.js:181-234 | the form is valid iff all five rules hold |
| ProductClient.CodigoExactLength | EXAMENES/EXAMEN3/app.js:187-191 | a 9-character code passes |
| ProductClient.CodigoIgnoresPadding | EXAMENES/EXAMEN3/app.js:189 | blanks around a code do not change its verdict |
| ProductClient.CodigoPadded | EXAMENES/EXAMEN3/app.js:189 | " CAM-00123 " passes |
| ProductClient.CodigoTooShort | EXAMENES/EXAMEN3/app.js:189-190 | an 8-character code gets the length message |
| ProductClient.PaddedSizeNormalises | EXAMENES/EXAMEN3/app.js:205 | " xl " trims to "xl" and upper-cases to "XL" |
| ProductClient.TallaLowerPadded | EXAMENES/EXAMEN3/app.js:203-207 | " xl " is an accepted size |
| ProductClient.UnknownSizeNormalises | EXAMENES/EXAMEN3/app.js:205 | "xs" normalises to "XS" |
| ProductClient.TallaUnknown | EXAMENES/EXAMEN3/app.js:205-206 | "xs" gets the size message |
| ProductClient.NombreExamples | EXAMENES/EXAMEN3/app.js:197 | a 100-character name passes and a 101-character one fails |
| ProductClient.FieldErrorIsLocal | EXAMENES/EXAMEN3/app.js:243-248 | a field's rule reads only that field |
| ProductClient.FieldErrorNotEmpty | EXAMENES/EXAMEN3/app.js:252 | no rule reports an empty message, so the fallback to null in validarCampo fires only when there is no error |
| ProductClient.ValidateFieldIsLocal | EXAMENES/EXAMEN3/app.js:243-253 | validarCampo(c, v) equals the error validarFormulario reports for c on any record whose c is v |
| ProductClient.SearchById | EXAMENES/EXAMEN3/app.js:848-854 | a request is sent iff parseInt gave a number > 0, and it carries that number |
| ProductClient.SaveProduct | EXAMENES/EXAMEN3/app.js:736-760 | nothing is sent iff the form is invalid, and then the errors shown are the validation's; a PUT iff it is valid and productoId is non-empty, addressed to the id parseInt read from productoId; a POST iff it is valid and productoId is empty; the data is sent unchanged |
| ProductApi.ServerSizesMessage | EXAMENES/EXAMEN3/api.php:350-351 | the talla message lists the allowed sizes joined with ", " |
| ProductApi.CodigoCheck | EXAMENES/EXAMEN3/api.php:336-340 | a codigo complaint is about the codigo field |
| ProductApi.FieldCheck | EXAMENES/EXAMEN3/api.php:336-366 | the complaint of field n, if any, is about n |
| ProductApi.Collect | EXAMENES/EXAMEN3/api.php:333-368 | at most five messages are collected |
| ProductApi.Complaints | EXAMENES/EXAMEN3/api.php:331-369 | validarCampos as a specification: at most five messages |
| ProductApi.ValidateFields | EXAMENES/EXAMEN3/api.php:331-369 | appending each field's complaint, if any, in checking order builds exactly the specified list |
| ProductApi.ComplaintsInOrder | EXAMENES/EXAMEN3/api.php:331-369 | the messages come in the order codigo, nombre, talla, precio, email_creador, each field at most once |
| ProductApi.ComplaintOfField | EXAMENES/EXAMEN3/api.php:336-366 | every listed message about field n is n's own complaint |
| ProductApi.FailedFieldIsListed | EXAMENES/EXAMEN3/api.php:336-366 | a field whose check fails has its message in the list |
| ProductApi.CodigoCheckRule | EXAMENES/EXAMEN3/api.php:336-340 | codigo passes iff present and its trimmed text is 9 bytes |
| ProductApi.NombreCheckRule | EXAMENES/EXAMEN3/api.php:342-346 | nombre passes iff present, not blank and at most 100 bytes once trimmed |
| ProductApi.TallaCheckRule | EXAMENES/EXAMEN3/api.php:348-352 | talla passes iff strtoupper(trim(talla)) is an allowed size |
| ProductApi.PrecioCheckRule | EXAMENES/EXAMEN3/api.php:354-360 | precio passes iff it is numeric and > 0 |
| ProductApi.EmailCheckRule | EXAMENES/EXAMEN3/api.php:362-366 | email passes iff its trimmed text is non-empty and filter_var accepts it |
| ProductApi.CollectEmpty | EXAMENES/EXAMEN3/api.php:333-368 | the list is empty iff no check fired |
| ProductApi.NoComplaintsIffAcceptable | EXAMENES/EXAMEN3/api.php:331-369 | an empty list means exactly that every field is acceptable |
| ProductApi.LeadingDigits | EXAMENES/EXAMEN3/api.php:22 | the longest all-digit prefix, followed by a non-digit or the end |
| ProductApi.RequestId | EXAMENES/EXAMEN3/api.php:22 | the id is null iff `?id` is absent; a present `?id`, numeric or not, always yields an integer |
| ProductApi.DigitsCast | EXAMENES/EXAMEN3/api.php:22 | `(int)` on a string of digits is the number it denotes |
| ProductApi.IdRoundTrip | EXAMENES/EXAMEN3/api.php:22 | a written numeral is read back as the same id |
| ProductApi.NonNumericIdIsZero | EXAMENES/EXAMEN3/api.php:22 | text that does not start with a number reads as id 0 |
| ProductApi.ListingStep | EXAMENES/EXAMEN3/api.php:77-82 | one turn of the listing loop keeps "exactly the rows below i, in ascending id order" |
| ProductApi.AcceptedRowIsWellFormed | EXAMENES/EXAMEN3/api.php:105-120 | a body that passes validation is stored as trimmed fields that satisfy every rule, with talla upper-cased |
| ProductApi.InsertKeepsCodesUnique | EXAMENES/EXAMEN3/api.php:122-158 | inserting a row whose codigo no row has keeps codigo unique |
| ProductApi.ReplaceKeepsCodesUnique | EXAMENES/EXAMEN3/api.php:227-262 | replacing row id with a codigo no other row has keeps codigo unique |
| ProductApi.StoreKeepsWellFormed | EXAMENES/EXAMEN3/api.php:137-158 | storing a well-formed row keeps all rows well-formed |
| ProductApi.ProductTable.constructor | EXAMENES/EXAMEN3/api.php:18 | the table starts with the given rows and counter |
| ProductApi.ProductTable.GetProducts | EXAMENES/EXAMEN3/api.php:54-86 | GetOutcome: with an id, that row, or 404; without, every row exactly once, in ascending id order |
| ProductApi.ProductTable.InsertRow | EXAMENES/EXAMEN3/api.php:122-158 | 409 and no change when codigo is taken; otherwise exactly one row is added, under the fresh id, and codigo stays unique |
| ProductApi.ProductTable.CreateProduct | EXAMENES/EXAMEN3/api.php:92-168 | CreateOutcome: bad JSON gives 400, validation errors give 400 with the list, a duplicate codigo gives 409, all leaving the table unchanged; otherwise one row is added under the next id, with trimmed fields and talla upper-cased, and the next id advances |
| ProductApi.ProductTable.ReplaceRow | EXAMENES/EXAMEN3/api.php:227-262 | 409 when another row owns codigo (keeping its own is allowed); otherwise only row id changes |
| ProductApi.ProductTable.UpdateExisting | EXAMENES/EXAMEN3/api.php:199-262 | UpdateOutcome for an existing id: bad JSON or validation errors give 400 and no change; a codigo held by another row gives 409 and no change; otherwise that row is replaced |
| ProductApi.ProductTable.UpdateProduct | EXAMENES/EXAMEN3/api.php:174-272 | UpdateOutcome: a missing id gives 400 and an unknown id 404, both checked before the body is read and with no change; then as UpdateExisting; the next id never moves; codigo stays unique |
| ProductApi.ProductTable.DeleteProduct | EXAMENES/EXAMEN3/api.php:278-325 | DeleteOutcome: a missing id gives 400 and an unknown id 404, with no change; otherwise exactly that row is removed and its name reported |
| ProductApi.ProductTable.Route | EXAMENES/EXAMEN3/api.php:12-45 | OPTIONS answers 200 with no change; GET, POST, PUT and DELETE give exactly the outcome of their handler, GET, PUT and DELETE with the id `(int)` reads from `?id`; so an id that reads below 1, such as `?id=abc`, gives 404 with no change; 405 iff the method is none of the five, and then nothing changes; codigo uniqueness is preserved |
| ClientServer.TrimmedPortable | EXAMENES/EXAMEN3/api.php:336 | trimming portable (ASCII, no NUL or form feed) text keeps it portable |
| ClientServer.PortableTrim | EXAMENES/EXAMEN3/api.php:336-338 | on portable text both trims agree, and `.length` and strlen both count characters |
| ClientServer.CodigoAgrees | EXAMENES/EXAMEN3/api.php:336-340 | on portable text the server's codigo rule fires in the same case as the browser's (app.js:187-191) |
| ClientServer.NombreAgrees | EXAMENES/EXAMEN3/api.php:342-346 | the same for nombre (app.js:195-199) |
| ClientServer.TallaAgrees | EXAMENES/EXAMEN3/api.php:348-352 | the same for talla (app.js:203-207), though one side upper-cases first and the other trims first |
| ClientServer.PrecioAgrees | EXAMENES/EXAMEN3/api.php:354-360 | the price rules give the same verdict with the same meaning iff the price is neither whitespace only nor a number for JavaScript alone (app.js:211-217) |
| ClientServer.FormFeedCodigoDiverges | EXAMENES/EXAMEN3/api.php:336-340 | "\fCAM-00123" passes the browser's codigo rule (app.js:187-191 trims the form feed) and gets the server's length complaint |
| ClientServer.NulCodigoDiverges | EXAMENES/EXAMEN3/api.php:336-340 | "CAM-00123\0" gets the browser's length message and passes the server, whose trim strips the NUL |
| ClientServer.WhitespacePriceDiverges | EXAMENES/EXAMEN3/api.php:354-357 | a whitespace-only price passes the browser and is refused by the server |
| ClientServer.JsOnlyPriceDiverges | EXAMENES/EXAMEN3/api.php:354-357 | a price only JavaScript reads as a number is "not a number" for the server, while the browser passes it ("Infinity") or calls it not above 0 ("0x10", "-Infinity") |
| ClientServer.FormsAgree | EXAMENES/EXAMEN3/api.php:331-369 | for a portable form whose price both sides read alike, if filter_var agreed with the browser's pattern, the two validators would accept the same forms |
| ClientServer.SearchUrlRoundTrip | EXAMENES/EXAMEN3/app.js:124 | the id the browser writes into `api.php?id=` is the id the server reads back with `(int)` (api.php:22) |
| Cities.Find | TEMA1/Ejercicios/js/ejercicio8.js:90 | the first position holding the key, or the length when there is none |
| Cities.HasIffInNames | TEMA1/Ejercicios/js/ejercicio8.js:90 | `has` agrees with the set of keys |
| Cities.FindUnique | TEMA1/Ejercicios/js/ejercicio8.js:6-10 | with unique keys the entry holding a key is the one found |
| Cities.SizeIsKeyCount | TEMA1/Ejercicios/js/ejercicio8.js:152 | with unique keys the number of entries is the number of keys |
| Cities.SetEntryGet | TEMA1/Ejercicios/js/ejercicio8.js:133 | after `set`, the key maps to the new value and every other key keeps its value |
| Cities.SetEntryUnique | TEMA1/Ejercicios/js/ejercicio8.js:133 | `set` keeps keys unique |
| Cities.SetEntryNames | TEMA1/Ejercicios/js/ejercicio8.js:133 | `set` keeps an existing key in its place and appends a new one |
| Cities.SetEntrySize | TEMA1/Ejercicios/js/ejercicio8.js:133 | `set` grows the Map by one iff the key is new |
| Cities.DeleteIsWithout | TEMA1/Ejercicios/js/ejercicio8.js:65 | `delete` equals the reference removal: the key goes, the other entries keep their order |
| Cities.WithoutAbsent | TEMA1/Ejercicios/js/ejercicio8.js:65 | removing an absent key changes nothing |
| Cities.DeleteEntryGet | TEMA1/Ejercicios/js/ejercicio8.js:65 | after `delete` the key is gone and every other key keeps its value |
| Cities.DeleteEntryUnique | TEMA1/Ejercicios/js/ejercicio8.js:65 | `delete` keeps keys unique |
| Cities.DeleteEntrySize | TEMA1/Ejercicios/js/ejercicio8.js:65 | `delete` shrinks the Map by one iff the key was there |
| Cities.FirstMostUnique | TEMA1/Ejercicios/js/ejercicio8.js:164-172 | there is only one first most-populated entry |
| Cities.FirstLeastUnique | TEMA1/Ejercicios/js/ejercicio8.js:196-204 | there is only one first least-populated entry |
| Cities.InitialExtremes | TEMA1/Ejercicios/js/ejercicio8.js:6-10 | in the initial Map Madrid is the most populated and Sevilla the least |
| Cities.InitialUnique | TEMA1/Ejercicios/js/ejercicio8.js:6-10 | the initial cities have distinct names |
| Cities.InitialNonBlank | TEMA1/Ejercicios/js/ejercicio8.js:6-10 | no initial name is blank |
| Cities.NonBlankWord | TEMA1/Ejercicios/js/ejercicio8.js:123 | a name starting with a capital letter is not blank |
| Cities.CityMap.constructor | TEMA1/Ejercicios/js/ejercicio8.js:6-10 | the Map starts as Madrid, Cadiz, Sevilla, and its invariant holds: unique keys, non-blank names, populations ≥ 0 |
| Cities.CityMap.Add | TEMA1/Ejercicios/js/ejercicio8.js:118-133 | a blank trimmed name, or a population that is NaN or negative, is refused with no change; otherwise the trimmed name is `set`, so an existing key keeps its position; the invariant is kept |
| Cities.CityMap.Store | TEMA1/Ejercicios/js/ejercicio8.js:133 | `set` of a checked name and count, keeping the invariant |
| Cities.CityMap.Delete | TEMA1/Ejercicios/js/ejercicio8.js:61-65 | without confirmation nothing changes; otherwise exactly the chosen key is removed and the others keep their order |
| Cities.CityMap.Edit | TEMA1/Ejercicios/js/ejercicio8.js:75-97 | a missing or blank new name, a population that is NaN or negative, or a rename onto another existing key is refused with no change; otherwise the old key is deleted and the untrimmed new name appended at the end, so the size is kept |
| Cities.CityMap.Count | TEMA1/Ejercicios/js/ejercicio8.js:151-153 | `size` is the number of distinct keys |
| Cities.CityMap.MostPopulated | TEMA1/Ejercicios/js/ejercicio8.js:157-172 | nothing for an empty Map; otherwise the first entry in iteration order with the greatest population (ties go to the earliest, because of the strict `>`) |
| Cities.CityMap.LeastPopulated | TEMA1/Ejercicios/js/ejercicio8.js:190-204 | the same with the smallest population and `<` |
| Palindrome.ReverseAt | TEMA4/polinocro.js:17 | the k-th element of the reverse is the k-th from the end |
| Palindrome.VerifyIsSymmetric | TEMA4/polinocro.js:10-23 | verificar returns true iff every element equals its mirror; so length 0 or 1 gives true, and stripping both ends shrinks the length by 2 |
| Palindrome.VerifyIsReverse | TEMA4/polinocro.js:10-23 | verificar returns true iff the sequence equals its reverse |
| Palindrome.EndsDiffer | TEMA4/polinocro.js:17-19 | differing first and last elements give false at once |
| Palindrome.RemoveSpacesLeavesNone | TEMA4/polinocro.js:7 | `replace(/\s/g, "")` leaves no whitespace |
| Palindrome.RemoveSpacesAppend | TEMA4/polinocro.js:7 | removing whitespace distributes over concatenation |
| Palindrome.ToLowerAppend | TEMA4/polinocro.js:7 | lower-casing distributes over concatenation |
| Palindrome.Utf16Units | TEMA4/polinocro.js:12-17 | the code units `str[i]` and `str.length` index: one per BMP character, two for any other |
| Palindrome.BmpUnits | TEMA4/polinocro.js:12-17 | on BMP text each character is one code unit |
| Palindrome.BmpSymmetric | TEMA4/polinocro.js:10-23 | on BMP text comparing code units is comparing characters |
| Palindrome.IsPalindromeWordSpec | TEMA4/polinocro.js:4-26 | the corrected check holds iff the cleaned word equals its reverse |
| Palindrome.BmpWordsAgree | TEMA4/polinocro.js:4-26 | the as-written and corrected checks agree on every word without astral characters |
| Palindrome.NormalizeKeepsBmp | TEMA4/polinocro.js:7 | cleaning keeps a BMP word BMP |
| Palindrome.AstralCharacterRejected | TEMA4/polinocro.js:10-22 | a one-character word outside the BMP is rejected as written, though it reads the same both ways |
| Palindrome.LowerUpper | TEMA4/polinocro.js:7 | lower-casing after upper-casing is lower-casing |
| Palindrome.CaseInsensitive | TEMA4/polinocro.js:7 | upper-casing a word of characters the case maps cover exactly does not change the answer |
| Palindrome.SpaceInsensitive | TEMA4/polinocro.js:7 | inserting a whitespace character anywhere in such a word does not change the answer |
| Palindrome.LetterWord | TEMA4/polinocro.js:7 | a word of ASCII letters is cleaned to its lower-case form, letter by letter |
| Palindrome.LowerWord | TEMA4/polinocro.js:7 | a lower-case word is its own cleaned form |
| Palindrome.LetterWordEnds | TEMA4/polinocro.js:17-19 | a word of letters whose lower-cased ends differ is not a palindrome |
| Palindrome.SymmetricSamples | TEMA4/polinocro.js:31-32 | verificar accepts "radar" and "reconocer" |
| Palindrome.Radar | TEMA4/polinocro.js:31 | "radar" is a palindrome |
| Palindrome.Reconocer | TEMA4/polinocro.js:32 | "reconocer" is a palindrome |
| Palindrome.Hola | TEMA4/polinocro.js:33 | "hola" is not |
| Palindrome.Marialamejor | TEMA4/polinocro.js:34 | "marialamejor" is not |
| Palindrome.JavaScriptIsNot | TEMA4/polinocro.js:35 | "JavaScript" is not |
| StarTriangle.Stars | EXAMENES/EXAMEN1/ejercicio1/ejercicio1.js:14 | `"*".repeat(i)` has length i |
| StarTriangle.Dibujo | EXAMENES/EXAMEN1/ejercicio1/ejercicio1.js:6-18 | the loop returns, for i from max down to 1, i stars followed by "<br>"; for max ≤ 0 the empty string |
| StarTriangle.AppendRow | EXAMENES/EXAMEN1/ejercicio1/ejercicio1.js:11-15 | one turn of the loop moves the longest remaining row onto the result |
| StarTriangle.CountAppend | EXAMENES/EXAMEN1/ejercicio1/ejercicio1.js:14 | counting characters distributes over `+=` |
| StarTriangle.CountStars | EXAMENES/EXAMEN1/ejercicio1/ejercicio1.js:14 | `"*".repeat(i)` holds i stars and nothing else |
| StarTriangle.RowCounts | EXAMENES/EXAMEN1/ejercicio1/ejercicio1.js:14 | a row holds i stars and one line break |
| StarTriangle.TriangleLength | EXAMENES/EXAMEN1/ejercicio1/ejercicio1.js:11-15 | the drawing is max(max+1)/2 + 4·max characters long |
| StarTriangle.TriangleCounts | EXAMENES/EXAMEN1/ejercicio1/ejercicio1.js:11-15 | it holds max(max+1)/2 stars and max line breaks |
| StarTriangle.RowAt | EXAMENES/EXAMEN1/ejercicio1/ejercicio1.js:11-15 | line k (counting from 0) is max − k stars and "<br>", so lines shrink by one star each |
| StarTriangle.FiveRows | EXAMENES/EXAMEN1/ejercicio1/ejercicio1.js:21-22 | dibujo(5) is "*****<br>****<br>***<br>**<br>*<br>" |
| Text.PortableSpacesAgree | EXAMENES/EXAMEN3/api.php:336 | on portable characters JavaScript's and PHP's blank sets agree |
| Text.TrimStartShape | EXAMENES/EXAMEN3/app.js:187 | dropping leading blanks keeps a suffix that does not start with a blank |
| Text.TrimEndShape | EXAMENES/EXAMEN3/app.js:187 | dropping trailing blanks keeps a prefix that does not end with a blank |
| Text.TrimStartDropsSpaces | EXAMENES/EXAMEN3/app.js:187 | only blanks are dropped at the start |
| Text.TrimEndDropsSpaces | EXAMENES/EXAMEN3/app.js:187 | only blanks are dropped at the end |
| Text.TrimEnds | EXAMENES/EXAMEN3/app.js:187 | trimmed text neither starts nor ends with a blank |
| Text.TrimEmptyIff | EXAMENES/EXAMEN3/app.js:187 | `trim() === ""` iff the text is blanks only |
| Text.TrimIsSlice | EXAMENES/EXAMEN3/app.js:187 | trimmed text is a contiguous piece of the input |
| Text.TrimAgrees | EXAMENES/EXAMEN3/api.php:336 | trimming depends only on how the blank set classifies the characters present |
| Text.PortableTrimsAgree | EXAMENES/EXAMEN3/api.php:336 | on portable text JavaScript's and PHP's trim give the same string |
| Text.TrimUnpadded | EXAMENES/EXAMEN3/app.js:189 | text with no blank at either end is left as it is |
| Text.TrimPadded | EXAMENES/EXAMEN3/app.js:189 | one blank on each side is removed |
| Text.TrimIdempotent | TEMA1/Ejercicios/js/ejercicio8.js:119 | trimming twice is trimming once |
| Text.ToUpperAt | EXAMENES/EXAMEN3/app.js:205 | toUpperCase maps each character on its own |
| Text.ToLowerAt | TEMA4/polinocro.js:7 | toLowerCase maps each character on its own |
| Text.AsciiUpperAt | EXAMENES/EXAMEN3/api.php:350 | strtoupper maps each character on its own |
| Text.UpperOf | EXAMENES/EXAMEN3/app.js:205 | upper-casing, checked character by character |
| Text.UpperKeepsSpaces | EXAMENES/EXAMEN3/app.js:205 | changing case never turns a blank into a non-blank or back |
| Text.TrimUpperCommute | EXAMENES/EXAMEN3/app.js:205 | `s.toUpperCase().trim()` equals `s.trim().toUpperCase()` |
| Text.AsciiUppersAgree | EXAMENES/EXAMEN3/api.php:350 | on ASCII text toUpperCase and strtoupper agree |
| Text.AsciiLengths | EXAMENES/EXAMEN3/api.php:338 | on ASCII text `.length` and strlen both count characters |
| Text.PlainAscii | EXAMENES/EXAMEN3/app.js:189 | unpadded ASCII text trims to itself and its length is its character count |
| Text.PaddedTrim | EXAMENES/EXAMEN3/app.js:189 | one space on each side trims away |
| Text.DecimalText | EXAMENES/EXAMEN3/app.js:124 | an id written into the URL is a non-empty string of digits |
| Text.DecimalRoundTrip | EXAMENES/EXAMEN3/api.php:22 | reading back a written numeral gives the number |

## Left out

- Browser I/O and UI of app.js are not modelled, because they are DOM, network or dialog code. This covers:
  - the fetch wrappers and JSON parsing;
  - the SweetAlert dialogs and the spinner;
  - table rendering, filtering and error display;
  - `escaparHTML`.

  `SaveProduct` stops at the request it decides to send. `SearchById` and `SaveProduct` receive the number parseInt read, as a parameter.
- Server plumbing of api.php is not modelled:
  - the mysqli connection and CORS headers;
  - reading `php://input`;
  - the 500 answers on a failed statement;
  - the `mensaje` wording of the JSON answers.

  A JSON body is either not JSON or an object with the five fields. A body that decodes to a non-object is not modelled.
- `ProductData.Field` holds a string or nothing: a JSON number or boolean sent in a text field is not modelled. PHP's `trim` would cast it to a string, so `"codigo": 123456789` passes the server's codigo check.
- `filter_var(..., FILTER_VALIDATE_EMAIL)`: its rules are not visible. It is an uninterpreted function parameter of `ProductTable`, and nothing claims it agrees with the browser's pattern. `ClientServer.FormsAgree` takes such an agreement as a hypothesis.
- Number parsing (`parseFloat`, `isNaN`, `is_numeric`, `(float)`) is abstracted into the six price readings listed above; floating point is out of scope.
- `Cities.CityMap.Add`: the count `parseInt` reads is modelled as a finite integer. A numeral of 309 or more digits reads as Infinity, which passes the `isNaN`/`< 0` guard and is stored. Rounding above 2^53 is not modelled either.
- `Cities.CityMap.Edit`: the same finite reading of the new count from `parseInt`; Infinity is not modelled.
- `Cities.CityMap.LeastPopulated`: the minimum scan of ejercicio8.js starts at Infinity and compares with `<`, so when every count is Infinity it finds no city. The model starts from the first entry and always answers with one.
- `ProductClient.SearchById`: `parsed` is a finite integer or NaN. The Infinity that `parseInt` gives for a huge numeral passes the guard and is sent as `?id=Infinity`, which the server reads as 0 and answers with 404; that path is not modelled.
- `ClientServer.PrecioAgrees` and `ClientServer.FormsAgree` state agreement only for prices both sides read alike. The browser passes "Infinity" while the server refuses it as "número válido". For "0x10", "0b1" and "-Infinity" the browser says "mayor que 0" and the server says "número válido". `ClientServer.JsOnlyPriceDiverges` states these cases.
- `ProductApi.PhpIntCast`: does not model 64-bit overflow of `(int)`, nor the exponent forms PHP 8 accepts in numeric strings.
- `ProductApi.ProductTable.CreateProduct`: the duplicate check compares codigo exactly, as MySQL's binary collation would; a case-insensitive collation is not modelled.
- `ProductApi.ProductTable.ReplaceRow`: its duplicate query (`codigo = ? AND id != ?`) also compares codigo exactly; a case-insensitive collation is not modelled.
- `ProductApi.ProductTable.UpdateProduct`: inherits the exact codigo comparison of `ReplaceRow`.
- The Complaint field tag in `ProductApi` is part of the model only; the JSON `errores` list carries the text alone.
- Case maps in `Text` cover ASCII and Latin-1 only; the letters that change length or leave Latin-1 when upper-cased (ß, µ, ÿ) are kept as they are.
- `ProductClient.TallaRule`: because the case map stops at Latin-1, the model rejects the size "ſ" (U+017F, long s). JavaScript upper-cases it to "S", so app.js:205 accepts it.
- `Palindrome.CaseInsensitive` and `Palindrome.SpaceInsensitive` require `Text.CaseMapExact`, because JavaScript's full case maps break them outside it. "ßs" gives false, but its upper case "SSS" gives true. "µμ" behaves the same way, since µ upper-cases to Greek Μ and lowers to μ. "σΣ" lower-cases to "σς" (final sigma) and gives false, while "σ Σ" lower-cases to "σ σ" and gives true.
- `pintarLista` and `limpiarResaltados` in ejercicio8.js are called but never defined.
  - `Cities.CityMap.Add`: does not model the exception thrown by the `pintarLista()` call after `set`. The Map change happens before it, and `Add` reports the change.
  - The highlighting and info messages of the buttons are not modelled.
  - `Cities.CityMap.Edit` and `Cities.CityMap.Delete` belong to buttons created by `editarLista`. The model offers them on any Map state.
- `StarTriangle.Dibujo`: max is an integer; the truncation `repeat` applies to a fractional max is not modelled.
- The DOM output of ejercicio1.js (`innerHTML`, `console.log`) and the `console.log` loop of polinocro.js are not modelled.

## Findings

| source | as written | input that shows it | evidently intended | confidence | as-written member | corrected member |
|---|---|---|---|---|---|---|
| TEMA4/polinocro.js:10-22 | `verificar` compares UTF-16 code units (`str[0]`, `str[str.length - 1]`, `slice(1, -1)`), so a character outside the Basic Multilingual Plane is split into two different halves | "😀" (a one-character word) gives false | a word is a palindrome when its cleaned characters read the same both ways, so "😀" gives true | not executed | Palindrome.AstralCharacterRejected | Palindrome.IsPalindromeWordSpec |

The as-written function is `Palindrome.EsPalindromo` and the corrected one is `Palindrome.IsPalindromeWord`. `Palindrome.BmpWordsAgree` proves the two agree on every word made of Basic Multilingual Plane characters, which covers all of the file's sample words. The sample and insensitivity lemmas are therefore stated about the as-written function.
