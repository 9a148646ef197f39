# ChefRoulette restaurant handlers in Dafny

ChefRoulette picks a random restaurant from a list that a serverless function
serves as JSON. The repository has several versions of that function; this
project models two:

- **Google Sheets handler** (`ChefRoulette/netlify/functions/restaurants.js`),
  module `Sheets`. It fetches a sheet through the Google Visualization API and
  cuts the JSON object out of the JavaScript wrapper (`parseGviz`). It
  normalises the column labels and finds the `Nombre`, `Tipo`, `Zona`,
  `Link delivery`, `Link ubicación` and `Imagen` columns ignoring case
  (`colIndex`). It answers 500 when one of the first three is missing.
  Otherwise it runs a loop over the rows: a row whose name, cuisine or zone is
  empty is skipped, and every other row becomes a restaurant. That
  restaurant's identifier is `makeId(name, zone, idx + 1)`: the lower-cased
  template `name-zone-ordinal`, with white space runs turned into dashes,
  every character outside `a-z 0-9 - áéíóúüñ` (either case) deleted, and the
  result cut to 80 characters.
- **Airtable handler** (`ChefRoulette/restaurants.js`), module `Airtable`. It
  checks that `AIRTABLE_TOKEN`, `AIRTABLE_BASE_ID` and `AIRTABLE_TABLE` are
  set. The view defaults to "Grid view". On an upstream error it answers 500
  and quotes the first 800 characters of Airtable's reply. Otherwise it maps
  each record to a restaurant: every text field is trimmed, the cuisine
  defaults to "Varios" and the zone to "Madrid", and the image is taken from
  the first attachment's `url` or from a string field. It then keeps the
  records whose name is not empty.

The shared parts sit in their own modules:

- `Text`: JavaScript's `trim` and white space, `toLowerCase`, `slice` and
  the decimal rendering of integers.
- `JsValues`: parsed JSON values, truthiness, `String(v)` and
  `normalize` (`String(v || "").trim()`).
- `Seqs`: keeping the present values of a sequence of optional values, in
  order. Both the Sheets row loop and the Airtable `map`/`filter` reduce to
  this shape.
- `Wrappers`: `Option` and `Result`.

The Sheets handler updates a local array step by step: `for` loop, `continue`,
`push`. So it is modelled by the methods `Sheets.CollectRestaurants`,
`Sheets.BuildResponse` and `Sheets.Handler`, each proved equal to a
specification function (`MapRows`, `Listing`). The lemmas about the handler
are proved about those functions. The Airtable handler is one expression
(`map`, `filter`, object literals), so it is modelled by functions.
`JSON.parse` and the HTTP fetch are parameters of the two handlers: the
fetch's outcome is an `Upstream` value, and the parser is a function returning
`Result`, where `Failure` carries the text of the error the parser throws.

Two points about what the code does, which the model follows:

- The identifier's ordinal is the raw row position plus one (`idx + 1`), not
  the position among the emitted restaurants. A skipped row therefore leaves a
  gap in the numbering (`Sheets.MapRowsWellFormed`, `Sheets.SkippedRowKeepsOthers`).
- `colIndex` compares lower-cased labels for equality only. It has no accent
  folding and no alternative column names. `Zona` is found as `ZONA` but not
  as `ZÓNA` (`Sheets.ColIndexIgnoresCase`, `Sheets.ColIndexKeepsAccents`).

## Model

| member | source | states |
|---|---|---|
| Text.Trim | ChefRoulette/netlify/functions/restaurants.js:4 | `trim` gives a string with no white space at either end. It is never longer than its input, and a string already trimmed is unchanged. |
| Text.TrimPadded | ChefRoulette/netlify/functions/restaurants.js:4 | `trim` removes exactly the surrounding white space: any white-space padding around a trimmed string is stripped back to that string. |
| Text.ToLower | ChefRoulette/netlify/functions/restaurants.js:8 | `toLowerCase` keeps the length, leaves no capital letter, and lower-cases each character on its own. |
| Text.ToLowerConcat | ChefRoulette/netlify/functions/restaurants.js:8 | Lower-casing a concatenation lower-cases each part. |
| Text.Truncate | ChefRoulette/netlify/functions/restaurants.js:12 | `slice(0, n)` is the prefix of length min(n, length), and the whole string when it is shorter than n. |
| Text.NatToDecimal | ChefRoulette/netlify/functions/restaurants.js:8 | `${idx}` for a natural number is a non-empty string of decimal digits, with no leading zero unless the number is 0. |
| Text.DecimalRoundTrip | ChefRoulette/netlify/functions/restaurants.js:8 | Reading back the digits of `${idx}` gives `idx` again, so the ordinal is written out in full before the identifier is cut to 80 characters. |
| JsValues.Normalize | ChefRoulette/netlify/functions/restaurants.js:3-5 | `normalize(v)` is "" for every falsy value and trimmed for every value. A string gives its trim; a non-zero number gives its decimal rendering. |
| JsValues.NormalizeEmpty | ChefRoulette/netlify/functions/restaurants.js:3-5 | `normalize(v)` is empty exactly when v is falsy, blank text, or an array whose joined text is blank. |
| Seqs.SomesOrigins | ChefRoulette/netlify/functions/restaurants.js:81-107 | The kept values are exactly the present ones, in input order: the k-th comes from the k-th present position, positions increase, and a position is used iff it holds a value. |
| Seqs.SomesCount | ChefRoulette/restaurants.js:72 | The number of kept values equals the number of present positions, counted independently from the front. |
| Sheets.CollapseSpaces | ChefRoulette/netlify/functions/restaurants.js:10 | `replace(/\s+/g, "-")` leaves no white space and never lengthens the text. It keeps text without capitals free of them, and text without white space unchanged. |
| Sheets.CollapseSingleSpace | ChefRoulette/netlify/functions/restaurants.js:10 | Two space-free words joined by one space become the two words joined by one dash. |
| Sheets.CollapseRunAppend | ChefRoulette/netlify/functions/restaurants.js:10 | The replacement works left to right: what follows a piece of text becomes depends only on whether that piece ended in white space. |
| Sheets.CollapseSpaceOnly | ChefRoulette/netlify/functions/restaurants.js:10 | A run made only of white space, of any length, becomes a single `-` (nothing more when it continues a run). |
| Sheets.CollapseRunToDash | ChefRoulette/netlify/functions/restaurants.js:10 | Every maximal run of white space, of any length, becomes exactly one `-`, and the text on either side is collapsed independently. |
| Sheets.CollapseKeepsWord | ChefRoulette/netlify/functions/restaurants.js:10 | Text without white space is kept character for character, in order, in front of whatever follows. |
| Sheets.KeepIdChars | ChefRoulette/netlify/functions/restaurants.js:11 | `replace(/[^a-z0-9\-áéíóúüñ]/gi, "")` leaves only identifier characters of either case and never lengthens the text. It keeps text without capitals free of them, and leaves text already made of those characters unchanged. |
| Sheets.KeepIdCharsConcat | ChefRoulette/netlify/functions/restaurants.js:11 | The filter works character by character: filtering a concatenation filters each part, so the kept characters stay in order. |
| Sheets.KeepIdCharsSingle | ChefRoulette/netlify/functions/restaurants.js:11 | A single character is kept exactly when it is a letter, digit, `-` or one of áéíóúüñ (either case), and deleted otherwise. |
| Sheets.IdTextIsLower | ChefRoulette/netlify/functions/restaurants.js:8-11 | After lower-casing and filtering, only lower-case letters, digits, `-` and áéíóúüñ remain. |
| Sheets.MakeId | ChefRoulette/netlify/functions/restaurants.js:7-13 | An identifier has at most 80 characters, all of them lower-case letters, digits, `-` or áéíóúüñ, and none of them white space. |
| Sheets.MakeIdIsPrefix | ChefRoulette/netlify/functions/restaurants.js:9-12 | The identifier is the first min(80, length) characters of the filtered template. |
| Sheets.MakeIdOfPlainFields | ChefRoulette/netlify/functions/restaurants.js:7-13 | A name and zone already in identifier form that fit in 80 characters give exactly `name-zone-idx`. |
| Sheets.MakeIdOfLongPlainFields | ChefRoulette/netlify/functions/restaurants.js:7-13 | A name and zone already in identifier form give the first 80 characters of `name-zone-idx`, however long it is. |
| Sheets.MakeIdCutsOrdinal | ChefRoulette/netlify/functions/restaurants.js:7-13 | Identifiers need not be unique: when the name and zone leave room for one digit only, the row numbered 10 to 99 gets the same identifier as the row numbered with its first digit (12 and 1), because the cut drops the last digit. |
| Sheets.MakeIdOfTwoWords | ChefRoulette/netlify/functions/restaurants.js:7-13 | A name of two words that are identifier text once lower-cased, joined by one space, gives the lower-cased words joined by dashes, then the lower-cased zone (also identifier text once lower-cased) and the ordinal, when everything fits in 80 characters. |
| Sheets.MakeIdExample | ChefRoulette/netlify/functions/restaurants.js:99 | The first row of a sheet with name "Sushi Ko" and zone "Centro" gets the identifier `sushi-ko-centro-1`. |
| Sheets.IndexOf | ChefRoulette/netlify/functions/restaurants.js:18 | `indexOf` returns -1 iff the character is absent; otherwise it returns a position holding it with no earlier occurrence. |
| Sheets.LastIndexOf | ChefRoulette/netlify/functions/restaurants.js:19 | `lastIndexOf` returns -1 iff the character is absent; otherwise it returns a position holding it with no later occurrence. |
| Sheets.ParseGviz | ChefRoulette/netlify/functions/restaurants.js:17-21 | The cut fails with "GViz payload not found" exactly when `{` or `}` is missing. Otherwise it is empty when the last `}` precedes the first `{`, and otherwise runs from `{` to `}`. |
| Sheets.ParseGvizSplits | ChefRoulette/netlify/functions/restaurants.js:17-21 | A non-empty cut is a contiguous piece of the text, with no `{` before it and no `}` after it. |
| Sheets.ParseGvizUnwraps | ChefRoulette/netlify/functions/restaurants.js:15-21 | Any wrapper with no `{` before the object and no `}` after it is removed, and the object comes back unchanged. |
| Sheets.Columns | ChefRoulette/netlify/functions/restaurants.js:57 | The detected columns are one label per column of the table, in column order: the i-th is `normalize` of the i-th column's label, so it is trimmed. No table or no `cols` gives none. |
| Sheets.ColIndex | ChefRoulette/netlify/functions/restaurants.js:61 | `colIndex` returns -1 iff no column matches ignoring case; otherwise it returns the first matching column. |
| Sheets.ColIndexIgnoresCase | ChefRoulette/netlify/functions/restaurants.js:61 | A column labelled `ZONA` is found as `Zona`. |
| Sheets.ColIndexKeepsAccents | ChefRoulette/netlify/functions/restaurants.js:61 | A column labelled `ZÓNA` is not found as `Zona`: accents are not folded. |
| Sheets.ColIndexTrimsLabels | ChefRoulette/netlify/functions/restaurants.js:57-61 | A label padded with white space still matches its trimmed text, because labels are normalised first. |
| Sheets.GetCell | ChefRoulette/netlify/functions/restaurants.js:85 | `getCell(i)` is "" for an unresolved column, a short row or a null cell, and the normalised value otherwise. It is always trimmed. |
| Sheets.RowRecord | ChefRoulette/netlify/functions/restaurants.js:83-106 | A row is skipped iff its name, cuisine or zone is empty. Otherwise every field of its record is `getCell` of the matching column: name, cuisine, zone, delivery URL, maps URL and image. Name, cuisine and zone are non-empty and trimmed, and the id is `makeId(name, zone, ordinal)`. |
| Sheets.MapRowsOrigins | ChefRoulette/netlify/functions/restaurants.js:81-107 | The k-th record comes from row Origins[k] and is numbered with that row's raw position plus one. Rows keep their order, a row is skipped iff RowRecord skips it, and there are never more records than rows. |
| Sheets.MapRowsWellFormed | ChefRoulette/netlify/functions/restaurants.js:87-99 | Every record's name, cuisine and zone are the cells of its source row, non-empty and trimmed, and its identifier is built from them and the raw position of that row. |
| Sheets.UnresolvedOptionalColumns | ChefRoulette/netlify/functions/restaurants.js:85-96 | A missing `Link delivery`, `Link ubicación` or `Imagen` column leaves that field "" in every record. |
| Sheets.SkippedRowKeepsOthers | ChefRoulette/netlify/functions/restaurants.js:92-99 | Replacing a row by one that is skipped removes only that row's record. All other records, identifiers included, stay the same. |
| Sheets.ColumnsIgnoreRows | ChefRoulette/netlify/functions/restaurants.js:57-58 | The detected columns do not depend on the rows. |
| Sheets.ListingOfMissing | ChefRoulette/netlify/functions/restaurants.js:70-79 | A missing `Nombre`, `Tipo` or `Zona` column gives a 500 with the detected columns and no cache header. |
| Sheets.MissingColumnsIgnoreRows | ChefRoulette/netlify/functions/restaurants.js:70-79 | The missing-column answer is the same whatever the rows are. |
| Sheets.ListingSucceeds | ChefRoulette/netlify/functions/restaurants.js:109-120 | With the required columns present, the answer is a 200 from source `gsheets` with `public, max-age=60`, a `count` equal to the number of records, and no more records than rows. The records are exactly the rows mapped by `MapRows` under the resolved columns. |
| Sheets.CollectRestaurants | ChefRoulette/netlify/functions/restaurants.js:81-107 | The loop builds exactly `MapRows(rows, ix)`. Its invariant is that after i rows the array holds the records of those rows, in order. |
| Sheets.BuildResponse | ChefRoulette/netlify/functions/restaurants.js:57-120 | Resolving the columns, checking the required ones and running the loop gives `Listing(payload)`. |
| Sheets.SheetName | ChefRoulette/netlify/functions/restaurants.js:28 | `GSHEET_NAME` when set and non-empty, otherwise "Sheet1". |
| Sheets.Handler | ChefRoulette/netlify/functions/restaurants.js:25-128 | A missing `GSHEET_ID` gives its 500 and a failed fetch gives 502 with the upstream status. A payload without braces, or one the parser rejects, gives "Unexpected error" with the message. Everything else gives `Listing` of the parsed payload. |
| Airtable.View | ChefRoulette/restaurants.js:8 | `AIRTABLE_VIEW` when set and non-empty, otherwise "Grid view". It is never empty. |
| Airtable.CheckConfig | ChefRoulette/restaurants.js:5-22 | The check fails iff the token, base id or table is unset or empty. A failure reports which of the three are present, plus the view. A success carries the three non-empty settings and the view. |
| Airtable.ViewDefaults | ChefRoulette/restaurants.js:8 | An unset view and an empty view both mean "Grid view"; setting a non-empty view uses it. |
| Airtable.Details | ChefRoulette/restaurants.js:46 | The error details are the first min(800, length) characters of Airtable's reply, and the whole reply when it is shorter. |
| Airtable.DetailsIdempotent | ChefRoulette/restaurants.js:46 | Cutting twice cuts no more than once. A reply of at least 800 characters gives the same details whatever follows them. |
| Airtable.FirstUrl | ChefRoulette/restaurants.js:59 | `imgField[0]?.url` is used iff the first element is an object whose `url` is truthy, and the value used is that `url`. |
| Airtable.ImageOfExamples | ChefRoulette/restaurants.js:57-60 | An attachment list `[{url}]` gives its url, a non-empty string gives itself, and a missing field or an empty list gives "". |
| Airtable.ImageOf | ChefRoulette/restaurants.js:57-60 | A string field is the image, and so is the truthy `url` of the first element of an array. Anything else gives "". The image is either "" or truthy, and it is not a string only when it came from an attachment. |
| Airtable.MapRecord | ChefRoulette/restaurants.js:54-71 | The restaurant keeps the record's `id`, its name is the normalised `Nombre`, and its cuisine and zone are never empty and always trimmed. |
| Airtable.MapRecordFields | ChefRoulette/restaurants.js:63-69 | An empty or missing cuisine becomes "Varios" and an empty or missing zone "Madrid"; otherwise each field is the trimmed field. The URLs are trimmed fields and the image is the one `ImageOf` picks. |
| Airtable.RestaurantsOrigins | ChefRoulette/restaurants.js:53-72 | The k-th restaurant is the mapped record at Sources[k]. Record order is kept, a record is listed iff its normalised name is not empty, and there are never more restaurants than records. |
| Airtable.RestaurantsWellFormed | ChefRoulette/restaurants.js:63-72 | Every listed restaurant has a non-empty, trimmed name, cuisine and zone. |
| Airtable.NoRecordsNoRestaurants | ChefRoulette/restaurants.js:53 | A reply without `records` lists no restaurant. |
| Airtable.RestaurantsCount | ChefRoulette/restaurants.js:53-72 | The number of restaurants equals the number of records with a non-empty name, counted independently. |
| Airtable.Handle | ChefRoulette/restaurants.js:3-89 | Missing settings give the 500 that lists them, and an upstream error gives 500 with status, status text and the first 800 characters. A reply the parser rejects gives "Server error"; anything else lists the restaurants. Only a listing has status 200 and a cache header. |

## Left out

- The HTTP request is left out: building the URLs, `encodeURIComponent`, the request headers and `fetch` itself. The fetch's outcome is a parameter (`Upstream`) of both handlers.
- `process.env` is not read. The environment is a parameter (`SheetEnv`, `Env`), with `None` for an unset variable.
- `JSON.parse` is foreign code, so it is a parameter. Its result is a typed value (`Payload`, `Data`), and its failure is `Failure` carrying the error text.
- `JSON.stringify` and the `Content-Type` header are not modelled. A response is a datatype whose fields are what the body would hold.
- `urlUsed` in the Airtable error body is left out, since it quotes a URL that is not modelled.
- `Sheets.Handler` and `Airtable.Handle` do not model the `try`/`catch` for other exceptions. The payload and records are typed, so the `TypeError`s that a `null` row, or a `null` record would throw in the original have no counterpart. Only the errors the handlers raise themselves (the missing braces, a parse failure) reach the catch answer.
- `Sheets.Handler` gives as `details` the error message the parser supplies, which is what `err?.message || err` yields for a thrown `Error`. `Airtable.Handle` does the same, where the original renders `String(err)`, which includes the error's name.
- `Text.IsSpace` covers the ECMAScript white-space and line-terminator code points that `trim` and `\s` use. `Text.ToLower` lower-cases ASCII and the Latin-1 capitals U+00C0-U+00DE only. Other Unicode case mappings, and characters outside the Basic Multilingual Plane, are not modelled.
- `JsValues.Value` holds integers only. `String()` of a fractional or exponent-notation number is not modelled, so a sheet cell holding 2.5 has no counterpart.
- `Text.IntToDecimal` writes every integer as plain digits, while `String()` writes integers of magnitude 10^21 or more in exponent notation (`1e+21`), so cells holding such numbers normalise differently.
