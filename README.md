# sqlMicroservice request core, in Dafny

A model of the decision and transformation logic of `server.py`, the Flask
service that runs stored SQL templates over HTTP (`GET /sql/<path>`):

- **Templates**: the dotted logical path becomes the storage path
  (`.` → `/`, then `.sql`) that the template store is asked for.
- **RequestOptions**: the binding map handed to both `render` and `execute`,
  and the cursor options (`_assoc` → named-tuple factory, `_cursor` → a
  server-side cursor named after the template path, `_itersize` → the raw
  value assigned to `cursor.itersize`).
- **Auth**: the `authorized` decorator, with `CONF` as a `Config` value.
- **Compression**: the `zipper` hook of `gzipped` as the method `Zip` of a
  `Response` class whose fields it updates in place, specified by the pure
  state function `Zipped`.
- **Encoding**: `CustomJSONEncoder.default` over a tagged value
  (`Temporal`, `Sequence`, `Other`), with the `%d/%m/%Y %H:%M:%S` format and a
  parser that inverts it. `Other` covers both the values the JSON encoder
  writes itself (text, numbers, booleans, `None`, dicts) and those that reach
  the base `default`.
- **Metadata**: `isDate` and the loop that builds one column descriptor per
  `cursor.description` entry.
- **Handler**: the `do` view behind `authorized`, composing all of the above.
  The template engine and the database are parameters (`render`, `execute`).
- **Digits**, **Wrappers**, **Http**: zero-padded and `str()` decimal text,
  `Option`, and the header and argument maps shared by the modules above.

The model follows the code in these places, where a reader might expect otherwise:

- A wrong `_authToken` argument is rejected even when the `Authorization`
  header holds the right secret. The argument replaces the header's token
  before the comparison (`Auth.WrongArgumentOverridesValidHeader`). It is not
  "accepted if either matches".
- Control keys (`_assoc`, `_cursor`, `_itersize`, `_authToken`) are not
  removed. The whole argument map goes to both `render` and `execute`
  (`RequestOptions.Params`).
- `_itersize` is passed on as the raw text, with no check that it is an integer.
- Only type code 1114 (`timestamp` without time zone) counts as a date column.
- The source is Python 2 code (it imports `cStringIO`). Python 2's `strftime`
  raises `ValueError` for years before 1900, and the `except TypeError`
  clause does not catch it. `Encoding.Default` returns `YearBefore1900` for
  such values.

## Model

| member | source | states |
|---|---|---|
| Templates.ReplaceDots | server.py:108 | same length; each character is kept, except that `.` becomes `/` |
| Templates.TemplatePath | server.py:108 | length is the input's plus 4; the prefix is the dot-replaced input, the suffix is `.sql`; no `.` appears before the suffix; a position holds `/` iff the input held `.` or `/` there |
| Templates.TemplatePathRoundTrip | server.py:104-108 | for a slash-free path (what `<string:path>` matches), reading the storage path back yields the original path |
| Templates.TemplatePathInjective | server.py:104-108 | distinct slash-free logical paths give distinct template paths |
| Templates.SlashAndDotCollide | server.py:108 | `a.b` and `a/b` both rewrite to `a/b.sql`, so the rewrite alone is not injective |
| Templates.GetTemplate | server.py:109 | the stored body when the path is in the store, otherwise `None` (`TemplateNotFound`) |
| RequestOptions.Params | server.py:110 | the binding map is the argument map unchanged; it is the empty map when there are no arguments |
| RequestOptions.Factory | server.py:111 | named-tuple factory iff `_assoc` is present |
| RequestOptions.CursorName | server.py:112 | a name iff `_cursor` is present, and that name is the template path |
| RequestOptions.Itersize | server.py:119-120 | set iff `_itersize` is present, to the raw argument text |
| RequestOptions.SelectCursor | server.py:111-120 | all three cursor options at once, each decided by its own control key |
| RequestOptions.CursorDependsOnlyOnControls | server.py:110-120 | two argument maps that agree on the control keys give the same cursor options |
| RequestOptions.OrdinaryArgumentKeepsCursor | server.py:110-120 | adding a non-control argument leaves the cursor options unchanged |
| Auth.IsValidToken | server.py:33-34 | true iff the token equals the configured secret |
| Auth.ChosenToken | server.py:42-46 | `None` iff neither credential is present; the `_authToken` argument when present, otherwise the `Authorization` header |
| Auth.Authorized | server.py:36-53 | the view runs iff a token was chosen and it equals the secret |
| Auth.AuthorizedCases | server.py:38-50 | accepted iff the argument is present and right, or the argument is absent and the header is present and right |
| Auth.NoCredentialsRejected | server.py:38-40 | with neither header nor argument the request is rejected |
| Auth.ArgumentTakesPrecedence | server.py:42-46 | when the argument is present, changing the header does not change the decision |
| Auth.WrongArgumentOverridesValidHeader | server.py:42-50 | a right header paired with a wrong argument is rejected |
| Auth.EitherCredentialAloneSuffices | server.py:38-52 | the right secret alone in either the header or the argument is accepted |
| Compression.AcceptEncoding | server.py:60 | the request's `Accept-Encoding` value, or `''` when it is absent |
| Compression.Lower | server.py:62 | same length; each character lower-cased |
| Compression.Contains | server.py:62 | true iff the pattern occurs in the text at some offset |
| Compression.AcceptsGzip | server.py:62 | true iff `gzip` occurs in the header at some offset, in any mix of upper and lower case |
| Compression.IsSuccess | server.py:66 | the status passes the range test of line 66 iff it is in the 2xx class |
| Compression.Zipped | server.py:59-78 | the pure model of the hook: the status never changes; `direct_passthrough` is cleared iff gzip is accepted; no header is removed; the body is kept or becomes the gzip of the old body; the headers are kept, or `Content-Encoding` was absent and is now `gzip`; body or headers change only for a 2xx response to a client that accepts gzip |
| Compression.AcceptsGzipIgnoresCase | server.py:62 | lower-casing the header first does not change whether gzip is accepted |
| Compression.AcceptsGzipMixedCase | server.py:62 | `GZip` is accepted |
| Compression.EmptyAcceptEncodingRefuses | server.py:60-62 | the default `''` does not accept gzip |
| Compression.ZipWithoutGzipChangesNothing | server.py:60-63 | without gzip in `Accept-Encoding` the whole response, `direct_passthrough` included, is unchanged |
| Compression.ZipSkipsUnsuitableResponse | server.py:64-67 | a non-2xx or already encoded response changes only in `direct_passthrough := False` |
| Compression.ZipCompresses | server.py:69-77 | the body becomes the gzip of the old body; `Content-Encoding` and `Vary` are set, and `Content-Length` is the decimal length of the new body; the key set becomes the old one plus those three keys; every other header and the status keep their values |
| Compression.ZipIdempotent | server.py:59-78 | applying the hook a second time changes nothing (it never compresses twice) |
| Compression.Response.Zip | server.py:59-78 | the response's new state is `Zipped` of its old state |
| Digits.Decimal | server.py:77 | `str(n)`: digits only, no leading zero, and it denotes `n` |
| Digits.Padded | server.py:21 | exactly `width` digits that denote `n` |
| Digits.PaddedValue | server.py:21 | every digit string is the padded form of the number it denotes |
| Encoding.Format | server.py:21 | 19 characters: zero-padded digit fields with `/`, `/`, ` `, `:`, `:` in between |
| Encoding.FormatThenParse | server.py:21 | the formatted text names the same instant, minus the microseconds |
| Encoding.ParseThenFormat | server.py:21 | every text of that shape that names an instant is exactly that instant's format |
| Encoding.Default | server.py:17-27 | a datetime (year 1900 or later) becomes its 19-character text; an earlier year is an error; a sequence becomes the list of the same elements in the same order; anything else is handed, with its type name, to the base encoder |
| Encoding.Encodes | server.py:17-27 | the encoder writes a value out iff: a datetime has a year of 1900 or later; every element of a sequence encodes; any other value's type is one that gets written out, by the encoder itself (text, numbers, booleans, `None`, dicts) or by the base `default` |
| Encoding.NestedEarlyYearFails | server.py:20-21 | a datetime before 1900 anywhere inside nested sequences makes the whole value fail to encode |
| Metadata.IsDate | server.py:29-31 | true iff the type code is 1114 |
| Metadata.Describe | server.py:128 | the descriptor copies name and type code, and is a date column iff the type code is 1114 |
| Metadata.BuildMetadata | server.py:124-133 | `count` is the number of fetched rows; there is exactly one column per description entry, in order, with its name, its type code and the date flag |
| Handler.CursorFor | server.py:111-120 | the cursor is named iff `_cursor` is present, and then it is named after the template path; it uses the named-tuple factory iff `_assoc` is present; it gets an `itersize` iff `_itersize` is present, and then that raw text |
| Handler.RowsEncode | server.py:136 | the fetched rows can be written out iff each row, taken as a list, encodes |
| Handler.Serve | server.py:104-136 | 401 iff not authorized (before any lookup); 404 with body `Not found` iff authorized and either the template is missing from the store or rendering raises `TemplateNotFound` (for a template it includes, extends or imports); 200 iff, beyond that, rendering succeeds, execute succeeds with the argument map, and every row value encodes (any other failure is a 500); the 200 payload holds the fetched rows, their count and one descriptor per column |

## Left out

- Flask routing, the `request` and `g` globals, `abort`, the registration by `after_this_request` and `app.run` are HTTP plumbing. A request is a record of path, headers and arguments.
- Handler.Serve: the reply is not passed through `Zip`. The hook is modelled on its own, as `Compression.Response.Zip`.
- Handler.Serve: the connection is opened by `before_request` (server.py:93-96), which runs before the 401 decision. A failure to connect therefore gives a 500 even to an unauthorized request. The model assumes the connection succeeds.
- Encoding.Default: what Flask's base `JSONEncoder.default` makes of a value is not modelled. It turns a `uuid.UUID` into text, a `datetime.date` into an HTTP date, and an object with `__html__` into its markup, and it raises `TypeError` for other types. `ToBaseEncoder` only records that the value was handed on. Whether the base encoder accepts a type is the `baseEncodes` parameter of `Encoding.Encodes` and `Handler.Serve`.
- The connection lifecycle in `before_request` and `teardown_request`, and `cursor.close()`, are resource handling and I/O.
- The template engine (`Environment`, `PackageLoader`, `render`) is foreign. Rendering is the `render` parameter, and the store is a map keyed by the exact storage path. The loader's own normalisation is not modelled: it drops empty path segments, so `a..b` and `a.b` would find the same file.
- The database calls (`conn.cursor`, `execute`, `fetchall`, `description`) are foreign. They are the `execute` parameter, and any exception they raise becomes a server error. A description entry keeps only its name and type code.
- The gzip byte transform (`GzipFile`, `StringIO`) is the `gzip` function parameter of `Zip`. Python 2's `GzipFile` writes the current time into the gzip header, so the compressed bytes are not a function of the body alone. The model fixes one `gzip` per call, so `ZipIdempotent` and `ZipCompresses` speak of that one call's output.
- JSON serialisation (`jsonify`, the base `JSONEncoder.default` fallback, the encoding of named-tuple rows) is left out. `Encoding.Default` only says what the hook hands back.
- Header names: werkzeug's `Headers` compare names without regard to case and may hold repeated values. The model's headers are maps keyed by the canonical names.
- Query arguments: werkzeug's `MultiDict` may hold several values for one key. The model keeps only the first value, which is what `request.args[key]` returns.
- Handler.Serve: Jinja's `render` turns the `MultiDict` into a dict of value lists, so a template sees `[u'42']` where `execute` binds `u'42'`. The model's `render` receives the first-value map. Since `render` is a parameter, any such difference lies inside it.
- Handler.Serve: psycopg2 stores `itersize` as a C long, so assigning the raw text at server.py:120 most likely raises `TypeError` and gives a 500. The model hands the text to `execute` inside the cursor options, where that failure can only appear as `execute` returning `None`.
- Encoding.Encodes: a dict is one `Other` value, so the values inside a dict are not looked into. A datetime before 1900 inside a dict is not caught by the model.
- Compression.Lower: folds ASCII letters only. Python's Unicode lower-casing of other characters is not modelled.
- Werkzeug also sets `Content-Length` when `response.data` is assigned. The value is the same one line 77 writes, so it is not modelled separately.
- Encoding.DateTime: each field is bounded to its range, but the day is not checked against the month's length (a `datetime` never holds 30 February). Time zones are not modelled.
- `CONF['DATABASE']` and `CONF['DEBUG']` are kept in `Auth.Config` but nothing uses them.
