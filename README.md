# Request gating, archive checks and URL helpers of a geospatial editing API

This project models the support layer of a browser-facing geospatial
editing API (projects, changesets, node/way/area elements, shapefile
import), and proves what it promises:

- **Request-gating decorators** (`modules/common.py`). The wrappers are
  `catch_generic_exception`, `auth_non_browser_based`,
  `auth_just_admin_can_use` and `just_run_on_debug_mode`, plus the
  exception mapping of `get_decoded_jwt_token`. Each decorator is a decision
  over the request. It either runs the wrapped handler method and passes
  on what that method does, or it raises an HTTP error. A Python call's
  result is an `Outcome`: `Returned(value)` or `Raised(exception)`. What the
  wrapped method does is an input, and so is the signature library's
  verdict on a token. `catch_generic_exception` rolls the handler's
  database connection back. It is modelled by a method that takes the
  handler's `Connection` object and calls its `Rollback` method, which
  raises the connection's rollback count.
- **Shapefile archive checks** (`modules/common.py`). A ZIP is its list of
  entry names. `exist_shapefile_inside_zip` and
  `get_shapefile_name_inside_zip` scan for a name ending in `.shp` and stop
  at the first one. The companion check looks for the tokens `shp`, `prj`,
  `dbf` and `shx`, in that order. Each test is a substring test against any
  name. A missing token overwrites the status and the extension, so the
  message names the last missing token.
- **Identifier validation** `is_without_special_chars` (`modules/common.py`).
  Spaces become underscores, then the word must match
  `^[a-zA-Z_]+[a-zA-Z0-9_]+$` under Python's `re.match`. The pattern is
  modelled as a language: a non-empty head run followed by a non-empty
  word run. Python's `$` also matches before a single final newline, and
  the model includes that. It is proved equal to three conditions: at least
  two characters, a head character first, word characters after it.
- **Test URL helpers** (`tests/util/tester.py`). These are
  `by_multi_element_get_url_name` and `get_url_arguments`. The keyword
  arguments are a map from name to the text of the value.

Files: `errors.dfy` (Option, the exception classes, Outcome), `text.dfy`
(`endswith` and the substring test), `shapefile.dfy`, `identifier.dfy`,
`decorators.dfy` and `url_arguments.dfy`.

## Model

| member | source | states |
|---|---|---|
| `Text.Contains` | modules/common.py:148 | `t in s` holds exactly when `t` occurs at some position of `s` |
| `Text.EndsWith` | modules/common.py:125 | `s.endswith(suffix)`: the suffix fills the end of `s`, as many positions as it is long; an empty suffix always matches; a string that ends with a suffix also contains it |
| `Shapefile.ExistShapefileInsideZip` | modules/common.py:120-128 | the result is true iff some name in the listing ends with `.shp` |
| `Shapefile.GetShapefileNameInsideZip` | modules/common.py:131-139 | returns a name iff the listing holds a shapefile; the name is in the listing, ends with `.shp`, and no earlier name does; otherwise raises HTTP 404 with the fixed message |
| `Shapefile.MissingMembers` | modules/common.py:148-162 | the missing list holds exactly the tokens that no name contains as a substring |
| `Shapefile.AnyNameContainsIff` | modules/common.py:148 | `AnyNameContains`, the scan `any(token in name for name in names)`, holds exactly when some name of the listing contains the token as a substring |
| `Shapefile.ExistCompanionFilesInsideZip` | modules/common.py:142-164 | status is 200 when no required token is missing and 404 otherwise; the message is always the fixed template, filled with `""` or with `.` plus the last missing token in checking order |
| `Shapefile.CompanionCheckPassesIff` | modules/common.py:143-164 | nothing is missing (status 200, empty extension) iff each of `shp`, `prj`, `dbf`, `shx` occurs as a substring of some name |
| `Shapefile.CompanionReportsLastMissing` | modules/common.py:148-162 | on failure the reported token is missing, and every token checked after it is present, so later checks overwrite earlier ones |
| `Shapefile.CompanionExampleReportsShx` | modules/common.py:148-164 | the missing list of `["a.shp","a.dbf"]` is exactly `["prj","shx"]`, in checking order |
| `Shapefile.CompanionExampleNamesShx` | modules/common.py:148-164 | for `["a.shp","a.dbf"]` the check names `.shx`, the last missing token, not `.prj` |
| `Shapefile.CompanionExampleComplete` | modules/common.py:143-164 | `["a.shp","a.shx","a.dbf","a.prj"]` lacks nothing, so the check keeps status 200 and an empty extension |
| `Shapefile.CompanionCheckIsLooserThanSuffix` | modules/common.py:131-164 | a listing can pass the substring-based companion check while no name ends with `.shp`, so `get_shapefile_name_inside_zip` would still answer 404 |
| `Identifier.ReplaceSpaces` | modules/common.py:204 | same length; each space becomes `_` and every other character is kept; no space remains |
| `Identifier.InPatternIff` | modules/common.py:206 | a string is in the language of `[a-zA-Z_]+[a-zA-Z0-9_]+` iff it has length ≥ 2, a first character in `[a-zA-Z_]` and every later character in `[a-zA-Z0-9_]` |
| `Identifier.IsWithoutSpecialChars` | modules/common.py:193-208 | the result is that of Python's anchored match of the pattern on the word with spaces replaced, including `$` before one final newline |
| `Identifier.IsWithoutSpecialCharsOnWord` | modules/common.py:204-208 | the same verdict on the word itself: a space counts as `_`, and one final newline is ignored |
| `Identifier.IdentifierExamples` | modules/common.py:193-208 | `"a"`, `"1a"` and `"a-b"` are refused; `"a1"`, `"a b"` and `"ab\n"` are accepted |
| `Decorators.TranslateDbError` | modules/common.py:22-37 | a `ProgrammingError` or another psycopg2 `Error` becomes HTTP 500 with its class-specific message, text and code; every other outcome passes unchanged |
| `Decorators.DbErrorMessage` | modules/common.py:29-37 | the 500 message opens with the error's class (`psycopg2.ProgrammingError` or `psycopg2.Error`), contains the error's own text and ends with `\npgcode: ` and its code |
| `Decorators.CatchGenericException` | modules/common.py:20-39 | the result is the translated outcome; the connection is rolled back exactly once on a database failure, and not at all otherwise |
| `Decorators.TranslateDbErrorCloses` | modules/common.py:28-37 | no database failure escapes the wrapper, a second wrapping changes nothing, and a returned value stays returned |
| `Decorators.GetDecodedJwtToken` | modules/common.py:109-115 | decoded claims pass through; `DecodeError` and `InvalidAlgorithmError` become HTTP 400 "Invalid Token"; any other library exception propagates unchanged |
| `Decorators.AuthNonBrowserBased` | modules/common.py:49-63 | no header gives 401 with the fixed message; a decode or wrong-algorithm failure gives exactly the 400 error `get_decoded_jwt_token` raises, and an HTTP error it raises is re-raised unchanged; any other exception gives 500 with "Problem when authorize a resource. Please, contact the administrator. (…)" around the exception's text; a decoded token runs the wrapped method and passes its outcome on |
| `Decorators.AuthProceedsOnlyWithValidToken` | modules/common.py:49-63 | the wrapped method's value comes back iff the header is present and its token decodes; 401 iff the header is absent |
| `Decorators.AuthJustAdminCanUse` | modules/common.py:75-80 | a non-administrator gets 403 whatever the method does; an administrator gets the method's outcome unchanged |
| `Decorators.JustRunOnDebugMode` | modules/common.py:91-98 | outside debug mode the answer is 404 "Invalid URL." whatever the method does; in debug mode the method's outcome is passed on unchanged |
| `Decorators.GatesIgnoreInnerWhenRefusing` | modules/common.py:49-98 | when a gate refuses, its answer does not depend on the wrapped method |
| `Decorators.StackedDebugRouteHidden` | modules/common.py:20-100 | with error translation, authentication, the administrator check and the debug gate stacked outermost first, and debug mode off: the method's result never comes back; only 400, 401, 403, 404 or 500 is raised; 404 comes back for an authenticated administrator, 401 when the header is missing |
| `UrlArguments.ByMultiElementGetUrlName` | tests/util/tester.py:9-17 | `MultiPoint` maps to `node`, `MultiLineString` to `way` and `MultiPolygon` to `area`, each pair stated separately; every other input raises "Invalid multi element: …" |
| `UrlArguments.UrlNameRoundTrip` | tests/util/tester.py:9-15 | the mapping is one-to-one: the reverse mapping recovers the multi element, in both directions |
| `UrlArguments.SplitJoin` | tests/util/tester.py:32 | splitting an `&`-joined list undoes the join when no piece contains `&` |
| `UrlArguments.JoinSeparatorCount` | tests/util/tester.py:32 | `Join`, the model of `"&".join(pieces)`, starts with the first piece; when no piece holds `&`, the joined text holds exactly one `&` fewer than there are pieces, and none for no pieces |
| `UrlArguments.UrlArguments` | tests/util/tester.py:20-36 | the query string is empty exactly when no key gives a piece, and otherwise starts with `?` followed by at least one character |
| `UrlArguments.PiecesWithoutAmpersand` | tests/util/tester.py:22-29 | every piece is a non-empty `key=value`, and it holds no `&` when the given values hold none |
| `UrlArguments.GetUrlArguments` | tests/util/tester.py:20-36 | the query is `?` followed by the pieces joined with `&`, or `""` when there are no pieces; it is empty iff none of the three keys is given with a non-empty value |
| `UrlArguments.UrlArgumentsEmptyIff` | tests/util/tester.py:21-34 | the query is `""` iff each of element_id, project_id and changeset_id is absent or `""` |
| `UrlArguments.UrlArgumentsParse` | tests/util/tester.py:22-32 | when no value contains `&`, a non-empty query starts with `?`, and splitting the rest on `&` gives exactly the ordered `key=value` pieces, none of them empty, so no `&` is leading, trailing or doubled |
| `UrlArguments.UrlArgumentsIgnoresOtherKeys` | tests/util/tester.py:22-29 | only the three keys matter: argument maps that agree on them give the same query, whatever the argument order or extra keys |
| `UrlArguments.UrlArgumentsExamples` | tests/util/tester.py:20-36 | no arguments, or only empty ones, give `""`; `changeset_id=5, element_id=7` gives `?element_id=7&changeset_id=5` (fixed order) |

## Left out

- JWT encoding and decoding (`generate_encoded_jwt_token`, the `jwt_decode`
  call) are signature and cryptography code of an external library. The
  library's verdict on a token is an input (`jwtDecode`). The model maps
  only the exceptions it raises.
- `get_current_datetime`: it reads the wall clock and formats with
  `strftime`.
- `generate_random_string`: it is random by design, so there is nothing
  deterministic to state.
- `get_username_and_password_as_string_in_base64`: a call into `b64encode`.
  Its only own logic is the `user + ":" + pass` concatenation.
- The effects of the wrapped handler methods are not modelled. A method is
  represented only by what it would return or raise. Because of that, the
  model does not show that a refusing gate never runs the method.
- `is_current_user_an_administrator` and the debug flag are inputs. Any
  database access behind the administrator check is not modelled.
- psycopg2's `rollback` is represented by a rollback counter on
  `Connection`. A rollback that itself fails is not modelled.
- Tornado header lookup is case-insensitive. The model takes the
  `Authorization` header as already looked up (`Option<string>`).
- The `str(...)` texts of exceptions and of keyword-argument values are
  taken as given strings. A non-string value such as an integer never
  equals `""` and has non-empty text, so testing the text for emptiness
  gives the same result.
- The order in which the handlers stack the decorators is not part of
  the modelled files. `StackedDebugRouteHidden` states one order: error translation, authentication, administrator, debug
  gate. In that order, a caller without a valid token, or one who is not an
  administrator, gets the outer wrapper's error instead of 404. So "404
  regardless of authentication" holds only when the debug gate is
  outermost.
- An expired or otherwise invalid token that raises neither `DecodeError`
  nor `InvalidAlgorithmError` ends in 500, not 400
  (modules/common.py:57-59). The model keeps this behaviour of the code.
- Every `UtilTester` method and `tests/test_invalid_urls.py` send live
  HTTP requests to a running server. They are not modelled.
