# php-debugbar middleware, modelled in Dafny

This project models two PSR-15 components that put the PHP DebugBar into a web application
while it is being developed.

- **`DebugBarMiddleware`** first checks whether the application is in development mode. It
  decides this from `APP_ENV`, `DEBUG` and the SAPI name. In development mode it logs the
  request to the toolbar engine, calls the next handler, and checks whether the response is
  HTML. If it is, the middleware splices the toolbar markup in front of every `</body>`. The
  markup is a fixed `<style>` block followed by what the renderer returns. The spliced text
  is written back over the response's body stream after a rewind. Its `addMessage`,
  `startMeasure` and `stopMeasure` helpers do nothing outside development mode.
- **`DebugBarAssetsHandler`** serves the toolbar's static files.
  - It removes every `/debugbar/` from the request path and joins the result to the
    resources directory.
  - It canonicalises both paths and accepts the candidate only if its canonical path has
    the canonical root as a plain string prefix.
  - The file must be a readable regular file whose read succeeds.
  - The answer is a 200 with the content, a MIME type taken from the extension, a one-hour
    `Cache-Control` and the byte length as `Content-Length`. Every other case gets a bare
    404.
  - When no path is given, the resources directory is the first of four vendor locations
    that is a directory.

Files:

- `wrappers.dfy`: `Option` and `Result`.
- `strings.dfy`: the PHP string functions involved, on byte strings modelled as `string`:
  - `str_starts_with`, `str_contains` and `str_replace`.
  - `explode`/`implode`, the reference definition for `str_replace`.
  - the last-`/` and last-`.` searches inside `pathinfo`, `(string)` of an int, and ASCII
    `strtolower`.
- `http.dfy`: the `php://memory` body stream as a class, plus the response value.
- `middleware.dfy`: the development gate, the HTML check, the splice, the toolbar engine as
  an append-only event log, and the middleware class.
- `assets.dfy`: path handling, the MIME table, response shaping, the handler's guard chain,
  resources-directory discovery, and the handler class.

Three behaviours of the code are worth spelling out:

- **Containment check.** The containment test is a plain `str_starts_with` on the canonical
  paths, not a check on directory boundaries. A sibling such as `<root>-evil/...` therefore
  passes. `Assets.SiblingOfRootIsServed` proves that such a file is served.
- **Which tags are replaced.** Every `</body>` is replaced, not only the last one.
- **`Content-Length` after injection.** It is not recomputed. `Process` leaves the headers
  exactly as the handler set them.

The injection test in `test/DebugBarMiddlewareTest.php` runs under PHPUnit, and PHPUnit's SAPI
is `cli`. The gate is closed there whatever `APP_ENV` and `DEBUG` say
(`Middleware.CliClosesGate`). So in that environment `process` passes the page through
untouched. `Middleware.TestPageInjection` states the splice on the test's page, not `process`
under the test's environment.

## Model

| member | source | states |
|---|---|---|
| Middleware.DevelopmentModeIff | src/DebugBarMiddleware.php:73-95 | the gate is closed exactly when APP_ENV is "production", DEBUG is exactly "false" or "0", or the SAPI is "cli"; it is open in every other case |
| Middleware.FalsyAppEnvIsDevelopment | src/DebugBarMiddleware.php:76-82 | an unset, empty or "0" APP_ENV reads as "development" and decides the gate exactly as APP_ENV=development does |
| Middleware.CliClosesGate | src/DebugBarMiddleware.php:89-92 | under the `cli` SAPI the gate is closed for every APP_ENV and DEBUG, including the injection test's `development`/`true` |
| Middleware.IsHtmlIff | src/DebugBarMiddleware.php:100-104 | a response is HTML exactly when "text/html" occurs somewhere in its Content-Type line, or the line is "" or "0" (PHP `empty`) |
| Middleware.JsonIsNotHtml | test/DebugBarMiddlewareTest.php:61-80 | `application/json` is not HTML, so its body is never spliced |
| Middleware.HtmlExamples | src/DebugBarMiddleware.php:102-103 | a Content-Type with parameters (`text/html; charset=UTF-8`) is HTML, and so are "" and "0" |
| Middleware.Markup | src/DebugBarMiddleware.php:120-124 | the injected markup starts with `<style type="text/css">` and ends with the renderer's output |
| Middleware.InjectionKeepsText | src/DebugBarMiddleware.php:126 | cutting the body at every `</body>` gives pieces with no `</body>` in them that glue back to the body; the injected body is the same pieces glued with markup+`</body>` |
| Middleware.InjectionNeedsTagAndRender | src/DebugBarMiddleware.php:111-133 | a body without `</body>`, or a renderer that throws an `Exception`, leaves the body unchanged |
| Middleware.InjectionPlacesMarkup | src/DebugBarMiddleware.php:126 | when the body has a `</body>`, the injected body contains the markup immediately followed by `</body>` |
| Middleware.InjectionNotShorter | src/DebugBarMiddleware.php:126-129 | the injected body is never shorter than the original, so writing it from offset 0 covers the old text |
| Middleware.InjectionAtSingleTag | src/DebugBarMiddleware.php:126 | a body with exactly one `</body>` becomes the text before it, the markup, `</body>`, then the text after it |
| Middleware.TestPageInjection | test/DebugBarMiddlewareTest.php:22-40 | on the test page, `<h1>Test</h1>` and the surrounding text survive, and the markup lands right before `</body>` |
| Middleware.OneMessagePerRequest | src/DebugBarMiddleware.php:44-60 | among the events `process` itself adds in development mode, the only message is `Request: <method> <uri>` |
| Middleware.DebugBarMiddleware.constructor | src/DebugBarMiddleware.php:26-35 | a missing engine becomes a fresh engine with a time collector and an empty log; a missing asset path becomes `/debugbar` (`??`, so "" is kept) |
| Middleware.DebugBarMiddleware.Process | src/DebugBarMiddleware.php:37-68 | the handler is called once and its response returned. Outside development mode, `process` logs nothing beyond what the host code reports during the call, and the body is untouched. In development mode, the measure start and the request message are logged before the call, then the host code's reports, then the stop after it; an HTML body is replaced by the injected body |
| Middleware.DebugBarMiddleware.InjectDebugBar | src/DebugBarMiddleware.php:109-136 | reading, splicing, rewinding and writing leaves the stream holding exactly the injected body; the same response object is returned |
| Middleware.DebugBarMiddleware.AddMessage | src/DebugBarMiddleware.php:157-162 | appends one message with its level (by default `info`) in development mode, and leaves the log unchanged otherwise |
| Middleware.DebugBarMiddleware.StartMeasure | src/DebugBarMiddleware.php:167-175 | appends one measure start, whose label defaults to none, only in development mode with a time collector; otherwise the log is unchanged |
| Middleware.DebugBarMiddleware.StopMeasure | src/DebugBarMiddleware.php:180-188 | appends one measure stop only in development mode with a time collector; otherwise the log is unchanged |
| Strings.ContainsIffOccursAt | src/DebugBarMiddleware.php:103 | `str_contains` holds exactly when the needle starts at some offset of the haystack |
| Strings.ReplaceAllIsJoinOfSplit | src/DebugBarMiddleware.php:126 | `str_replace` of every occurrence equals cutting at the search string (`explode`) and gluing with the replacement (`implode`) |
| Strings.JoinOfSplit | src/DebugBarMiddleware.php:126 | gluing the pieces back with the search string gives the original text |
| Strings.SplitPiecesAreFree | src/DebugBarMiddleware.php:126 | no piece between two cuts contains the search string |
| Strings.ReplaceAllAbsent | src/DebugBarAssetsHandler.php:31 | `str_replace` on a text that does not contain the search string returns the text unchanged |
| Strings.ReplaceAllNotShorter | src/DebugBarMiddleware.php:126 | replacing by a string at least as long never shortens the text |
| Strings.ReplaceAllSingleOccurrence | src/DebugBarAssetsHandler.php:31 | with a single occurrence and no earlier partial overlap, exactly that occurrence is replaced and the rest is kept |
| Strings.DecimalString | src/DebugBarAssetsHandler.php:121 | `(string)` of a length is a non-empty digit string with no leading zero |
| Strings.DecimalRoundTrip | src/DebugBarAssetsHandler.php:121 | reading the decimal digits back gives the number |
| Strings.LastIndexOf | src/DebugBarAssetsHandler.php:92 | the index of the last occurrence of a character, with no occurrence after it, or -1 exactly when there is none |
| Strings.Lower | src/DebugBarAssetsHandler.php:92 | `strtolower` keeps the length, lowers each character and leaves no upper-case ASCII |
| Http.Overwrite | src/DebugBarMiddleware.php:128-129 | writing at an offset keeps the text before it, puts the data there and keeps any old text beyond the data |
| Http.OverwriteFromStart | src/DebugBarMiddleware.php:128-129 | writing at offset 0 data at least as long as the buffer leaves exactly the data |
| Http.Stream.Rewind | src/DebugBarMiddleware.php:128 | the position returns to 0 and the content stays |
| Http.Stream.Write | src/DebugBarMiddleware.php:129 | the content is overwritten from the position, and the position moves past the data |
| Http.Stream.ReadAll | src/DebugBarMiddleware.php:111 | the cast reads the whole content and leaves the position at the end |
| Assets.RelativePathIsPrefixRemoval | src/DebugBarAssetsHandler.php:31 | the relative path is the request path cut at every `/debugbar/` and glued with nothing; gluing with `/debugbar/` restores the request path |
| Assets.RelativePathOfRoute | src/DebugBarAssetsHandler.php:31 | `/debugbar/<rest>` with no further `/debugbar/` gives `<rest>` |
| Assets.RelativePathIsOnePass | src/DebugBarAssetsHandler.php:31 | the removal is a single pass: `/debu/debugbar/gbar/` leaves `/debugbar/` |
| Assets.FilePath | src/DebugBarAssetsHandler.php:34 | the candidate is the root, the separator `/`, then the relative path |
| Assets.Basename | src/DebugBarAssetsHandler.php:92 | the basename is everything after the last `/`: a `/`-free suffix of the path that is either the whole path or preceded by a `/` |
| Assets.AfterLastDot | src/DebugBarAssetsHandler.php:92 | the text after the last `.` of a basename: no `.` in it, a suffix, and preceded by a `.` when not empty; empty only when the basename has no `.` or ends with one |
| Assets.Extension | src/DebugBarAssetsHandler.php:92 | the extension is a suffix of the path with no `/` and no `.`; when it is not empty, a `.` stands right before it |
| Assets.ExtensionOfName | src/DebugBarAssetsHandler.php:92 | a file `stem.ext` in any directory has extension `ext`, however many dots `stem` holds |
| Assets.MimeFor | src/DebugBarAssetsHandler.php:94-110 | the table is total and never empty; the result is `application/octet-stream` exactly for extensions outside the table |
| Assets.ContentTypeOfName | src/DebugBarAssetsHandler.php:90-110 | the content type of `stem.ext` is the table entry for `ext` lower-cased |
| Assets.ContentTypeIgnoresCase | src/DebugBarAssetsHandler.php:92 | extensions that differ only in letter case give the same content type |
| Assets.JpegSpellings | src/DebugBarAssetsHandler.php:99 | `jpg` and `jpeg`, in any case, map to `image/jpeg` |
| Assets.NoExtensionIsOctetStream | src/DebugBarAssetsHandler.php:92-109 | a file name without a dot maps to `application/octet-stream` |
| Assets.NotFoundReply | src/DebugBarAssetsHandler.php:131-136 | a not-found reply is a 404 with only `Content-Type: text/plain` and an empty body |
| Assets.OkReplyShape | src/DebugBarAssetsHandler.php:116-126 | a success reply is a 200 whose body is the content, with exactly the Content-Type, `Cache-Control: public, max-age=3600` and a Content-Length whose digits read back as the byte length |
| Assets.CreateNotFoundResponse | src/DebugBarAssetsHandler.php:131-136 | builds the not-found reply on a fresh, empty stream |
| Assets.CreateResponse | src/DebugBarAssetsHandler.php:116-126 | builds the success reply on a fresh stream holding exactly the content |
| Assets.ServeOutcome | src/DebugBarAssetsHandler.php:28-60 | the handler answers 200 exactly when both paths canonicalise, the candidate has the root as a prefix, and it is a readable file whose read succeeds; the 200 carries that file's content and type, and anything else is the 404 reply |
| Assets.CanonicalisationFailureIsNotFound | src/DebugBarAssetsHandler.php:37-43 | if either path fails to canonicalise, the answer is 404 |
| Assets.OutsideRootIsNotFound | src/DebugBarAssetsHandler.php:40-43 | a canonical candidate without the canonical root as a prefix (for example `../` escapes) gets 404 |
| Assets.UnreadableIsNotFound | src/DebugBarAssetsHandler.php:45-54 | a target that `is_file` or `is_readable` rejects, or whose read fails, gets 404 |
| Assets.SiblingOfRootIsServed | src/DebugBarAssetsHandler.php:40-41 | a readable file in a sibling directory whose name extends the root's is not below `<root>/`, yet it is served with 200 |
| Assets.FirstDirectoryFrom | src/DebugBarAssetsHandler.php:75-79 | the index found is the first directory: every earlier candidate is not a directory, and the one found is |
| Assets.NoDirectoryIff | src/DebugBarAssetsHandler.php:75-84 | the search comes up empty exactly when no candidate is a directory |
| Assets.FindResourcesPath | src/DebugBarAssetsHandler.php:65-85 | returns the first of the four vendor locations (in source order; a failed `getcwd` contributes "") that is a directory, or fails with the "Could not find DebugBar resources directory" message when there is none |
| Assets.AssetsHandler.constructor | src/DebugBarAssetsHandler.php:20-26 | the handler keeps the resources path it is given |
| Assets.AssetsHandler.Create | src/DebugBarAssetsHandler.php:22-25 | an explicit path is used as given, with no search; otherwise the result is the search's, and a failed search makes construction fail |
| Assets.AssetsHandler.Handle | src/DebugBarAssetsHandler.php:28-60 | the returned response, on a fresh stream, is exactly the reply `Serve` prescribes for the request path |

## Left out

- Real I/O is not modelled.
  - `realpath`, `file_exists`, `is_file`, `is_readable`, `is_dir` and `file_get_contents`
    are the `FileSystem` value: a partial map and a few sets.
  - No real path is resolved. What `realpath` does with `.`, `..` and symlinks is whatever
    that map says.
- `getenv` and `php_sapi_name` become the `Env` parameter of each call. `putenv` belongs to
  the tests. `getcwd` becomes an `Option` parameter.
- The php-debugbar library is not modelled.
  - The engine is an append-only log of the calls it receives.
  - The renderer's `renderHead() . render()` is an opaque `Option<string>`, where `None`
    means the renderer threw an `Exception`.
  - `error_log` on that failure is a side effect with nothing to state.
  - The collectors' own timing and data are not modelled.
  - The messages collector is assumed present.
  - The time collector is a boolean fixed when the engine is built.
- `setIncludeVendors`, `setEnableJqueryNoConflict`, `getDebugBar`, `getRenderer` and
  `getDebugBarResourcesPath` are configuration or plain accessors for the library. The model
  keeps only the base URL and the resources path as fields.
- `CustomDebugBarStyles::getMinimalCss()` becomes the opaque `brandingCss` string. Its CSS
  and SVG constants are not part of this model.
- PSR-7 objects are reduced:
  - Header names are compared exactly. PSR-7 compares them case-insensitively.
  - Each header has one value.
  - Only the parts the two components touch are modelled: status, headers and the body
    stream.
- The byte model is simplified. Strings are sequences of characters, one per byte, so `strlen`
  is the length. `strtolower` is ASCII-only, as it is since PHP 8.2.
- `Assets.Basename`: does not model `basename`'s stripping of trailing slashes. The handler
  only applies it to canonical paths, which carry none.
- `DIRECTORY_SEPARATOR` is fixed to `/`, as on a POSIX system.
- `ConfigProvider` and the two factories are container wiring with no logic, and are not
  part of this model.
- `Middleware.DebugBarMiddleware.Process`: does not model an exception thrown by the next
  handler. In PHP it skips `stopMeasure` and propagates out of `process`; in the model the
  handler always returns, after appending its host events to the log.
- `Middleware.DebugBarMiddleware.InjectDebugBar`: does not model an `\Error` (a `TypeError`,
  say) thrown by the renderer. The `catch` catches only `\Exception`, so an `\Error`
  propagates out of `injectDebugBar` and `process` and no response is returned; in the model
  `InjectDebugBar` and `Process` always return.
- Concurrent requests sharing one engine are not modelled. The code has no synchronisation
  of its own.
