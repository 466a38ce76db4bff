# images-to-google-cloud-storage upload handler, modelled in Dafny

The repository's logic is one HTTP handler (`exports.handler` in
`images-to-google-cloud-storage/src/index.js`). A GET answers 200,
whatever its headers and body. A POST carries an image. The handler checks its
`Content-Type` and `Content-Disposition` headers in a fixed order and takes
the object name from `Content-Disposition`. It then saves the body under that
name in the configured Cloud Storage bucket and answers 200, or 500 if the
save fails. Every other method gets 405.

The model has three modules:

- `Wrappers` (`wrappers.dfy`): `Option`.
- `ContentDisposition` (`content_disposition.dfy`): the filename extraction.
  The source matches the header against the JavaScript regular expression
  `^attachment;\s*filename="(?<filename>.*)"$`. The model writes that match
  as an explicit parser, `ParseFilename`. Separately, `Describes(v, name)`
  says what the expression accepts: `v` is `"attachment;" + ws +
  "filename=\"" + name + "\""`, where `ws` is all `\s` and `name` holds no
  line terminator. The parser and `Describes` are proved to agree in both
  directions. `\s` is the complete ECMAScript set: TAB, VT, FF, SP, NBSP,
  ZWNBSP, the Unicode space separators, LF, CR, LS and PS. `.` rejects
  LF, CR, LS and PS.
- `UploadHandler` (`upload_handler.dfy`): a request is a value carrying the
  method, the two headers (already looked up by name) and the body.
  `DecidePost` and `Decide` return the handler's `Action`: answer with a
  status at once, or issue one `StoreWrite` of (bucket, key, content).
  `Finish` maps the outcome of the write to a status. `Handle` returns the
  status together with the list of writes issued. The write's outcome is an
  input of `Handle`.

The source is a chain of tests with early returns. It has no loops and no
mutable state, so everything is written as functions and lemmas.

Two details of the code that the model keeps exactly:

- The whitespace run after `attachment;` is `\s*`. It may be empty, and it may contain any `\s` character, line breaks included.
- `!contentType` refuses an empty `Content-Type` value as well as a missing one.

## Model

| member | source | states |
|---|---|---|
| `ContentDisposition.IsRegexSpace` | images-to-google-cloud-storage/src/index.js:40 | the characters `\s` matches: TAB, LF, VT, FF, CR, SP, NBSP, U+1680, U+2000-U+200A, LS, PS, U+202F, U+205F, U+3000 and ZWNBSP (U+FEFF) |
| `ContentDisposition.IsLineTerminator` | images-to-google-cloud-storage/src/index.js:40 | the characters `.` does not match without the `s` flag: LF, CR, LS, PS |
| `ContentDisposition.RegexSpaceEdges` | images-to-google-cloud-storage/src/index.js:40 | NBSP, ZWNBSP, VT and LF are `\s`; NEL (U+0085), U+180E, U+200B and `f` are not |
| `ContentDisposition.LineTerminatorEdges` | images-to-google-cloud-storage/src/index.js:40 | LS and CR stop `.`; NEL, TAB and VT do not |
| `ContentDisposition.Describes` | images-to-google-cloud-storage/src/index.js:40 | the meaning of the regular expression: `v` is `"attachment;" + ws + "filename=\"" + name + "\""` for a run `ws` of `\s` characters and a `name` without line terminators |
| `ContentDisposition.SpaceRun` | images-to-google-cloud-storage/src/index.js:40 | the run `\s*` consumes: every character in it is whitespace, and the next character is not |
| `ContentDisposition.ParseFilename` | images-to-google-cloud-storage/src/index.js:39-41 | a captured filename has no line terminator, and the header is longer than the literal text around it |
| `ContentDisposition.ParseHeader` | images-to-google-cloud-storage/src/index.js:40 | round trip: `"attachment;" + ws + "filename=\"" + name + "\""` parses to `name` for every whitespace run `ws` (empty included) and every single-line `name`; the same value is refused when `name` has a line terminator |
| `ContentDisposition.ParseSound` | images-to-google-cloud-storage/src/index.js:40 | every accepted value has exactly that shape around the returned name |
| `ContentDisposition.ParseFilenameMeaning` | images-to-google-cloud-storage/src/index.js:39-41 | `ParseFilename(v) == Some(name)` holds exactly when the regular expression matches `v` and captures `name` |
| `ContentDisposition.ParseRejects` | images-to-google-cloud-storage/src/index.js:39-41 | a value not of the accepted shape yields no filename |
| `ContentDisposition.DescribesUnique` | images-to-google-cloud-storage/src/index.js:40 | a value matches with at most one filename, so the existential `Describes` and the regex's single capture agree |
| `ContentDisposition.ParsedFraming` | images-to-google-cloud-storage/src/index.js:40 | an accepted value starts with `attachment;` and ends with `"` (anchors `^` and `$`) |
| `ContentDisposition.AcceptsTightQuotedName` | images-to-google-cloud-storage/src/index.js:40 | `attachment;filename="a"b.png"` (no space, inner quote) yields `a"b.png` |
| `ContentDisposition.AcceptsLineBreakBeforeFilename` | images-to-google-cloud-storage/src/index.js:40 | a CR LF in the whitespace run is accepted |
| `ContentDisposition.AcceptsEmptyName` | images-to-google-cloud-storage/src/index.js:40 | `filename=""` captures the empty name |
| `ContentDisposition.RefusesWrongCase` | images-to-google-cloud-storage/src/index.js:40 | `Attachment;` in another case is refused |
| `ContentDisposition.RefusesMissingClosingQuote` | images-to-google-cloud-storage/src/index.js:40 | a value without the closing quote is refused |
| `ContentDisposition.RefusesTrailingCharacters` | images-to-google-cloud-storage/src/index.js:40 | characters after the closing quote are refused |
| `ContentDisposition.RefusesLineBreakInName` | images-to-google-cloud-storage/src/index.js:40 | a line break inside the name is refused |
| `UploadHandler.Present` | images-to-google-cloud-storage/src/index.js:30-43 | JavaScript truthiness of a header value as `!contentType` and `!contentDisposition` test it: present and not `""` |
| `UploadHandler.AcceptsContentType` | images-to-google-cloud-storage/src/index.js:30 | the media-type test: present, not empty, and starting case-sensitively with `image/` |
| `UploadHandler.DecidePost` | images-to-google-cloud-storage/src/index.js:28-48 | the POST path writes only when the content type is `image/...`, the disposition matches with a non-empty name equal to the key, the bucket is the configured one and the content is the body; otherwise it answers 415, 400 or 500 |
| `UploadHandler.Decide` | images-to-google-cloud-storage/src/index.js:56-67 | only a POST can lead to a write, and only a valid upload (as `DecidePost`) |
| `UploadHandler.Finish` | images-to-google-cloud-storage/src/index.js:47-53 | the status after the write is 200 exactly when the write succeeded, otherwise 500 |
| `UploadHandler.Handle` | images-to-google-cloud-storage/src/index.js:24-67 | at most one write per request; the status is one of 200, 400, 405, 415, 500; a write always belongs to a valid upload, to the configured bucket, with the body as content; 200 means a GET or a successful write |
| `UploadHandler.OtherMethodNotAllowed` | images-to-google-cloud-storage/src/index.js:57-66 | any method other than GET and POST gets 405 and no write |
| `UploadHandler.GetAlwaysOk` | images-to-google-cloud-storage/src/index.js:24-26 | GET gets 200 and no write, whatever its headers and body |
| `UploadHandler.UnsupportedMediaType` | images-to-google-cloud-storage/src/index.js:29-32 | a POST with a missing, empty or non-`image/` content type gets 415 and no write, whatever its disposition |
| `UploadHandler.MissingDisposition` | images-to-google-cloud-storage/src/index.js:34-37 | a POST with an image type and a missing or empty disposition gets 400 and no write |
| `UploadHandler.NoFilename` | images-to-google-cloud-storage/src/index.js:39-45 | a POST whose disposition does not match, or captures `""`, gets 400 and no write |
| `UploadHandler.ValidUploadWritesOnce` | images-to-google-cloud-storage/src/index.js:47-50 | a valid upload issues exactly one write of (configured bucket, parsed name unchanged, body); the status is 200 on success and 500 on failure, with no second attempt |
| `UploadHandler.UnconvertibleBody` | images-to-google-cloud-storage/src/index.js:47-53 | valid headers with a body `Buffer.from` cannot convert: 500 and no write |
| `UploadHandler.NoDeduplication` | images-to-google-cloud-storage/src/index.js:47-50 | the same valid upload handled twice issues the same write twice; the handler skips nothing |
| `UploadHandler.CatPngUpload` | images-to-google-cloud-storage/src/index.js:47-50 | `image/png` with `attachment; filename="cat.png"` writes the body once under `cat.png`, with 200 or 500 by the outcome |

## Left out

- The Cloud Storage client (`storage.bucket(...).file(...).save(...)`) is a foreign library. The model reduces it to the write it is asked to do, plus a boolean outcome. Every kind of failure is one `false`, as in the source's `catch`.
- The `./env` configuration module is not part of this model. The bucket name is a parameter.
- Express's `req`/`res` and `res.sendStatus` are HTTP I/O. The response is the returned status. Header lookup, which is case-insensitive, is already done: each header arrives as an `Option<string>`.
- `Buffer.from(req.body, "binary")` is modelled only in outline. A body arrives either as bytes, passed through unchanged, or as `None`, a body the conversion throws on (for instance an absent one). `None` leads to 500 with no write. The latin1 conversion of a string body is not modelled.
- `async`/`await`, and concurrent requests that race on the same object key, are not modelled. The handler does no coordination, and last-write-wins belongs to the store.
- JavaScript strings are UTF-16. The model's strings are sequences of Unicode scalar values, so header values containing unpaired surrogates cannot be expressed. For every other value the regular expression gives the same result on both.
