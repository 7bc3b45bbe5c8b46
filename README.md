# tds-solver-api: the request dispatcher, in Dafny

The service has one endpoint, `POST /api/`, and `process_request` (main.py)
decides how to answer it. It tries three strategies in a fixed order:

1. When the `name` query list is truthy, it echoes the list as `{"names": [...]}`.
2. Otherwise, when `question` is truthy and the uploaded file's name ends in
   `.zip`, it opens the archive. It opens, by name, the earliest listed member
   name ending in `.csv` and, if that table has an `answer` column, answers
   with the column's first value.
3. Otherwise (no file, a file not named `*.zip`, or a first CSV without an
   `answer` column) it sends the question to the AI proxy's chat-completion
   endpoint. It answers with the first choice's content, stripped of
   surrounding whitespace.

Each raised `HTTPException` becomes an `Err(code, detail)` value.

Files:

- `wrappers.dfy`: module `Wrappers`. `Option` and `Truthy`, which is Python
  truthiness of an optional list or string.
- `text.dfy`: module `Text`. `str.endswith`, the exact character set of
  Python's `str.isspace`, and `str.strip`. Stripping is written over any
  character class and instantiated with Python's. It is also characterised
  independently (`IsStripOf`), and `strip` is proved to be the only string
  meeting that characterisation.
- `solver_api.dfy`: module `SolverApi`. The data model, the constants, the
  zip shortcut, the completion fallback and `Dispatch` itself.
- `solver_api_properties.dfy`: module `SolverApiProperties`. A lemma per
  branch and per error mapping.

Collaborators are inputs:

- The uploaded bytes are given as what `zipfile` makes of them: a failure, or
  a member listing plus, for each member name, what `pandas.read_csv` yields.
- `AIPROXY_TOKEN` is an `Option<string>` parameter.
- The HTTP POST is a function from the built `ChatRequest` to a `Completion`.

So "the completion service is never called" is stated as "the result does not
depend on that function". "Only the first CSV is read" is stated as "the
result does not depend on how the other members read".

Three behaviours of main.py are easy to misread. The model follows the code
as written:

- An empty `name` list is falsy. It does not short-circuit to
  `{"names": []}`: the request falls through to the question branch. The 400
  "At least one 'name' parameter is required" (main.py:31-32) can never be
  raised.
- Inside the `try`, the 400 "No CSV file found in ZIP." is caught by
  `except Exception`. It comes back as a 500 whose detail is
  `"Error processing ZIP file: 400: No CSV file found in ZIP."`. In current
  Starlette releases, `str()` of an HTTP exception is `"<status>: <detail>"`.
- The HTTP exceptions raised inside the second `try` ("AIPROXY_TOKEN is not
  set.", "Invalid response from AI Proxy API.") are not
  `requests.RequestException`s. They pass through that handler unchanged.

## Model

| member | source | states |
|---|---|---|
| SolverApi.Dispatch | main.py:25-76 | the result is a names echo exactly when `name` is truthy; every error is a 400 or a 500; the dead "name required" 400 is never produced; a 400 happens exactly when neither `name` nor `question` is truthy (the swallowed no-CSV 400 never surfaces) |
| SolverApi.CsvCandidates | main.py:39 | the candidates are exactly the member names ending in ".csv" (both directions), no more of them than members |
| SolverApiProperties.CsvCandidatesAppend | main.py:39 | the filter keeps listing order: it distributes over concatenation of listings |
| SolverApiProperties.FirstCandidateIsEarliest | main.py:39-43 | the name opened is the earliest listed member name ending in ".csv" |
| SolverApiProperties.OnlyFirstCandidateRead | main.py:43-46 | the shortcut's outcome depends only on how the first candidate reads, not on any other member |
| SolverApiProperties.NamesEchoed | main.py:30-33 | a non-empty `name` list yields exactly `Names(name)` whatever the question, file, token or completion |
| SolverApiProperties.EmptyNamesFallThrough | main.py:30 | an empty `name` list behaves exactly like an absent one and never yields a names echo |
| SolverApiProperties.InvalidRequestRefused | main.py:35-76 | with no names and an absent or empty question the result is the 400 "Invalid request. …", whatever the file, token or completion |
| SolverApiProperties.NonZipGoesToCompletion | main.py:36-50 | an absent file or a filename not ending exactly in ".zip" goes straight to the completion path |
| SolverApiProperties.ZipWithoutCsvIs500 | main.py:37-48 | a zip with no ".csv" member yields 500 "Error processing ZIP file: 400: No CSV file found in ZIP." |
| SolverApiProperties.ZipFailureIsTerminal | main.py:37-48 | any failure inside the zip shortcut is a 500 with the "Error processing ZIP file: " prefix and its message, independent of token and completion service |
| SolverApiProperties.UnreadableZipIs500 | main.py:37-48 | an archive that cannot be opened yields 500 "Error processing ZIP file: " followed by the error's message |
| SolverApiProperties.FirstCsvFailureIs500 | main.py:43-48 | when the member under the earliest CSV name cannot be read or parsed, or its `answer` column has no rows, the result is 500 "Error processing ZIP file: " followed by the error's message |
| SolverApi.ZipShortcut | main.py:37-48 | the shortcut fails exactly when the archive is unreadable, has no CSV member, or the member under its earliest CSV name fails to read or parse or has an `answer` column without rows; it answers exactly when the member under the earliest CSV name has an `answer` column with a first value, and that value is the answer; it yields nothing exactly when the member under the earliest CSV name parses without an `answer` column |
| SolverApiProperties.ZipAnswerFromFirstCsv | main.py:43-46 | when the member under the earliest CSV name has an `answer` column, its first value is the answer, independent of token and completion service |
| SolverApiProperties.NoAnswerColumnFallsThrough | main.py:45-50 | when the member under the earliest CSV name parses without an `answer` column, the result is that of the completion path |
| SolverApi.BuildChatRequest | main.py:54-64 | the request goes to the proxy URL with model "gpt-4o-mini", the headers `Content-Type: application/json` and `Authorization: Bearer <token>`, and the messages: the fixed system instruction, then the question as the user message |
| SolverApiProperties.RequestDeterminesQuestion | main.py:58-63 | the question reaches the service verbatim: distinct questions give distinct requests (the request's contents are stated by `SolverApi.BuildChatRequest`) |
| SolverApiProperties.CompletionSeesOnlyTheRequest | main.py:65-71 | the completion path depends on the service only through its reply to that one request |
| SolverApiProperties.TokenMissingIs500 | main.py:51-52 | a missing or empty token yields 500 "AIPROXY_TOKEN is not set." whatever the service would reply |
| SolverApiProperties.TransportFailureIs500 | main.py:73-74 | a request exception yields 500 "AI Proxy API error: " followed by its message |
| SolverApiProperties.MissingChoicesIs500 | main.py:68-69 | a reply with no or empty `choices` yields 500 "Invalid response from AI Proxy API." |
| SolverApi.CompletionStep | main.py:50-74 | every error of the completion path is a 500 and it never echoes names; it ends in an uncaught exception exactly when the token is set, the reply has a non-empty `choices` list and its first element has no string `message.content`; it answers exactly when that first element has a string content |
| SolverApiProperties.CompletionAnswerIsStrippedContent | main.py:71 | on success the answer is the first choice's content with only leading and trailing whitespace removed |
| SolverApiProperties.CompletionAnswerUnique | main.py:71 | any slice of the content with only whitespace outside it and none at its ends is the answer, so the answer is determined exactly |
| SolverApiProperties.ZipAnswerExample | main.py:36-46 | a zip holding "notes.txt" and a "data.csv" whose `answer` column starts with "42" is answered "42" with no token configured |
| Text.EndsWithIffConcat | main.py:36 | `s.endswith(x)` holds exactly when `s` is some prefix followed by `x` (exact, case-sensitive) |
| Text.FirstKept | main.py:71 | the returned index starts what `strip()` keeps: everything before it is whitespace and the character there is not |
| Text.LastKept | main.py:71 | the returned index ends what `strip()` keeps: everything from it on is whitespace and the character before it is not |
| Text.StripBy | main.py:71 | the result meets `IsStripOf`: a slice of the input with only characters of the class outside it and none at its ends (unique by `Text.StripByUnique`) |
| Text.Strip | main.py:71 | `s.strip()` meets `IsStripOf` over Python's whitespace class: only whitespace cut off, none left at either end |
| Text.StripByUnique | main.py:71 | that description has exactly one solution, the result of `strip()` |
| Text.IsWhitespace | main.py:71 | by definition, exactly the code points for which Python's `str.isspace()` holds, which are the ones `str.strip()` removes |
| Text.EndsWith | main.py:36-39 | by definition, Python's exact and case-sensitive `str.endswith`; characterised by `Text.EndsWithIffConcat` |
| Wrappers.Truthy | main.py:30-51 | by definition, Python truthiness of an optional list or string: `None` and empty are falsy; used for the tests of `name`, `question` and the token at main.py:30, 35 and 51 |
| SolverApi.TriesZip | main.py:36 | by definition, a file is present and its filename ends exactly in ".zip" |
| SolverApi.FirstCsv | main.py:43-44 | what reading the earliest CSV name yields; it is present exactly when the archive is readable and some member name ends in ".csv" |
| Text.StripByIdempotent | main.py:71 | stripping twice equals stripping once |

## Left out

- FastAPI application setup, routing, form and query parsing and the CORS middleware (main.py:13-24): framework plumbing. The model starts from the already-parsed `name`, `question` and `file` values.
- Reading `AIPROXY_TOKEN` from the environment at import time (main.py:10): the token is a parameter.
- Zip decompression and CSV parsing (main.py:38, 43-46): foreign libraries. Their results, including every failure, are given as `ArchiveRead` and `CsvRead` values. A failure to open or decompress the chosen member counts as a `CsvFail`.
- The HTTP POST and JSON decoding (main.py:65-66): a network client. Its result is a given `Completion`. In requests 2.27 and later, a body that is not JSON raises `requests`' JSON decode error, a `RequestException`, so the model gives it as a `Transport` failure. Older releases raise a plain `ValueError`, which the handler does not catch; the model does not cover those releases.
- The call to `requests.post` has no timeout (main.py:65), so a stalled proxy leaves the request hanging. `complete` is a total function and always returns, so the model does not capture this.
- SolverApiProperties.ZipWithoutCsvIs500: the detail text assumes the `"<status>: <detail>"` rendering of current Starlette releases. Older releases render this exception as `""`, which gives the detail `"Error processing ZIP file: "`. The model fixes the current rendering.
- Archive members are identified by name. With duplicate names, `zip_ref.open` opens the last entry carrying the name. `open` is a function of the name, so it covers this, but the model says nothing about which entry lies behind a name.
- Dafny strings hold only Unicode scalar values. A Python `str` can also hold lone surrogates, for example content decoded from `"\ud800"` by `response.json()` (main.py:66), and the model cannot represent them. This changes nothing for `strip`, because surrogates are not whitespace.
- Awaiting `file.read()` (main.py:38): asynchronous I/O, which does not affect the decision logic.
- The exact text of `str()` of pandas values and of library exception messages: opaque strings in the model.
- SolverApi.Dispatch: an upload always has a string filename. The framework only builds an upload from a multipart part that carries a filename, so the `AttributeError` a missing filename would raise at main.py:36 is not modelled.
- SolverApi.CompletionStep: the decoded JSON is taken to be an object whose `choices` value is absent, null or a list. Other JSON shapes (a top-level list, a non-list `choices`, a falsy non-list value) are not modelled. A first choice without a string `message.content` raises an uncaught `KeyError`, `TypeError` or `AttributeError`; the model gives it as `Unhandled`, the framework's bare 500.
