# QR event check-in scanner: payload parser and scan session

A single-page React app (`src/App.jsx`) uses the camera to read a QR code. It pulls
two fields, `Name` and `Event Id`, out of the decoded text. It posts them to a
check-in service and shows whether the visitor is verified. This project models
the two pieces of logic in that component and proves properties of them:

- **The payload parser `parseStringToJson`** (module `PayloadParser`). The text is
  split at line breaks. Each line is trimmed and every `"` in it is deleted. The
  line is then split at every `:` and each piece is trimmed. A line with at least
  two pieces gives a key (the first piece) and a value (the other pieces joined
  with `:` and trimmed). Only the exact keys `Name` and `Event Id` are stored, and
  a later line overwrites an earlier one. The object the loop fills is a
  `map<string, string>`. `ToRecord` is the destructuring into two optional fields
  that the caller does at line 40. `ParseStringToJson` is the loop, written as a
  method. It is proved equal to the functional specification `Parse`, a fold of
  `Store` over the line entries. The lemmas then relate `Parse` to a declarative
  description ("the last line that sets a key decides it") and to re-rendering.
- **The JavaScript string built-ins** it uses (module `JsString`): `split` on one
  character, `join`, `trim` and `replace(/"/g, '')`. `trim` strips the ECMAScript
  WhiteSpace and LineTerminator characters.
- **The scan session** (module `ScanSession`). Class `Session` holds the five
  pieces of React state: `scannedData`, `isScannerActive`, `scanStatus`, `result`
  and `loading`. It has one method per event: a decode, a verification reply, a
  transport error, and "Scan Another Code". `CurrentScreen` is the conditional
  that picks what the card shows. The camera library and the HTTP request are
  outside the model; the decoded text and the server's reply are parameters. A
  ghost field `pending` counts the requests posted and not yet settled. The reply
  methods require `pending > 0`, because a promise settles once for each request.

Some of what the code does is easy to misread. The model follows the code:

- Every `"` in a line is deleted, not only the quotes around a key or a value.
  So `Name: "X"` and `"Name": "X"` are read like `Name: X` (`PaddedLineReads`).
- Every piece is trimmed before the value is rejoined, so whitespace next to an
  inner `:` is dropped (`a : b` is stored as `a:b`).
- There is no separate error screen. A transport error only sets the status
  `Scan failed. Try again.`
- `result` survives a transport error and "Scan Another Code". So after a
  transport error, the `result` of an earlier round decides between the success
  and failure screens (`StaleResultScenario`).
- `response.data.success` is stored without a check. A reply without the field
  leaves `result` undefined, which gives status `Verification failed` and the
  failure screen. A reply body of `null` makes line 48 throw inside the `try`, so
  the `catch` sets `Scan failed. Try again.`, the path `OnTransportError` models.
- The "Scan Another Code" button shows whenever the scanner is off, including
  during verification, so a new round can start before the old reply arrives
  (`OverlappingRoundsScenario`).

## Model

| member | source | states |
|---|---|---|
| `JsString.TrimStart` | src/App.jsx:23-24 | what remains does not start with whitespace |
| `JsString.TrimEnd` | src/App.jsx:23-24 | what remains does not end with whitespace |
| `JsString.TrimStartDropsWhitespace` | src/App.jsx:23-24 | the leading trim keeps a suffix of the string and drops only whitespace |
| `JsString.TrimEndDropsWhitespace` | src/App.jsx:23-24 | the trailing trim keeps a prefix of the string and drops only whitespace |
| `JsString.Trim` | src/App.jsx:23-24 | the result has no whitespace at either end, and an already trimmed string is unchanged |
| `JsString.TrimKeepsAbsent` | src/App.jsx:23-24 | trimming never introduces a character |
| `JsString.TrimPadded` | src/App.jsx:23-24 | whitespace around a non-empty trimmed string is exactly what `trim` removes |
| `JsString.RemoveAll` | src/App.jsx:23 | the deleted character no longer occurs, and a string without it is unchanged (the order of what is kept: `RemoveAllAppend`) |
| `JsString.RemoveAllCounts` | src/App.jsx:23 | every other character is kept as often as it occurs (multiset of the input minus the deleted character) |
| `JsString.RemoveAllAppend` | src/App.jsx:23 | deleting `c` from a concatenation deletes it from each part, so the kept characters stay in their order |
| `JsString.RemoveAllChar` | src/App.jsx:23 | a single character is deleted when it is `c` and kept otherwise; with `RemoveAllAppend` this fixes the result of every string |
| `JsString.Split` | src/App.jsx:19 | split always yields at least one piece |
| `JsString.SplitAtSeparator` | src/App.jsx:24-26 | a string holding the separator splits into at least two pieces |
| `JsString.JoinSplit` | src/App.jsx:24-28 | joining the pieces of a split with the separator gives back the string |
| `JsString.SplitJoin` | src/App.jsx:24-28 | splitting a join of separator-free pieces gives back the pieces |
| `JsString.SplitPieces` | src/App.jsx:19-24 | no piece contains the separator or a character absent from the input |
| `JsString.SplitSeparatorFree` | src/App.jsx:24-26 | a string without the separator splits to itself alone |
| `JsString.Join` | src/App.jsx:28 | the join starts with the first piece, followed by the separator when there is a second piece |
| `JsString.JoinTrimmed` | src/App.jsx:28 | joining trimmed pieces with `:` gives a trimmed string, so the final `trim` of the value removes nothing |
| `PayloadParser.LineParts` | src/App.jsx:23-24 | a line always yields at least one piece |
| `PayloadParser.TrimPieces` | src/App.jsx:24 | one trimmed piece for every piece |
| `PayloadParser.LinePartsClean` | src/App.jsx:23-24 | each piece of a line is trimmed and contains no `"` and no `:`; a line without a line break gives pieces without one |
| `PayloadParser.LineEntry` | src/App.jsx:26-28 | a line's key and value, when it gives them, are trimmed |
| `PayloadParser.LineEntryPresent` | src/App.jsx:23-26 | a line gives a key and a value exactly when, trimmed and with its quotes deleted, it still holds a `:` |
| `PayloadParser.Store` | src/App.jsx:30-32 | a recognized key is set to the line's value; no other key is added, and every other key keeps its value |
| `PayloadParser.Parse` | src/App.jsx:18-37 | the object only ever holds the keys `Name` and `Event Id` |
| `PayloadParser.Collect` | src/App.jsx:22-34 | the object built by the loop only ever holds the keys `Name` and `Event Id` |
| `PayloadParser.ParseStringToJson` | src/App.jsx:18-37 | the loop returns exactly the functional specification `Parse` of its input, and only the two recognized keys; it has no precondition, so it never fails |
| `PayloadParser.StoreLine` | src/App.jsx:23-33 | one pass of the loop body updates the object exactly as storing that line's entry does |
| `PayloadParser.EntryClean` | src/App.jsx:23-28 | every key a line yields is quote-free and trimmed; every value has no `"`, no line break, no whitespace at either end or next to an inner `:` |
| `PayloadParser.CollectClean` | src/App.jsx:22-34 | storing entries with clean values gives an object with clean values |
| `PayloadParser.ParsedFieldsClean` | src/App.jsx:18-37 | every stored field has a recognized key and a value without `"` and without leading or trailing whitespace |
| `PayloadParser.LastSetterWins` | src/App.jsx:22-31 | a recognized key holds the value of the last line that sets it |
| `PayloadParser.UnsetKeyAbsent` | src/App.jsx:22-34 | a key that no line sets is absent from the result |
| `PayloadParser.StoredFieldHasLastSetter` | src/App.jsx:22-34 | every stored field comes from some line that sets it, and no later line sets that key |
| `PayloadParser.IgnoredEntryHasNoEffect` | src/App.jsx:26-33 | a line with no `:` or with an unrecognized key can be inserted anywhere without changing the result |
| `PayloadParser.NoColonLineIgnored` | src/App.jsx:24-26 | a line without `:` contributes nothing |
| `PayloadParser.NoColonTextParsesEmpty` | src/App.jsx:19-36 | text without any `:` parses to the empty object |
| `PayloadParser.ParseSingleLine` | src/App.jsx:19-34 | text without a line break is a single line: the result is what storing that line's entry into the empty object gives |
| `PayloadParser.UnrecognizedKeyIgnored` | src/App.jsx:30-32 | a `key: value` line with any other key is read but not stored |
| `PayloadParser.CaseVariantExample` | src/App.jsx:30 | `name` and `event id` lines are not stored: the key match is case-sensitive |
| `PayloadParser.QuotedValueStripped` | src/App.jsx:23 | deleting the quotes of `k: "v"` gives `k: v` |
| `PayloadParser.QuotedPairStripped` | src/App.jsx:23 | deleting the quotes of `"k": "v"` gives `k: v` |
| `PayloadParser.StrippedLineReads` | src/App.jsx:23-28 | a line that is `k: v` once trimmed and stripped of quotes reads as exactly `(k, v)` |
| `PayloadParser.PaddedLineReads` | src/App.jsx:23-28 | `k: v`, `k: "v"` and `"k": "v"`, with any whitespace around the line, all read as `(k, v)`: quotes and surrounding whitespace stripped |
| `PayloadParser.QuotedLineReads` | src/App.jsx:23-28 | both quoted forms of a clean pair are single lines that read as the pair |
| `PayloadParser.TwoLinePayload` | src/App.jsx:19-40 | a line carrying `Name` and a line carrying `Event Id`, joined by a line break, give the record of both values |
| `PayloadParser.QuotedPayloadParses` | src/App.jsx:18-40 | a payload of a quoted `Name` line and a quoted `Event Id` line, in either quoted form, gives both values without their quotes |
| `PayloadParser.RecordKeepsFields` | src/App.jsx:40 | the destructured two-field record loses nothing of the parser's object |
| `PayloadParser.ToRecord` | src/App.jsx:40 | each field is present exactly when the object holds its key, and then holds that key's value |
| `PayloadParser.RenderedLineTrimmed` | src/App.jsx:23 | trimming and deleting quotes in a rendered `Key: Value` line leaves `Key:` plus a space and the value |
| `PayloadParser.RenderedLineParts` | src/App.jsx:24 | the pieces of a rendered line are the key followed by the pieces of the value |
| `PayloadParser.ParseRenderedLine` | src/App.jsx:23-28 | a `key: value` line with a clean key and value reads back as exactly that key and value |
| `PayloadParser.ReparseRendered` | src/App.jsx:18-40 | rendering a record with clean values as `Name: X` / `Event Id: Y` lines (present fields only) and parsing it gives the record back |
| `PayloadParser.ParseIsFixpoint` | src/App.jsx:18-40 | re-rendering a parsed payload and parsing again gives the same record and the same object |
| `PayloadParser.JaneDoeExample` | src/App.jsx:18-40 | `Name: Jane Doe` / `Event Id: EVT-42` gives Name `Jane Doe` and Event Id `EVT-42` |
| `PayloadParser.GarbageExample` | src/App.jsx:18-40 | `Garbage QR` gives both fields undefined |
| `ScanSession.SelectScreen` | src/App.jsx:127-172 | the scanner iff active; otherwise the spinner iff loading; otherwise success iff the stored result is truthy, else failure |
| `ScanSession.IsTruthy` | src/App.jsx:146 | an undefined `result` is falsy, and a boolean one is truthy exactly when it is `true` |
| `ScanSession.Session.constructor` | src/App.jsx:10-15 | the initial state: no payload, scanner active, `Scanning...`, result undefined, not loading |
| `ScanSession.Session.CurrentScreen` | src/App.jsx:127-172 | in every reachable state, a payload is held exactly when the screen is not the scanner |
| `ScanSession.Session.ShowsScanAgain` | src/App.jsx:177-188 | the scan-again button is shown exactly when the scanner is not |
| `ScanSession.BuildRequest` | src/App.jsx:40-46 | the posted body carries the `Name` and `Event Id` the parser finds in the decoded text, undefined when absent |
| `ScanSession.Session.OnDecoded` | src/App.jsx:76-81 | sets `scannedData` to the text, stops the scanner, turns loading on, leaves status and result as they were; posts the parsed `Name` and `Event Id` (undefined when absent); the spinner shows |
| `ScanSession.Session.BeginVerification` | src/App.jsx:76-81 | the state changes of a decode: the payload stored, the spinner on, the scanner off, status and result untouched; the spinner shows |
| `ScanSession.Session.OnVerificationResponse` | src/App.jsx:47-55 | stores `success` as `result`, status `Scan successful!` if truthy else `Verification failed`, loading off; the screen, when the scanner is off, is success or failure accordingly |
| `ScanSession.Session.OnTransportError` | src/App.jsx:50-55 | status `Scan failed. Try again.`, loading off, `result` unchanged; the screen, when the scanner is off, follows the old `result` |
| `ScanSession.Session.OnScanAgain` | src/App.jsx:98-102 | clears `scannedData`, restarts the scanner, status `Scanning...`; `result` and `loading` unchanged |
| `ScanSession.StaleResultScenario` | src/App.jsx:39-56 | success, scan again, decode, transport error: the success screen shows with the second payload |
| `ScanSession.OverlappingRoundsScenario` | src/App.jsx:98-102 | the scan-again button shows during verification; pressing it and then receiving the reply leaves the scanner on screen with status `Scan successful!` |

## Left out

- The `Html5QrcodeScanner` library and the camera (lines 2, 64-85): a foreign library. Decodes arrive as `OnDecoded` calls. The decode-failure callback only logs, so it is not modelled.
- The `useEffect` mount and cleanup and the `scanner.clear()` promise (lines 61-96): resource and async plumbing.
- The axios POST and the base URL (lines 16, 43): network I/O. `OnDecoded` returns the request body, and the reply or the failure comes in through `OnVerificationResponse` or `OnTransportError`.
- The interleaving of `addData` with React re-renders: each event takes effect at once. React's batching of the setters inside one event handler is therefore not modelled.
- `OnVerificationResponse`: `response.data.success` is modelled as an optional boolean. Other JSON values of that field (numbers, strings, objects) are not modelled beyond their truthiness.
- The JSX markup, CSS, SVGs, the logo, the footer year (`new Date()`) and the inert "Test Connection" button (lines 104-206): UI only.
- `console.log`, `console.warn` and `console.error`: logging side effects.
- `JsString`: JavaScript strings are UTF-16 code units; the model uses Unicode scalar values. The two views agree on every character the parser inspects (`\n`, `"`, `:` and the whitespace set).
