# License-plate extraction client and plate history store, in Dafny

This project models the two pieces of logic in the license-plate scanner app
that can be stated precisely:

- **`extractLicensePlate`** (`src/api/geminiApi.js`), the client that sends a
  base64 JPEG to the Gemini `generateContent` endpoint. It fails fast when no
  API key is configured. It builds one request and tries the POST at most three
  times, waiting 1 s and then 2 s between attempts. It checks that the response
  has the path `candidates[0].content.parts[0].text` with truthy steps. It cleans
  that text by trimming and removing every white-space and hyphen character, and
  returns `"No plate detected"` when nothing is left. When every attempt fails,
  it turns the last error into a user-facing message, taking the first check
  that matches.
- **The history store** (`src/utils/storage.js`). One AsyncStorage slot holds
  the list of `{id, plateNumber, imageUri, timestamp}` records, newest first.
  It supports read (defaulting to `[]`), save (prepend), delete by id (filter)
  and clear (remove the slot).

Modules:

- `Wrappers` (`wrappers.dfy`): `Option` and `Result`.
- `JsText` (`jstext.dfy`): the JavaScript string built-ins the code relies on.
  These are the `\s` character set, `trim`, `includes`, and `toString` on a
  non-negative integer, with its decimal parse as inverse.
- `GeminiApi` (`gemini_api.dfy`): the client.
  - The transport is a script `network` of per-attempt outcomes: a 2xx
    `Response`, an `AxiosError` with or without a server response, or an
    `OtherError`.
  - Every POST and every back-off wait is recorded in a trace of `Post`/`Wait` events.
  - `JSON.stringify` is an uninterpreted parameter `stringify`.
  - The method `ExtractLicensePlate` keeps the source's `while` loop over `attempts`.
    Its postcondition gives the result and the full trace in terms of `FirstSuccess`
    (the first attempt that succeeds) and `Schedule` (the post/wait pattern).
    The lemmas then state the properties of those functions.
- `Storage` (`storage.dfy`): the class `HistoryStore`.
  - Its field `slot: Option<seq<Plate>>` is the storage slot, with `None` meaning
    that nothing is stored under the key.
  - Each method says what the slot holds afterwards, and the pure filter
    `WithoutId` carries the list lemmas.
  - Storage faults are parameters. `readFault` covers a `getItem` rejection or a
    `JSON.parse` failure, and `writeFault`/`removeFault` cover a `setItem` or
    `removeItem` rejection.
  - The two `Date.now()` readings in save are parameters too.

Behaviour of the code worth noting:

- The request body is built once, before the loop (geminiApi.js:22-42), so
  every attempt posts the identical request. Every `Post` event in the trace
  carries `BuildRequest(image)`.
- The call rejects with a message string only.
- An empty `text` fails the truthiness check. It is therefore a shape failure
  and is retried, not returned as the sentinel.
- The shape-failure message surfaces as the generic message only when it does
  not contain "API key is not configured". The finish reason and the serialised
  safety ratings are copied into that message and could contain the phrase.
  A shape failure without a finish reason always surfaces as the generic message.
- `saveLicensePlate` and `deleteLicensePlate` read through `getLicensePlates`,
  which swallows read failures and yields `[]`. A read fault during save
  therefore leaves only the new record in the slot, and during delete it leaves
  an empty list. Delete always writes a list back: after deleting from an empty
  store the slot holds `[]` rather than being absent.
- Save reads the clock twice: the id comes from the first reading and the
  timestamp from the second, so they can differ.

## Model

| member | source | states |
|---|---|---|
| `JsText.Trim` | src/api/geminiApi.js:78 | `trim()` returns a contiguous slice of the input. Everything before and after the slice is white space, and the slice neither starts nor ends with white space. |
| `JsText.IncludesAt` | src/api/geminiApi.js:125 | `includes` holds exactly when the substring occurs at some index. |
| `JsText.NatToString` | src/utils/storage.js:31 | `toString` of a clock reading is a non-empty string of decimal digits. It has no leading zero unless the reading is zero. |
| `JsText.DecimalValueOfNatToString` | src/utils/storage.js:31 | Parsing the decimal id gives back the clock reading (round trip). |
| `JsText.NatToStringInjective` | src/utils/storage.js:31 | Two readings print the same exactly when they are equal. |
| `GeminiApi.ResponseText` | src/api/geminiApi.js:67-75 | A text is extracted only when the whole path `candidates[0].content.parts[0].text` is present, and it is exactly that text, never empty. A missing candidate, `content`, `parts`, `parts[0]` or `text` is a shape failure. |
| `GeminiApi.WellShapedText` | src/api/geminiApi.js:67-75 | A response whose first candidate's first part carries `text` yields exactly that text when it is non-empty. An empty `text` is a shape failure. |
| `GeminiApi.FinishReason` | src/api/geminiApi.js:86 | A finish reason is reported only when there is a first candidate, and it is exactly that candidate's truthy (non-empty) `finishReason`. |
| `GeminiApi.FirstCandidateFinishReason` | src/api/geminiApi.js:86-87 | The first candidate's finish reason is reported exactly when it is truthy, so it always reaches the shape-failure message. |
| `GeminiApi.ShapeFailureMessage` | src/api/geminiApi.js:84-93 | The message always starts with "Failed to extract license plate from response.". It is exactly that prefix iff there is no finish reason. With a finish reason it continues " Finish Reason: <reason>", and it grows beyond that iff safety ratings are present, in which case it is followed by exactly " Safety Ratings: " and the serialised ratings. |
| `GeminiApi.RemoveSeparators` | src/api/geminiApi.js:78 | The result of `replace(/[\s-]/g, '')` is no longer than the input and contains no white space or hyphen. |
| `GeminiApi.RemoveSeparatorsKeepsOthers` | src/api/geminiApi.js:78 | Every character that is not a separator occurs in the result exactly as often as in the input. |
| `GeminiApi.RemoveSeparatorsAppend` | src/api/geminiApi.js:78 | Removal distributes over concatenation, so the kept characters stay in their original order. |
| `GeminiApi.RemoveSeparatorsFixedPoint` | src/api/geminiApi.js:78 | A string is left unchanged iff it has no separators. |
| `GeminiApi.RemoveSeparatorsIdempotent` | src/api/geminiApi.js:78 | Removing separators twice gives the same result as removing them once. |
| `GeminiApi.RemoveSeparatorsOfSeparators` | src/api/geminiApi.js:78 | A string made only of white space and hyphens cleans to `""`. |
| `GeminiApi.CleanIgnoresTrim` | src/api/geminiApi.js:78 | `trim()` followed by the replacement equals the replacement alone. |
| `GeminiApi.CleanIdempotent` | src/api/geminiApi.js:78 | Cleaning twice gives the same result as cleaning once. |
| `GeminiApi.PlateTextCases` | src/api/geminiApi.js:78-81 | The returned plate text is never empty. It is "No plate detected" iff the text cleans to `""`, and otherwise it is the cleaned text. |
| `GeminiApi.AttemptResult` | src/api/geminiApi.js:54-95 | An attempt succeeds exactly when it `Succeeds` (a 2xx response whose text passes the shape check), and then yields `PlateText` of that text, which is non-empty. A 2xx response with the wrong shape throws the shape-failure message as a non-Axios error. An Axios error reaches the handler with its message and server response, and any other error with its message alone. |
| `GeminiApi.FirstSuccess` | src/api/geminiApi.js:49-95 | Finds the index of the first attempt that succeeds. Every earlier attempt failed, and when there is none, every attempt failed. |
| `GeminiApi.FirstSuccessIsFirst` | src/api/geminiApi.js:49-82 | Conversely, an attempt that succeeds after only failed attempts is the first success: the loop stops there. |
| `GeminiApi.NoSuccessWhenAllFail` | src/api/geminiApi.js:49-111 | When every attempt fails there is no first success. |
| `GeminiApi.FailedRoundsAt` | src/api/geminiApi.js:98-114 | After failed attempt i (counting from 1) with i < 3, the same request was posted and then a wait of exactly 1000·i ms was recorded. |
| `GeminiApi.FailedRoundsCounts` | src/api/geminiApi.js:49-114 | n failed rounds contain n posts, and their waits are 1000, 2000, …, 1000·n ms. |
| `GeminiApi.ScheduleCounts` | src/api/geminiApi.js:46-116 | A call that makes k attempts posts exactly k times, always the same request. It waits 1000·i ms after each attempt i < k and not after the last. |
| `GeminiApi.FullSchedule` | src/api/geminiApi.js:46-116 | Three attempts give the trace: post, wait 1000, post, wait 2000, post. |
| `GeminiApi.DisplayError` | src/api/geminiApi.js:124-138 | The final message is never empty. It is the error's own message, the no-response message, the generic message, or (only for an Axios error with a response) the status summary "API request failed: <status> - <body>. Check API key and model name.". |
| `GeminiApi.MessageChecksComeFirst` | src/api/geminiApi.js:124-135 | The first matching check decides, in source order. The missing-key, "API error:" and "Network error:" checks keep the message even for Axios errors. After them come the status summary for an Axios error with a response, the no-response message for one without, and the generic message otherwise. |
| `GeminiApi.MissingKeySurfaces` | src/api/geminiApi.js:124-126 | The missing-key error thrown at line 17 surfaces with its message unchanged. |
| `GeminiApi.ShapeFailureSurfaces` | src/api/geminiApi.js:124-135 | A shape failure surfaces as the generic message unless its text contains "API key is not configured". In that case its own message surfaces. |
| `GeminiApi.BareShapeFailureIsGeneric` | src/api/geminiApi.js:85-135 | A shape failure without a finish reason always surfaces as the generic message. |
| `GeminiApi.AllMalformedIsGeneric` | src/api/geminiApi.js:67-138 | Three 2xx responses without candidate text and without a finish reason: no attempt succeeds and the call rejects with the generic message. |
| `GeminiApi.SucceedsOnThirdAttempt` | src/api/geminiApi.js:46-114 | Fail, fail, then succeed: the third attempt is the first success, and the trace is post, wait 1000, post, wait 2000, post. |
| `GeminiApi.ExtractLicensePlate` | src/api/geminiApi.js:11-140 | Without a non-empty key the call rejects with the missing-key message and posts nothing. Otherwise, when attempt k+1 is the first success, it resolves with `PlateText` of that response's text after exactly k+1 posts and the waits before them. When none succeeds, it rejects with the display message of the third attempt's error after three posts and two waits. The loop never exits normally, so the throw at line 119 is unreachable. |
| `Storage.WithoutId` | src/utils/storage.js:58 | No record in the result carries the id. Every record with another id keeps its multiplicity, so exactly the records with that id are removed. |
| `Storage.WithoutIdAppend` | src/utils/storage.js:58 | The filter distributes over concatenation, so the original order is kept. |
| `Storage.WithoutAbsentId` | src/utils/storage.js:58 | Deleting an id no record carries leaves the list unchanged. |
| `Storage.WithoutIdIdempotent` | src/utils/storage.js:58 | Deleting the same id twice gives the same list as deleting it once. |
| `Storage.WithoutIdCommutes` | src/utils/storage.js:58 | Deletions of two ids give the same list in either order. |
| `Storage.SaveThenDelete` | src/utils/storage.js:30-58 | Deleting a just-saved record's id removes it along with any older record sharing that id. It restores the previous list when no older record has that id. |
| `Storage.IdsCollideOnSameMillisecond` | src/utils/storage.js:31-58 | Two records get the same id exactly when their clock readings are equal. Ids are not checked for uniqueness, so a delete of the shared id removes both records. |
| `Storage.HistoryStore.GetLicensePlates` | src/utils/storage.js:9-16 | Read yields `[]` when the slot is empty or a read or parse fault occurs, and otherwise the stored list unchanged. |
| `Storage.HistoryStore.SaveLicensePlate` | src/utils/storage.js:25-47 | The stored list becomes `[newPlate] + previous` and its length grows by one. The new record holds the given plate number and image URI, the decimal form of the first clock reading as id, and the second reading as timestamp. It is returned and sits at index 0. A write fault propagates and leaves the slot unchanged. |
| `Storage.HistoryStore.DeleteLicensePlate` | src/utils/storage.js:55-63 | The stored list becomes `WithoutId(previous, id)`. A write fault propagates and leaves the slot unchanged. |
| `Storage.HistoryStore.ClearLicensePlates` | src/utils/storage.js:70-76 | The slot becomes empty, so the next read yields `[]`. A remove fault propagates and leaves the slot unchanged. |

## Left out

- The axios POST itself is replaced by the `network` script of outcomes. This covers the endpoint URL with the key in its query string, the headers and the 20 s timeout (geminiApi.js:4, 54-63). The script holds one outcome for each of the three possible attempts, and those after a success are never consumed.
- The `setTimeout` sleep (geminiApi.js:114) is recorded as a `Wait` event; no time passes.
- `getApiKey` (`src/utils/apiConfig`) is not part of this model. Its value is the `apiKey` input.
- All `console.*` logging is left out, including the Axios diagnostic dump (geminiApi.js:100-109), which affects no result.
- `JSON.stringify` is the uninterpreted parameter `stringify`, applied to JSON values carried as text. JSON serialisation and parsing of the stored list are assumed to round-trip.
- Rejections that are not `Error` objects with a string `message` are left out. A `null` or `undefined` rejection makes `error.message` throw a TypeError at geminiApi.js:96, inside the retry handler. That abandons the remaining attempts, and the call rejects with the generic message. A rejection whose `message` is not a string makes `error.message.includes` throw at geminiApi.js:125. Neither is represented.
- A finish reason is modelled as a string; a non-string finish reason is not represented.
- A response `text` is modelled as a string. A truthy non-string `text` (a number or an object) passes the shape check in the source, and then `trim()` throws a TypeError that is retried like any failed attempt; after the last attempt it surfaces as the generic message. The model cannot express such a response.
- The AsyncStorage calls are asynchronous, but each method here runs atomically. Two interleaved saves could lose one record in the source, and this model does not show that.
- A stored value that parses to something other than a list of records is left out.
- The React screens, components, navigation and permission helpers are left out as UI and OS glue. So are the UI-side empty-plate guard (ResultScreen.js:30) and the list filter in HistoryScreen.js:46.
