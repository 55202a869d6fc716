# daily-scraper, modelled in Dafny

daily-scraper is a cloud function. It answers a request for today's events from
a document-store cache partition named after the date (`dd-mm-yyyy`). When that
partition is empty, it scrapes an events page instead. The scrape goes like
this:
- every event's date and category is cleaned, and its title is title-cased;
- events dated before today are dropped;
- each remaining event's image is downloaded, shrunk to fit 600 x 600 and
  embedded;
- the function answers with the events and then stores them in documents of
  five events each.

A separate helper empties the `events` collection page by page.

The project models this core as pure functions over immutable datatypes, with
one imperative loop for the paged delete:

| module | file | models |
|---|---|---|
| `Wrappers` | wrappers.dfy | `Option` (absent values, `NaN`) and `Result` (a rejected promise) |
| `Seqs` | seqs.dfy | flattening a list of chunks; ordered subsequences |
| `Chunking` | chunking.dfy | `divide(arr, len)` and its index loop |
| `JsBuiltins` | jsbuiltins.dfy | `String.prototype.split`/`join` on one character, `parseInt`, zero padding |
| `Text` | text.dfy | removing tabs and line feeds, the "Other" category default, `replace(/\w\S*/g, …)` title-casing |
| `DateStamps` | datestamps.dfy | `getDateStamp` over a calendar date given as integers |
| `Events` | events.dfy | the event record built by `parseEvents`, its normalisation, the past-event filter |
| `Images` | images.dfy | `handleImage` and the resize decision inside `get` |
| `Handler` | handler.dfy | `processEvents`, `parseEvents`, `downloadAndParse`, `checkDatabase`, `saveEvents`, `checkEvents` |
| `Deletion` | deletion.dfy | `deleteCollection` / `deleteQueryBatch` |

Everything the code reaches through the network or a library is a parameter:
- the fetched page is a `Result<string>`;
- the markup extractor is a function from page text to raw field records;
- the image `get` is a function from an optional URL to a `Result<string>`;
- the download, decode, size, `scaleToFit` and encode steps of `get` are
  functions;
- the snapshot of today's partition is a `Result` of its documents;
- the failures of the delete's queries and commits are predicates on the round
  number.

The wall clock is replaced by an integer year, month and day.

Two details of the code shape the model:
- **Filter operators.** The second test is
  `fetch_date.month < month && fetch_date.year <= year` (index.js:145-148).
  With it, the three tests together are exactly the lexicographic comparison
  of (year, month, day); see `Events.UpcomingIsLexicographic`.
- **Cache hit.** A cache hit maps each document to `doc.data('events')`
  (index.js:72). That is the whole document `{events: chunk}`, so the response
  holds one entry per document and nothing is flattened
  (`Handler.CheckDatabase`).

The delete empties the collection `events` (delete-collection.js:4). The
handler writes to the date-named collections instead, and the call to the
delete is commented out (index.js:47). The model keeps both as written.

The delete's query orders the collection by document name
(`orderBy('__name__')`, delete-collection.js:5), so the model takes the
collection as a list already in strict name order and each page as its first
five documents.

JavaScript semantics modelled explicitly:
- `split` always returns at least one field.
- `parseInt` does the following:
  - skips leading ASCII whitespace;
  - reads one sign;
  - switches to base 16 after `0x`/`0X`;
  - reads the longest run of digits;
  - returns `NaN` (here `None`) when there is none.
- An index outside the field list is `undefined`, which `parseInt` also turns
  into `NaN`.
- Every comparison with `NaN` is false.
- `dateformat`'s `dd`, `mm` and `yyyy` pad with zeros to at least 2, 2 and 4
  digits.

## Model

| member | source | states |
|---|---|---|
| Chunking.Divide | index.js:225-236 | `divide(arr, len)` yields ceil(n / len) chunks; each is non-empty and at most `len` long, every chunk but the last is exactly `len` long, and an empty input gives no chunk |
| Chunking.DivideArray | index.js:227-235 | the `while (i < n)` loop with `arr.slice(i, i += len)`, whose index can overshoot `n`, produces exactly the chunks of `Divide`, and they concatenate back to `arr` |
| Chunking.DivideFlatten | index.js:231-233 | concatenating the chunks gives back the input exactly, in order |
| Chunking.DivideLastChunk | index.js:231-233 | the last chunk holds n mod len elements, or a full `len` when len divides n |
| Chunking.DivideTwelveByFive | index.js:42 | twelve events divided into chunks of five give three chunks of sizes 5, 5 and 2 |
| JsBuiltins.Split | index.js:137 | `split('-')` returns at least one field, and no field contains the separator |
| JsBuiltins.SplitThenJoin | index.js:137 | joining the fields of a split with the same separator restores the string |
| JsBuiltins.JoinThenSplit | index.js:137 | splitting a join of separator-free fields returns those fields |
| JsBuiltins.ParseInt | index.js:142 | `parseInt` of a string that is empty after leading whitespace, or whose first character there is neither a digit nor a sign, is `NaN`; one that starts with a digit 1-9 there is a non-negative number; a negative result needs a leading `-` |
| JsBuiltins.ParseIntOfDecimalDigits | index.js:142 | `parseInt` of a non-empty string of decimal digits is its positional decimal value |
| JsBuiltins.ParseIntZeroPad | index.js:142 | `parseInt` reads a zero-padded decimal number back as that number |
| Text.StripTabsNewlines | index.js:122-123 | removing `\t` and `\n` leaves none of them; the result is an ordered subsequence of the input that keeps every other character as often as the input has it |
| Text.StripCleanIsIdentity | index.js:122-123 | a string without tabs and line feeds is unchanged by the removal |
| Text.StripIdempotent | index.js:122-123 | removing tabs and line feeds twice is the same as removing them once |
| Text.CleanCategory | index.js:123-125 | the cleaned category is never empty and has no tab or line feed; it is the stripped text when that is non-empty, and "Other" otherwise |
| Text.CleanCategoryIdempotent | index.js:123-125 | cleaning an already cleaned category changes nothing |
| Text.TitleCase | index.js:128-131 | title-casing keeps the length, keeps which positions are whitespace, and leaves whitespace characters unchanged |
| Text.InWordMeansRun | index.js:129 | a position is inside a match of `\w\S*` exactly when a word character at or before it starts a whitespace-free run reaching it |
| Text.MatchIsCapitalised | index.js:130 | a match from a word character up to the next whitespace is rewritten as its first character upper-cased followed by the rest lower-cased |
| Text.ReplaceWords | index.js:128-131 | the scan-and-replace loop of the regular-expression engine, with its greedy match extension, computes exactly `TitleCase` |
| Text.TitleCaseIdempotent | index.js:128-131 | title-casing an already title-cased string changes nothing |
| Text.TitleCaseExample | index.js:128-131 | "the QUICK-brown fox" becomes "The Quick-brown Fox": the hyphen does not start a new word |
| DateStamps.GetDateStamp | index.js:209-214 | the stamp carries the given year, month and day; its key has exactly three dash-separated fields, which read back as (day, month, year) |
| Events.ExtractedEvent | index.js:181-197 | the record built per extracted block keeps link, image link, date and title; its category is the extracted text, and exactly "Other" when that text is empty; it carries the fetch date's key and has no image yet |
| Events.NormalizeEvent | index.js:119-132 | a processed event's date is the input date without tabs and line feeds, its category is the cleaned category (never empty) and its title is the title-cased input title; its link, image link, image and fetch date are untouched |
| Events.NormalizedIsFixpoint | index.js:119-132 | an event that already satisfies the cleaning guarantees is left unchanged |
| Events.NormalizeIdempotent | index.js:119-132 | normalising an event twice is the same as normalising it once |
| Events.IsUpcoming | index.js:137-156 | an event passes the test only when its date has at least three dash-separated fields and the third field from the end reads as a year not before the fetch year |
| Events.UpcomingIsLexicographic | index.js:142-156 | when year, month and day all parse, the three tests keep an event exactly when its (year, month, day) is lexicographically at least the fetch date's |
| Events.UnreadableYearIsDropped | index.js:137-156 | a date with fewer than three dash-separated fields, or whose year field has no leading digits, is always dropped |
| Events.FilterUpcoming | index.js:135-157 | the filter output is an order-preserving subsequence of the input; every kept event passes the test, and every event that passes it is kept exactly as many times as the input holds it, duplicates included |
| Events.CopiesGiveMembers | index.js:135-157 | an output that keeps the passing events with their multiplicities holds only passing events and misses none of them |
| Events.IsoDateSuffix | index.js:137-140 | a `yyyy-mm-dd` date text is read by the filter as (year, month, day) |
| Events.IsoDateUpcoming | index.js:137-156 | a `yyyy-mm-dd` date passes the filter exactly when (year, month, day) is lexicographically at least the fetch date's |
| Events.FilterExamples | index.js:142-156 | against the fetch date 2024-06-15, the dates 2025-01-01, 2024-07-01 and 2024-06-15 are kept and 2024-06-14 is dropped |
| Events.DateKeyIsNotFilterOrder | index.js:210 | the `dd-mm-yyyy` key is not in the order the filter reads: used as an event date, the key of a date whose day number is below its year number is dropped |
| Images.ResizeThreshold | image-handler.js:42-46 | at the 600 boundary `get` encodes a 600 x 600 image as decoded, and a 601 x 1 or 1 x 601 image after `scaleToFit`, at quality 80 |
| Images.GetImage | image-handler.js:33-51 | a failed download rejects with the download's error, a failed decode with the decoder's error, and a success needs both to succeed |
| Images.GetImageRescalesOnlyLarge | image-handler.js:42-46 | an image within 600 x 600 is encoded as decoded at quality 80, whatever `scaleToFit` does; a larger one is encoded after `scaleToFit`, at quality 80 |
| Images.HandleImage | image-handler.js:14-25 | resolves exactly when every `get` resolves, with one event per input event in input order, each given the image fetched from its own link; otherwise it rejects with the error of some `get` |
| Images.HandleImageShape | image-handler.js:18-22 | after enrichment every event has an image and no image link, and its link, date, title, category and fetch date are those of the input event at the same position |
| Handler.ProcessEvents | index.js:117-163 | processing never returns more events than it was given |
| Handler.ProcessEventsOutput | index.js:119-162 | every returned event is normalised and upcoming, has an image, and has no image link |
| Handler.ProcessEventsKeepsUpcoming | index.js:135-160 | on success the output is, position by position, the kept events enriched with their images, and the kept events hold every upcoming normalised input event exactly as often as the input does; every upcoming input event's image was fetched, and the event is returned normalised and enriched with it |
| Handler.ProcessEventsFailure | index.js:160 | processing fails exactly when the image of some upcoming event cannot be fetched; the images of dropped events play no part |
| Handler.ParseEvents | index.js:172-201 | `parseEvents` never returns more events than there are extracted blocks |
| Handler.ParseEventsStamp | index.js:172-201 | every event `parseEvents` returns carries the fetch date's key and a non-empty category |
| Handler.DownloadAndParse | index.js:100-109 | a failed page fetch is the outcome; a success holds at most one event per extracted block, each stamped with the fetch date |
| Handler.CheckDatabase | index.js:65-73 | returns nothing exactly when the collection has no document; otherwise one entry per document, the whole document data in order, not flattened |
| Handler.SaveEvents | index.js:81-93 | one `create` per chunk, in chunk order, each into the given collection and holding exactly that chunk |
| Handler.PayloadsOfSaved | index.js:85-87 | the documents written hold exactly the chunks handed to `saveEvents` |
| Handler.CheckEvents | index.js:30-50 | a read failure answers with a server error and writes nothing; a hit answers with the stored documents without scraping or writing; a miss scrapes and answers with the parsed events, or with a server error carrying the parse failure; a server error writes nothing; every write goes to today's collection |
| Handler.CacheHitIgnoresScraper | index.js:33-36 | on a hit the answer does not depend on the scraper at all, and it has one entry per stored document |
| Handler.CacheMissPersistsResponse | index.js:39-50 | on a miss the written documents hold, one per document and in order, exactly the chunks `divide(events, 5)` of the response's events, so they concatenate back to those events; there are ceil(n / 5) documents, all holding five events except the last, which holds 1 to 5, and none for an empty scrape |
| Handler.SavedChunks | index.js:81-93 | saving the chunks of five of a list writes one document per chunk in chunk order, holding exactly that chunk; together they hold the list |
| Deletion.PageHoldsSmallestNames | delete-collection.js:5 | a page of a name-sorted collection holds min(5, n) documents, each with a smaller name than every document left after it |
| Deletion.RestStaysSorted | delete-collection.js:5 | what is left after a page stays in name order |
| Deletion.DeletedStayBefore | delete-collection.js:5 | deleting the page of a name-sorted remainder keeps every deleted document's name before every remaining one |
| Deletion.DeleteRounds | delete-collection.js:12-42 | on a collection listed in name order, what is left stays in name order and every deleted document's name comes before every remaining one; the committed batches followed by the chunks of what is left are the chunks of five of the collection; exactly one query per round; every earlier round succeeded; a failed query or commit rejects and stops, and an empty page resolves with nothing left |
| Deletion.RoundsArePrefix | delete-collection.js:15-33 | the committed batches are a prefix of the chunks of five, all of them when nothing is left and fewer than all when documents remain, and together with what is left they make up the collection |
| Deletion.DeleteCollection | delete-collection.js:3-10 | no collection other than `events` changes; the deleted batches are the leading chunks of five of `events` in name order, every deleted name comes before every remaining one, and the rest of `events` is left in name order; a resolved delete has emptied `events`; a run without a failed query or commit resolves; an empty collection resolves after one query and no commit |

## Left out

- The HTTP framework, `admin.initializeApp` and the JSON response bodies (index.js:10-12, 34, 44, 53) are left out: the handler is modelled as the outcome it answers with and the writes it issues.
- The 500 error string `Server error: …` is left out: a server error carries the underlying error text unchanged.
- axios GETs of the page and the images are network I/O; they are parameters that may fail.
- The cheerio selectors are left out: the extractor's output is given as raw field records. The model keeps the `|| "Other"` default and the `fetch_date` field.
- Jimp decoding, `scaleToFit` geometry, JPEG encoding and base64 are a foreign library working on floating-point scaling; they are parameters. The resize decision and the quality 80 handed to the encoder are modelled.
- `new Date()` and the `dateformat` library are left out: the date is given as integers.
- Negative years are excluded because the inputs are `nat`.
- Asynchronous scheduling is modelled as sequential maps and loops. This covers the `Promise.all` fan-out, the unawaited fire-and-forget `create` calls, and the `process.nextTick` recursion.
- Which `get` error `Promise.all` reports when several fail depends on timing, so `Images.HandleImage` only promises that the error is the error of some failing `get`.
- `saveEvents` swallows only synchronous throws (index.js:83-91). The failures of its unawaited writes are not modelled; writes are issued as a list.
- A failed document-store read is passed in as a `Failure` snapshot. The delete's store failures are passed in as per-round predicates. A partial batch commit is not modelled: a commit either deletes its whole page or fails.
- Unicode case mapping and JavaScript's full whitespace class are left out: title-casing uses ASCII letters and ASCII whitespace (space, tab, line feed, vertical tab, form feed, carriage return).
- JsBuiltins.ParseInt: skips only leading ASCII whitespace, not JavaScript's full whitespace class, so a field that starts with a no-break space or another Unicode space reads as `NaN` where JavaScript would read the number; through it, the year, month and day read by `Events.IsUpcoming` carry the same limitation.
- JsBuiltins.ParseInt: does not model the loss of precision of very long digit strings, because JavaScript numbers are doubles and the model reads unbounded integers.
- The unused `batchSize` argument of `deleteQueryBatch` is not a parameter of the model, because the page size is always the query's `limit(5)`.
- utils.js `asyncForEach` is an unused sequencing helper, left out.
- The commented-out delete call (index.js:47) and the unused `object-sizeof` import (index.js:8) are left out.
