# culpa-extension, modelled in Dafny

The culpa-extension browser extension shows professor ratings from the CULPA
review service next to professor names on a course-listing page. It has three
parts, and this project models the deterministic logic of each.

- **Content script** (`content.js`). It reads every name link on the page.
  It keeps the text before the first `(`, trims it and reformats
  `"Last, First"` as `"First Last"`. Then it looks the name up in the
  extension's local storage under a derived key. On a hit, it appends
  `" - Rating: <mean>"` or `" - No Reviews"` to every link whose text
  contains the name. On a miss, it asks the background for the reviews. If
  that request fails, it stores the `{ reviews: [] }` sentinel under the key
  and marks the links "No Reviews".
- **Background service worker** (`background.js`). It resolves a name to the
  first search hit's identifier and fetches that identifier's reviews. It
  keeps the payload only when its `reviews` is a non-empty array. It writes
  the payload to storage under its own key and answers with success or with
  one of three error strings. `storeReviewsAsJson` derives an export file
  name.
- **Popup** (`popup.js`). It empties its list, then adds one line per stored
  key: `<span>key</span>: Rating: <mean>` or `<span>key</span>: No Reviews`.

## How the model is built

- Strings are `seq<char>`. JavaScript's `split` on one character, `join`,
  `trim` (the ECMAScript whitespace set), `includes` and `reverse` are
  written out in `strings.dfy`.
- Ratings are exact `real`s. `toFixed(1)` is modelled exactly on reals: the
  nearest tenth, ties rounded up on the magnitude, with a `-` sign for
  negative values. It is paired with a parser that reads the digits back.
- Local storage is the class `Cache.Store`, whose field is a
  `map<string, Entry>`.
- The review service is the oracle `Background.Server`: one reply per search
  query and one per identifier. A reply can be thrown, non-OK or
  unparsable.
- The page's name links are an `array<string>` of their texts, annotated in
  place. Each operation there is proved against a function on `seq<string>`.
- A message round trip is a call. `Background.HandleMessage` gives the
  listener's answer and its one storage write as a value.
  `Background.OnMessage` performs it on the store.

The code and its comments disagree in four places. In each, the model
follows the code.

- **The storage key is not "LastName, FirstName".** The content script
  formats a name before deriving the key, and a one-comma name formats to a
  comma-free one. On a comma-free name, `split(",").reverse().join(", ")` is
  the name itself. So a page link "Doe, Jane (…)" is stored under
  `"Jane Doe"` (`Content.FirstLookupSaved`, `Content.StorageKeyCommaFree`).
  A name with two or more commas is not formatted at all. It keeps its
  commas, and both keys take its parts in reverse order, re-joined with
  `", "` (`Content.StorageKeyThreeParts`,
  `Background.ProfessorKeyThreeParts`). So for "Smith, John, Jr. (…)" the
  content script reads, and on a failure writes the sentinel under,
  `"Jr.,  John, Smith"`. The background writes a found payload under
  `" Jr.,  John, Smith"`, with a leading space.
- **The two key expressions can differ.** The content script trims the key
  (`content.js:28`, `content.js:87`); the background does not
  (`background.js:112`). They agree exactly when the untrimmed key has no
  surrounding whitespace (`Content.StorageKey`).
  - This holds for every trimmed comma-free name (`Content.KeysAgree`).
  - It fails on a scraped `"Smith,"`: it formats to `" Smith"`, and the
    background then writes under `" Smith"` while the content script reads
    `"Smith"` (`Content.TrailingCommaKeysDisagree`).
  - It also fails on every two-comma name whose last part starts with
    whitespace, such as `"Smith, John, Jr."`: the background key starts with
    that whitespace and the content key does not
    (`Content.ThreePartKeysDisagree`).
  - When the keys differ, a successful request leaves the links unannotated
    and the name is asked for again on every scan
    (`Content.LookupMissesOnKeyMismatch`).
- **A "Last, First" link is not annotated by its own lookup.** The comment at
  `content.js:38` looks for the element containing the professor's name, but
  `content.js:41` tests the link text against the formatted name. A link
  reading `"Last, First (…)"` is looked up as `"First Last"`
  (`Content.SwappedLinkName`), and "Doe, Jane (CS)" does not contain
  "Jane Doe" (`Content.SwappedLinkLacksName`). So that link keeps its text
  (`Content.AnnotatedSkipsOthers`), and the rating of the worked example
  lands only on links that spell the name "Jane Doe".
- **Annotation is not idempotent.** Nothing stops a second scan from
  appending a second suffix (`Content.AnnotationStacks`).

## Model

| member | source | states |
|---|---|---|
| Strings.Split | content.js:105 | `split` on one character: one more part than separators, no part holds the separator, and the first part is the text before the first separator |
| Strings.Join | content.js:28 | `join`: the parts with the separator between each pair; what it means for `split` output is stated by `SplitJoin`, `JoinCount` and `JoinThree` |
| Strings.SplitJoin | content.js:28 | joining the parts of a `split` with its separator gives the input back |
| Strings.SplitAtFirst | content.js:123 | the part before a first separator is the first part, and the rest splits as the text after it |
| Strings.SplitAtLast | background.js:65 | the text after a last separator is the last part, after the parts of the text before it |
| Strings.SplitThree | content.js:28 | three separator-free pieces joined by the separator split back into exactly those three pieces |
| Strings.JoinThree | content.js:28 | `join` of three parts puts the separator between the first and second and between the second and third |
| Strings.Trim | content.js:107 | `trim`: the result has no whitespace at either end, is no longer than the input, and is the input itself exactly when the input had none |
| Strings.TrimStart | content.js:107 | dropping leading whitespace leaves a suffix that does not start with whitespace, and everything dropped is whitespace |
| Strings.TrimEnd | content.js:107 | dropping trailing whitespace leaves a prefix that does not end with whitespace, and everything dropped is whitespace |
| Strings.TrimShape | content.js:107 | the input is whitespace, then the trimmed text, then whitespace |
| Strings.TrimKeepsAbsent | content.js:123 | trimming never introduces a character the input lacked |
| Strings.TrimKeepsCount | content.js:28 | trimming keeps the number of occurrences of every non-whitespace character |
| Strings.Contains | content.js:41 | `includes`: the name occurs at some position of the text; `ContainsAppend` states that appending keeps it |
| Strings.ContainsAppend | content.js:41 | a text that contains the name still contains it after a suffix is appended |
| Strings.PrefixDiffers | content.js:41 | a needle that differs from the text at some position is not its prefix |
| Strings.ShortNotContains | content.js:41 | a text shorter than the needle does not contain it |
| Strings.Reverse | content.js:28 | `reverse`: same length, element `i` is the input's element `n-1-i` |
| Ratings.Mean | content.js:2-7 | `calculateAverageRating`: mean times count equals the sum of the ratings |
| Ratings.Sum | content.js:3-4 | the `reduce` total of the ratings, starting from 0; `SumBounds` and `Mean` state what it is |
| Ratings.SumBounds | content.js:4 | the sum of ratings lies between count times any lower bound and count times any upper bound |
| Ratings.MeanBounds | popup.js:27-31 | the mean lies between any lower and upper bound of the ratings |
| Ratings.MeanOfEqualRatings | content.js:2-7 | equal ratings average to that rating |
| Ratings.NearestTenths | content.js:12 | the tenth `toFixed(1)` picks is within 0.05 of the value, ties going up |
| Ratings.NatToStringValue | content.js:12 | the decimal digits of a natural number denote it |
| Ratings.TenthsText | content.js:12 | the digits of `k` tenths are digits and a point only |
| Ratings.TenthsTextValue | content.js:12 | the digits of `k` tenths read back as `k / 10` and do not start with a minus sign |
| Ratings.NegatedTenths | content.js:12 | a minus sign before the digits of `k` tenths reads back as `-(k / 10)` |
| Ratings.ToFixed1 | content.js:12 | `toFixed(1)` writes only digits, a point and a minus sign |
| Ratings.RoundedClose | content.js:12 | the value `toFixed(1)` denotes is within 0.05 of the input |
| Ratings.ToFixed1Denotes | content.js:12 | what `toFixed(1)` writes reads back as the input rounded to the nearest tenth, ties away from zero (`RoundedToTenths`) |
| Ratings.MeanExamples | content.js:2-7 | the mean of 2 and 4 is 3, of 5 is 5; 3 renders as "3.0" and -0.04 as "-0.0" |
| Cache.ApplyWrite | background.js:115 | a single-key `set`: no write leaves the map as it was; a write adds its key with its value and keeps every other key's value |
| Cache.Store.constructor | content.js:32 | the store starts out holding the given entries |
| Cache.Store.Get | content.js:32-33 | `get([key])` yields a value exactly when the key is stored, and that value is the stored one |
| Cache.Store.Set | content.js:91 | `set({ [key]: value })` changes that one key and nothing else |
| Background.GetProfessorId | background.js:4-33 | the first hit's id exactly when the reply is OK, parses and lists at least one hit; null on a thrown fetch, a non-OK status, an unparsable body or an absent or empty list |
| Background.GetProfessorReviewsById | background.js:37-58 | the whole payload exactly when it parses and its `reviews` is a non-empty array, null otherwise; the status is never consulted |
| Background.StoreFileName | background.js:62-70 | the export file name: the last space-separated word, `", "`, the other words joined by spaces, `.json`; `FileNameOfFullName` and `FileNameOfOneWord` state it for every name |
| Background.Truthy | background.js:103 | the `if (professorId)` test: a non-zero number or a non-empty string; undefined and null fail |
| Background.SearchQuery | background.js:4-6 | the text `encodeURIComponent` receives: the name, or "undefined" when the message carries none |
| Background.ResolveId | background.js:102 | the search step of the handler: `getProfessorId` on the reply to the message's query |
| Background.IdFound | background.js:103 | `if (professorId)`: an identifier came back and it is truthy |
| Background.FileNameOfFullName | background.js:62-70 | a name whose last word is `last` is exported as `last, <the other words>.json` |
| Background.FileNameOfOneWord | background.js:65-70 | a name without a space is exported as `name, .json` |
| Background.FileNameExample | background.js:65-70 | "Jane Doe" is exported as "Doe, Jane.json" |
| Background.ProfessorKey | background.js:112 | the background's key `split(",").reverse().join(", ")`, without trim; the `ProfessorKey*` lemmas state it on comma-free, one-comma and two-comma names and its comma count |
| Background.ProfessorKeyCommaFree | background.js:112 | the background key of a comma-free name is the name itself |
| Background.ProfessorKeyTwoParts | background.js:112 | the background key of `"A,B"` is `"B, A"` |
| Background.ProfessorKeyThreeParts | background.js:112 | the background key of `"A,B,C"` is `"C, B, A"` |
| Background.ProfessorKeyCommaCount | background.js:112 | the background key has as many commas as the name |
| Background.HandleMessage | background.js:93-137 | answers `fetchReviews` and nothing else; writes exactly when it answers with success, which needs a name, a truthy id and a validated payload; the write is that payload under the name's key and has non-empty reviews; every other answer is one of the three error strings. The search step is `ResolveId` and the `if (professorId)` test is `IdFound` |
| Background.OnMessage | background.js:93-137 | the listener on the store: it answers as `HandleMessage` says and the store changes by exactly its one write |
| Background.HandleKeepsWellFormed | background.js:109-115 | what the background writes always has a `reviews` array |
| Content.FormatProfessorName | content.js:104-115 | a one-comma name becomes comma-free; any other name is returned unchanged; only the empty name formats to the empty string |
| Content.FormatSwapsHalves | content.js:105-110 | `"Last,First"` formats to trim(First) + " " + trim(Last) |
| Content.ExtractName | content.js:123 | the extracted name holds no `(` and no surrounding whitespace |
| Content.ExtractNameBeforeParen | content.js:123 | the extracted name is the trimmed text before the first `(` |
| Content.ExtractNameNoParen | content.js:123 | without a `(` the extracted name is the trimmed text |
| Content.TrimOfPadded | content.js:107 | one leading space is trimmed away from an already trimmed word |
| Content.StorageKey | content.js:28 | the content key has no surrounding whitespace, and equals the background key exactly when that key has none either |
| Content.StorageKeyCommaFree | content.js:87 | on a comma-free name the content key is the trimmed name |
| Content.StorageKeyTwoParts | content.js:28 | on `"A,B"` the content key is trim(`B + ", " + A`) |
| Content.StorageKeyThreeParts | content.js:104-115 | a two-comma name keeps its commas through `formatProfessorName`, and its content key is trim(`C + ", " + B + ", " + A`) |
| Content.ThreePartKeysDisagree | content.js:28 | a two-comma name whose last part starts with whitespace gets a content key different from the background key |
| Content.StorageKeyCommaCount | content.js:28 | both keys have as many commas as the name |
| Content.KeysAgree | background.js:112 | on a trimmed comma-free name the background key equals the content key |
| Content.TrailingCommaKeysDisagree | content.js:104-110 | a scraped `"word,"` formats to `" word"`, whose content key is `"word"` and whose background key is `" word"` |
| Content.TrailingCommaFormat | content.js:104-110 | a trimmed word followed by a comma formats to a space and the word |
| Content.TrailingCommaHalves | content.js:105-108 | `"word,"` formats to the trimmed empty second half, a space and the trimmed word |
| Content.SpaceThenTrimmed | content.js:107-108 | an empty trimmed half, a space and a trimmed word give the space and the word |
| Content.TrimOfTrailingSpace | content.js:123 | one trailing space is trimmed away from an already trimmed word |
| Content.RatingText | content.js:10-16 | the suffix is " - No Reviews" exactly when the list is empty; otherwise " - Rating: " and digits that read back as the mean rounded to tenths (`RoundedToTenths`) |
| Content.Annotated | content.js:39-45 | the page after the `forEach`: each text that contains the name with the suffix appended, every other text as it was; `Annotate` is proved against it |
| Content.Annotate | content.js:39-45 | every link whose text contains the name gets the suffix once; every other link is unchanged |
| Content.AnnotationStacks | content.js:15 | annotating twice appends the suffix twice to a matching link |
| Content.EntryAnnotated | content.js:33-45 | what a cache hit does to the page: the entry's suffix on the matching links, or nothing when `reviews` is undefined or null and `.length` throws |
| Content.AnnotateWithEntry | content.js:33-45 | a cached entry's suffix lands on the matching links; an entry with no `reviews` property changes nothing |
| Content.StoreNoReviews | content.js:86-101 | writes the `{ reviews: [] }` sentinel (`Cache.NoReviewsEntry`) under the content key and " - No Reviews" on the matching links, and nothing else |
| Content.LookupResult | content.js:19-77 | how a lookup ends: skipped for an empty name, a cache hit when the content key is stored, otherwise the background's answer to `fetchReviews` |
| Content.Request | content.js:49-51 | the message a miss sends: action `fetchReviews` and the formatted name |
| Content.LookupEntries | content.js:19-101 | the storage after a lookup: unchanged on a skip or hit, the background's write after a success, and that write plus the sentinel under the content key after a failure |
| Content.LookupTexts | content.js:19-101 | the link texts after a lookup: the stored entry's suffix on a hit, the re-read entry's suffix after a success when the content key is now stored, " - No Reviews" after a failure |
| Content.FetchProfessorReviews | content.js:19-83 | the lookup run on the store and the page ends in the outcome, storage and page that `LookupResult`, `LookupEntries` and `LookupTexts` give for the state before it |
| Content.LookupRequestsOnlyOnMiss | content.js:20-46 | a request goes out exactly on a miss for a non-empty name; the empty name is skipped; without a request storage is unchanged |
| Content.LookupFailureStoresSentinel | content.js:74-77 | after a failed request storage differs by exactly the sentinel under the content key, and the matching links read "No Reviews" |
| Content.LookupSuccessStoresPayload | content.js:54-55 | after a successful request storage differs by exactly one non-empty payload under the background key |
| Content.LookupFrame | content.js:19-101 | a lookup removes nothing from storage and touches no key but its content key and its background key |
| Content.LookupKeepsWellFormed | content.js:88 | if every stored entry has a `reviews` array before a lookup, every one has after |
| Content.LookupOnlyAppends | content.js:39-45 | the page changes only by one suffix on the links that contain the name |
| Content.LookupCachesName | content.js:32-33 | when the keys agree, the next lookup of a name looked up once is a cache hit whatever the service answers |
| Content.LookupMissesOnKeyMismatch | content.js:57-58 | when the keys differ, a successful request leaves the content key missing and the page unchanged |
| Content.FirstLookupSaved | content.js:49-73 | a first lookup that resolves and validates stores the payload under the name itself and puts its rating on the links whose text contains the name |
| Content.FirstLookupExample | content.js:49-73 | ratings 4 and 2 are stored under the name and show as " - Rating: 3.0" on the links that contain the name |
| Content.SwappedLinkScraped | content.js:123 | a link reading `"Last, First (…)"` scrapes to `"Last, First"` |
| Content.SwappedFormat | content.js:104-110 | `"Last, First"` formats to `"First Last"` |
| Content.SwappedLinkName | content.js:122-131 | a link reading `"Last, First (…)"` is looked up as `"First Last"` |
| Content.SwappedLinkLacksName | content.js:41 | the link text "Doe, Jane (CS)" does not contain the name "Jane Doe" it is looked up as |
| Content.AnnotatedSkipsOthers | content.js:39-45 | links whose text does not contain the name are left as they were |
| Content.MeanOfFourAndTwo | content.js:2-7 | the mean of the ratings 4 and 2 is 3 |
| Content.RatingOfFourAndTwo | content.js:10-16 | ratings 4 and 2 give the suffix " - Rating: 3.0" |
| Content.FirstLookupNotFound | content.js:74-77 | a first lookup whose search finds nothing stores the sentinel and marks the links "No Reviews" |
| Content.ScannedNames | content.js:122-134 | a scan looks up at most one name per link, and never an empty one |
| Content.NameOf | content.js:123-131 | one link contributes no name or one non-empty formatted name |
| Content.ScannedNamesAppend | content.js:122-134 | scanning two runs of links one after the other collects the names of the first, then those of the second |
| Content.ScannedNamesSnoc | content.js:122-134 | one more link adds its own name, if any, after the names collected so far |
| Content.CollectNames | content.js:122-134 | the loop over the links collects exactly the names `ScannedNames` gives |
| Content.RunLookups | content.js:122-134 | the lookups of one scan, each run to completion on the storage and page the previous one left; `LookupAll` is proved against it |
| Content.LookupAll | content.js:133 | the lookups of one scan, run one after another, end where `RunLookups` says |
| Content.GetProfessorNamesAndFetchReviews | content.js:118-135 | a scan reads the names from the page first and then looks each one up |
| Content.RunLookupsKeepsWellFormed | content.js:122-134 | a whole scan keeps every stored entry's `reviews` array |
| Content.RunLookupsKeepsKeys | content.js:122-134 | a whole scan never removes a stored key |
| Popup.Summary | popup.js:10-20 | "No Reviews" exactly when `reviews` is absent or empty; otherwise "Rating: " and digits that read back as the mean rounded to tenths (`RoundedToTenths`); never a `<` |
| Popup.EntryLine | popup.js:14-19 | one list item's `innerHTML`: the key in a `<span>`, `": "`, and the summary; `LastOpenBracket` and `EntryLineInjective` state that the key can be read back from it |
| Popup.LastOpenBracket | popup.js:14 | in a line, the `<` that closes the key is the last `<` |
| Popup.EntryLineInjective | popup.js:14 | lines for different keys differ |
| Popup.LabelAfterDash | popup.js:14 | the page's rating prefix is " - " followed by the popup's rating label |
| Popup.SummaryMatchesPage | popup.js:14 | the popup shows the same rating text the page appends |
| Popup.RatingList.constructor | popup.js:3-4 | the list starts empty |
| Popup.DisplayRatings | popup.js:2-24 | storage is not written; one line per stored key, each the key's line, no two alike, and the set of lines is determined by storage alone |
| Popup.LinesDistinct | popup.js:8-21 | lines for distinct keys are distinct |
| Popup.LinesRendered | popup.js:8-21 | one line for each key is exactly the map's set of rendered lines |

## Left out

- Network access (`fetch`), `encodeURIComponent`, URL construction and `response.json()` parsing are not modelled. The service is the `Server` oracle, whose replies are already classified as thrown, non-OK, unparsable or parsed.
- `chrome.storage` and `chrome.runtime` callbacks are not modelled as asynchronous. Each lookup runs to completion before the next one starts, so overlapping scans and duplicate in-flight requests are not modelled.
- Content.FetchProfessorReviews assumes the background's answer reaches the content script. The listener is an `async` function, so it returns a promise rather than `true`. Whether the browser keeps the response channel open for it is browser behaviour outside the model.
- `MutationObserver` is not modelled. Each re-scan it triggers is one more call of `GetProfessorNamesAndFetchReviews`. `querySelectorAll` and `innerText` become the array of link texts.
- HTML parsing of the popup's `innerHTML` is not modelled. A line is its markup string.
- Floating point is not modelled. Ratings and the mean are exact reals, so binary rounding of `toFixed(1)`, its exponent form at or above 1e21, and NaN are not captured.
- Ratings.Mean requires a non-empty list. Every caller checks for that first. The NaN that `0 / 0` gives in JavaScript is therefore never reached.
- The Blob download half of `storeReviewsAsJson` and its `JSON.stringify` are not modelled, only the file name. The function is never called.
- JSON shapes outside the datatypes are not modelled:
  - a `professorResults` that is neither absent nor an array;
  - a null hit;
  - an id that is a boolean or an object;
  - a rating that is not a number.
- A stored entry whose `reviews` is undefined or null is modelled as having no `reviews`. On a cache hit, `reviews.length` then throws and nothing is appended, as `Content.AnnotateWithEntry` states. The popup shows it as "No Reviews".
- A stored `reviews` of any other non-array shape is not modelled. These shapes are a number, a boolean, a string or an object. The extension never writes them (`Cache.WellFormed`, `Content.RunLookupsKeepsWellFormed`), so only another writer to storage could leave one there. On a number, a boolean, a plain object or `""`, the page script does not throw at `.length` but appends " - No Reviews", and the popup shows "No Reviews". On a non-empty string or an array-like object with a positive `length`, both sides call `calculateAverageRating`, which throws at `reviews.map`. The page then appends nothing, and the popup's loop ends early.
- The order of a `for…in` loop over storage is not fixed. `Popup.DisplayRatings` returns the order it used.
- `console.log` and `console.warn` diagnostics are not modelled.
