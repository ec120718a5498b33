# Book catalogue normalisation layer — Dafny model

This project models the data-access layer of a small book-browsing app: `src/services/api.ts`.
That layer does three things:

- It queries the Google Books catalogue by free text, by volume id, and by ISBN.
- It turns each loosely typed catalogue "volume" into the app's `Book` record (`src/types/index.ts`).
- It reads the first ISBN hit's rating into a `Rating` record.

The HTTP client is a parameter `fetch: Request -> Result<Body, TransportError>`.
Each operation returns `Call(value, sent)`, where `sent` is the list of requests the operation issued.
So "no request is made" is a statement about `sent`.

Modules:

- `Wrappers` (`wrappers.dfy`): `Option` for absent JSON fields, `Result` for operations that throw.
- `Text` (`text.dfy`): the string operations `api.ts` uses: `trim` with the ECMAScript white-space set (the blank-query guard), `split` on one character, and `replace` with a string pattern (first occurrence only, located by `IndexOf`).
- `Types` (`types.dfy`): `Book` and `Rating`.
- `Volumes` (`volumes.dfy`): the catalogue volume shape and `NormalizeVolume`, the per-item mapping that `searchBooks` and `getBookDetails` both write out. It is defined once here.
- `Api` (`api.dfy`): `SearchBooks`, `GetBookDetails` and `GetBookRatings`.

Four behaviours of the code that a reader might not expect, all modelled as written:

- ISBN: the code takes the first identifier tagged `ISBN_13` *or* `ISBN_10`, in list order. It does not prefer ISBN-13 (`Volumes.IsbnFollowsListOrder`).
- Cover image: `replace('http:', 'https:')` rewrites the first `http:` anywhere in the thumbnail URL, not only a leading one.
- Ratings: `getBookRatings` has no empty-ISBN guard. An empty ISBN still sends one `isbn:` search.
- Details: the returned book's `id` is the `id` in the response body, not the requested `bookId`.

## Model

| member | source | states |
|---|---|---|
| Text.TrimStart | src/services/api.ts:32 | leading white space removed: the result is a suffix, everything dropped is white space, and the rest does not start with white space |
| Text.TrimEnd | src/services/api.ts:32 | trailing white space removed: the result is a prefix, everything dropped is white space, and the rest does not end with white space |
| Text.TrimEmptyIffBlank | src/services/api.ts:32 | trimming both ends is empty exactly when the string is all white space, and otherwise leaves non-white-space ends |
| Text.TrimDropsOnlyWhiteSpace | src/services/api.ts:32 | trimming both ends leaves a stretch of the string with only white space before and after it |
| Text.Trim | src/services/api.ts:32 | `query.trim()` is empty exactly when the query is all white space; otherwise it is the stretch of the query left after removing white space, and only white space, from both ends, with non-white-space ends |
| Text.Split | src/services/api.ts:42 | `split('-')` gives at least one piece, no piece contains the separator, and the first piece is the text before the first separator |
| Text.JoinSplit | src/services/api.ts:42 | splitting loses nothing: joining the pieces back with the separator restores the string |
| Text.FirstSegmentUnique | src/services/api.ts:42 | "prefix before the first separator, or the whole string" determines the first piece uniquely |
| Text.IndexOfFrom | src/services/api.ts:43 | finds the first occurrence of the pattern at or after a start index, or reports that there is none |
| Text.IndexOf | src/services/api.ts:43 | the result is the first index where the pattern occurs; it is absent exactly when the pattern never occurs |
| Text.ReplaceFirst | src/services/api.ts:43 | `replace(pat, rep)` changes only the first occurrence, wherever it is, and leaves a string without the pattern unchanged |
| Text.ReplaceFirstKeepsRest | src/services/api.ts:43 | the text before and after the replaced occurrence is untouched, and the replacement stands in its place |
| Text.ReplaceFirstUndo | src/services/api.ts:43 | putting the pattern back where the replacement stands restores the original string |
| Text.ReplaceFirstLeading | src/services/api.ts:43 | a string that starts with the pattern has exactly that leading occurrence replaced |
| Volumes.OrElse | src/services/api.ts:40-41 | `x \|\| fallback` on an optional string: the value when present and non-empty, else the fallback |
| Volumes.FirstAuthor | src/services/api.ts:41 | `authors?.[0]` is present exactly when the list is present and non-empty, and is then the first author |
| Volumes.Thumbnail | src/services/api.ts:43 | `imageLinks?.thumbnail` is present exactly when both the links object and its thumbnail are |
| Volumes.PublishedYear | src/services/api.ts:42 | the year is absent exactly when the date is; otherwise it is the date's text before the first `-` and contains no `-` |
| Volumes.CoverImage | src/services/api.ts:43 | the cover is absent exactly when the thumbnail is; the first `http:` becomes `https:`; a thumbnail without `http:` passes through |
| Volumes.CoverUpgradesHttp | src/services/api.ts:43 | an `http:` thumbnail becomes the same address under `https:` |
| Volumes.FindIsbnIndex | src/services/api.ts:45-47 | the index of the first entry tagged ISBN_13 or ISBN_10; absent exactly when no entry has either tag |
| Volumes.Isbn | src/services/api.ts:45-47 | the identifier of the first ISBN-tagged entry; absent when the list is absent or has no such entry |
| Volumes.IsbnIsFirstIsbnEntry | src/services/api.ts:45-47 | matches a reference reading: filter the ISBN-tagged entries, then take the first one's identifier |
| Volumes.IsbnFollowsListOrder | src/services/api.ts:45-47 | an ISBN_10 entry listed first wins over a later ISBN_13 entry; there is no type preference |
| Volumes.NormalizeVolume | src/services/api.ts:39-50 | id copied; title or "Unknown Title"; first author or "Unknown Author"; year, cover and ISBN as above; description, publisher, rating and count passed through |
| Volumes.NormalizeKeepsOnlyFirstAuthor | src/services/api.ts:41 | later authors never affect the record |
| Api.NormalizeItems | src/services/api.ts:38-51 | one book per item, in order, with the item's id; fails exactly when some item lacks `volumeInfo` |
| Api.SearchResult | src/services/api.ts:38-57 | after the request: fails exactly on transport failure or an item without `volumeInfo`, always with the fixed search message; no `items` gives the empty list; with `items`, a success is exactly the normalised items, one book per item in order |
| Api.SearchBooks | src/services/api.ts:30-58 | a blank query gives no books and sends no request; otherwise one search request with 20 results; fails exactly on transport failure or an item without `volumeInfo`, always with the fixed search message |
| Api.SearchBooksMapsEveryItem | src/services/api.ts:38-53 | a successful response with items gives one normalised book per item, in order |
| Api.SearchBooksWithoutItems | src/services/api.ts:38-51 | a response without `items` gives the empty list |
| Api.GetBookDetails | src/services/api.ts:60-83 | one request for the id; succeeds exactly when the fetch succeeds and the body has `volumeInfo`, then gives the normalised body; otherwise fails with the fixed details message |
| Api.OrZero | src/services/api.ts:94 | `averageRating \|\| 0` is the rating, or 0 when it is absent |
| Api.CountOrZero | src/services/api.ts:96 | `ratingsCount \|\| 0` is the count, or 0 when it is absent |
| Api.RatingOf | src/services/api.ts:92-97 | source "Google Books", scale 5, value the average rating or 0, review count the ratings count or 0 |
| Api.FirstVolumeInfo | src/services/api.ts:90 | `items?.[0]?.volumeInfo` is present exactly when the item list is present and non-empty and its first item has `volumeInfo`, and is then that `volumeInfo` |
| Api.GetBookRatings | src/services/api.ts:85-104 | one ISBN search, even for an empty ISBN; a rating exactly when the fetch succeeds and the first item has `volumeInfo`; every failure gives none |
| Api.RatingsIgnoreLaterHits | src/services/api.ts:90-91 | only the first search hit is read |
| Api.RatingConflatesAbsentAndZero | src/services/api.ts:94 | a missing average rating and a rating of 0 give the same `Rating` |

## Left out

- Transport (axios), URL building and `encodeURIComponent`, including the URL text `&maxResults=20`. These are foreign library calls. `fetch` is a parameter, and a search request records the raw query and the result count 20.
- `console.error` / `console.warn` logging. It has no effect on results.
- `getNYTimesReviews`. It is a network call guarded by an API key that is the empty constant, so it always returns null without a request.
- async/await. Each operation awaits once and is modelled as a pure function. Because they are pure, two calls with the same upstream data give equal results by construction.
- JavaScript numbers. `averageRating` is modelled as `real` and `ratingsCount` as `int`. NaN and -0, which `|| 0` would also map to 0, are not modelled.
- Malformed JSON beyond a missing `volumeInfo` is not modelled. This covers a `null` item, a non-string title, and a non-array `authors` list. Types for those are fixed by the datatypes.
- Screens, components, navigation, the 3-character search threshold in the home screen, and the rating-star rendering. These are presentation only.
