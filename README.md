# MangaAggregator adapter, modelled in Dafny

The MangaAggregator source plugin connects the manga reader to a self-hosted
aggregator service. It builds the search URL from a `source:term` query, reads
the configured base address (taking off one trailing `/`), and turns four
kinds of JSON response into the host's records: a listing page of manga
summaries, a manga detail record, a chapter list and a page list.

The model starts from the decoded JSON tree (`JsonTree.Json`: null, boolean,
number with its literal text, string, array, object as a map). Each parse is
a total function (the page list is a method with a loop, as in the source)
into `Results.Result`. Every `!!`, `.jsonObject`, `.jsonArray`,
`.jsonPrimitive` and list index that can throw in the Kotlin code becomes an
explicit `Err`, with one constructor per failing accessor. `NotAnObject` also stands for a body that does not decode as a JSON object. The JSON library's accessors are modelled as the
library behaves: the null token counts as a primitive whose `content` is
`"null"` and whose `contentOrNull` is null; `booleanOrNull` reads `"true"`
or `"false"` without regard to case.

Files:
- `results.dfy` — `Option`, `Error`, `Result`, and `MapAll` (Kotlin's `map` with a lambda that may throw).
- `json_tree.dfy` — the JSON tree and the library accessors.
- `text.dfy` — ASCII case folding, case-insensitive `contains`, `split` and `joinToString`, with their correctness lemmas.
- `aggregator.dfy` — the adapter's operations.
- `aggregator_properties.dfy` — lemmas that relate calls or fix behaviour on given inputs.

Behaviour of the code that a reader might not expect, and that the model keeps:
- A missing `isPaged` key fails at the `!!` on line 129. Such a list is not read as paths under the base URL.
- `split(":")` on line 80 cuts at every ':', and line 82 takes only piece 1. So `"mangago:re:zero"` searches for `"re"`.
- A JSON string `"false"`, in any case, selects literal page URLs just as the boolean `false` does. The test on line 129 goes through `booleanOrNull`, which reads the primitive's content.
- `JsonNull` is a primitive whose `content` is `"null"`. So a required listing or chapter field holding the null token (lines 58-60, 115-116) does not fail. It is read as the text `"null"`.

## Model

| member | source | states |
|---|---|---|
| Results.MapAll | src/en/mangaaggregator/src/eu/kanade/tachiyomi/extension/en/mangaaggregator/mangaaggregator.kt:56-62 | a `map` whose lambda can throw succeeds iff every element converts; then the output has the same length and element `i` is the conversion of input `i`; otherwise the error is that of the first failing element |
| JsonTree.ContentOrNull | src/en/mangaaggregator/src/eu/kanade/tachiyomi/extension/en/mangaaggregator/mangaaggregator.kt:96-98 | null exactly for the JSON null token, the primitive's content otherwise |
| JsonTree.BooleanOrNull | src/en/mangaaggregator/src/eu/kanade/tachiyomi/extension/en/mangaaggregator/mangaaggregator.kt:129 | true/false exactly when the content is "true"/"false" ignoring case |
| JsonTree.FieldContent | src/en/mangaaggregator/src/eu/kanade/tachiyomi/extension/en/mangaaggregator/mangaaggregator.kt:58-60 | `json.jsonObject[key]!!.jsonPrimitive.content` succeeds iff the element is an object whose key holds a primitive, and gives that primitive's content |
| JsonTree.AsObject | src/en/mangaaggregator/src/eu/kanade/tachiyomi/extension/en/mangaaggregator/mangaaggregator.kt:58 | `.jsonObject` succeeds exactly on an object and gives its key-to-value map; anything else fails with `NotAnObject` |
| JsonTree.AsArray | src/en/mangaaggregator/src/eu/kanade/tachiyomi/extension/en/mangaaggregator/mangaaggregator.kt:56 | `.jsonArray` succeeds exactly on an array and gives its elements; anything else fails with `NotAnArray` |
| JsonTree.AsPrimitive | src/en/mangaaggregator/src/eu/kanade/tachiyomi/extension/en/mangaaggregator/mangaaggregator.kt:96 | `.jsonPrimitive` succeeds exactly on a primitive, the null token included; an array or object fails with `NotAPrimitive` |
| JsonTree.Get | src/en/mangaaggregator/src/eu/kanade/tachiyomi/extension/en/mangaaggregator/mangaaggregator.kt:56 | `object[key]!!` gives the value of a present key and fails with `MissingKey(key)` otherwise |
| JsonTree.Content | src/en/mangaaggregator/src/eu/kanade/tachiyomi/extension/en/mangaaggregator/mangaaggregator.kt:58 | `.content` is the text of a string, the literal of a number, "true" or "false" for a boolean, and "null" for the null token |
| JsonTree.PrimitiveContent | src/en/mangaaggregator/src/eu/kanade/tachiyomi/extension/en/mangaaggregator/mangaaggregator.kt:131 | `element.jsonPrimitive.content` succeeds exactly on a primitive and gives its content |
| Text.ContainsIgnoreCase | src/en/mangaaggregator/src/eu/kanade/tachiyomi/extension/en/mangaaggregator/mangaaggregator.kt:107-108 | `contains(…, ignoreCase = true)` holds for an empty needle and fails for a needle longer than the text; full meaning in ContainsIgnoreCaseCorrect |
| Text.Join | src/en/mangaaggregator/src/eu/kanade/tachiyomi/extension/en/mangaaggregator/mangaaggregator.kt:99 | `joinToString(sep)` gives "" for no pieces, the piece itself for one, and for more starts with the first piece followed by `sep` |
| Text.JoinAppend | src/en/mangaaggregator/src/eu/kanade/tachiyomi/extension/en/mangaaggregator/mangaaggregator.kt:99 | joining one more piece appends `sep` and that piece to the join of the others, so `sep` stands between consecutive pieces |
| Text.ContainsIgnoreCaseCorrect | src/en/mangaaggregator/src/eu/kanade/tachiyomi/extension/en/mangaaggregator/mangaaggregator.kt:107-108 | the left-to-right case-insensitive search answers true exactly when the needle occurs at some position of the text |
| Text.OccursAtShift | src/en/mangaaggregator/src/eu/kanade/tachiyomi/extension/en/mangaaggregator/mangaaggregator.kt:107-108 | an occurrence at a position past the first is an occurrence one position earlier in the rest of the text |
| Text.Split | src/en/mangaaggregator/src/eu/kanade/tachiyomi/extension/en/mangaaggregator/mangaaggregator.kt:80 | `split` always yields at least one piece |
| Text.SplitPiecesLackSeparator | src/en/mangaaggregator/src/eu/kanade/tachiyomi/extension/en/mangaaggregator/mangaaggregator.kt:80 | no piece of a split contains the delimiter |
| Text.SplitHasSecondPiece | src/en/mangaaggregator/src/eu/kanade/tachiyomi/extension/en/mangaaggregator/mangaaggregator.kt:80-82 | a split has a second piece (so `list[1]` exists) iff the delimiter occurs in the text |
| Text.SplitPrepend | src/en/mangaaggregator/src/eu/kanade/tachiyomi/extension/en/mangaaggregator/mangaaggregator.kt:80-81 | delimiter-free text in front only lengthens the first piece |
| Text.JoinSplit | src/en/mangaaggregator/src/eu/kanade/tachiyomi/extension/en/mangaaggregator/mangaaggregator.kt:80 | joining the pieces with the delimiter gives back the query: no character is lost by `split` |
| Text.SplitJoin | src/en/mangaaggregator/src/eu/kanade/tachiyomi/extension/en/mangaaggregator/mangaaggregator.kt:80 | splitting a join of delimiter-free pieces gives back those pieces |
| MangaAggregator.ArrayField | src/en/mangaaggregator/src/eu/kanade/tachiyomi/extension/en/mangaaggregator/mangaaggregator.kt:56 | `body[key]!!.jsonArray` succeeds iff the body is an object whose key holds an array; otherwise it fails with not-an-object, the missing key, or not-an-array, in that order |
| MangaAggregator.ParseSummary | src/en/mangaaggregator/src/eu/kanade/tachiyomi/extension/en/mangaaggregator/mangaaggregator.kt:57-61 | a listing element converts iff it is an object with primitive `manga_title`, `manga_cover` and `manga_url`, into those three contents |
| MangaAggregator.ParseListing | src/en/mangaaggregator/src/eu/kanade/tachiyomi/extension/en/mangaaggregator/mangaaggregator.kt:53-65 | succeeds iff `data` is an array of complete summary records; then one summary per element in the same order and `hasNextPage` false; the missing-`data` and not-an-array errors exactly |
| MangaAggregator.ParseChapter | src/en/mangaaggregator/src/eu/kanade/tachiyomi/extension/en/mangaaggregator/mangaaggregator.kt:114-117 | a chapter element converts iff it holds primitive `chapter_title` and `chapter_url`, into name and URL |
| MangaAggregator.ParseChapterList | src/en/mangaaggregator/src/eu/kanade/tachiyomi/extension/en/mangaaggregator/mangaaggregator.kt:112-119 | succeeds iff `manga_chapters` is an array of complete chapter records; then one chapter per element in the same order; the missing-key and not-an-array errors exactly |
| MangaAggregator.ToStatus | src/en/mangaaggregator/src/eu/kanade/tachiyomi/extension/en/mangaaggregator/mangaaggregator.kt:105-110 | null is unknown; ongoing iff the text mentions "ongoing" ignoring case; completed iff it does not but mentions "complete"; unknown otherwise |
| MangaAggregator.RequiredNullable | src/en/mangaaggregator/src/eu/kanade/tachiyomi/extension/en/mangaaggregator/mangaaggregator.kt:96-98 | a required key succeeds iff present with a primitive value; null iff that value is the null token; a missing key fails with that key |
| MangaAggregator.JoinedField | src/en/mangaaggregator/src/eu/kanade/tachiyomi/extension/en/mangaaggregator/mangaaggregator.kt:99-101 | the join succeeds iff the key holds an array of primitives, and then gives their contents joined in order with ", " |
| MangaAggregator.JoinedOrNull | src/en/mangaaggregator/src/eu/kanade/tachiyomi/extension/en/mangaaggregator/mangaaggregator.kt:99-101 | the try/catch form: non-null iff the key holds an array of primitives, then the contents joined with ", "; null on every failure |
| MangaAggregator.ParseDetails | src/en/mangaaggregator/src/eu/kanade/tachiyomi/extension/en/mangaaggregator/mangaaggregator.kt:92-103 | succeeds iff `manga_desc`, `manga_status` and `manga_cover` are present with primitive values (null allowed); the fields are their nullable contents, the status classified, and the three soft fields; the first missing required key is the error |
| MangaAggregator.PageListParse | src/en/mangaaggregator/src/eu/kanade/tachiyomi/extension/en/mangaaggregator/mangaaggregator.kt:125-140 | succeeds iff `isPaged` is a primitive and `pages` an array of primitives; then one page per entry, index `i` for entry `i`, empty `url`, image URL the content itself when `isPaged` reads false and the base URL plus the content otherwise; a missing `isPaged` or `pages` key fails with that key |
| MangaAggregator.SearchUrl | src/en/mangaaggregator/src/eu/kanade/tachiyomi/extension/en/mangaaggregator/mangaaggregator.kt:79-84 | the URL is built iff the query contains ':'; otherwise the index 1 is out of range of a one-piece list |
| MangaAggregator.StripTrailingSlash | src/en/mangaaggregator/src/eu/kanade/tachiyomi/extension/en/mangaaggregator/mangaaggregator.kt:178-180 | unchanged iff empty or not ending in '/'; otherwise the result plus "/" is the input; at most one character shorter |
| MangaAggregator.PrefBaseUrl | src/en/mangaaggregator/src/eu/kanade/tachiyomi/extension/en/mangaaggregator/mangaaggregator.kt:176-182 | the base URL is the saved address, or the empty default when none is saved, with one trailing '/' stripped |
| MangaAggregator.EmptyListing | src/en/mangaaggregator/src/eu/kanade/tachiyomi/extension/en/mangaaggregator/mangaaggregator.kt:56-64 | an empty `data` array gives an empty page with no next page |
| MangaAggregator.NullTitleIsText | src/en/mangaaggregator/src/eu/kanade/tachiyomi/extension/en/mangaaggregator/mangaaggregator.kt:58 | a JSON null title is not a failure but the text "null" |
| MangaAggregatorProperties.SearchUrlPieces | src/en/mangaaggregator/src/eu/kanade/tachiyomi/extension/en/mangaaggregator/mangaaggregator.kt:80-83 | for every query `source:term` optionally followed by `:more`, the URL is base + "/search?source=" + source + "&search=" + term, and what follows the second ':' is dropped |
| MangaAggregatorProperties.SearchExampleOneColon | src/en/mangaaggregator/src/eu/kanade/tachiyomi/extension/en/mangaaggregator/mangaaggregator.kt:79-84 | "mangago:one piece" searches source mangago for "one piece" |
| MangaAggregatorProperties.SearchExampleTwoColons | src/en/mangaaggregator/src/eu/kanade/tachiyomi/extension/en/mangaaggregator/mangaaggregator.kt:80-82 | "mangago:re:zero" searches for "re" only |
| MangaAggregatorProperties.SearchExampleNoColon | src/en/mangaaggregator/src/eu/kanade/tachiyomi/extension/en/mangaaggregator/mangaaggregator.kt:82 | "onepiece" fails on index 1 of a one-piece list |
| MangaAggregatorProperties.StatusExamplesSimple | src/en/mangaaggregator/src/eu/kanade/tachiyomi/extension/en/mangaaggregator/mangaaggregator.kt:105-109 | null and "Hiatus" are unknown; "ONGOING" is ongoing |
| MangaAggregatorProperties.StatusExampleCompleted | src/en/mangaaggregator/src/eu/kanade/tachiyomi/extension/en/mangaaggregator/mangaaggregator.kt:108 | "Completed" is completed |
| MangaAggregatorProperties.StatusExampleOngoingFirst | src/en/mangaaggregator/src/eu/kanade/tachiyomi/extension/en/mangaaggregator/mangaaggregator.kt:107-108 | a text with both words is ongoing |
| MangaAggregatorProperties.DetailsDependOnRequiredKeys | src/en/mangaaggregator/src/eu/kanade/tachiyomi/extension/en/mangaaggregator/mangaaggregator.kt:96-98 | two bodies that agree on `manga_desc`, `manga_status` and `manga_cover` both succeed or both fail, with the same description, status and cover |
| MangaAggregatorProperties.OnlySoftKeyDiffers | src/en/mangaaggregator/src/eu/kanade/tachiyomi/extension/en/mangaaggregator/mangaaggregator.kt:99-101 | bodies that differ only on one of the genre, artist and author keys parse alike except in that one field |
| MangaAggregatorProperties.SoftFieldsNeverDecideFailure | src/en/mangaaggregator/src/eu/kanade/tachiyomi/extension/en/mangaaggregator/mangaaggregator.kt:99-101 | adding, changing or removing `manga_genres`, `manga_artist` or `manga_author` never changes whether the detail parse fails, and changes only that one field of the result |
| MangaAggregatorProperties.NullRequiredValuesAreTolerated | src/en/mangaaggregator/src/eu/kanade/tachiyomi/extension/en/mangaaggregator/mangaaggregator.kt:96-98 | null values for the three required keys give null fields and unknown status, not a failure |
| MangaAggregatorProperties.MissingGenresVersusMissingStatus | src/en/mangaaggregator/src/eu/kanade/tachiyomi/extension/en/mangaaggregator/mangaaggregator.kt:97-99 | without `manga_genres` the parse succeeds with a null genre; without `manga_status` it fails on that key |
| MangaAggregatorProperties.GenreJoining | src/en/mangaaggregator/src/eu/kanade/tachiyomi/extension/en/mangaaggregator/mangaaggregator.kt:99 | two genres are joined as "a, b"; a nested array or a non-array value makes the genre null |
| MangaAggregatorProperties.FlagReadings | src/en/mangaaggregator/src/eu/kanade/tachiyomi/extension/en/mangaaggregator/mangaaggregator.kt:129 | the boolean false and the string "False" read as false; true as true; null and a number as no boolean |
| MangaAggregatorProperties.StripExamples | src/en/mangaaggregator/src/eu/kanade/tachiyomi/extension/en/mangaaggregator/mangaaggregator.kt:178-180 | "a//" becomes "a/"; a trailing '/' after a port is removed; an address without one and the empty address are kept |

## Left out

- The HTTP client, its timeouts and retry setting, `GET`, headers, and the `Request`/`Response` objects: only URL strings and decoded bodies are modelled.
- Decoding the response text into a JSON tree, and reading `response.body`: the JSON library is outside the model; a body that is not an object is `NotAnObject`.
- The popular and latest requests (lines 68-76): each is a constant path after the base URL.
- The detail and page-list requests (lines 90, 121-123): each is the base URL followed by a stored relative URL, with no logic of its own.
- The preference screen, the Toast, saving to the preference store and the Injekt lookup of the store (lines 49-51, 144-173): `PrefBaseUrl` takes the saved address as a parameter.
- The lazy initialisation of `baseUrl` (line 47): the parsers take the base URL as a parameter.
- `imageUrlParse` (line 142): it only throws.
- ToStatus: the case-insensitive `contains` folds only ASCII letters, not full Unicode case.
- JsonTree.BooleanOrNull: case is folded for ASCII letters only.
- No Dafny model is given for the data classes of the other adapter's `Dto.kt`. They only declare serialisable fields and contain no logic of this adapter.
- SearchUrl: gives the interpolated URL string only. `GET` (line 83) percent-encodes the query and rejects a URL without a scheme, such as one built on the empty default address. That request building is left out with the HTTP layer.
