# GoSpider core, modelled in Dafny

GoSpider is a small crawler and search tool. The `crawl` command fetches one
seed page. It validates and de-duplicates the links found on that page, counts
the words of the page's title, image alt texts, meta description and h1–h3
headings, and writes a single document for the seed to a document store (the
links it finds are recorded in that document, not crawled). The `search`
command tokenises a query, scores every stored document by how much its index
overlaps the query, and prints the matching URLs.

Five modules model the code:

- `Text`: the parts of Go's `unicode` and `strings` packages that the code uses. These are punctuation and space classes, `Fields`, `TrimSpace`, `ToLower`, prefix and suffix tests, and the order used by `sort.Strings`.
- `Values`: the dynamically typed values that `json.Unmarshal` produces, and the three ways a run of the external normaliser can end.
- `Nlp`: `cmd/nlp.go`. `backend/nlp.go` holds the same four functions under the same logic (there `nlp_index` is called `nlpIndex`), so one module covers both files.
  - `removePunctuation` is a loop over code points.
  - `index` is a method of the class `TokenIndex`, whose map is updated in place.
  - `standardize` is a loop.
  - The collector callbacks, the in-place stripping of the word list, and the three outcomes of the normaliser run each have their own member.
- `Search`: `cmd/search.go`. Modelled are `standardizeInput`, `Contains`, `Count`, the scoring loop of `queryDatabase`, `sortSimilarities` (with `sort.Strings` modelled as an insertion sort) and `search`.
- `Crawl`: `index/cmd/crawl.go`.
  - The global `update` flag and the URL cache are the class `CrawlState`.
  - A page with its `seen` map is the class `Page`.
  - The outside world is an `Env` of functions answering per URL: the HTTP fetches, the collector's anchors and elements, the store's count and find queries, the normaliser, and the clock.
  - `getLinks` calls `nlpIndex` (index/cmd/crawl.go:104), which neither `cmd/nlp.go` (package `cmd`, where it is named `nlp_index`) nor `backend/nlp.go` (package `main`) provides to that package. The model assumes that the called function is the one those files define, so the page index is `Nlp.PageIndex`.

Each method is proved against a specification function. The properties the
code promises are then proved as lemmas about those functions:

- On the indexer: stripping is idempotent, counts are positive and add up to the number of words, and keys are clean.
- On search: a URL is scored exactly when some document qualifies, and the result is the first eleven URLs in ascending order.
- On the crawler: only grows, filter soundness, no duplicates in `seen`, and completeness of the cache.

Where the code differs from what one might expect, the model follows the code:

- In `search`, the fallback query tokens are the raw whitespace fields of the query. They are not lower-cased or stripped (`Search.FallbackTokens`).
- In the indexer, a normaliser process that fails gives an empty index, not a local fallback (`Nlp.FailedRunIndex`). Only output that cannot be parsed falls back to the locally stripped words.
- The reference bonus in the scoring loop can never apply. The loop asks for a `[]string`, but decoded JSON arrays are `[]interface{}` (`Search.DecodedScores`, `Search.ScoringExample`).
- Results are ordered by URL alone, not by score. The loop stops after the eleventh URL, so up to 11 URLs are returned, not 10 (`Search.SortSimilarities`).
- Links are used as written. They are never resolved against the page URL, nothing recurses into the links found, and the page's own URL is not excluded from its `seen`.
- In update mode only `seen` and `time` are written (`Crawl.Persist`).
- The heading guard `h.Name + " " + h.Text != ""` is always true, because the entry contains a space.
- When the seed's request or body read fails, `execute` returns without calling `wg.Done()`, which only `getLinks` does. `crawl` then waits at `wg.Wait()` forever, or Go's runtime aborts it as a deadlock. The model gives `crawl` the outcome `Hangs` for exactly this case (`Crawl.Crawl`).

The collector is taken to call its `OnHTML` callbacks one selector at a time,
in the order they were registered: every title first, then every image, every
description meta tag, and every h1–h3 heading, each in document order
(`Nlp.DispatchOrder`). The order decides the order of the word list sent to
the normaliser. It does not affect the local index, because counting commutes
(`Nlp.IndexTextCommutes`).

## Model

| member | source | states |
|---|---|---|
| Text.IsPunct | cmd/nlp.go:17 | defines `unicode.IsPunct` on Latin-1: the code points of the Unicode P categories, without the ASCII symbols of the S categories (dollar, plus, less, equals, greater, caret, backquote, vertical bar, tilde) |
| Text.IsSpace | cmd/nlp.go:25 | defines `unicode.IsSpace`: tab to carriage return, space, U+0085, U+00A0 and the Unicode White_Space code points above Latin-1 |
| Text.Fields | cmd/nlp.go:25 | defines `strings.Fields`: the maximal runs of non-space code points, in order |
| Text.TrimSpace | index/cmd/crawl.go:252 | defines `strings.TrimSpace` as trimming white space on the left, then on the right |
| Text.HasPrefix | index/cmd/crawl.go:121 | defines `strings.HasPrefix`: the string starts with the prefix |
| Text.HasSuffix | index/cmd/crawl.go:117-120 | defines `strings.HasSuffix`: the string ends with the suffix |
| Text.Less | cmd/search.go:87 | defines the order of `sort.Strings`: lexicographic by code point, a proper prefix first |
| Text.IsUpper | cmd/nlp.go:33 | defines the upper-case code points `strings.ToLower` changes on Latin-1: A to Z and U+00C0 to U+00DE except U+00D7 |
| Text.StripPunct | cmd/nlp.go:14-22 | defines `removePunctuation`: the input with every punctuation code point dropped and the rest kept in order |
| Text.ToLowerChar | cmd/nlp.go:33 | the lower-cased code point is never upper case, keeps the punctuation and space classes, and other code points are unchanged |
| Text.ToLower | cmd/nlp.go:33 | `strings.ToLower` keeps the length and maps every code point through ToLowerChar |
| Text.ToLowerLowers | cmd/nlp.go:33 | lower-casing gives a lower-cased string, is idempotent, and adds no white space |
| Text.StripPunctAppend | cmd/nlp.go:14-22 | stripping distributes over concatenation |
| Text.StripPunctCounts | cmd/nlp.go:14-22 | every punctuation code point disappears; every other code point is kept as often as it occurs |
| Text.StripPunctElements | cmd/nlp.go:14-22 | a code point is in the result iff it is in the input and is not punctuation |
| Text.StripPunctClean | cmd/nlp.go:14-22 | the result holds no punctuation, is no longer than the input, and keeps absence of spaces and of upper case |
| Text.StripPunctOfClean | cmd/nlp.go:14-22 | a string without punctuation is returned unchanged |
| Text.StripPunctIdempotent | cmd/nlp.go:14-22 | removing punctuation twice is the same as once |
| Text.WordLen | cmd/nlp.go:25 | the leading run of non-space code points ends at the first space or at the end |
| Text.FieldsWellFormed | cmd/nlp.go:25 | `strings.Fields` yields only non-empty fields without white space |
| Text.FieldsOfWord | cmd/nlp.go:25 | a string without white space is one field, or none when empty |
| Text.TrimLeft | index/cmd/crawl.go:252 | drops exactly the leading white space: the result is a suffix, everything dropped is space, and the result does not start with space |
| Text.TrimRight | index/cmd/crawl.go:252 | drops exactly the trailing white space |
| Text.LessIrreflexive | cmd/search.go:87 | the string order is irreflexive |
| Text.LessTransitive | cmd/search.go:87 | the string order is transitive |
| Text.LessTotal | cmd/search.go:87 | any two distinct strings are ordered |
| Text.LessAsymmetric | cmd/search.go:87 | the string order is asymmetric |
| Values.StringField | cmd/search.go:129 | `m[key].(string)` succeeds exactly on an object whose field is a string, and yields that string |
| Nlp.Bump | cmd/nlp.go:27 | `result[word]++` adds the key, raises its count by one (from 0 when absent), and leaves the other counts alone |
| Nlp.TallyEffect | cmd/nlp.go:24-29 | after tallying, every count is the old count plus the number of words stripping to that key; the keys are the old keys plus the stripped words |
| Nlp.TallyAppend | cmd/nlp.go:24-29 | tallying a concatenation is tallying one list after the other |
| Nlp.Get | cmd/nlp.go:27 | defines reading a Go map: the stored count, or 0 for a missing key |
| Nlp.Tally | cmd/nlp.go:24-29 | defines the map after `result[removePunctuation(word)]++` for each word in turn |
| Nlp.IndexText | cmd/nlp.go:24-29 | defines `index`: the tally of the whitespace fields of the text |
| Nlp.IndexTexts | cmd/nlp.go:80-82 | defines the loops at cmd/nlp.go:80-82 and 86-88: `index` applied to each text in turn |
| Nlp.CallbackInput | cmd/nlp.go:41-58 | defines the text each callback hands to `standardize`: the title, the non-empty alt (guard at :46), the description, and the heading entry name, space, text (:54-55) |
| Nlp.Collected | cmd/nlp.go:41-60 | defines the word list after the callbacks: the lower-cased fields of each callback's text, appended in the order the elements are visited |
| Nlp.IndexTextCommutes | cmd/nlp.go:24-29 | indexing two texts in either order gives the same map |
| Nlp.TotalBump | cmd/nlp.go:27 | one increment raises the sum of all counts by one |
| Nlp.TotalTally | cmd/nlp.go:24-29 | tallying n words raises the sum of all counts by n |
| Nlp.TallyPositive | cmd/nlp.go:24-29 | tallying keeps every count positive |
| Nlp.IndexTextEffect | cmd/nlp.go:24-29 | `index` adds one per whitespace field to the total, never lowers a count, leaves keys outside the stripped fields unchanged, and adds exactly the stripped fields as keys |
| Nlp.HitsOfAbsent | cmd/nlp.go:24-29 | a key that no word strips to gets no hits |
| Nlp.StripsToEmpty | cmd/nlp.go:14-22 | a word strips to "" iff it is made only of punctuation |
| Nlp.IndexEmptyKey | cmd/nlp.go:24-29 | for every map and text, the empty key gains exactly one count per field made only of punctuation |
| Nlp.PunctFieldCounted | cmd/nlp.go:24-29 | a single non-empty field made only of punctuation raises the count of the empty key by one, whatever the map |
| Nlp.TokenIndex.Index | cmd/nlp.go:24-29 | the in-place update of the counts map is exactly the tally of the stripped fields of the text |
| Nlp.TokenIndex.constructor | cmd/nlp.go:39 | the index starts as an empty map |
| Nlp.RemovePunctuation | cmd/nlp.go:14-22 | the builder loop yields the input with its punctuation removed |
| Nlp.Standardize | cmd/nlp.go:31-36 | the result is the given words followed by the lower-cased fields of the input, so the given words are a prefix |
| Nlp.LowerAll | cmd/nlp.go:33 | lower-casing a list keeps its length |
| Nlp.StripAll | cmd/nlp.go:61-63 | stripping a list keeps its length |
| Nlp.OfKind | cmd/nlp.go:41-58 | the elements handled by one callback are taken from the page |
| Nlp.DispatchOrder | cmd/nlp.go:41-60 | defines the order of the callbacks: all titles, then all images, then all description meta tags, then all headings, each in page order |
| Nlp.OnElement | cmd/nlp.go:41-58 | each callback appends the lower-cased fields of its text; an image with an empty alt adds nothing |
| Nlp.LowerAllFields | cmd/nlp.go:31-36 | every standardised word is non-empty, without space and lower-cased |
| Nlp.CollectedFields | cmd/nlp.go:41-60 | every word collected from a page is non-empty, without space and lower-cased |
| Nlp.StrippedWordsClean | cmd/nlp.go:61-63 | after stripping, every collected word is free of space, punctuation and upper case |
| Nlp.StripWords | cmd/nlp.go:61-63 | the in-place loop replaces every array entry by its stripped form |
| Nlp.IndexTextsOfClean | cmd/nlp.go:80-82 | indexing clean words counts each non-empty word once and skips empty ones |
| Nlp.NonEmptyElements | cmd/nlp.go:80-82 | the non-empty words are exactly the words other than "" |
| Nlp.LocalIndex | cmd/nlp.go:79-84 | when the output cannot be parsed, the keys are exactly the non-empty stripped words, each clean and counted at least once, and the counts sum to their number |
| Nlp.IndexTextsShape | cmd/nlp.go:86-88 | indexing texts keeps counts positive, adds only punctuation-free keys, and adds one to the sum per field |
| Nlp.NormalisedIndex | cmd/nlp.go:86-89 | with the normaliser's tokens, every key is punctuation-free with a count of at least one, and the counts sum to the number of fields of the tokens |
| Nlp.FailedRunIndex | cmd/nlp.go:73-77 | a failed normaliser run sends an empty map |
| Nlp.PageIndex | cmd/nlp.go:61-89 | defines the map sent: empty when the normaliser run fails, the index of the stripped words when its output cannot be parsed, the index of its tokens otherwise |
| Nlp.NlpIndex | backend/nlp.go:38-90 | the map sent on the channel is the page index of the collected, stripped words under the normaliser's outcome |
| Search.StandardizeInput | cmd/search.go:40-58 | the normaliser's token list when it printed one, otherwise the query's whitespace fields |
| Search.FallbackTokens | cmd/search.go:49-56 | fallback tokens are non-empty and free of space, but are not lower-cased or stripped |
| Search.Contains | cmd/search.go:60-67 | true iff the value occurs in the slice |
| Search.Trunc | cmd/search.go:75 | `int(float64)` truncates toward zero, for both signs |
| Search.TruncMonotone | cmd/search.go:75 | truncation is monotone |
| Search.Overlap | cmd/search.go:69-80 | defines the similarity of a document: the sum over the query tokens, repeats included, of the truncated numeric index entry, 0 for absent or non-numeric entries |
| Search.Weight | cmd/search.go:73-76 | defines what one token adds: the truncated number stored under it, 0 when absent or not a number |
| Search.Count | cmd/search.go:69-80 | the sum over query tokens (repeats included) of the truncated numeric index entry; absent or non-numeric entries add 0 |
| Search.OverlapDisjoint | cmd/search.go:69-80 | a query none of whose tokens is a numeric index key counts 0 |
| Search.OverlapMonotone | cmd/search.go:69-80 | larger weights per token give a larger count |
| Search.RaiseEntry | cmd/search.go:69-80 | raising an index entry, or adding a non-negative one, never lowers the count |
| Search.EntryQualifies | cmd/search.go:128-140 | a document gets an entry exactly when it qualifies (string url, object index, non-zero overlap), under its own url |
| Search.IndexOf | cmd/search.go:131 | defines `doc["index"].(map[string]interface{})`: the index object when the document has one |
| Search.Qualifies | cmd/search.go:129-141 | defines when a document is scored under a url: that string url, an object index, and a non-zero overlap |
| Search.Entry | cmd/search.go:129-141 | defines the loop body for one document: no entry without a string url, an object index or a non-zero overlap; otherwise its url with the overlap, plus the reference count when the references are a `[]string` |
| Search.ScoredIff | cmd/search.go:124-145 | a url is in the score map iff some document qualifies under it |
| Search.DecodedScores | cmd/search.go:134-139 | for decoded documents every score is the plain overlap of a qualifying document: the reference bonus never applies |
| Search.ScoringExample | cmd/search.go:124-145 | a document with overlap 4 and two references scores 4 |
| Search.Scores | cmd/search.go:124-145 | defines the `urls` map after the loop: each qualifying document writes its score under its url, later documents overwriting earlier ones |
| Search.ScoreDocuments | cmd/search.go:124-145 | the loop builds exactly the score map, later documents overwriting earlier ones |
| Search.LeastExists | cmd/search.go:87 | every non-empty set of strings has a least element |
| Search.ConsSorted | cmd/search.go:87 | putting a least element in front keeps a list ascending |
| Search.SortedSetProps | cmd/search.go:87 | the ascending listing of a set is strictly ascending, holds exactly its elements, and has its size |
| Search.HeadIsLeast | cmd/search.go:87 | the head of a strictly ascending list is its least element |
| Search.LeastUnique | cmd/search.go:87 | a set has at most one least element |
| Search.TailElements | cmd/search.go:87 | dropping the head of a strictly ascending list removes exactly that element and keeps it ascending |
| Search.SortedEqual | cmd/search.go:87 | two strictly ascending lists with the same elements are equal |
| Search.SortedUnique | cmd/search.go:87 | a strictly ascending list is the ascending listing of its elements |
| Search.InsertSorted | cmd/search.go:87 | insertion keeps a list ascending and adds exactly the new element |
| Search.SortStrings | cmd/search.go:87 | defines `sort.Strings` as an insertion sort |
| Search.Insert | cmd/search.go:87 | defines the insertion step of the `sort.Strings` model: the new string goes before the first element not less than it |
| Search.SortStringsSorted | cmd/search.go:87 | sorting distinct keys gives a strictly ascending permutation of them |
| Search.PrefixOrder | cmd/search.go:88-96 | a prefix of an ascending listing is ascending, and each of its elements precedes every element left out |
| Search.TopUrlsOf | cmd/search.go:82-98 | the sorted keys cut after the eleventh are the shown URLs; these are ascending, are keys, and precede every key left out |
| Search.TopUrls | cmd/search.go:88-96 | defines the shown URLs for a key set: its ascending listing cut after the eleventh |
| Search.SortSimilarities | cmd/search.go:82-98 | returns the min(n, 11) least keys in ascending order, ignoring the scores |
| Search.QueryDatabase | cmd/search.go:124-148 | the shown URLs are the top URLs of the score map; each belongs to a qualifying document; at most 11 |
| Search.Search | cmd/search.go:151-162 | the result list is empty ("no results") iff no stored document qualifies for the tokenised query |
| Crawl.ValidateLink | index/cmd/crawl.go:171-179 | valid iff a response arrives with status below 400; a transport error is invalid |
| Crawl.CheckExistence | index/cmd/crawl.go:38-47 | true iff the count query succeeds with a positive count; false on error |
| Crawl.Excluded | index/cmd/crawl.go:117-121 | defines the link filter: the link ends in .js, .svg, .css or .json, or starts with # |
| Crawl.Live | index/cmd/crawl.go:171-179 | defines `validateLink`'s answer: a response with status below 400 |
| Crawl.Stored | index/cmd/crawl.go:38-47 | defines `check_exsistence`'s answer: the count query succeeds with a positive count |
| Crawl.Admit | index/cmd/crawl.go:117-128 | defines when a link is appended: it passes the filter, is live, is not cached, is not stored and is not in `seen` yet |
| Crawl.Probed | index/cmd/crawl.go:117-122 | defines the links `validateLink` is called on: the page's links the filter lets through, in order |
| Crawl.Step | index/cmd/crawl.go:115-132 | defines one link's task: the link is appended to `seen` and put in the cache iff it passes the filter, validates, is not cached, is not stored and is not in `seen` yet |
| Crawl.Run | index/cmd/crawl.go:113-133 | defines the link loop: every link's step, in the order the links were found |
| Crawl.RunGrows | index/cmd/crawl.go:113-133 | during the link loop `seen` only grows at its end, and every link in it is in the cache |
| Crawl.RunCacheGrows | index/cmd/crawl.go:125-131 | the cache is only ever added to |
| Crawl.RunFilter | index/cmd/crawl.go:117-124 | a link ending in .js, .svg, .css or .json, or starting with #, never enters `seen` or the cache |
| Crawl.RunAdmitted | index/cmd/crawl.go:117-131 | a link is appended only if it passed the filter, validated, was not cached, is not stored, and was found on the page; it is then cached |
| Crawl.RunDistinct | index/cmd/crawl.go:126-128 | processed in order, the loop never puts a link into `seen` twice |
| Crawl.RunComplete | index/cmd/crawl.go:117-131 | every link of the page that passes the filter, validates and is not stored ends up in the cache |
| Crawl.ProbedNeverExcluded | index/cmd/crawl.go:117-122 | validation is never requested for a filtered-out link |
| Crawl.UrlsOf | index/cmd/crawl.go:80-88 | the references are no more than the documents, and each is the string url of one of them |
| Crawl.References | index/cmd/crawl.go:80-88 | `list_ref` is stored as null when no url was appended, since it stays a nil slice; otherwise as the list of urls |
| Crawl.GetReferences | index/cmd/crawl.go:66-90 | the loop collects the string urls of the referencing documents, in order |
| Crawl.Persist | index/cmd/crawl.go:136-168 | insert mode writes url, seen, time, index and references (null when there are none); update mode filters on url and sets only seen and time |
| Crawl.CrawlState.constructor | index/cmd/crawl.go:25-29 | the flag is as given and the cache starts empty |
| Crawl.CrawlState.ConfirmSeed | index/cmd/crawl.go:233-265 | the crawl goes on iff update was set, or no entry exists, or the entry has a string url and the trimmed answer is y, Y, yes or YES; a confirmed update switches the flag on |
| Crawl.Confirms | index/cmd/crawl.go:252-253 | defines an answer that confirms: after trimming white space it is y, Y, yes or YES |
| Crawl.Proceeds | index/cmd/crawl.go:233-265 | defines when `crawl` goes on to `execute`: the update flag is set, or the seed is not stored, or its entry has a string url and the answer read confirms |
| Crawl.TrimLeftSpaces | index/cmd/crawl.go:252 | trimming removes exactly a leading run of white space before a word |
| Crawl.TrimRightSpaces | index/cmd/crawl.go:252 | trimming removes exactly a trailing run of white space after a word |
| Crawl.ConfirmsPadded | index/cmd/crawl.go:247-253 | an accepted answer surrounded by any white space, such as the newline kept by `ReadString`, confirms |
| Crawl.RefusesMixedCase | index/cmd/crawl.go:253 | "Yes" and "yES" do not confirm |
| Crawl.Page.constructor | index/cmd/crawl.go:205 | a new page has the target URL and an empty `seen` map |
| Crawl.Page.Seen | index/cmd/crawl.go:63 | defines `page.seen[page.url]`: the page's list, empty while unset |
| Crawl.Page.IsDuplicate | index/cmd/crawl.go:60-64 | true iff the link is already in this page's `seen` list |
| Crawl.Page.VisitLink | index/cmd/crawl.go:115-132 | one link's task performs exactly one step of the link loop; it requests validation only for links the filter lets through |
| Crawl.Page.VisitLinks | index/cmd/crawl.go:113-134 | running the tasks of all the page's links in order moves `seen` and the cache through the link loop, and validation is requested for exactly the links the filter lets through |
| Crawl.Page.GetLinks | index/cmd/crawl.go:92-169 | `seen` is reset and then becomes the link loop's result over the page's anchors; the cache grows accordingly; the write is the document for the current mode, with the page index and references |
| Crawl.Execute | index/cmd/crawl.go:191-207 | a failed request or read writes nothing and leaves the cache and the probe log alone; otherwise the page is crawled, and validation is requested for exactly the page's links the filter lets through |
| Crawl.Crawl | index/cmd/crawl.go:209-270 | stops exactly when the seed check declines; hangs exactly when it goes on but the seed's request or read fails; otherwise writes the seed's document over the link loop's result, with the page index and references, in the mode the flag then has; validation is requested for exactly the seed's links the filter lets through, and for none when nothing is written; an insert happens only for a seed not yet stored |

## Left out

- Concurrency: goroutines, the semaphore of 20, the wait groups, the mutex and the channels are not modelled. Each link's task runs to completion in the order the links were found; with unlucky timing, a real run could append the same link twice. The one consequence of the wait groups that is modelled is the hang after a failed seed fetch (`Crawl.Crawl` returns `Hangs`).
- The network and HTML parsing (`colly`, `net/http`): modelled as the functions of `Env`, each answering the same way every time it is asked.
- The document store (MongoDB, BSON, extended JSON): modelled as results handed in and a returned `StoreWrite`. Connection set-up, the `log.Fatal` and `panic` error paths, and write errors are not modelled.
- The external normaliser (`cmd/standardize.py`) is a parameter. Only its three outcomes are modelled.
- Printing, logging, reading from standard input (modelled as a `ReadLine` value) and `time.Now`, which is one `now` string used for both time fields.
- The `bson.MarshalExtJSON` error on the seed's existing entry (index/cmd/crawl.go:241-243): the code then stops before reading the answer, while the model goes on to the answer check, as if marshalling always succeeds.
- The `json.MarshalIndent` of that entry before stopping on a declined answer: the model stops without raising an error.
- The CLI layer (`cobra`, `godotenv`, `init`), `backend/main.go` and `cmd/worker.go` are not part of this model.
- `Page.content` is set in `execute` but never read, so it is not modelled.
- Character classes are exact on Latin-1 only. Above U+00FF every code point counts as not punctuation and keeps its case (only white space is modelled there). So the model keeps characters such as the right single quote, the curly double quotes and the em dash, which Go's `removePunctuation` strips, and leaves non-Latin capitals, which Go's `strings.ToLower` lowers. Go strings are modelled as sequences of code points, not UTF-8 bytes.
- Search.Count: does not model 64-bit `int` overflow or float64 rounding. Counts are unbounded integers, and JSON numbers are exact reals.
- Search.SortStrings: Go's `sort.Strings` is modelled by an insertion sort. The result is characterised as the unique ascending listing of the keys.
