# ICTransportParser core in Dafny

This project models the core of an RSS service written in Node.js. The service
loads the feed once at start-up. It turns every `<item>` into a normalised
record and keeps the records in a module-level cache. Three routes then query
that cache: a sorted, paginated list; an inclusive date-range filter; and a
lookup by identifier.

Modules:

- `Wrappers` (`wrappers.dfy`): `Option`.
- `Seqs` (`seqs.dfy`): `Filter` (JavaScript's `Array.prototype.filter`), `Reverse`, and their lemmas.
- `Feed` (`feed.dfy`): the placeholder strings, the raw item, the record, and the record builder.
  The builder is a method with local variables that get overwritten, as in the source.
  `Feed` also holds ingestion (the `items.map` loop, with failure degrading to `[]`) and the
  `ItemCache` class for the `cachedItems` slot.
- `Query` (`query.dfy`): the three routes as functions of a cache snapshot, with their lemmas.

The foreign code is passed in as parameters:

- `Env.instantOf` stands for `new Date(s)`. It gives `None` for an Invalid Date.
- `Env.display` stands for the date-fns `format` call.
- `Env.select` stands for `cheerio.load` plus the three selectors.
  Its `Markup` result holds the `header h1` text, the `figure img` `src` and the `.t-redactor__text` text.
- `parseBoundary` stands for the date-fns `parse(s, 'dd.MM.yyyy', …)` call.
- Identifiers are a sequence supplied with the items.

Behaviour of the code that one might not expect, which the model follows:

- Loading replaces the cache even when ingestion fails: the failure result is `[]`.
  One might expect the previous generation to stay; the code installs `[]`.
- An unparseable range boundary is not a validation error. It gives an empty list. See Findings.
- One might expect an ascending sort read backwards to equal the descending sort.
  That holds only when dates are distinct: the sort is stable, so equal dates keep cache order in both directions.
  `DescIsReversedAsc` proves it for distinct dates. `TiedDatesBreakReversal` shows two records where it fails.
- A `turbo:content` whose text is literally `Нет контента` is treated as absent.
  The builder detects "no content" by comparing against that placeholder string.

## Model

| member | source | states |
|---|---|---|
| Feed.BuildRecord | index.js:23-63 | each field is read on its own with its own placeholder; title and link take the first element or `Нет заголовка`/`Нет ссылки`; without content, header, image and text are the three placeholders; with content, each takes its selector's non-empty value or its own placeholder; `originalDate` is the raw `pubDate` or `Нет даты`; `pubDate` is the formatted instant or `Нет даты` when the date is invalid |
| Feed.Ingest | index.js:13-69 | a failed fetch or parse gives `[]`; otherwise one record per item, same length, record i built from item i with identifier i |
| Feed.IngestKeepsIdsDistinct | index.js:25 | records built from distinct identifiers have pairwise distinct ids |
| Feed.ItemCache.constructor | index.js:72 | the cache starts empty |
| Feed.ItemCache.Replace | index.js:73-75 | the cache is replaced wholesale by the new generation |
| Feed.ItemCache.Load | index.js:72-75 | after loading, the cache holds exactly what ingestion returned (`[]` on failure) |
| Query.ParseOrder | index.js:86-88 | only `asc` and `desc` name an order; every other string is rejected |
| Query.SortByDate | index.js:91-95 | the sorted copy is a permutation of the cache (same length, same multiset) |
| Query.SortByDateIsSorted | index.js:91-95 | the sorted copy is in date order: earliest first for `asc`, latest first for `desc`; invalid dates come after valid ones |
| Query.SortByDateIsStable | index.js:91-95 | records with the same date keep their cache order |
| Query.DescIsReversedAsc | index.js:91-95 | with distinct valid dates, the `desc` order is the `asc` order reversed |
| Query.TiedDatesBreakReversal | index.js:94 | two records on the same date stay in cache order both ways, so `asc` reversed is not `desc` |
| Query.Slice | index.js:98 | `slice(from, to)` holds the elements from `from` up to `min(to, n)`, and is empty when `from` is past that |
| Query.ListItems | index.js:78-101 | a `sort` other than `asc`/`desc` is a validation error with the source's message, never a default; absent parameters default to 0, 20 and `asc`; otherwise the answer is `sorted[start .. min(start+limit, n)]`, at most `limit` records, empty (not an error) when `start` is past the end, and drawn from the cache |
| Query.PageIsSorted | index.js:91-98 | every page is in the requested order |
| Query.FilterByDate | index.js:110-128 | a missing or empty `startDate`/`endDate` is a validation error; otherwise the answer is drawn from the cache (a sub-multiset) and holds exactly the cache records whose valid date d has start <= d <= end, so records with an invalid date are excluded |
| Query.BadBoundaryAnswersEmpty | index.js:105-131 | a boundary that does not parse gives an empty success, not the date-format error |
| Query.FilterByDateStrict | index.js:117-131 | corrected route: a missing boundary gives the missing-parameters error, an unparseable one gives `Некорректный формат даты.`, and two boundaries that parse give the same answer as the route |
| Query.RangeFilterKeepsOrder | index.js:123-126 | the filter keeps cache order: filtering `a + b` gives the answer for `a` followed by the answer for `b` |
| Query.RangePartitionsCache | index.js:110-128 | with boundaries that parse, the route answers successfully, and its answer plus the cache records outside the range make up the cache exactly, as a multiset and by count |
| Query.FindById | index.js:136-147 | not found exactly when no record has the id; otherwise the first record whose id equals the given string |
| Query.FindByIdUnique | index.js:140 | with distinct ids, each record is what its own id finds |
| Query.IngestedRecordsFoundById | index.js:25-55 | after ingestion with distinct identifiers, the id given to item k finds record k, and an id never given out is not found |
| Seqs.FilterMembers | index.js:123-126 | a filter keeps exactly the elements that pass it |
| Seqs.FilterConcat | index.js:123 | filtering distributes over concatenation |
| Seqs.FilterPartition | index.js:123 | what a filter keeps plus what it drops is the whole sequence |

## Findings

| source | as written | input that shows it | evidently intended | confidence | as-written member | corrected member |
|---|---|---|---|---|---|---|
| index.js:117-131 | `parse` returns an Invalid Date instead of throwing, so the `catch` never runs. A bad boundary makes every comparison false, and the route answers 200 with `[]`. | `startDate=abc&endDate=31.01.2024` | answer 400 with `Некорректный формат даты.`, the message the `catch` carries | high, not executed | Query.BadBoundaryAnswersEmpty | Query.FilterByDateStrict |

## Left out

- The network fetch (`axios.get`) and the `xml2js` parse are not modelled. Ingestion takes the item list, or `None` for any failure. Only the first element of each item field is modelled.
- Cheerio's selector evaluation is foreign code: `Env.select` is an arbitrary function from the content string to the three selector results.
- `new Date`, date-fns `format` and `parse` are calendar and locale code: they are the arbitrary functions `instantOf`, `display` and `parseBoundary`.
- `uuidv4` is a supplied sequence of identifiers. Their distinctness is a hypothesis of the lookup lemmas, not something the model computes.
- `parseInt` giving NaN or a negative number is not modelled. `start` and `limit` are naturals.
- Query.SortByDate: an invalid date is placed after every valid one in both directions. The source's comparator returns NaN for such dates, and the resulting order depends on the engine.
- Express routing, HTTP status codes, JSON bodies, `console` logging, `app.listen` and the `PORT` variable are not modelled. A repeated query parameter arriving as an array is not modelled either.
- The asynchronous start-up is not modelled. A query that runs before loading finishes sees the empty cache the constructor sets up.
