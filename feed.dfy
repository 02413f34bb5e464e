/**
  Ingestion: turning the items of the RSS feed into normalised records, and the
  process-wide slot that holds the last collection built.

  The foreign pieces are parameters. The fetch and the structural XML parse are
  summed up by an optional list of items (absent when either failed); the markup
  parser, `new Date` and the display formatter are the fields of an `Env`.
*/
module Feed {
  import opened Wrappers

  // The placeholder strings the builder substitutes for missing values.
  const NoContent := "Нет контента"
  /** Fallback for both the item title and the header found in the content. */
  const NoTitle := "Нет заголовка"
  const NoImage := "Нет изображения"
  const NoText := "Нет текста"
  const NoLink := "Нет ссылки"
  const NoDate := "Нет даты"

  /** One feed item after the structural parse: the first element of each field, when the field is there. */
  datatype RawItem = RawItem(
    title: Option<string>,
    link: Option<string>,
    pubDate: Option<string>,
    content: Option<string>)   // `turbo:content`

  /**
    What the three markup selectors return on a content fragment: the text of
    `header h1`, the `src` attribute of `figure img`, the text of `.t-redactor__text`.
    None is "undefined"; an empty string is what `.text()` gives when nothing matches.
  */
  datatype Markup = Markup(headerText: Option<string>, imageSrc: Option<string>, bodyText: Option<string>)

  /** The foreign collaborators of the builder. */
  datatype Env = Env(
    instantOf: string -> Option<int>,   // `new Date(s)`: None for an Invalid Date
    display: int -> string,             // `format(date, 'dd MMMM yyyy, HH:mm')`
    select: string -> Markup)           // `cheerio.load` and the three selectors

  /** A normalised record: every field holds a real value or its placeholder. */
  datatype Record = Record(
    id: string,
    title: string,
    link: string,
    pubDate: string,        // display string
    header: string,
    imageUrl: string,
    textContent: string,
    originalDate: string)   // raw publication date, the sort and filter key

  /** JavaScript's `found || sentinel` for a selector result that may be undefined or empty. */
  function OrSentinel(found: Option<string>, sentinel: string): string {
    if found.Some? && found.value != "" then found.value else sentinel
  }

  /**
    The content goes to the markup parser only when the field is present and is
    not literally the "no content" placeholder, which the builder tests by string
    comparison.
  */
  predicate HasContent(item: RawItem) {
    item.content.Some? && item.content.value != NoContent
  }

  /** The display string for a raw date: the formatted instant, or the placeholder when the date is invalid. */
  function DisplayDate(env: Env, raw: string): string {
    match env.instantOf(raw)
    case Some(t) => env.display(t)
    case None => NoDate
  }

  /**
    `r` is the record built from `item` with identifier `id`: each field is read
    on its own and falls back to its own placeholder; the three markup fields are
    all placeholders when there is no content, and each depends only on its own
    selector otherwise.
  */
  ghost predicate Normalized(item: RawItem, id: string, env: Env, r: Record) {
    && r.id == id
    && r.title == item.title.GetOr(NoTitle)
    && r.link == item.link.GetOr(NoLink)
    && r.originalDate == item.pubDate.GetOr(NoDate)
    && r.pubDate == DisplayDate(env, r.originalDate)
    && (!HasContent(item) ==>
          r.header == NoTitle && r.imageUrl == NoImage && r.textContent == NoText)
    && (HasContent(item) ==>
          && r.header == OrSentinel(env.select(item.content.value).headerText, NoTitle)
          && r.imageUrl == OrSentinel(env.select(item.content.value).imageSrc, NoImage)
          && r.textContent == OrSentinel(env.select(item.content.value).bodyText, NoText))
  }

  /** The `items.map` callback: builds one record from one item. */
  method BuildRecord(item: RawItem, id: string, env: Env) returns (r: Record)
    ensures Normalized(item, id, env, r)
  {
    var content := if item.content.Some? then item.content.value else NoContent;

    var header := NoTitle;
    var imageUrl := NoImage;
    var textContent := NoText;
    if content != NoContent {
      var markup := env.select(content);
      header := OrSentinel(markup.headerText, NoTitle);
      imageUrl := OrSentinel(markup.imageSrc, NoImage);
      textContent := OrSentinel(markup.bodyText, NoText);
    }

    var pubDate := if item.pubDate.Some? then item.pubDate.value else NoDate;
    var formattedDate := NoDate;
    var instant := env.instantOf(pubDate);
    if instant.Some? {
      // `format` throws on an Invalid Date; the catch keeps the placeholder
      formattedDate := env.display(instant.value);
    }

    r := Record(
      id,
      if item.title.Some? then item.title.value else NoTitle,
      if item.link.Some? then item.link.value else NoLink,
      formattedDate,
      header,
      imageUrl,
      textContent,
      pubDate);
  }

  /**
    `fetchAndParseXML`: `feed` is the item list at `rss.channel[0].item`, or None
    when the fetch, the parse or the path lookup failed; `ids` are the identifiers
    the generator hands out, one per item. Records come one per item, in feed order.
  */
  method Ingest(feed: Option<seq<RawItem>>, ids: seq<string>, env: Env) returns (records: seq<Record>)
    requires feed.Some? ==> |ids| == |feed.value|
    ensures feed.None? ==> records == []
    ensures feed.Some? ==> |records| == |feed.value|
    ensures feed.Some? ==>
      forall i :: 0 <= i < |records| ==> Normalized(feed.value[i], ids[i], env, records[i])
  {
    if feed.None? {
      return [];
    }
    var items := feed.value;
    records := [];
    for i := 0 to |items|
      invariant |records| == i
      invariant forall k :: 0 <= k < i ==> Normalized(items[k], ids[k], env, records[k])
    {
      var r := BuildRecord(items[i], ids[i], env);
      records := records + [r];
    }
  }

  /** Identifiers pairwise distinct, as the generator is trusted to make them. */
  ghost predicate DistinctIds(ids: seq<string>) {
    forall i, j :: 0 <= i < j < |ids| ==> ids[i] != ids[j]
  }

  /** Records built from distinct identifiers carry distinct identifiers. */
  lemma IngestKeepsIdsDistinct(items: seq<RawItem>, ids: seq<string>, env: Env, records: seq<Record>)
    requires |items| == |ids| == |records|
    requires forall i :: 0 <= i < |records| ==> Normalized(items[i], ids[i], env, records[i])
    requires DistinctIds(ids)
    ensures forall i, j :: 0 <= i < j < |records| ==> records[i].id != records[j].id
  {
  }

  /** The `cachedItems` slot: one generation of records, replaced wholesale. */
  class ItemCache {
    var items: seq<Record>

    /** Before the first ingestion completes the cache is empty. */
    constructor ()
      ensures items == []
    {
      items := [];
    }

    /** The `.then` callback: the new generation replaces the old one in a single assignment. */
    method Replace(generation: seq<Record>)
      modifies this
      ensures items == generation
    {
      items := generation;
    }

    /** Start-up: ingest, then install whatever ingestion returned (the empty list on failure). */
    method Load(feed: Option<seq<RawItem>>, ids: seq<string>, env: Env)
      requires feed.Some? ==> |ids| == |feed.value|
      modifies this
      ensures feed.None? ==> items == []
      ensures feed.Some? ==> |items| == |feed.value|
      ensures feed.Some? ==>
        forall i :: 0 <= i < |items| ==> Normalized(feed.value[i], ids[i], env, items[i])
    {
      var records := Ingest(feed, ids, env);
      Replace(records);
    }
  }
}
