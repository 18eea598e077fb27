/** The podcast feed writer: builds the feed shell, turns content items into
    entries, applies the item cutoff and loads the podcast extension. The
    feed-generator library is replaced by building `Feed` values, and the
    markup stripper is a parameter (`stripTags`). */
module PodcastWriter {
  import opened Wrappers
  import opened FeedModel

  // Feed-level metadata fixed by the writer, whatever the site or items.
  const FeedId := "http://eldesarmador.org/media/4242"
  const FeedRights := "cc-by-nc"
  const SelfLink := Link("http://eldesarmador.org/podcast.xml", "self")
  const FeedAuthor := Person("La Imilla Hacker", "imilla.hacker@riseup.net")
  const FeedImage := "https://eldesarmador.org/theme/img/imilla_hacker_1.png"
  const FeedSubtitle := "Un programa sobre tecnologia y libertad"
  const FeedLanguage := "es"

  // The podcast extension values.
  const Podcast := PodcastExtension(Category("Technology", "Podcasting"), "La Imilla Hacker", "no", "no")

  // Every enclosure is declared with unknown length and this MIME type.
  const AudioMimeType := "audio/mpeg"
  // Entry descriptions are handed over as XHTML content.
  const DescriptionKind := "xhtml"

  /** Truthiness of an optional string: present and not empty. */
  predicate IsNonEmpty(s: Option<string>) {
    s.Some? && |s.value| > 0
  }

  /** The feed title: the site name, followed by " - " and the feed title
      override when that override is non-empty. */
  function FeedTitle(siteName: string, feedTitle: Option<string>): (t: string)
    ensures |t| >= |siteName| && t[..|siteName|] == siteName
    ensures |t| > |siteName| <==> IsNonEmpty(feedTitle)
    ensures IsNonEmpty(feedTitle) ==> t[|siteName|..] == " - " + feedTitle.value
  {
    if IsNonEmpty(feedTitle) then siteName + " - " + feedTitle.value else siteName
  }

  /** The metadata of a freshly created feed: the computed title and the
      fixed id, rights, self link, author, images, subtitle and language. The
      new feed has no podcast extension and no entries yet (`NewFeed`). */
  function CreateNewFeed(feedTitle: Option<string>, context: Context): (meta: FeedMetadata)
    ensures meta.title == FeedTitle(context.siteName, feedTitle)
    ensures meta.id == FeedId && meta.rights == FeedRights && meta.link == SelfLink
    ensures meta.author == FeedAuthor && meta.logo == FeedImage && meta.icon == FeedImage
    ensures meta.subtitle == FeedSubtitle && meta.language == FeedLanguage
  {
    FeedMetadata(FeedId, FeedRights, FeedTitle(context.siteName, feedTitle), SelfLink, FeedAuthor,
                 FeedImage, FeedImage, FeedSubtitle, FeedLanguage)
  }

  /** A feed with the given metadata, no podcast extension and no entries. */
  function NewFeed<D>(meta: FeedMetadata): (f: Feed<D>) {
    Feed(meta, None, [])
  }

  /** Loads the podcast extension; nothing else about the feed changes. */
  function LoadPodcast<D>(feed: Feed<D>): (r: Feed<D>)
    ensures r.podcast == Some(Podcast)
    ensures r.meta == feed.meta && r.entries == feed.entries
  {
    feed.(podcast := Some(Podcast))
  }

  /** The id of an entry: the site URL, a slash, then the item's
      URL, with no normalisation of either part. */
  function EntryId(siteUrl: string, url: string): (id: string)
    ensures |id| == |siteUrl| + 1 + |url|
    ensures id[..|siteUrl|] == siteUrl && id[|siteUrl|] == '/' && id[|siteUrl| + 1..] == url
  {
    siteUrl + "/" + url
  }

  /** The entry an item contributes: none when it has no audio attribute
      (whatever else it has), otherwise one built from its fields. */
  function EntryFor<D>(item: Item<D>, siteUrl: string, stripTags: string -> string): (e: Option<Entry<D>>)
    ensures e.None? <==> item.audio.None?
    ensures e.Some? ==> e.value.id == EntryId(siteUrl, item.url)
    ensures e.Some? ==> e.value.title == stripTags(item.title) && e.value.updated == item.date
    ensures e.Some? ==> e.value.description == Content(DescriptionKind, item.podcastSummary.GetOr(""))
    ensures e.Some? ==> e.value.enclosure == Enclosure(item.audio.value, 0, AudioMimeType)
  {
    match item.audio
    case None => None
    case Some(audio) =>
      var description := Content(DescriptionKind, item.podcastSummary.GetOr(""));
      Some(Entry(EntryId(siteUrl, item.url), stripTags(item.title), item.date, description,
                 Enclosure(audio, 0, AudioMimeType)))
  }

  /** Adds one item to the feed: an item without audio leaves the feed as it
      is, any other item adds exactly one entry after those added before it. */
  function AddItemToFeed<D>(feed: Feed<D>, item: Item<D>, siteUrl: string,
                            stripTags: string -> string): (r: Feed<D>)
    ensures r.meta == feed.meta && r.podcast == feed.podcast
    ensures item.audio.None? ==> r == feed
    ensures item.audio.Some? ==> r.entries == feed.entries + [EntryFor(item, siteUrl, stripTags).value]
  {
    match EntryFor(item, siteUrl, stripTags)
    case None => feed
    case Some(entry) => feed.(entries := feed.entries + [entry])
  }

  /** Adds the items one after the other, in order. The entries already in
      the feed stay in front, each item adds at most one entry, and every
      added entry carries an audio enclosure of unknown length. */
  function AddItems<D>(feed: Feed<D>, items: seq<Item<D>>, siteUrl: string,
                       stripTags: string -> string): (r: Feed<D>)
    ensures r.meta == feed.meta && r.podcast == feed.podcast
    ensures |feed.entries| <= |r.entries| <= |feed.entries| + |items|
    ensures r.entries[..|feed.entries|] == feed.entries
    ensures forall k :: |feed.entries| <= k < |r.entries| ==>
              r.entries[k].enclosure.mimeType == AudioMimeType && r.entries[k].enclosure.length == 0
  {
    if |items| == 0 then feed
    else
      var before := AddItems(feed, items[..|items| - 1], siteUrl, stripTags);
      AddItemToFeed(before, items[|items| - 1], siteUrl, stripTags)
  }

  /** How many leading elements are considered: all of them when
      `FEED_MAX_ITEMS` is unset or 0, otherwise the smaller of the setting
      and the element count; a negative setting leaves nothing to iterate. */
  function Cutoff(maxItems: Option<int>, count: nat): (c: nat)
    ensures c <= count
    ensures maxItems.None? || maxItems.value == 0 ==> c == count
    ensures maxItems.Some? && maxItems.value > 0 ==> c == count || c == maxItems.value
    ensures maxItems.Some? && maxItems.value > 0 ==> c <= maxItems.value
    ensures maxItems.Some? && maxItems.value < 0 ==> c == 0
  {
    var limit := if maxItems.Some? && maxItems.value != 0 then
                   (if maxItems.value < count then maxItems.value else count)
                 else count;
    // iterating over a negative range visits no element
    if limit < 0 then 0 else limit
  }

  /** Builds the podcast feed for `elements`: the feed shell, one entry per
      audio-bearing element within the cutoff, then the podcast extension. */
  function WriteFeed<D>(elements: seq<Item<D>>, context: Context, settings: Settings,
                        feedTitle: Option<string>, stripTags: string -> string): (feed: Feed<D>)
    ensures feed.meta == CreateNewFeed(feedTitle, context)
    ensures feed.podcast == Some(Podcast)
    ensures |feed.entries| <= Cutoff(settings.feedMaxItems, |elements|)
    ensures forall e :: e in feed.entries ==> e.enclosure.mimeType == AudioMimeType
  {
    var considered := elements[..Cutoff(settings.feedMaxItems, |elements|)];
    var feed := AddItems(NewFeed(CreateNewFeed(feedTitle, context)), considered, context.siteUrl, stripTags);
    LoadPodcast(feed)
  }
}
