/** The records the podcast writer reads and builds: the site's content items
    on one side, and on the other the feed that the feed-generator library
    assembles, reduced to the values that are set on it. */
module FeedModel {
  import opened Wrappers

  /** One published content item. `D` is the item's date, which the writer
      only passes through. `audio` and `podcastSummary` are `None` when the
      item has no such attribute. */
  datatype Item<D> = Item(
    title: string,
    url: string,
    date: D,
    audio: Option<string>,
    podcastSummary: Option<string>)

  /** The media attachment of an entry: where it is, its declared length in
      bytes (0 = unknown) and its MIME type. */
  datatype Enclosure = Enclosure(url: string, length: int, mimeType: string)

  /** A text construct with its content type (`xhtml`, `text`, ...). */
  datatype Content = Content(kind: string, text: string)

  /** One feed entry. */
  datatype Entry<D> = Entry(
    id: string,
    title: string,
    updated: D,
    description: Content,
    enclosure: Enclosure)

  datatype Person = Person(name: string, email: string)

  datatype Link = Link(href: string, rel: string)

  /** A two-level iTunes category. */
  datatype Category = Category(category: string, subcategory: string)

  /** The iTunes podcast extension values of a feed. */
  datatype PodcastExtension = PodcastExtension(
    category: Category,
    author: string,
    explicit: string,
    complete: string)

  /** The feed-level metadata a feed is created with. */
  datatype FeedMetadata = FeedMetadata(
    id: string,
    rights: string,
    title: string,
    link: Link,
    author: Person,
    logo: string,
    icon: string,
    subtitle: string,
    language: string)

  /** The feed under construction: its metadata, the podcast extension once
      it is loaded, and the entries in the order the writer added them (where
      the feed-generator library places them in the document is not modelled). */
  datatype Feed<D> = Feed(
    meta: FeedMetadata,
    podcast: Option<PodcastExtension>,
    entries: seq<Entry<D>>)

  /** The site context the writer reads: `SITENAME`, and the site URL as
      already resolved from `SITEURL`. */
  datatype Context = Context(siteName: string, siteUrl: string)

  /** The writer's settings: `FEED_MAX_ITEMS`, `None` when it is unset or
      empty. */
  datatype Settings = Settings(feedMaxItems: Option<int>)

}
