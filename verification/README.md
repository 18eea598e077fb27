# Podcast feed writer, modelled in Dafny

This project models the Pelican `feed_podcast` plugin's `PodcastWriter`. The writer turns an ordered
list of content items and the site context into a podcast-flavoured Atom feed. The feed-generator
library calls become the construction of an immutable `Feed` record. That record holds the
feed-level metadata, the podcast extension values and an ordered `seq` of entries. The model covers
four rules:

- the feed title: the site name, plus `" - "` and the feed title override when that override is
  non-empty (`PodcastWriter.FeedTitle`);
- the fixed feed metadata and podcast extension values (`CreateNewFeed`, `LoadPodcast`);
- item to entry: an item without an `audio` attribute is skipped; any other item becomes one entry
  with id `site_url + "/" + url`, a markup-stripped title, its date, its `podcastsummary` (or `""`)
  as XHTML description, and the enclosure `(audio, 0, "audio/mpeg")` (`EntryFor`, `AddItemToFeed`);
- cutoff, then filter: `FEED_MAX_ITEMS` first cuts the raw element list to a prefix, and only then
  are audio-less items dropped (`Cutoff`, `AddItems`, `WriteFeed`).

Files:

- `wrappers.dfy`: module `Wrappers`, the `Option` type used for missing attributes and unset settings.
- `feed_model.dfy`: module `FeedModel`, the item, entry, enclosure, feed, context and settings records.
- `podcast_writer.dfy`: module `PodcastWriter`, the writer's operations, in the order of the source.
- `podcast_feed_spec.dfy`: module `PodcastFeedSpec`. It gives reference definitions of the feed's
  entries: `SelectEntries`, a filter-map, and `KeptIndices`, the positions of the audio-bearing
  items. It also holds the lemmas that connect the writer to them.

Modelling choices:

- The item's date is a type parameter `D`. The writer only passes it through to the entry.
- `Markup(title).striptags()` is a function-valued parameter `stripTags`, so nothing is assumed
  about how markup is removed.
- The site URL is the `siteUrl` field of `Context`: the value of `SITEURL` as the caller resolved it.
- `FEED_MAX_ITEMS` is an `Option<int>`, where `None` stands for an unset or empty setting. A negative
  setting is truthy, so the code takes `min(setting, len)`. The loop then iterates over an empty
  `range`, and `Cutoff` is 0.
- The item loop `for i in range(max_items)` is `AddItems`. It folds `AddItemToFeed` over the
  considered prefix, in order.

Behaviour a reader might not expect, which the model keeps as the code has it:

- One might expect an item with an empty audio reference to be skipped. The code skips an item only
  when it has no `audio` attribute at all, so an item whose `audio` is present but empty still gets
  an entry (feed_podcast/feed_podcast.py:76-80).
- One might expect `FEED_MAX_ITEMS` to cap the number of entries. The code applies it to the raw
  elements before items without audio are dropped. A feed can therefore hold fewer than
  `FEED_MAX_ITEMS` entries even when elements past the cutoff have audio (`CutoffBeforeAudioFilter`).
- One might expect the feed id, rights, author, logo, icon, subtitle, language and podcast extension
  values to come from the site configuration. The code hard-codes them. The self link is hard-coded
  too, and the feed URL computed from `FEED_DOMAIN` is not used for it.
- Entries are kept in the order in which the writer adds them. The code adds them with the
  feed-generator library's `add_entry`, which takes no order argument here. Where that library places
  each new entry in the document is not modelled.

## Model

| member | source | states |
|---|---|---|
| PodcastWriter.FeedTitle | feed_podcast/feed_podcast.py:42-45 | the title always starts with the site name; it is longer than the site name exactly when the override is non-empty, and then the rest is `" - "` followed by the override |
| PodcastWriter.CreateNewFeed | feed_podcast/feed_podcast.py:40-58 | a new feed's metadata is the computed title plus the fixed id, rights, self link, author, logo, icon, subtitle and language; it depends on the site context only through the site name |
| PodcastWriter.LoadPodcast | feed_podcast/feed_podcast.py:60-66 | loading the extension sets category Technology/Podcasting, author, explicit "no" and complete "no", and changes nothing else in the feed |
| PodcastWriter.EntryId | feed_podcast/feed_podcast.py:72 | an entry id is the site URL, one slash and the item URL, each part kept unchanged |
| PodcastWriter.EntryFor | feed_podcast/feed_podcast.py:69-92 | an item yields no entry exactly when it lacks audio; otherwise the entry has the id above, the stripped title, the item's date, the summary or "" as XHTML description, and the enclosure (audio, 0, "audio/mpeg") |
| PodcastWriter.AddItemToFeed | feed_podcast/feed_podcast.py:76-92 | an audio-less item leaves the feed unchanged and does not fail; any other item adds its one entry after those added before; the metadata never changes |
| PodcastWriter.AddItems | feed_podcast/feed_podcast.py:124-125 | processing items in order keeps earlier entries in front, adds at most one entry per item, only adds audio/mpeg enclosures of length 0, and leaves the metadata unchanged |
| PodcastWriter.Cutoff | feed_podcast/feed_podcast.py:121-124 | the number of elements considered is all of them when FEED_MAX_ITEMS is unset or 0, the minimum of the setting and the element count when it is positive, and none when it is negative |
| PodcastWriter.WriteFeed | feed_podcast/feed_podcast.py:119-128 | the built feed's metadata is the new feed's and its podcast extension is the fixed one, whatever the elements and the cutoff setting; it holds at most the cutoff's number of entries, all with audio/mpeg enclosures |
| PodcastFeedSpec.SelectEntries | feed_podcast/feed_podcast.py:76-84 | the reference selection has at most one entry per item, each with an audio/mpeg enclosure |
| PodcastFeedSpec.KeptIndices | feed_podcast/feed_podcast.py:76-80 | the kept positions are increasing, in range, exactly those of the items that have audio |
| PodcastFeedSpec.SelectEntriesAppend | feed_podcast/feed_podcast.py:124-125 | selecting from a concatenation is the concatenation of the selections |
| PodcastFeedSpec.SelectEntriesSnoc | feed_podcast/feed_podcast.py:124-125 | processing one more item at the end appends exactly that item's contribution: its entry, or nothing |
| PodcastFeedSpec.SkippedItemDoesNotAbort | feed_podcast/feed_podcast.py:76-80 | an audio-less item contributes nothing, and all entries of the items after it are still produced |
| PodcastFeedSpec.AddItemsAppendsSelection | feed_podcast/feed_podcast.py:124-125 | adding the items one by one appends exactly the reference selection of entries to the feed |
| PodcastFeedSpec.SelectEntriesByIndex | feed_podcast/feed_podcast.py:76-92 | the k-th selected entry is the entry of the item at the k-th kept position, and there are as many entries as kept positions |
| PodcastFeedSpec.WriteFeedEntries | feed_podcast/feed_podcast.py:121-125 | the feed's entries are the reference selection over the considered prefix of the elements: the cutoff applies before the audio filter |
| PodcastFeedSpec.WriteFeedEntryOrigins | feed_podcast/feed_podcast.py:121-125 | entry k comes from the element at the k-th kept position; these positions increase (no reordering), lie below the cutoff (nothing past it appears) and include every audio-bearing element below the cutoff |
| PodcastFeedSpec.AllAudioSelectsAll | feed_podcast/feed_podcast.py:84-92 | when every item has audio, item i becomes entry i and no item is dropped |
| PodcastFeedSpec.AllAudioKeepsPrefix | feed_podcast/feed_podcast.py:121-125 | when every element has audio, the feed holds exactly the entries of the first Cutoff elements, in order |
| PodcastFeedSpec.NoAudioSelectsNothing | feed_podcast/feed_podcast.py:76-80 | items none of which has audio select no entry |
| PodcastFeedSpec.NoAudioYieldsEmptyFeed | feed_podcast/feed_podcast.py:119-128 | an empty element list, or one with no audio anywhere, yields the full feed metadata and podcast extension with zero entries |
| PodcastFeedSpec.CutoffBeforeAudioFilter | feed_podcast/feed_podcast.py:121-125 | with FEED_MAX_ITEMS = 1, an audio-less first element followed by an episode with audio gives a feed with no entries |
| PodcastFeedSpec.FeedTitleRoundTrip | feed_podcast/feed_podcast.py:42-45 | the override can be read back from the title: it comes back when it was non-empty, and nothing comes back otherwise |
| PodcastFeedSpec.FeedTitleInjective | feed_podcast/feed_podcast.py:42-45 | two overrides give the same title exactly when both are empty or absent, or both are the same non-empty string |
| PodcastFeedSpec.EntryIdInjective | feed_podcast/feed_podcast.py:72 | under one site URL, two item URLs give the same entry id exactly when they are equal |
| PodcastFeedSpec.EntryIdExample | feed_podcast/feed_podcast.py:72 | site "https://example.org" and item "ep1.html" give the id "https://example.org/ep1.html" |

## Left out

- File output (feed_podcast/feed_podcast.py:130-141): joining the output path, creating the directory while ignoring any error, `atom_file` serialisation with its pretty and encoding flags. This is filesystem I/O and the library's XML serialisation.
- `is_selected_for_writing` and the `path_to_url(get_relative_path(path))` default for `SITEURL` (lines 110-114): these are Pelican utilities, and the resolved site URL is an input instead.
- The feed URL computed from `FEED_DOMAIN` (lines 116-117): it is never used.
- The `feed_type` and `override_output` parameters: the writer ignores them.
- The `feed_written` signal (line 142), `register`, `patch_pelican_writer` and `set_feed_use_summary_default` (lines 148-161): these hook the plugin into Pelican and are not part of the feed's contents.
- `print` and `logger` output, and the Python 2 branches (lines 88-91, 137). The description is modelled as in the Python 3 branch: XHTML content.
- Entry placement inside the feed-generator library: `add_entry` (line 84) may insert a new entry at the front or the back of the document, depending on that library's default. The model keeps the order in which entries are added, so its ordering results (`WriteFeedEntryOrigins`, `AllAudioKeepsPrefix`) describe that order, not the order of the serialised document.
- How `Markup.striptags` removes markup: it is the `stripTags` parameter.
- Date handling: the date is an opaque type parameter, handed to the entry unchanged.
- Exceptions from missing data, such as a missing `SITENAME` key or an item without a `title`, `url` or `date` attribute. These fields are always present in the records. Non-integer `FEED_MAX_ITEMS` values are not modelled either.
