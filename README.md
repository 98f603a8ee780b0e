# Tuber playlist sync, modelled in Dafny

Tuber keeps a playlist of the user's ("gamegrumps") up to date with a YouTube
channel's uploads. One run does five things:

1. find the user's playlist whose title matches the name, ignoring case, or
   create a public playlist with that name;
2. read the target playlist page by page up to its last page, and take the id
   of the last item on that page as the *stop point*;
3. walk the channel's upload pages, turning every item of a page into a
   `Video` (id, title, publication time from a second lookup), and stop after
   the first page that holds the stop point or has no next page;
4. sort the collected videos by publication time, in place;
5. insert into the playlist every video that comes after the first video
   whose id is the stop point.

This project models that reconciliation. Each remote answer is plain data:

- a paginated listing is a `seq<Page>`, where each `Page` holds its items and
  an optional next-page token (`None` marks the last page);
- the publication-time lookup is a `map<string, int>` from video id to
  `DateTime` ticks;
- inserting a playlist item appends the video id to the playlist's `ItemIds`.

Files:

- `wrappers.dfy`: module `Wrappers`, with `Option` and `Result`.
- `video.dfy`: module `Videos`, with the `Video` class from `Tuber/Video.cs`.
- `tuber.dfy`: module `Tuber`, with the sync from `Tuber/Tuber.cs`.

Each operation is a method shaped like the source: a `while` loop for the
stop-point walk, a recursive method for the upload walk (its loop looks for
the stop point; `BuildVideos` loops over a page's items), an in-place sort on
an `array<Video>`, and a flag-driven loop of inserts. Each
method is proved against a specification function (`StopPoint`, `Uploads`,
`InsertedAfter`) or against the sorted-permutation property. Lemmas then state
what those functions promise.

Three failures that raise exceptions in the source on the data they read are
explicit `Fault`s:

- `EmptyFinalPage`: the target playlist's last page is empty, so
  `Items[Count - 1]` is out of range (Tuber/Tuber.cs:179);
- `EmptyUploadPage`: a channel page is empty, so `playlistVideos[0]` is out of
  range (Tuber/Tuber.cs:211);
- `VideoNotFound`: the video lookup returns no item, so `Items[0]` is out of
  range (Tuber/Tuber.cs:159).

## Behaviour kept from the code

The model follows the code in these places, where a reader might expect
otherwise:

- An empty target playlist does not give a "no stop point" value. Reading the
  last item of an empty final page fails, and the run aborts with
  `EmptyFinalPage`. So a first run into an empty playlist inserts nothing.
- The sort is `List<T>.Sort`, which is not stable. `SortByPublishedAt`
  promises only non-decreasing publication times and a permutation, and says
  nothing about the order of ties.
- When the stop point is not among the collected videos, nothing is inserted
  (`InsertedAfterAbsent`).

## Model

| member | source | states |
|---|---|---|
| `Videos.Video.constructor` | Tuber/Video.cs:17-24 | `VideoId`, `Title` and `PublishedAt` equal the constructor's arguments; the private field `publishedAt` keeps `DateTime.MaxValue`, because the constructor assigns the property and not the field |
| `Tuber.LastPageIndex` | Tuber/Tuber.cs:170-177 | the walk stops at the first page that has no next token; every page before it has one |
| `Tuber.GetStopAtVideoId` | Tuber/Tuber.cs:163-182 | the loop returns `StopPoint(pages)`: the id of the last item on the first page without a next token, or `EmptyFinalPage` when that page is empty |
| `Tuber.StopPointReadsOnlyLastPage` | Tuber/Tuber.cs:170-180 | replacing what the earlier pages hold leaves the stop point unchanged, as long as they keep a next token |
| `Tuber.CutPage` | Tuber/Tuber.cs:212-223 | the upload walk ends at the first page that holds the stop point or has no next token; every earlier page lacks the stop point and has a next token |
| `Tuber.UploadsOkThroughCut` | Tuber/Tuber.cs:203-223 | the upload walk succeeds exactly when every page up to the cut page is non-empty and every one of its items resolves in the lookup |
| `Tuber.UploadsValueThroughCut` | Tuber/Tuber.cs:203-225 | a successful upload walk returns the items of pages 0 to the cut page, each page whole and in page order |
| `Tuber.UploadsStopFound` | Tuber/Tuber.cs:212-217 | if page k is the first page holding the stop point, the result is exactly pages 0..k concatenated, including the items after the stop point on page k |
| `Tuber.UploadsStopAbsent` | Tuber/Tuber.cs:220-225 | if no page holds the stop point, the result is every page up to the last one concatenated, and its length is the sum of the page sizes |
| `Tuber.ConcatLength` | Tuber/Tuber.cs:222 | the concatenated pages hold as many items as the page sizes add up to |
| `Tuber.UploadsIgnoresLaterPages` | Tuber/Tuber.cs:214-223 | pages after the cut page are never read: changing them does not change the upload walk's result |
| `Tuber.UploadsAgreeFrom` | Tuber/Tuber.cs:212-223 | two listings that agree from page i up to the cut page give the same upload walk from page i |
| `Tuber.BuildVideos` | Tuber/Tuber.cs:203-209 | one `Video` per item, in page order, with the item's id and title and the looked-up time; `VideoNotFound` exactly when some item's id has no publication time |
| `Tuber.GetChannelUploads` | Tuber/Tuber.cs:184-226 | the recursive walk succeeds exactly when `Uploads` does, fails with the same fault, and on success returns videos that describe `Uploads`' items one for one |
| `Tuber.SortByPublishedAt` | Tuber/Tuber.cs:101 | after the in-place sort, publication times never decrease and the array holds the same videos as before |
| `Tuber.InsertIntoSorted` | Tuber/Tuber.cs:101 | one step of the sort: moving `a[i]` back into the sorted prefix leaves `a[..i + 1]` sorted, `a[i + 1..]` as it was, and the array a permutation of itself |
| `Tuber.InsertedAfterFirstMatch` | Tuber/Tuber.cs:133-150 | when the first occurrence of the stop id is at k, exactly the videos after k are inserted, later occurrences of that id included |
| `Tuber.InsertedAfterAbsent` | Tuber/Tuber.cs:133-150 | when the stop id does not occur, nothing is inserted |
| `Tuber.InsertedAfterSnoc` | Tuber/Tuber.cs:134-149 | one more video is inserted exactly when the stop id occurred before it |
| `Tuber.AddVideosToPlaylist` | Tuber/Tuber.cs:131-152 | the flag-driven loop appends to the playlist exactly `InsertedAfter` of the list's ids, in list order |
| `Tuber.Playlist.Insert` | Tuber/Tuber.cs:139-145 | one insert appends one video id to the end of the playlist |
| `Tuber.CreatePlaylist` | Tuber/Tuber.cs:256-268 | the new playlist has the given title, the fixed description, privacy status "public" and no items |
| `Tuber.GetUserPlaylist` | Tuber/Tuber.cs:228-248 | returns the first listed playlist whose folded title equals the folded name; when none matches, returns a newly created playlist with that name |
| `Tuber.SyncPlaylist` | Tuber/Tuber.cs:95-111 | succeeds exactly when the stop point and the upload walk do; a failure carries the stop point's fault, or else the upload walk's, and inserts nothing; on success the collected videos describe the walk's items, the sorted list is an ordered permutation of them, and the playlist gains `InsertedAfter` of the sorted ids |
| `Tuber.Sync` | Tuber/Tuber.cs:92-111 | one run: the playlist it returns is the first of the user's playlists whose folded title matches, or, when none does, a new public playlist with that name; it succeeds exactly when the stop point and the upload walk do, and a failure carries the stop point's fault, or else the upload walk's; on success the returned playlist ends with its old items followed by the sorted videos after the stop point, and no other playlist's items change; a failure changes no listed playlist's items; no playlist's id, title, description or privacy status changes |

## Left out

- `Main` and the credential flow in `Run` (Tuber/Tuber.cs:49-90): file access, OAuth and the service client are I/O and foreign library calls.
- Console output (`Console.WriteLine`, `Console.ReadKey`) and `Video.ToString`, which formats a `DateTime` by culture.
- The remote request and response objects and `ExecuteAsync`: listings, the publication-time lookup (Tuber/Tuber.cs:154-161) and inserts are data, as described above. Remote failures other than the three faults (network, quota, authorisation) are not modelled.
- async/await: the steps run in sequence. That `Run` does not await `addVideosToPlaylist` is not modelled.
- `TitleMatches`: the culture-specific `ToLower` is the function parameter `fold`.
- `GetUserPlaylist` takes the user's playlists as one sequence; that the source reads only the first page of them is a pagination detail of the remote call.
- `Sync`: the target playlist's listing is a parameter; it is not derived from the resolved playlist's `ItemIds`. The id that the service gives a new playlist is the parameter `newId`. So the model allows a successful run into a newly created playlist, but in the source a new playlist is empty and such a run always fails with `EmptyFinalPage` (Tuber/Tuber.cs:179). The remote playlist created at Tuber/Tuber.cs:266 also stays behind after that failure, while the model's `Err` result does not return it.
- `removeWatched` (Tuber/Tuber.cs:126-129) does nothing and is not modelled.
- The unused `iteration` parameter of `getChannelUploads` and the commented-out code in `Run`.
- Page tokens: only whether a page has a next token matters; the walks read the pages in sequence order. A listing whose pages all have a next token would make the source loop forever, and `HasLastPageFrom` excludes it.
- `Videos.Video.constructor`: the three properties are settable in the source, but no code assigns them after construction, so they are `const` fields, and so is the private field `publishedAt`, which nothing assigns either.
- `Tuber.SortByPublishedAt`: the model sorts by insertion. The order of videos with equal publication times is not specified, as with `List<T>.Sort`.
- `DateTime` is its tick count, an unbounded `int`.
