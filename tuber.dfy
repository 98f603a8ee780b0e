/**
 * The incremental playlist sync of Tuber: find (or create) the user's target
 * playlist, find the id of the last video already in it (the stop point),
 * collect the channel's uploads page by page until the page holding the stop
 * point, sort them by publication time and append those that come after the
 * stop point.
 *
 * Every remote answer is plain data here: a paginated listing is a sequence
 * of pages, the video lookup is a map from video id to publication ticks, and
 * inserting into a playlist appends to the playlist's `ItemIds`.
 */
module Tuber {
  import opened Wrappers
  import opened Videos

  /** The failures that abort a run (each is an exception in the source). */
  datatype Fault =
    | EmptyFinalPage   // the target playlist's last page has no item to read
    | EmptyUploadPage  // a channel page has no item, so there is no first video
    | VideoNotFound    // the video lookup for an id returned no item

  /** One playlist item as a listing returns it: its video id and title. */
  datatype PlaylistItem = PlaylistItem(videoId: string, title: string)

  /** One page of a listing and the token of the next page; `None` marks the last page. */
  datatype Page = Page(items: seq<PlaylistItem>, nextPageToken: Option<string>)

  const DefaultDescription: string := "A playlist created with the YouTube API v3"
  const DefaultPrivacyStatus: string := "public"

  /** A playlist of the user's, as the remote service holds it. */
  class Playlist {
    var Id: string
    var Title: string
    var Description: string
    var PrivacyStatus: string
    /** The video ids of the playlist's items, in playlist order. */
    var ItemIds: seq<string>

    constructor (id: string, title: string, description: string, privacyStatus: string)
      ensures Id == id && Title == title
      ensures Description == description && PrivacyStatus == privacyStatus
      ensures ItemIds == []
    {
      Id, Title, Description, PrivacyStatus := id, title, description, privacyStatus;
      ItemIds := [];
    }

    /** The remote insert of one playlist item at the end of the playlist. */
    method Insert(videoId: string)
      modifies this`ItemIds
      ensures ItemIds == old(ItemIds) + [videoId]
    {
      ItemIds := ItemIds + [videoId];
    }
  }

  // ---------------------------------------------------------------------------
  // Pagination

  /** Some page at or after `i` is the last one: the walk from page `i` ends. */
  ghost predicate HasLastPageFrom(pages: seq<Page>, i: nat)
  {
    exists j :: i <= j < |pages| && pages[j].nextPageToken.None?
  }

  /** The page at which a walk that starts at page `i` stops: the first without a next token. */
  function LastPageIndex(pages: seq<Page>, i: nat): (k: nat)
    requires HasLastPageFrom(pages, i)
    ensures i <= k < |pages| && pages[k].nextPageToken.None?
    ensures forall j :: i <= j < k ==> pages[j].nextPageToken.Some?
    decreases |pages| - i
  {
    if pages[i].nextPageToken.None? then i else LastPageIndex(pages, i + 1)
  }

  // ---------------------------------------------------------------------------
  // Stop point

  /** The id of the last item on the target playlist's last page. */
  function StopPoint(pages: seq<Page>): (r: Result<string, Fault>)
    requires HasLastPageFrom(pages, 0)
  {
    var last := pages[LastPageIndex(pages, 0)].items;
    if |last| == 0 then Err(EmptyFinalPage) else Ok(last[|last| - 1].videoId)
  }

  /** Walks the target playlist page after page and reads the last item of the last page. */
  method GetStopAtVideoId(pages: seq<Page>) returns (r: Result<string, Fault>)
    requires HasLastPageFrom(pages, 0)
    ensures r == StopPoint(pages)
  {
    var i := 0;
    while true
      invariant i <= LastPageIndex(pages, 0)
      decreases LastPageIndex(pages, 0) - i
    {
      var page := pages[i];
      if page.nextPageToken.None? {
        if |page.items| == 0 {
          return Err(EmptyFinalPage);
        }
        return Ok(page.items[|page.items| - 1].videoId);
      }
      i := i + 1;
    }
  }

  /** Only the last page decides the stop point: what earlier pages hold does not matter. */
  lemma StopPointReadsOnlyLastPage(pages: seq<Page>, other: seq<Page>)
    requires HasLastPageFrom(pages, 0)
    requires LastPageIndex(pages, 0) < |other|
    requires other[LastPageIndex(pages, 0)] == pages[LastPageIndex(pages, 0)]
    requires forall j :: 0 <= j < LastPageIndex(pages, 0) ==> other[j].nextPageToken.Some?
    ensures HasLastPageFrom(other, 0)
    ensures StopPoint(other) == StopPoint(pages)
  {
  }

  // ---------------------------------------------------------------------------
  // Channel uploads

  /** Every item of the page has a publication time in the lookup. */
  predicate Resolvable(items: seq<PlaylistItem>, publishedAt: map<string, int>)
  {
    forall j :: 0 <= j < |items| ==> items[j].videoId in publishedAt
  }

  /** The page can be collected: it has a first item and every item resolves. */
  predicate Collectable(items: seq<PlaylistItem>, publishedAt: map<string, int>)
  {
    items != [] && Resolvable(items, publishedAt)
  }

  /** Some item of the page is the video `id`. */
  predicate HasVideo(items: seq<PlaylistItem>, id: string)
  {
    exists j :: 0 <= j < |items| && items[j].videoId == id
  }

  /** The items of the pages, page after page. */
  function Concat(pages: seq<Page>): (items: seq<PlaylistItem>)
  {
    if pages == [] then [] else pages[0].items + Concat(pages[1..])
  }

  /** The sum of the page sizes. */
  function ItemCount(pages: seq<Page>): (n: nat)
  {
    if pages == [] then 0 else |pages[0].items| + ItemCount(pages[1..])
  }

  /**
   * The items that the upload walk from page `i` collects: each page whole,
   * ending with the first page that holds the stop point or has no next token.
   */
  function Uploads(pages: seq<Page>, stop: string, publishedAt: map<string, int>, i: nat)
    : (r: Result<seq<PlaylistItem>, Fault>)
    requires HasLastPageFrom(pages, i)
    decreases |pages| - i
  {
    var items := pages[i].items;
    if !Resolvable(items, publishedAt) then Err(VideoNotFound)
    else if |items| == 0 then Err(EmptyUploadPage)
    else if HasVideo(items, stop) || pages[i].nextPageToken.None? then Ok(items)
    else
      match Uploads(pages, stop, publishedAt, i + 1)
      case Err(e) => Err(e)
      case Ok(rest) => Ok(items + rest)
  }

  /** The page where the upload walk from page `i` ends, when no fault stops it first. */
  function CutPage(pages: seq<Page>, stop: string, i: nat): (k: nat)
    requires HasLastPageFrom(pages, i)
    ensures i <= k < |pages|
    ensures HasVideo(pages[k].items, stop) || pages[k].nextPageToken.None?
    ensures forall j :: i <= j < k ==> !HasVideo(pages[j].items, stop) && pages[j].nextPageToken.Some?
    decreases |pages| - i
  {
    if HasVideo(pages[i].items, stop) || pages[i].nextPageToken.None? then i
    else CutPage(pages, stop, i + 1)
  }

  /**
   * The walk succeeds exactly when every page from `i` up to the cut page is
   * non-empty and fully resolvable.
   */
  lemma {:induction false} UploadsOkThroughCut(pages: seq<Page>, stop: string, publishedAt: map<string, int>, i: nat)
    requires HasLastPageFrom(pages, i)
    ensures Uploads(pages, stop, publishedAt, i).Ok? <==>
      forall j :: i <= j <= CutPage(pages, stop, i) ==> Collectable(pages[j].items, publishedAt)
    decreases |pages| - i
  {
    var k := CutPage(pages, stop, i);
    if k != i && Collectable(pages[i].items, publishedAt) {
      assert pages[i].nextPageToken.Some? && !HasVideo(pages[i].items, stop);
      assert HasLastPageFrom(pages, i + 1);
      assert CutPage(pages, stop, i + 1) == k;
      UploadsOkThroughCut(pages, stop, publishedAt, i + 1);
      assert Uploads(pages, stop, publishedAt, i).Ok? == Uploads(pages, stop, publishedAt, i + 1).Ok?;
    }
  }

  /** A successful walk returns the items of the pages from `i` to the cut page, in order. */
  lemma {:induction false} UploadsValueThroughCut(pages: seq<Page>, stop: string, publishedAt: map<string, int>, i: nat)
    requires HasLastPageFrom(pages, i)
    requires Uploads(pages, stop, publishedAt, i).Ok?
    ensures Uploads(pages, stop, publishedAt, i).value == Concat(pages[i..CutPage(pages, stop, i) + 1])
    decreases |pages| - i
  {
    var k := CutPage(pages, stop, i);
    ConcatFront(pages, i, k);
    if k == i {
      assert Concat(pages[i + 1..k + 1]) == [];
    } else {
      assert pages[i].nextPageToken.Some? && !HasVideo(pages[i].items, stop);
      assert HasLastPageFrom(pages, i + 1);
      assert CutPage(pages, stop, i + 1) == k;
      UploadsValueThroughCut(pages, stop, publishedAt, i + 1);
    }
  }

  /** The items of pages i to k are those of page i followed by those of pages i + 1 to k. */
  lemma ConcatFront(pages: seq<Page>, i: nat, k: nat)
    requires i <= k < |pages|
    ensures Concat(pages[i..k + 1]) == pages[i].items + Concat(pages[i + 1..k + 1])
  {
    assert pages[i..k + 1][1..] == pages[i + 1..k + 1];
  }

  /**
   * When page `k` is the first to hold the stop point, the walk returns the
   * items of pages 0 to k, including those after the stop point on page k.
   */
  lemma UploadsStopFound(pages: seq<Page>, stop: string, publishedAt: map<string, int>, k: nat)
    requires HasLastPageFrom(pages, 0)
    requires k < |pages| && HasVideo(pages[k].items, stop)
    requires forall j :: 0 <= j < k ==> !HasVideo(pages[j].items, stop) && pages[j].nextPageToken.Some?
    requires forall j :: 0 <= j <= k ==> Collectable(pages[j].items, publishedAt)
    ensures Uploads(pages, stop, publishedAt, 0) == Ok(Concat(pages[..k + 1]))
  {
    UploadsOkThroughCut(pages, stop, publishedAt, 0);
    UploadsValueThroughCut(pages, stop, publishedAt, 0);
    assert pages[0..k + 1] == pages[..k + 1];
  }

  /**
   * When no page up to the last one holds the stop point, the walk returns
   * every item of every page, as many as the pages hold together.
   */
  lemma UploadsStopAbsent(pages: seq<Page>, stop: string, publishedAt: map<string, int>)
    requires HasLastPageFrom(pages, 0)
    requires forall j :: 0 <= j <= LastPageIndex(pages, 0) ==>
      !HasVideo(pages[j].items, stop) && Collectable(pages[j].items, publishedAt)
    ensures var n := LastPageIndex(pages, 0);
      var r := Uploads(pages, stop, publishedAt, 0);
      r == Ok(Concat(pages[..n + 1])) && |r.value| == ItemCount(pages[..n + 1])
  {
    var n := LastPageIndex(pages, 0);
    UploadsOkThroughCut(pages, stop, publishedAt, 0);
    UploadsValueThroughCut(pages, stop, publishedAt, 0);
    assert pages[0..n + 1] == pages[..n + 1];
    ConcatLength(pages[..n + 1]);
  }

  lemma {:induction false} ConcatLength(pages: seq<Page>)
    ensures |Concat(pages)| == ItemCount(pages)
  {
    if pages != [] {
      ConcatLength(pages[1..]);
    }
  }

  /** The walk reads no page after the cut page: pages beyond it do not change the result. */
  lemma UploadsIgnoresLaterPages(pages: seq<Page>, other: seq<Page>, stop: string, publishedAt: map<string, int>)
    requires HasLastPageFrom(pages, 0) && HasLastPageFrom(other, 0)
    requires CutPage(pages, stop, 0) < |other|
    requires other[..CutPage(pages, stop, 0) + 1] == pages[..CutPage(pages, stop, 0) + 1]
    ensures Uploads(other, stop, publishedAt, 0) == Uploads(pages, stop, publishedAt, 0)
  {
    var k := CutPage(pages, stop, 0);
    forall j | 0 <= j <= k
      ensures other[j] == pages[j]
    {
      assert other[..k + 1][j] == pages[..k + 1][j];
    }
    UploadsAgreeFrom(pages, other, stop, publishedAt, 0);
  }

  lemma {:induction false} UploadsAgreeFrom(pages: seq<Page>, other: seq<Page>, stop: string, publishedAt: map<string, int>, i: nat)
    requires HasLastPageFrom(pages, i) && HasLastPageFrom(other, i)
    requires CutPage(pages, stop, i) < |other|
    requires forall j :: i <= j <= CutPage(pages, stop, i) ==> other[j] == pages[j]
    ensures Uploads(other, stop, publishedAt, i) == Uploads(pages, stop, publishedAt, i)
    decreases |pages| - i
  {
    var k := CutPage(pages, stop, i);
    assert other[i] == pages[i];
    if i < k {
      assert pages[i].nextPageToken.Some?;
      assert HasLastPageFrom(pages, i + 1) && HasLastPageFrom(other, i + 1);
      assert CutPage(pages, stop, i + 1) == k;
      UploadsAgreeFrom(pages, other, stop, publishedAt, i + 1);
    }
  }

  /** The videos are, one for one, the items with their looked-up publication times. */
  ghost predicate Describes(videos: seq<Video>, items: seq<PlaylistItem>, publishedAt: map<string, int>)
  {
    && |videos| == |items|
    && forall j :: 0 <= j < |items| ==>
      && items[j].videoId in publishedAt
      && videos[j].VideoId == items[j].videoId
      && videos[j].Title == items[j].title
      && videos[j].PublishedAt == publishedAt[items[j].videoId]
  }

  /**
   * Builds a `Video` for every item of page `i`, then stops if the page holds
   * the stop point or is the last one, and otherwise appends what the walk
   * from the next page returns.
   */
  method GetChannelUploads(pages: seq<Page>, stopAtVideoId: string, publishedAt: map<string, int>, i: nat)
    returns (r: Result<seq<Video>, Fault>)
    requires HasLastPageFrom(pages, i)
    ensures r.Ok? <==> Uploads(pages, stopAtVideoId, publishedAt, i).Ok?
    ensures r.Ok? ==> Describes(r.value, Uploads(pages, stopAtVideoId, publishedAt, i).value, publishedAt)
    ensures r.Err? ==> r.error == Uploads(pages, stopAtVideoId, publishedAt, i).error
    decreases |pages| - i
  {
    var page := pages[i];
    var built := BuildVideos(page.items, publishedAt);
    if built.Err? {
      return Err(built.error);
    }
    var playlistVideos := built.value;
    if |playlistVideos| == 0 {
      return Err(EmptyUploadPage);
    }
    var m := 0;
    while m < |playlistVideos|
      invariant m <= |playlistVideos|
      invariant forall j :: 0 <= j < m ==> page.items[j].videoId != stopAtVideoId
    {
      if playlistVideos[m].VideoId == stopAtVideoId {
        return Ok(playlistVideos);
      }
      m := m + 1;
    }
    if page.nextPageToken.Some? {
      var rest := GetChannelUploads(pages, stopAtVideoId, publishedAt, i + 1);
      if rest.Err? {
        return Err(rest.error);
      }
      ghost var restItems := Uploads(pages, stopAtVideoId, publishedAt, i + 1).value;
      assert Uploads(pages, stopAtVideoId, publishedAt, i) == Ok(page.items + restItems);
      DescribesConcat(playlistVideos, page.items, rest.value, restItems, publishedAt);
      playlistVideos := playlistVideos + rest.value;
    }
    return Ok(playlistVideos);
  }

  /** Describing videos can be laid end to end. */
  lemma DescribesConcat(videos: seq<Video>, items: seq<PlaylistItem>, more: seq<Video>, moreItems: seq<PlaylistItem>,
                        publishedAt: map<string, int>)
    requires Describes(videos, items, publishedAt) && Describes(more, moreItems, publishedAt)
    ensures Describes(videos + more, items + moreItems, publishedAt)
  {
    forall j | |items| <= j < |items| + |moreItems|
      ensures (videos + more)[j] == more[j - |items|] && (items + moreItems)[j] == moreItems[j - |items|]
    {
    }
  }

  /** A `Video` for each item, in page order, with the publication time the lookup gives. */
  method BuildVideos(items: seq<PlaylistItem>, publishedAt: map<string, int>)
    returns (r: Result<seq<Video>, Fault>)
    ensures r.Ok? <==> Resolvable(items, publishedAt)
    ensures r.Ok? ==> Describes(r.value, items, publishedAt)
    ensures r.Err? ==> r.error == VideoNotFound
  {
    var videos: seq<Video> := [];
    var n := 0;
    while n < |items|
      invariant n <= |items|
      invariant Describes(videos, items[..n], publishedAt)
    {
      var item := items[n];
      if item.videoId !in publishedAt {
        return Err(VideoNotFound);
      }
      var video := new Video(item.videoId, item.title, publishedAt[item.videoId]);
      videos := videos + [video];
      n := n + 1;
    }
    assert items[..n] == items;
    return Ok(videos);
  }

  // ---------------------------------------------------------------------------
  // Sorting by publication time

  /** Publication times never decrease along the sequence. */
  ghost predicate SortedByPublishedAt(videos: seq<Video>)
  {
    forall j, l :: 0 <= j < l < |videos| ==> videos[j].PublishedAt <= videos[l].PublishedAt
  }

  /** Reorders the videos in place by publication time; ties are left in no promised order. */
  method SortByPublishedAt(a: array<Video>)
    modifies a
    ensures SortedByPublishedAt(a[..])
    ensures multiset(a[..]) == old(multiset(a[..]))
  {
    var i := 0;
    while i < a.Length
      invariant i <= a.Length
      invariant SortedByPublishedAt(a[..i])
      invariant multiset(a[..]) == old(multiset(a[..]))
    {
      InsertIntoSorted(a, i);
      i := i + 1;
    }
    assert a[..i] == a[..];
  }

  /** Moves `a[i]` back into the sorted `a[..i]`, so that `a[..i + 1]` is sorted. */
  method InsertIntoSorted(a: array<Video>, i: nat)
    requires i < a.Length
    requires SortedByPublishedAt(a[..i])
    modifies a
    ensures SortedByPublishedAt(a[..i + 1])
    ensures a[i + 1..] == old(a[i + 1..])
    ensures multiset(a[..]) == old(multiset(a[..]))
  {
    var j := i;
    while 0 < j && a[j].PublishedAt < a[j - 1].PublishedAt
      invariant 0 <= j <= i
      invariant forall p, q :: 0 <= p < q <= i && p != j && q != j ==> a[p].PublishedAt <= a[q].PublishedAt
      invariant forall q :: j < q <= i ==> a[j].PublishedAt <= a[q].PublishedAt
      invariant a[i + 1..] == old(a[i + 1..])
      invariant multiset(a[..]) == old(multiset(a[..]))
    {
      Swap(a, j);
      j := j - 1;
    }
  }

  /** Exchanges `a[j - 1]` and `a[j]`. */
  method Swap(a: array<Video>, j: nat)
    requires 0 < j < a.Length
    modifies a
    ensures a[j - 1] == old(a[j]) && a[j] == old(a[j - 1])
    ensures forall p :: 0 <= p < a.Length && p != j - 1 && p != j ==> a[p] == old(a[p])
    ensures multiset(a[..]) == old(multiset(a[..]))
  {
    a[j - 1], a[j] := a[j], a[j - 1];
  }

  // ---------------------------------------------------------------------------
  // Appending after the stop point

  /** The ids of the videos, in order. */
  function VideoIds(videos: seq<Video>): (ids: seq<string>)
    ensures |ids| == |videos|
    ensures forall j :: 0 <= j < |videos| ==> ids[j] == videos[j].VideoId
  {
    if videos == [] then [] else [videos[0].VideoId] + VideoIds(videos[1..])
  }

  /** What the append step inserts: the ids after the first occurrence of `startAfter`. */
  function InsertedAfter(ids: seq<string>, startAfter: string): (inserted: seq<string>)
  {
    if ids == [] then []
    else if ids[0] == startAfter then ids[1..]
    else InsertedAfter(ids[1..], startAfter)
  }

  /**
   * Everything after the first occurrence of `startAfter` is inserted, later
   * occurrences of that id included.
   */
  lemma {:induction false} InsertedAfterFirstMatch(ids: seq<string>, startAfter: string, k: nat)
    requires k < |ids| && ids[k] == startAfter
    requires forall j :: 0 <= j < k ==> ids[j] != startAfter
    ensures InsertedAfter(ids, startAfter) == ids[k + 1..]
  {
    if k > 0 {
      InsertedAfterFirstMatch(ids[1..], startAfter, k - 1);
      assert ids[1..][k..] == ids[k + 1..];
    }
  }

  /** When `startAfter` never occurs, nothing is inserted. */
  lemma {:induction false} InsertedAfterAbsent(ids: seq<string>, startAfter: string)
    requires startAfter !in ids
    ensures InsertedAfter(ids, startAfter) == []
  {
    if ids != [] {
      assert startAfter !in ids[1..];
      InsertedAfterAbsent(ids[1..], startAfter);
    }
  }

  /** One more video: inserted exactly when `startAfter` occurred earlier. */
  lemma {:induction false} InsertedAfterSnoc(ids: seq<string>, x: string, startAfter: string)
    ensures InsertedAfter(ids + [x], startAfter) ==
      if startAfter in ids then InsertedAfter(ids, startAfter) + [x] else []
  {
    if ids == [] {
      assert [x][1..] == [];
    } else {
      assert (ids + [x])[1..] == ids[1..] + [x];
      if ids[0] != startAfter {
        assert startAfter in ids <==> startAfter in ids[1..];
        InsertedAfterSnoc(ids[1..], x, startAfter);
      }
    }
  }

  /**
   * Inserts into the playlist every video that follows the first video whose
   * id is `startAfterVideoId`, in list order.
   */
  method AddVideosToPlaylist(videosToAdd: seq<Video>, playlist: Playlist, startAfterVideoId: string)
    modifies playlist`ItemIds
    ensures playlist.ItemIds == old(playlist.ItemIds) + InsertedAfter(VideoIds(videosToAdd), startAfterVideoId)
  {
    ghost var ids := VideoIds(videosToAdd);
    var afterVideoId := false;
    var i := 0;
    while i < |videosToAdd|
      invariant i <= |videosToAdd|
      invariant afterVideoId == (startAfterVideoId in ids[..i])
      invariant playlist.ItemIds == old(playlist.ItemIds) + InsertedAfter(ids[..i], startAfterVideoId)
      invariant !afterVideoId ==> playlist.ItemIds == old(playlist.ItemIds)
    {
      var video := videosToAdd[i];
      assert video.VideoId == ids[i];
      InsertedAfterSnoc(ids[..i], video.VideoId, startAfterVideoId);
      assert ids[..i + 1] == ids[..i] + [video.VideoId];
      if afterVideoId {
        playlist.Insert(video.VideoId);
        assert playlist.ItemIds == old(playlist.ItemIds) + (InsertedAfter(ids[..i], startAfterVideoId) + [video.VideoId]);
      } else if video.VideoId == startAfterVideoId {
        afterVideoId := true;
      }
      i := i + 1;
    }
    assert ids[..i] == ids;
  }

  // ---------------------------------------------------------------------------
  // The target playlist

  /** The playlist's title equals `name` once both are case-folded by `fold`. */
  ghost predicate TitleMatches(playlist: Playlist, name: string, fold: string -> string)
    reads playlist
  {
    fold(playlist.Title) == fold(name)
  }

  /** The remote creation of a public playlist named `playlistName`; the service assigns `newId`. */
  method CreatePlaylist(playlistName: string, newId: string) returns (p: Playlist)
    ensures fresh(p)
    ensures p.Id == newId && p.Title == playlistName
    ensures p.Description == DefaultDescription && p.PrivacyStatus == DefaultPrivacyStatus
    ensures p.ItemIds == []
  {
    p := new Playlist(newId, playlistName, DefaultDescription, DefaultPrivacyStatus);
  }

  /**
   * The first of the user's playlists whose title matches `playlistName`, or a
   * newly created playlist with that title when none does.
   */
  method GetUserPlaylist(playlists: seq<Playlist>, playlistName: string, fold: string -> string, newId: string)
    returns (p: Playlist)
    ensures (exists j :: 0 <= j < |playlists| && TitleMatches(playlists[j], playlistName, fold)) ==>
      exists k :: 0 <= k < |playlists| && p == playlists[k] && TitleMatches(p, playlistName, fold) &&
        forall j :: 0 <= j < k ==> !TitleMatches(playlists[j], playlistName, fold)
    ensures (forall j :: 0 <= j < |playlists| ==> !TitleMatches(playlists[j], playlistName, fold)) ==>
      && fresh(p) && p.Id == newId && p.Title == playlistName
      && p.Description == DefaultDescription && p.PrivacyStatus == DefaultPrivacyStatus
      && p.ItemIds == []
  {
    var i := 0;
    while i < |playlists|
      invariant i <= |playlists|
      invariant forall j :: 0 <= j < i ==> !TitleMatches(playlists[j], playlistName, fold)
    {
      if fold(playlists[i].Title) == fold(playlistName) {
        return playlists[i];
      }
      i := i + 1;
    }
    p := CreatePlaylist(playlistName, newId);
  }

  /** A new array holding the videos, standing for the source's `List<Video>`. */
  method ToArray(videos: seq<Video>) returns (a: array<Video>)
    ensures fresh(a) && a[..] == videos
  {
    a := new Video[|videos|](j requires 0 <= j < |videos| => videos[j]);
  }

  // ---------------------------------------------------------------------------
  // The run

  /**
   * One sync run: resolve the target playlist, then sync it. A fault aborts
   * the run before anything is inserted.
   */
  method Sync(userPlaylists: seq<Playlist>, playlistName: string, fold: string -> string, newId: string,
              targetPages: seq<Page>, uploadPages: seq<Page>, publishedAt: map<string, int>)
    returns (r: Result<Playlist, Fault>, ghost collected: seq<Video>, ghost sorted: seq<Video>)
    requires HasLastPageFrom(targetPages, 0) && HasLastPageFrom(uploadPages, 0)
    modifies userPlaylists`ItemIds
    ensures r.Ok? <==>
      StopPoint(targetPages).Ok? && Uploads(uploadPages, StopPoint(targetPages).value, publishedAt, 0).Ok?
    ensures r.Err? && StopPoint(targetPages).Err? ==> r.error == StopPoint(targetPages).error
    ensures r.Err? && StopPoint(targetPages).Ok? ==>
      r.error == Uploads(uploadPages, StopPoint(targetPages).value, publishedAt, 0).error
    ensures r.Err? ==> forall q :: q in userPlaylists ==> q.ItemIds == old(q.ItemIds)
    ensures r.Ok? ==> forall q :: q in userPlaylists && q != r.value ==> q.ItemIds == old(q.ItemIds)
    ensures forall q :: q in userPlaylists ==>
      q.Id == old(q.Id) && q.Title == old(q.Title) &&
      q.Description == old(q.Description) && q.PrivacyStatus == old(q.PrivacyStatus)
    ensures r.Ok? && (exists j :: 0 <= j < |userPlaylists| && TitleMatches(userPlaylists[j], playlistName, fold)) ==>
      exists k :: 0 <= k < |userPlaylists| && r.value == userPlaylists[k] && TitleMatches(r.value, playlistName, fold) &&
        forall j :: 0 <= j < k ==> !TitleMatches(userPlaylists[j], playlistName, fold)
    ensures r.Ok? && (forall j :: 0 <= j < |userPlaylists| ==> !TitleMatches(userPlaylists[j], playlistName, fold)) ==>
      && fresh(r.value) && r.value.Id == newId && r.value.Title == playlistName
      && r.value.Description == DefaultDescription && r.value.PrivacyStatus == DefaultPrivacyStatus
    ensures r.Ok? ==>
      var stop := StopPoint(targetPages).value;
      && Describes(collected, Uploads(uploadPages, stop, publishedAt, 0).value, publishedAt)
      && multiset(sorted) == multiset(collected)
      && SortedByPublishedAt(sorted)
      && (r.value in userPlaylists ==>
            r.value.ItemIds == old(r.value.ItemIds) + InsertedAfter(VideoIds(sorted), stop))
      && (r.value !in userPlaylists ==>
            fresh(r.value) && r.value.Title == playlistName &&
            r.value.ItemIds == InsertedAfter(VideoIds(sorted), stop))
  {
    var playlist := GetUserPlaylist(userPlaylists, playlistName, fold, newId);
    assert playlist in userPlaylists || fresh(playlist);
    var outcome;
    outcome, collected, sorted := SyncPlaylist(playlist, targetPages, uploadPages, publishedAt);
    if outcome.Err? {
      return Err(outcome.error), collected, sorted;
    }
    r := Ok(playlist);
  }

  /**
   * Syncs the resolved target playlist: read its stop point, collect the
   * channel's uploads, sort them and append those after the stop point.
   */
  method SyncPlaylist(playlist: Playlist, targetPages: seq<Page>, uploadPages: seq<Page>, publishedAt: map<string, int>)
    returns (r: Result<(), Fault>, ghost collected: seq<Video>, ghost sorted: seq<Video>)
    requires HasLastPageFrom(targetPages, 0) && HasLastPageFrom(uploadPages, 0)
    modifies playlist`ItemIds
    ensures r.Ok? <==>
      StopPoint(targetPages).Ok? && Uploads(uploadPages, StopPoint(targetPages).value, publishedAt, 0).Ok?
    ensures r.Err? ==> playlist.ItemIds == old(playlist.ItemIds)
    ensures r.Err? && StopPoint(targetPages).Err? ==> r.error == StopPoint(targetPages).error
    ensures r.Err? && StopPoint(targetPages).Ok? ==>
      r.error == Uploads(uploadPages, StopPoint(targetPages).value, publishedAt, 0).error
    ensures r.Ok? ==>
      var stop := StopPoint(targetPages).value;
      && Describes(collected, Uploads(uploadPages, stop, publishedAt, 0).value, publishedAt)
      && multiset(sorted) == multiset(collected)
      && SortedByPublishedAt(sorted)
      && playlist.ItemIds == old(playlist.ItemIds) + InsertedAfter(VideoIds(sorted), stop)
  {
    collected, sorted := [], [];
    var stopAtVideoId := GetStopAtVideoId(targetPages);
    if stopAtVideoId.Err? {
      return Err(stopAtVideoId.error), collected, sorted;
    }
    var channelUploads := GetChannelUploads(uploadPages, stopAtVideoId.value, publishedAt, 0);
    if channelUploads.Err? {
      return Err(channelUploads.error), collected, sorted;
    }
    collected := channelUploads.value;
    var uploads := ToArray(channelUploads.value);
    SortByPublishedAt(uploads);
    var videosToAdd := uploads[..];
    sorted := videosToAdd;
    AddVideosToPlaylist(videosToAdd, playlist, stopAtVideoId.value);
    r := Ok(());
  }
}
