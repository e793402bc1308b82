/**
 * `get_video_ids_from_playlist` of thumbnail_generator/get_youtube_video_ids.py.
 *
 * The playlist API is given as the sequence of responses it sends, one per
 * request (`pages[k]` answers the k-th request), and the title lookup as a
 * function from a batch of ids to the items it returns.  Records are objects
 * whose titles are patched in place.
 */
module VideoIds {
  import opened Wrappers

  /** The title the API shows for a private or restricted video. */
  const PrivateTitle: string := "Private Video"

  /** Largest number of ids per title lookup. */
  const BatchSize: nat := 50

  /** `VideoInfo`: a video id and its title. */
  class VideoInfo {
    var videoId: string
    var title: string

    constructor (videoId: string, title: string)
      ensures this.videoId == videoId && this.title == title
    {
      this.videoId := videoId;
      this.title := title;
    }
  }

  /** What `asdict(video)` writes to the JSON file. */
  datatype Record = Record(videoId: string, title: string)

  /** The records' current field values, in list order. */
  function Snapshot(videos: seq<VideoInfo>): seq<Record>
    reads videos
  {
    seq(|videos|, i reads videos requires 0 <= i < |videos| => Record(videos[i].videoId, videos[i].title))
  }

  lemma SnapshotAppend(a: seq<VideoInfo>, b: seq<VideoInfo>)
    ensures Snapshot(a + b) == Snapshot(a) + Snapshot(b)
  {
  }

  /** No object appears twice in the list. */
  predicate Distinct(videos: seq<VideoInfo>)
  {
    forall i, j :: 0 <= i < j < |videos| ==> videos[i] != videos[j]
  }

  /** One playlist item, or one item of a lookup response: an id and a title. */
  datatype Item = Item(videoId: string, title: string)

  /** One response of `playlistItems().list`: its items and its continuation token. */
  datatype Page = Page(items: seq<Item>, nextPageToken: Option<string>)

  /** `if not next_page_token: break` negated: the token is present and not empty. */
  predicate HasNextPage(p: Page) { p.nextPageToken.Some? && p.nextPageToken.value != "" }

  /** Some response ends the listing (the loop relies on the server for termination). */
  predicate ListingEnds(pages: seq<Page>)
  {
    exists k :: 0 <= k < |pages| && !HasNextPage(pages[k])
  }

  /** Index of the first response without a continuation token. */
  function LastPage(pages: seq<Page>): (k: nat)
    requires ListingEnds(pages)
    ensures k < |pages| && !HasNextPage(pages[k])
    ensures forall j :: 0 <= j < k ==> HasNextPage(pages[j])
  {
    if !HasNextPage(pages[0]) then 0
    else
      ListingEndsTail(pages);
      1 + LastPage(pages[1..])
  }

  lemma ListingEndsTail(pages: seq<Page>)
    requires ListingEnds(pages) && HasNextPage(pages[0])
    ensures ListingEnds(pages[1..])
  {
    var k :| 0 <= k < |pages| && !HasNextPage(pages[k]);
    assert pages[1..][k - 1] == pages[k];
  }

  /** All items of the given responses, page by page and item by item. */
  function Listed(pages: seq<Page>): seq<Item>
  {
    if pages == [] then [] else Listed(pages[..|pages| - 1]) + pages[|pages| - 1].items
  }

  /** The record stored for a playlist item: a private video's title is left blank. */
  function Placeholder(item: Item): Record
  {
    if item.title == PrivateTitle then Record(item.videoId, "") else Record(item.videoId, item.title)
  }

  function Placeholders(items: seq<Item>): seq<Record>
  {
    seq(|items|, i requires 0 <= i < |items| => Placeholder(items[i]))
  }

  /** The ids of the private items, in encounter order. */
  function PrivateIds(items: seq<Item>): seq<string>
  {
    if items == [] then []
    else
      var last := items[|items| - 1];
      PrivateIds(items[..|items| - 1]) + if last.title == PrivateTitle then [last.videoId] else []
  }

  /** An id is collected iff some item with that id is titled `Private Video`. */
  lemma {:induction false} PrivateIdsMembers(items: seq<Item>, id: string)
    ensures id in PrivateIds(items) <==> exists i :: 0 <= i < |items| && items[i] == Item(id, PrivateTitle)
  {
    if items != [] {
      var init := items[..|items| - 1];
      PrivateIdsMembers(init, id);
      if exists i :: 0 <= i < |init| && init[i] == Item(id, PrivateTitle) {
        var i :| 0 <= i < |init| && init[i] == Item(id, PrivateTitle);
        assert items[i] == init[i];
      }
      if exists i :: 0 <= i < |items| && items[i] == Item(id, PrivateTitle) {
        var i :| 0 <= i < |items| && items[i] == Item(id, PrivateTitle);
        if i < |init| {
          assert init[i] == items[i];
        }
      }
    }
  }

  function Min(a: int, b: int): int { if a < b then a else b }

  /** `private_ids[i:i+50]` for i = 0, 50, 100, ...: consecutive batches of at most 50 ids. */
  function Chunks(ids: seq<string>): (batches: seq<seq<string>>)
    decreases |ids|
    ensures forall b :: b in batches ==> 0 < |b| <= BatchSize
  {
    if ids == [] then []
    else [ids[..Min(BatchSize, |ids|)]] + Chunks(ids[Min(BatchSize, |ids|)..])
  }

  function Flatten<T>(parts: seq<seq<T>>): seq<T>
  {
    if parts == [] then [] else parts[0] + Flatten(parts[1..])
  }

  /** The batches hold 1 to 50 ids each and, concatenated, give back the ids exactly. */
  lemma {:induction false} ChunksSpec(ids: seq<string>)
    ensures Flatten(Chunks(ids)) == ids
    ensures forall c :: c in Chunks(ids) ==> 0 < |c| <= BatchSize
    ensures |Chunks(ids)| == (|ids| + BatchSize - 1) / BatchSize
  {
    if ids != [] {
      var n := Min(BatchSize, |ids|);
      ChunksSpec(ids[n..]);
      assert ids[..n] + ids[n..] == ids;
    }
  }

  /** Position of the first record with the given id. */
  function FirstIndex(records: seq<Record>, id: string): (r: Option<nat>)
    ensures r.Some? ==> r.value < |records| && records[r.value].videoId == id
    ensures r.Some? ==> forall j :: 0 <= j < r.value ==> records[j].videoId != id
    ensures r.None? ==> forall j :: 0 <= j < |records| ==> records[j].videoId != id
  {
    if records == [] then None
    else if records[0].videoId == id then Some(0)
    else
      match FirstIndex(records[1..], id)
      case Some(k) => Some(k + 1)
      case None => None
  }

  /** `next(v for v in videos if v.video_id == item["id"])` and `vid.title = ...`: only the first record with the id changes. */
  function PatchFirst(records: seq<Record>, item: Item): seq<Record>
  {
    match FirstIndex(records, item.videoId)
    case Some(k) => records[k := Record(records[k].videoId, item.title)]
    case None => records
  }

  /** The lookup items applied one after the other. */
  function PatchAll(records: seq<Record>, items: seq<Item>): (r: seq<Record>)
    ensures |r| == |records|
  {
    if items == [] then records
    else PatchFirst(PatchAll(records, items[..|items| - 1]), items[|items| - 1])
  }

  /** All items the lookups return, batch by batch. */
  function Replies(batches: seq<seq<string>>, lookup: seq<string> -> seq<Item>): seq<Item>
  {
    if batches == [] then [] else Replies(batches[..|batches| - 1], lookup) + lookup(batches[|batches| - 1])
  }

  /** The title of the last item with the given id, if any. */
  function LastTitle(items: seq<Item>, id: string): Option<string>
  {
    if items == [] then None
    else if items[|items| - 1].videoId == id then Some(items[|items| - 1].title)
    else LastTitle(items[..|items| - 1], id)
  }

  /** Records with the same ids have the same first index. */
  lemma {:induction false} FirstIndexSameIds(a: seq<Record>, b: seq<Record>, id: string)
    requires |a| == |b| && forall i :: 0 <= i < |a| ==> a[i].videoId == b[i].videoId
    ensures FirstIndex(a, id) == FirstIndex(b, id)
  {
    if a != [] && a[0].videoId != id {
      FirstIndexSameIds(a[1..], b[1..], id);
    }
  }

  /** Patching never changes the number, order or ids of the records. */
  lemma {:induction false} PatchAllKeepsIds(records: seq<Record>, items: seq<Item>)
    ensures |PatchAll(records, items)| == |records|
    ensures forall i :: 0 <= i < |records| ==> PatchAll(records, items)[i].videoId == records[i].videoId
  {
    if items != [] {
      PatchAllKeepsIds(records, items[..|items| - 1]);
    }
  }

  /**
   * After patching, the first record with an id carries the title of the last
   * lookup item with that id (if there is one); every other record keeps its title.
   */
  lemma {:induction false} PatchAllTitle(records: seq<Record>, items: seq<Item>, k: nat)
    requires k < |records|
    ensures |PatchAll(records, items)| == |records|
    ensures var id := records[k].videoId;
      PatchAll(records, items)[k].title ==
        if FirstIndex(records, id) == Some(k) && LastTitle(items, id).Some? then LastTitle(items, id).value
        else records[k].title
  {
    PatchAllKeepsIds(records, items);
    if items != [] {
      var init := items[..|items| - 1];
      var last := items[|items| - 1];
      var before := PatchAll(records, init);
      PatchAllTitle(records, init, k);
      PatchAllKeepsIds(records, init);
      FirstIndexSameIds(before, records, last.videoId);
    }
  }

  /** The ids of a concatenation are the ids of the two parts, in order. */
  lemma {:induction false} PrivateIdsAppend(a: seq<Item>, b: seq<Item>)
    ensures PrivateIds(a + b) == PrivateIds(a) + PrivateIds(b)
  {
    if b != [] {
      var init := b[..|b| - 1];
      assert (a + b)[..|a + b| - 1] == a + init;
      PrivateIdsAppend(a, init);
    } else {
      assert a + b == a;
    }
  }

  lemma PlaceholdersAppend(a: seq<Item>, b: seq<Item>)
    ensures Placeholders(a + b) == Placeholders(a) + Placeholders(b)
  {
  }

  lemma DistinctAppend(a: seq<VideoInfo>, b: seq<VideoInfo>)
    requires Distinct(a) && Distinct(b)
    requires forall i, j :: 0 <= i < |a| && 0 <= j < |b| ==> a[i] != b[j]
    ensures Distinct(a + b)
  {
  }

  /** The items of one more response follow the items read so far. */
  lemma ListedNext(pages: seq<Page>, k: nat)
    requires k < |pages|
    ensures Listed(pages[..k + 1]) == Listed(pages[..k]) + pages[k].items
  {
    assert pages[..k + 1][..k] == pages[..k];
  }

  /** The inner `for item in response["items"]` loop of one page: one new record per item. */
  method ReadPage(items: seq<Item>) returns (videos: seq<VideoInfo>, privateIds: seq<string>)
    ensures Snapshot(videos) == Placeholders(items) && privateIds == PrivateIds(items)
    ensures Distinct(videos) && fresh(videos)
  {
    videos, privateIds := [], [];
    for i := 0 to |items|
      invariant Snapshot(videos) == Placeholders(items[..i]) && privateIds == PrivateIds(items[..i])
      invariant Distinct(videos) && fresh(videos)
    {
      var item := items[i];
      var title := item.title;
      if title == PrivateTitle {
        privateIds := privateIds + [item.videoId];
        title := "";
      }
      ghost var prev := Snapshot(videos);
      var video := new VideoInfo(item.videoId, title);
      assert items[..i + 1][..i] == items[..i];
      assert Snapshot(videos) == prev;
      SnapshotAppend(videos, [video]);
      videos := videos + [video];
    }
    assert items[..|items|] == items;
  }

  /** The token sent with the k-th request: none for the first, then the previous response's. */
  function RequestToken(pages: seq<Page>, k: nat): Option<string>
    requires k <= |pages|
  {
    if k == 0 then None else pages[k - 1].nextPageToken
  }

  function RequestTokens(pages: seq<Page>, n: nat): seq<Option<string>>
    requires n <= |pages|
  {
    seq(n, k requires 0 <= k < n => RequestToken(pages, k))
  }

  lemma RequestTokensNext(pages: seq<Page>, n: nat)
    requires n < |pages|
    ensures RequestTokens(pages, n + 1) == RequestTokens(pages, n) + [RequestToken(pages, n)]
  {
  }

  /** The paging loop: one request per response, each passing the previous response's token. */
  method EnumeratePlaylist(pages: seq<Page>) returns (videos: seq<VideoInfo>, privateIds: seq<string>, tokens: seq<Option<string>>)
    requires ListingEnds(pages)
    ensures var items := Listed(pages[..LastPage(pages) + 1]);
      Snapshot(videos) == Placeholders(items) && privateIds == PrivateIds(items)
    ensures tokens == RequestTokens(pages, LastPage(pages) + 1)
    ensures |tokens| == LastPage(pages) + 1 && tokens[0] == None
    ensures forall k :: 0 < k < |tokens| ==> tokens[k] == pages[k - 1].nextPageToken
    ensures Distinct(videos) && fresh(videos)
  {
    ghost var last := LastPage(pages);
    videos, privateIds, tokens := [], [], [];
    var token: Option<string> := None;
    var k := 0;
    while true
      invariant k <= last
      invariant tokens == RequestTokens(pages, k) && token == RequestToken(pages, k)
      invariant Snapshot(videos) == Placeholders(Listed(pages[..k])) && privateIds == PrivateIds(Listed(pages[..k]))
      invariant Distinct(videos) && fresh(videos)
      decreases last - k
    {
      RequestTokensNext(pages, k);
      tokens := tokens + [token];
      var page := pages[k];
      ghost var done := Listed(pages[..k]);
      ghost var prev := Snapshot(videos);
      var pageVideos, pageIds := ReadPage(page.items);
      assert Snapshot(videos) == prev;
      SnapshotAppend(videos, pageVideos);
      ListedNext(pages, k);
      PrivateIdsAppend(done, page.items);
      PlaceholdersAppend(done, page.items);
      forall i, j | 0 <= i < |videos| && 0 <= j < |pageVideos|
        ensures videos[i] != pageVideos[j]
      {
      }
      DistinctAppend(videos, pageVideos);
      videos := videos + pageVideos;
      privateIds := privateIds + pageIds;
      token := page.nextPageToken;
      if !HasNextPage(page) {
        assert k == last;
        break;
      }
      k := k + 1;
    }
  }

  /** `next(...)`: the position of the first record whose id is `id`. */
  method FindFirst(videos: seq<VideoInfo>, id: string) returns (r: Option<nat>)
    ensures r == FirstIndex(Snapshot(videos), id)
  {
    var k := 0;
    while k < |videos|
      invariant 0 <= k <= |videos|
      invariant forall j :: 0 <= j < k ==> videos[j].videoId != id
    {
      if videos[k].videoId == id {
        FirstIndexExact(Snapshot(videos), id, k);
        return Some(k);
      }
      k := k + 1;
    }
    FirstIndexAbsent(Snapshot(videos), id);
    r := None;
  }

  lemma FirstIndexExact(records: seq<Record>, id: string, k: nat)
    requires k < |records| && records[k].videoId == id
    requires forall j :: 0 <= j < k ==> records[j].videoId != id
    ensures FirstIndex(records, id) == Some(k)
  {
  }

  lemma FirstIndexAbsent(records: seq<Record>, id: string)
    requires forall j :: 0 <= j < |records| ==> records[j].videoId != id
    ensures FirstIndex(records, id) == None
  {
  }

  /** `vid.title = item["snippet"]["title"]` on the first record with the item's id, if any. */
  method SetFirstTitle(videos: seq<VideoInfo>, item: Item)
    requires Distinct(videos)
    modifies videos
    ensures Snapshot(videos) == PatchFirst(old(Snapshot(videos)), item)
  {
    var found := FindFirst(videos, item.videoId);
    if found.Some? {
      ghost var before := Snapshot(videos);
      videos[found.value].title := item.title;
      assert Snapshot(videos) == before[found.value := Record(before[found.value].videoId, item.title)];
    }
  }

  /** Applying two runs of items is applying their concatenation. */
  lemma {:induction false} PatchAllAppend(records: seq<Record>, a: seq<Item>, b: seq<Item>)
    ensures PatchAll(records, a + b) == PatchAll(PatchAll(records, a), b)
  {
    if b != [] {
      var init := b[..|b| - 1];
      assert (a + b)[..|a + b| - 1] == a + init;
      assert (a + b)[|a + b| - 1] == b[|b| - 1];
      PatchAllAppend(records, a, init);
    } else {
      assert a + b == a;
    }
  }

  /** The `for item in response["items"]` loop of one lookup. */
  method ApplyReplies(videos: seq<VideoInfo>, response: seq<Item>)
    requires Distinct(videos)
    modifies videos
    ensures Snapshot(videos) == PatchAll(old(Snapshot(videos)), response)
  {
    for j := 0 to |response|
      invariant Snapshot(videos) == PatchAll(old(Snapshot(videos)), response[..j])
    {
      SetFirstTitle(videos, response[j]);
      assert response[..j + 1][..j] == response[..j];
    }
    assert response[..|response|] == response;
  }

  /** The batches from position `i` on: the batch at `i`, then those after it. */
  lemma ChunksStep(ids: seq<string>, done: seq<seq<string>>, i: nat)
    requires i < |ids| && done + Chunks(ids[i..]) == Chunks(ids)
    ensures (done + [ids[i..Min(i + BatchSize, |ids|)]]) + Chunks(ids[Min(i + BatchSize, |ids|)..]) == Chunks(ids)
  {
    ChunksAt(ids, i);
    var batch := ids[i..Min(i + BatchSize, |ids|)];
    assert done + Chunks(ids[i..]) == done + ([batch] + Chunks(ids[Min(i + BatchSize, |ids|)..]));
  }

  lemma ChunksAt(ids: seq<string>, i: nat)
    requires i < |ids|
    ensures Chunks(ids[i..]) == [ids[i..Min(i + BatchSize, |ids|)]] + Chunks(ids[Min(i + BatchSize, |ids|)..])
  {
    var rest := ids[i..];
    var n := Min(BatchSize, |rest|);
    assert Chunks(rest) == [rest[..n]] + Chunks(rest[n..]);
    assert rest[..n] == ids[i..Min(i + BatchSize, |ids|)];
    assert rest[n..] == ids[Min(i + BatchSize, |ids|)..];
  }

  lemma RepliesSnoc(batches: seq<seq<string>>, batch: seq<string>, lookup: seq<string> -> seq<Item>)
    ensures Replies(batches + [batch], lookup) == Replies(batches, lookup) + lookup(batch)
  {
    assert (batches + [batch])[..|batches|] == batches;
  }

  /** The lookup phase: batches of at most 50 private ids, each reply item patching the first record with its id. */
  method ResolvePrivateTitles(videos: seq<VideoInfo>, privateIds: seq<string>, lookup: seq<string> -> seq<Item>)
    returns (batches: seq<seq<string>>)
    requires Distinct(videos)
    modifies videos
    ensures batches == Chunks(privateIds)
    ensures Snapshot(videos) == PatchAll(old(Snapshot(videos)), Replies(batches, lookup))
  {
    ghost var start := Snapshot(videos);
    batches := [];
    var i := 0;
    while i < |privateIds|
      invariant 0 <= i
      invariant batches + Chunks(privateIds[Min(i, |privateIds|)..]) == Chunks(privateIds)
      invariant Snapshot(videos) == PatchAll(start, Replies(batches, lookup))
      decreases |privateIds| - i
    {
      var chunk := privateIds[i..Min(i + BatchSize, |privateIds|)];
      ChunksStep(privateIds, batches, i);
      var response := lookup(chunk);
      ApplyReplies(videos, response);
      PatchAllAppend(start, Replies(batches, lookup), response);
      RepliesSnoc(batches, chunk, lookup);
      batches := batches + [chunk];
      i := i + BatchSize;
    }
  }

  /** The records `get_video_ids_from_playlist` returns, as a function of the responses. */
  function Exported(pages: seq<Page>, lookup: seq<string> -> seq<Item>): (r: seq<Record>)
    requires ListingEnds(pages)
    ensures |r| == |Listed(pages[..LastPage(pages) + 1])|
  {
    var items := Listed(pages[..LastPage(pages) + 1]);
    PatchAll(Placeholders(items), Replies(Chunks(PrivateIds(items)), lookup))
  }

  /** `get_video_ids_from_playlist`: enumerate all pages, then resolve the private titles. */
  method GetVideoIdsFromPlaylist(pages: seq<Page>, lookup: seq<string> -> seq<Item>)
    returns (videos: seq<VideoInfo>, tokens: seq<Option<string>>, batches: seq<seq<string>>)
    requires ListingEnds(pages)
    ensures Snapshot(videos) == Exported(pages, lookup)
    ensures batches == Chunks(PrivateIds(Listed(pages[..LastPage(pages) + 1])))
    ensures |tokens| == LastPage(pages) + 1 && tokens[0] == None
    ensures forall k :: 0 < k < |tokens| ==> tokens[k] == pages[k - 1].nextPageToken
    ensures fresh(videos)
  {
    ghost var items := Listed(pages[..LastPage(pages) + 1]);
    var privateIds;
    videos, privateIds, tokens := EnumeratePlaylist(pages);
    ghost var listed := Snapshot(videos);
    assert listed == Placeholders(items);
    batches := ResolvePrivateTitles(videos, privateIds, lookup);
    assert Snapshot(videos) == PatchAll(listed, Replies(batches, lookup));
  }

  /**
   * One record per playlist item across the pages read, in page then item
   * order, with the item's id; a private item whose id no lookup returns keeps
   * the blank title, and any other item whose id no lookup returns keeps its title.
   */
  lemma ExportedSpec(pages: seq<Page>, lookup: seq<string> -> seq<Item>, i: nat)
    requires ListingEnds(pages)
    requires i < |Listed(pages[..LastPage(pages) + 1])|
    ensures var items := Listed(pages[..LastPage(pages) + 1]);
      && |Exported(pages, lookup)| == |items|
      && Exported(pages, lookup)[i].videoId == items[i].videoId
      && (LastTitle(Replies(Chunks(PrivateIds(items)), lookup), items[i].videoId).None? ==>
            Exported(pages, lookup)[i].title == if items[i].title == PrivateTitle then "" else items[i].title)
  {
    var items := Listed(pages[..LastPage(pages) + 1]);
    var replies := Replies(Chunks(PrivateIds(items)), lookup);
    PatchAllKeepsIds(Placeholders(items), replies);
    PatchAllTitle(Placeholders(items), replies, i);
  }
}
