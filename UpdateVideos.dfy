/**
 * The stateful part of thumbnail_generator/update_youtube_videos.py: the
 * `Video` records, the thumbnail directory scan, matching records to
 * thumbnails in place, the two filters, the upload retry loop and the
 * per-record upload log of `main`.
 *
 * The directory listing is a sequence of entries; the upload call is an
 * oracle `reply(position)(attempt)` giving the outcome of each attempt for
 * the record at that position of the upload loop; `time.sleep` is counted.
 */
module UpdateVideos {
  import opened Wrappers
  import opened UpdatePatterns

  /** A video record; `thumbnailPath` is set by matching. */
  class Video {
    var videoId: string
    var title: string
    var thumbnailPath: Option<string>

    constructor (videoId: string, title: string, thumbnailPath: Option<string>)
      ensures this.videoId == videoId && this.title == title && this.thumbnailPath == thumbnailPath
    {
      this.videoId := videoId;
      this.title := title;
      this.thumbnailPath := thumbnailPath;
    }
  }

  /** What `asdict(video)` writes to the JSON file. */
  datatype Record = Record(videoId: string, title: string, thumbnailPath: Option<string>)

  /** The records' current field values, in list order. */
  function Snapshot(videos: seq<Video>): seq<Record>
    reads videos
  {
    seq(|videos|, i reads videos requires 0 <= i < |videos| =>
      Record(videos[i].videoId, videos[i].title, videos[i].thumbnailPath))
  }

  /** One entry of the thumbnail folder: its file name and the path the scan yields for it. */
  datatype Entry = Entry(name: string, path: string)

  /** The part -> path map the scan builds; a later entry for the same part replaces an earlier one. */
  function ThumbnailMap(listing: seq<Entry>): map<nat, string>
  {
    if listing == [] then map[]
    else
      var m := ThumbnailMap(listing[..|listing| - 1]);
      var e := listing[|listing| - 1];
      match ThumbPart(e.name)
      case Some(n) => m[n := e.path]
      case None => m
  }

  /** Entry j is the last entry of the listing whose name gives part n. */
  predicate LastEntryFor(listing: seq<Entry>, n: nat, j: int)
  {
    && 0 <= j < |listing|
    && ThumbPart(listing[j].name) == Some(n)
    && forall k :: j < k < |listing| ==> ThumbPart(listing[k].name) != Some(n)
  }

  /** A part is in the map iff some file name in the listing gives it. */
  lemma {:induction false} ThumbnailMapKeys(listing: seq<Entry>, n: nat)
    ensures n in ThumbnailMap(listing) <==> exists j :: 0 <= j < |listing| && ThumbPart(listing[j].name) == Some(n)
  {
    if listing != [] {
      var init := listing[..|listing| - 1];
      ThumbnailMapKeys(init, n);
      if n in ThumbnailMap(init) {
        var j :| 0 <= j < |init| && ThumbPart(init[j].name) == Some(n);
        assert listing[j] == init[j];
      }
      if exists j :: 0 <= j < |listing| && ThumbPart(listing[j].name) == Some(n) {
        var j :| 0 <= j < |listing| && ThumbPart(listing[j].name) == Some(n);
        if j < |init| {
          assert init[j] == listing[j];
        }
      }
    }
  }

  /** A part maps to the path of the last entry, in listing order, whose name gives it. */
  lemma {:induction false} ThumbnailMapLastWins(listing: seq<Entry>, n: nat, j: nat)
    requires LastEntryFor(listing, n, j)
    ensures n in ThumbnailMap(listing) && ThumbnailMap(listing)[n] == listing[j].path
  {
    var init := listing[..|listing| - 1];
    if j < |init| {
      assert LastEntryFor(init, n, j);
      ThumbnailMapLastWins(init, n, j);
    }
  }

  /** `thumbnail_map` built by the loop over `thumbnails_folder.iterdir()`. */
  method BuildThumbnailMap(listing: seq<Entry>) returns (m: map<nat, string>)
    ensures m == ThumbnailMap(listing)
  {
    m := map[];
    for i := 0 to |listing|
      invariant m == ThumbnailMap(listing[..i])
    {
      assert listing[..i + 1][..i] == listing[..i];
      var match_ := ThumbPart(listing[i].name);
      if match_.Some? {
        m := m[match_.value := listing[i].path];
      }
    }
    assert listing[..|listing|] == listing;
  }

  /** The thumbnail path matching gives a title: the mapped file of its part number, else `None`. */
  function ExpectedPath(m: map<nat, string>, title: string): Option<string>
  {
    match PartNumber(title)
    case Some(n) => if n in m then Some(m[n]) else None
    case None => None
  }

  /**
   * `match_thumbnails_to_videos`: every record gets the path of the thumbnail
   * for its part number, or `None` (overwriting any earlier value); ids,
   * titles and the list itself are unchanged.
   */
  method MatchThumbnailsToVideos(videos: seq<Video>, listing: seq<Entry>) returns (matched: seq<Video>)
    modifies videos
    ensures matched == videos
    ensures forall i :: 0 <= i < |videos| ==>
      videos[i].thumbnailPath == ExpectedPath(ThumbnailMap(listing), videos[i].title)
    ensures forall i :: 0 <= i < |videos| ==>
      videos[i].videoId == old(videos[i].videoId) && videos[i].title == old(videos[i].title)
  {
    var thumbnailMap := BuildThumbnailMap(listing);
    for i := 0 to |videos|
      invariant forall j :: 0 <= j < |videos| ==>
        videos[j].videoId == old(videos[j].videoId) && videos[j].title == old(videos[j].title)
      invariant forall j :: 0 <= j < i ==> videos[j].thumbnailPath == ExpectedPath(thumbnailMap, videos[j].title)
    {
      var part := PartNumber(videos[i].title);
      if part.Some? {
        videos[i].thumbnailPath := if part.value in thumbnailMap then Some(thumbnailMap[part.value]) else None;
      } else {
        videos[i].thumbnailPath := None;
      }
    }
    matched := videos;
  }

  /** The records that pass a filter, in list order. */
  function Selected(videos: seq<Video>, f: PartFilter): (r: seq<Video>)
    reads videos
    ensures |r| <= |videos|
  {
    if videos == [] then []
    else
      var last := videos[|videos| - 1];
      Selected(videos[..|videos| - 1], f) + if Wanted(f, last.title) then [last] else []
  }

  /** A record is selected iff it is in the list and passes the filter. */
  lemma {:induction false} SelectedMembers(videos: seq<Video>, f: PartFilter, v: Video)
    ensures v in Selected(videos, f) <==> v in videos && Wanted(f, v.title)
  {
    if videos != [] {
      var init := videos[..|videos| - 1];
      SelectedMembers(init, f, v);
      assert videos == init + [videos[|videos| - 1]];
    }
  }

  /** Filtering keeps list order: the filter of a concatenation is the concatenation of the filters. */
  lemma {:induction false} SelectedAppend(a: seq<Video>, b: seq<Video>, f: PartFilter)
    ensures Selected(a + b, f) == Selected(a, f) + Selected(b, f)
  {
    if b != [] {
      var initB := b[..|b| - 1];
      assert (a + b)[..|a + b| - 1] == a + initB;
      SelectedAppend(a, initB, f);
    } else {
      assert a + b == a;
    }
  }

  /** No filter keeps every record. */
  lemma {:induction false} SelectedAll(videos: seq<Video>)
    ensures Selected(videos, NoFilter) == videos
  {
    if videos != [] {
      SelectedAll(videos[..|videos| - 1]);
      assert videos[..|videos| - 1] + [videos[|videos| - 1]] == videos;
    }
  }

  /** `filter_videos_by_min_part`. */
  method FilterVideosByMinPart(videos: seq<Video>, minPart: int) returns (filtered: seq<Video>)
    ensures filtered == Selected(videos, MinPart(minPart))
  {
    filtered := [];
    for i := 0 to |videos|
      invariant filtered == Selected(videos[..i], MinPart(minPart))
    {
      assert videos[..i + 1][..i] == videos[..i];
      var part := PartNumber(videos[i].title);
      if part.Some? && part.value >= minPart {
        filtered := filtered + [videos[i]];
      }
    }
    assert videos[..|videos|] == videos;
  }

  /** `filter_videos_by_part_range`, both ends inclusive. */
  method FilterVideosByPartRange(videos: seq<Video>, partRange: (int, int)) returns (filtered: seq<Video>)
    ensures filtered == Selected(videos, PartRange(partRange.0, partRange.1))
  {
    filtered := [];
    for i := 0 to |videos|
      invariant filtered == Selected(videos[..i], PartRange(partRange.0, partRange.1))
    {
      assert videos[..i + 1][..i] == videos[..i];
      var part := PartNumber(videos[i].title);
      if part.Some? {
        if partRange.0 <= part.value <= partRange.1 {
          filtered := filtered + [videos[i]];
        }
      }
    }
    assert videos[..|videos|] == videos;
  }

  /** The filter step of `main`: `--min-part` if truthy, else `--part-range` if given, else every record. */
  method ApplyFilters(videos: seq<Video>, minPart: Option<int>, partRange: Option<(int, int)>) returns (selected: seq<Video>)
    ensures selected == Selected(videos, ChooseFilter(minPart, partRange))
  {
    if minPart.Some? && minPart.value != 0 {
      selected := FilterVideosByMinPart(videos, minPart.value);
    } else if partRange.Some? {
      selected := FilterVideosByPartRange(videos, partRange.value);
    } else {
      SelectedAll(videos);
      selected := videos;
    }
  }

  /** The outcome of one upload attempt. */
  datatype Reply = Accepted | Rejected(reason: string)

  /** What `update_video_thumbnail` does: return True, raise the last error, or return None. */
  datatype RetryOutcome = Updated | Raised(reason: string) | NoAttempt

  /** The default number of attempts. */
  const MaxRetries: int := 3

  /** The first attempt in from..last whose reply is `Accepted`. */
  function FirstAccepted(reply: nat -> Reply, from: nat, last: int): (r: Option<nat>)
    decreases last - from
    ensures r.Some? ==> from <= r.value <= last && reply(r.value).Accepted?
    ensures r.Some? ==> forall a: nat :: from <= a < r.value ==> reply(a).Rejected?
    ensures r.None? ==> forall a: nat :: from <= a <= last ==> reply(a).Rejected?
  {
    if from > last then None
    else if reply(from).Accepted? then Some(from)
    else FirstAccepted(reply, from + 1, last)
  }

  /** The result, attempt count and sleep count of one retry loop. */
  datatype RetryRun = RetryRun(outcome: RetryOutcome, attempts: nat, sleeps: nat)

  function RetrySpec(reply: nat -> Reply, maxRetries: int): (run: RetryRun)
    ensures maxRetries <= 0 <==> run.outcome == NoAttempt
    ensures maxRetries > 0 ==> 1 <= run.attempts <= maxRetries && run.sleeps == run.attempts - 1
    ensures run.outcome == Updated <==> maxRetries > 0 && exists a: nat :: 1 <= a <= maxRetries && reply(a).Accepted?
    ensures run.outcome.Raised? ==> run.attempts == maxRetries && run.outcome.reason == reply(maxRetries).reason
  {
    if maxRetries <= 0 then RetryRun(NoAttempt, 0, 0)
    else
      match FirstAccepted(reply, 1, maxRetries)
      case Some(a) => RetryRun(Updated, a, a - 1)
      case None => RetryRun(Raised(reply(maxRetries).reason), maxRetries, maxRetries - 1)
  }

  /**
   * `update_video_thumbnail`: attempts 1..maxRetries until one is accepted,
   * sleeping after every rejected attempt but the last, and re-raising the
   * last error when all are rejected.
   */
  method UpdateVideoThumbnail(reply: nat -> Reply, maxRetries: int) returns (outcome: RetryOutcome, attempts: nat, sleeps: nat)
    ensures RetryRun(outcome, attempts, sleeps) == RetrySpec(reply, maxRetries)
    ensures maxRetries <= 0 ==> outcome == NoAttempt && attempts == 0 && sleeps == 0
    ensures maxRetries > 0 ==> 1 <= attempts <= maxRetries && sleeps == attempts - 1
    ensures forall a: nat :: 1 <= a < attempts ==> reply(a).Rejected?
    ensures outcome == Updated <==> maxRetries > 0 && reply(attempts).Accepted?
    ensures outcome.Raised? ==> attempts == maxRetries && outcome == Raised(reply(attempts).reason)
  {
    attempts, sleeps := 0, 0;
    var attempt := 1;
    while attempt <= maxRetries
      invariant 1 <= attempt <= if maxRetries >= 1 then maxRetries else 1
      invariant attempts == attempt - 1 && sleeps == attempts
      invariant forall a: nat :: 1 <= a < attempt ==> reply(a).Rejected?
      invariant FirstAccepted(reply, 1, maxRetries) == FirstAccepted(reply, attempt, maxRetries)
      decreases maxRetries - attempt
    {
      attempts := attempt;
      match reply(attempt)
      case Accepted =>
        assert FirstAccepted(reply, attempt, maxRetries) == Some(attempt);
        return Updated, attempts, sleeps;
      case Rejected(reason) =>
        assert FirstAccepted(reply, attempt, maxRetries) == FirstAccepted(reply, attempt + 1, maxRetries);
        if attempt < maxRetries {
          sleeps := sleeps + 1;
        } else {
          assert FirstAccepted(reply, attempt + 1, maxRetries) == None;
          return Raised(reason), attempts, sleeps;
        }
      attempt := attempt + 1;
    }
    outcome := NoAttempt;
  }

  /** One line of the upload log, kept as the kind of message and what it names. */
  datatype LogMsg = UpdatedMsg(title: string) | FailedMsg(title: string, reason: string) | SkippedMsg(title: string)

  /** `if video.thumbnail_path:` (a path that is missing or empty is falsy). */
  predicate HasThumbnail(path: Option<string>) { path.Some? && path.value != "" }

  /** The message the upload loop appends for one record. */
  function UploadMsg(r: Record, reply: nat -> Reply): (msg: LogMsg)
    ensures msg.title == r.title
  {
    if !HasThumbnail(r.thumbnailPath) then SkippedMsg(r.title)
    else
      match RetrySpec(reply, MaxRetries).outcome
      case Raised(reason) => FailedMsg(r.title, reason)
      case _ => UpdatedMsg(r.title)
  }

  /** The whole upload log: one message per record, in list order. */
  function UploadLog(records: seq<Record>, reply: nat -> nat -> Reply): (log: seq<LogMsg>)
    ensures |log| == |records|
    ensures forall i :: 0 <= i < |log| ==> log[i].title == records[i].title
  {
    var log := seq(|records|, i requires 0 <= i < |records| => UploadMsg(records[i], reply(i)));
    assert forall i :: 0 <= i < |log| ==> log[i] == UploadMsg(records[i], reply(i));
    log
  }

  /**
   * Exactly one message per record, in order: skipped without a thumbnail,
   * otherwise updated iff one of the three attempts is accepted, and failed
   * with the third attempt's error when none is.
   */
  lemma UploadLogSpec(records: seq<Record>, reply: nat -> nat -> Reply, i: nat)
    requires i < |records|
    ensures |UploadLog(records, reply)| == |records|
    ensures var msg := UploadLog(records, reply)[i];
      && msg.title == records[i].title
      && (msg.SkippedMsg? <==> !HasThumbnail(records[i].thumbnailPath))
      && (msg.UpdatedMsg? <==> HasThumbnail(records[i].thumbnailPath) && exists a: nat :: 1 <= a <= 3 && reply(i)(a).Accepted?)
      && (msg.FailedMsg? <==> HasThumbnail(records[i].thumbnailPath) && forall a: nat :: 1 <= a <= 3 ==> reply(i)(a).Rejected?)
      && (msg.FailedMsg? ==> msg.reason == reply(i)(3).reason)
  {
    var first := FirstAccepted(reply(i), 1, 3);
    if first.Some? {
      assert reply(i)(first.value).Accepted?;
    }
  }

  /** Two rejections then an acceptance: updated on the third attempt after two sleeps. */
  lemma RetryThirdTimeLucky(reply: nat -> Reply)
    requires reply(1).Rejected? && reply(2).Rejected? && reply(3).Accepted?
    ensures RetrySpec(reply, MaxRetries) == RetryRun(Updated, 3, 2)
  {
    assert FirstAccepted(reply, 3, 3) == Some(3);
    assert FirstAccepted(reply, 2, 3) == Some(3);
  }

  /**
   * The upload loop of `main`: for every record in order, retry the upload if
   * it has a thumbnail, and log the outcome; a failure does not stop the loop.
   */
  method UploadThumbnails(videos: seq<Video>, reply: nat -> nat -> Reply) returns (log: seq<LogMsg>)
    ensures log == UploadLog(Snapshot(videos), reply)
  {
    log := [];
    for i := 0 to |videos|
      invariant |log| == i
      invariant forall j :: 0 <= j < i ==> log[j] == UploadMsg(Snapshot(videos)[j], reply(j))
    {
      var video := videos[i];
      if HasThumbnail(video.thumbnailPath) {
        var outcome, attempts, sleeps := UpdateVideoThumbnail(reply(i), MaxRetries);
        if outcome.Raised? {
          log := log + [FailedMsg(video.title, outcome.reason)];
        } else {
          log := log + [UpdatedMsg(video.title)];
        }
      } else {
        log := log + [SkippedMsg(video.title)];
      }
    }
  }

  /**
   * The body of `main` once the JSON records are loaded: filter, match,
   * save the matched records, and upload when `--update` is set.
   */
  method ProcessVideos(videos: seq<Video>, listing: seq<Entry>, minPart: Option<int>, partRange: Option<(int, int)>,
                       update: bool, reply: nat -> nat -> Reply)
    returns (saved: seq<Record>, log: seq<LogMsg>)
    modifies videos
    ensures var before := old(Snapshot(Selected(videos, ChooseFilter(minPart, partRange))));
      && |saved| == |before|
      && forall i :: 0 <= i < |saved| ==>
        saved[i] == Record(before[i].videoId, before[i].title, ExpectedPath(ThumbnailMap(listing), before[i].title))
    ensures log == if update then UploadLog(saved, reply) else []
  {
    var selected := ApplyFilters(videos, minPart, partRange);
    ghost var before := Snapshot(selected);
    forall i | 0 <= i < |selected| ensures selected[i] in videos {
      SelectedMembers(videos, ChooseFilter(minPart, partRange), selected[i]);
    }
    selected := MatchThumbnailsToVideos(selected, listing);
    saved := Snapshot(selected);
    if update {
      log := UploadThumbnails(selected, reply);
    } else {
      log := [];
    }
  }
}
