# thumbnail_generator in Dafny

A Dafny model of the core of `thumbnail_generator`. The package is a set of
command-line tools for YouTube series. The model covers:

- **Compositor** (`thumbnail_gen.py`): parses `--part` / `--range`, picks
  the parts to render, and builds one ImageMagick command per part. It stops at
  the first command that fails.
- **Uploader** (`update_youtube_videos.py`):
  - finds the part number at the end of each video title;
  - scans the thumbnail folder for `thumbnail_part_<n>.<ext>` files;
  - filters the records by `--min-part` or `--part-range`, then matches each
    record to its thumbnail in place;
  - uploads the thumbnails with a three-attempt retry loop and logs one message
    per record.
- **Playlist exporter** (`get_youtube_video_ids.py`):
  - pages through a playlist;
  - blanks the titles of private videos and collects their ids;
  - looks those ids up again in batches of 50 and patches the real titles into
    the first record with each id.
- **Logger naming** (`get_logger` in `logging_config.py`).

Modules:

| module | models |
|---|---|
| `Wrappers` | `Option` and `Result` |
| `PyText` | the parts of Python's `str()`, `int()` and `str.split` the scripts use, with their round trips |
| `LoggingConfig` | `get_logger`'s choice of logger name |
| `ThumbnailGen` | the compositor |
| `UpdatePatterns` | the uploader's two regular expressions, `parse_part_range` and the filter choice |
| `UpdateVideos` | the uploader's `Video` objects, matching, filters, retries and upload log |
| `VideoIds` | the exporter's `VideoInfo` objects and `get_video_ids_from_playlist` |

The code mutates two kinds of objects in place:

- `Video` and `VideoInfo` are classes.
- Snapshot functions read their fields back as values, for the saved JSON.

Everything outside the process is a parameter of the method that uses it:

- **Directory listing**: a sequence of `Entry` values. Each holds a file name
  and the path the scan yields for it.
- **ImageMagick**: the oracle `runOk(k)`, which says whether invocation `k`
  exits with status 0.
- **Thumbnail upload API**: the oracle `reply(i)(a)`, which gives the outcome of
  attempt `a` for the `i`-th record.
- **Playlist API**: the sequence of responses, one per request.
- **Title lookup**: a function from a batch of ids to the items it returns.

Some behaviours of the code are easy to misread. The model follows the code:

- **Filters**: `--min-part` and `--part-range` are not mutually exclusive. A
  truthy `--min-part` wins, and `--part-range` is then ignored.
- **Output names**: `f"{part:01d}"` pads nothing, so part 7 is written as
  `thumbnail_part_7.png`.
- **Missing features**: there is no worker pool and no unlabeled mode. The
  compositor runs its commands one after another.
- **Case**: the thumbnail pattern ignores case for the whole name, including
  the extension.
- **Python truthiness**:
  - `--part 0` counts as no part;
  - a reversed `--range` such as `5-3` parses to an empty range, which counts
    as no range;
  - a `--min-part` of 0 selects no filter.

## Model

| member | source | states |
|---|---|---|
| `LoggingConfig.LoggerName` | thumbnail_generator/logging_config.py:85-106 | With no module name, the logger is the root `thumbnail_generator` logger, and only then. Otherwise the name is `thumbnail_generator.` followed by a dot-free suffix. |
| `LoggingConfig.SuffixIsLastSegment` | thumbnail_generator/logging_config.py:102-105 | A module name without a dot is kept whole. A dotted name contributes only what follows its last dot. |
| `LoggingConfig.TrailingDotGivesEmptySuffix` | thumbnail_generator/logging_config.py:102-103 | A module name ending in a dot yields the logger `thumbnail_generator.` with an empty last segment. |
| `LoggingConfig.MainModuleName` | thumbnail_generator/logging_config.py:104-105 | A script run as `__main__` gets the logger `thumbnail_generator.__main__`. |
| `PyText.IntToString` | thumbnail_generator/thumbnail_gen.py:21 | `str(n)` of an integer is non-empty and starts with `-` iff the integer is negative. |
| `PyText.ParseInt` | thumbnail_generator/thumbnail_gen.py:95 | `int(s)` fails on the empty text. Its round trip with `str` is `PyText.IntRoundTrip`. |
| `PyText.Split` | thumbnail_generator/thumbnail_gen.py:94 | `str.split(sep)` yields at least one field, and no field contains the separator. |
| `PyText.NatToStringValue` | thumbnail_generator/thumbnail_gen.py:21 | The decimal digits of a natural number read back as that number. |
| `PyText.IntRoundTrip` | thumbnail_generator/thumbnail_gen.py:95 | `int(str(n)) == n` for every integer, negatives included. |
| `PyText.IntToStringInjective` | thumbnail_generator/thumbnail_gen.py:21 | Different integers have different decimal forms. |
| `PyText.SplitJoin` | thumbnail_generator/thumbnail_gen.py:94 | Joining the fields of `str.split(sep)` with `sep` gives back the original string. |
| `PyText.SplitTwoFields` | thumbnail_generator/thumbnail_gen.py:94 | `s.split(sep)` is exactly `[x, y]` iff `s == x + sep + y` and neither `x` nor `y` contains `sep`. |
| `ThumbnailGen.ParseRange` | thumbnail_generator/thumbnail_gen.py:92-97 | Every failure is the `Range must be in form START-END` error, and an accepted text contains a dash. |
| `ThumbnailGen.ParseRangeAccepts` | thumbnail_generator/thumbnail_gen.py:92-97 | Two dash-free integer fields `START-END` parse to `range(START, END + 1)`. |
| `ThumbnailGen.ParseRangeShape` | thumbnail_generator/thumbnail_gen.py:92-97 | Every accepted text is one dash between two integer fields, and the result is built from those two integers. |
| `ThumbnailGen.ParseRangeRejectsDashCount` | thumbnail_generator/thumbnail_gen.py:92-97 | A text with no dash, or with two or more dashes (a negative START, say), is a usage error. |
| `ThumbnailGen.RangeElements` | thumbnail_generator/thumbnail_gen.py:95 | The parsed range counts up by one from START to END inclusive. It is empty, not an error, when START > END. |
| `ThumbnailGen.SelectParts` | thumbnail_generator/thumbnail_gen.py:115-127 | The selection is accepted iff exactly one of a truthy `--part` and a non-empty `--range` is given. The parts are then `[part]` or the range's elements, never empty. The two error cases carry the two `parser.error` messages. |
| `ThumbnailGen.ZeroPartIsAbsent` | thumbnail_generator/thumbnail_gen.py:115-119 | `--part 0` behaves exactly like no `--part`. With an empty range it is the "must specify" error. |
| `ThumbnailGen.OutputPathDigits` | thumbnail_generator/thumbnail_gen.py:21-22 | The output file is `outdir/thumbnail_part_<str(part)>.png`, with no zero padding. |
| `ThumbnailGen.OutputPathInjective` | thumbnail_generator/thumbnail_gen.py:21-22 | Different parts are written to different files. |
| `ThumbnailGen.Command` | thumbnail_generator/thumbnail_gen.py:24-86 | The command has 56 arguments, starts with `magick` and ends with the part's output path. |
| `ThumbnailGen.CommandFields` | thumbnail_generator/thumbnail_gen.py:24-86 | The command has 56 arguments. It starts with `magick <base>`. The caption is `caption:<title>`, the label is `PART ` plus the same digits as the file name, and the output path is last. |
| `ThumbnailGen.GeometryDecimals` | thumbnail_generator/thumbnail_gen.py:6-9 | The geometry constants render as `20`, `4`, `1280`, `720`, `1300` and `740`. |
| `ThumbnailGen.CanvasGeometry` | thumbnail_generator/thumbnail_gen.py:24-55 | The command fills a 1280x720 canvas (`-resize 1280x720^`, centre, `-extent 1280x720`). It then adds a 20-pixel border and draws the inner rectangle `20,20 1300,740`. |
| `ThumbnailGen.GenerateAll` | thumbnail_generator/thumbnail_gen.py:129-138 | Commands are issued for the parts in order, each being that part's command. The run completes iff every command succeeds. Otherwise it stops right after the first failing command and reports that part. |
| `ThumbnailGen.RunCompositor` | thumbnail_generator/thumbnail_gen.py:115-138 | A bad selection is a usage error and a missing base image a failure, both with no command issued. Otherwise at least one command is issued, the `i`-th being `generate_thumbnail`'s command for the `i`-th selected part. The run completes iff every part's command is issued and succeeds. A failed run reports the part of the last command issued: that command failed and every earlier one succeeded. |
| `UpdatePatterns.TrailingDigitCount` | thumbnail_generator/update_youtube_videos.py:52 | The `(\d+)$` run: the counted suffix is all digits and the character before it is not a digit. |
| `UpdatePatterns.LeadingDigitCount` | thumbnail_generator/update_youtube_videos.py:44 | The `(\d+)` run after the prefix: the counted prefix is all digits and the next character is not a digit. |
| `UpdatePatterns.PartNumber` | thumbnail_generator/update_youtube_videos.py:52-56 | A part number is found only when the title ends with `Part ` (any case) and a digit run. `UpdatePatterns.PartNumberSpec` gives the converse and the value. |
| `UpdatePatterns.PartNumberSpec` | thumbnail_generator/update_youtube_videos.py:52-56 | A title has a part number iff it ends with `Part ` (any case) followed by one or more digits. The number is the value of those digits. |
| `UpdatePatterns.PartNumberExample` | thumbnail_generator/update_youtube_videos.py:52-56 | `"ep part 07"` has part number 7. |
| `UpdatePatterns.ThumbPart` | thumbnail_generator/update_youtube_videos.py:44-49 | A part is found only when the whole name is the prefix, a digit run, a dot and an accepted extension. `UpdatePatterns.ThumbPartSpec` gives the converse and the value. |
| `UpdatePatterns.ThumbPartSpec` | thumbnail_generator/update_youtube_videos.py:44-49 | A file name gives a part iff the whole name is `thumbnail_part_<digits>.<jpg\|jpeg\|png>`, ignoring case. The part is the digits' value. |
| `UpdatePatterns.ThumbPartIgnoresCase` | thumbnail_generator/update_youtube_videos.py:44 | `THUMBNAIL_PART_12.JPEG` is part 12. |
| `UpdatePatterns.OutputNameRecognised` | thumbnail_generator/update_youtube_videos.py:44-49 | The uploader recognises a file the compositor writes for a part >= 0, with the same number. It skips one written for a negative part. |
| `UpdatePatterns.ParsePartRange` | thumbnail_generator/update_youtube_videos.py:103-110 | Every failure is the `Invalid part range: '<text>'. ...` error quoting the text. An accepted text contains a dash and gives START <= END. |
| `UpdatePatterns.ParsePartRangeAccepts` | thumbnail_generator/update_youtube_videos.py:103-110 | `START-END` with two dash-free integer fields is accepted iff START <= END. Otherwise it is the `Invalid part range` error quoting the text. |
| `UpdatePatterns.ParsePartRangeShape` | thumbnail_generator/update_youtube_videos.py:103-110 | Every accepted text is two integer fields around one dash, with START <= END. |
| `UpdatePatterns.ParsePartRangeRejectsNegativeStart` | thumbnail_generator/update_youtube_videos.py:105 | A negative START adds a dash, so the text is rejected. |
| `UpdatePatterns.ParsePartRangeRoundTrip` | thumbnail_generator/update_youtube_videos.py:103-108 | The decimal forms of 0 <= a <= b, joined by a dash, parse back to `(a, b)`. |
| `UpdatePatterns.ParsePartRangeVersusParseRange` | thumbnail_generator/update_youtube_videos.py:103-110 | The uploader's parser accepts exactly the texts the compositor's accepts with a non-empty range, and yields the same bounds. |
| `UpdatePatterns.ChooseFilter` | thumbnail_generator/update_youtube_videos.py:134-137 | A truthy `--min-part` wins. A given `--part-range` applies only without one. There is no filter iff neither is in effect. |
| `UpdateVideos.Video.constructor` | thumbnail_generator/update_youtube_videos.py:24-28 | A record holds its id, title and optional thumbnail path as given. |
| `UpdateVideos.ThumbnailMap` | thumbnail_generator/update_youtube_videos.py:44-50 | The map of parts to thumbnail paths. Its keys and values are given by `UpdateVideos.ThumbnailMapKeys` and `UpdateVideos.ThumbnailMapLastWins`. |
| `UpdateVideos.ThumbnailMapKeys` | thumbnail_generator/update_youtube_videos.py:44-50 | A part is in the thumbnail map iff some file name in the folder gives that part. |
| `UpdateVideos.ThumbnailMapLastWins` | thumbnail_generator/update_youtube_videos.py:46-50 | A part maps to the path of the last file, in listing order, whose name gives it. |
| `UpdateVideos.BuildThumbnailMap` | thumbnail_generator/update_youtube_videos.py:44-50 | The scan loop builds exactly the thumbnail map of the listing. |
| `UpdateVideos.MatchThumbnailsToVideos` | thumbnail_generator/update_youtube_videos.py:40-64 | Every record's path becomes the mapped file of its title's part number, or `None` when there is no part number or no file. Ids and titles are unchanged, and the same list is returned. |
| `UpdateVideos.Selected` | thumbnail_generator/update_youtube_videos.py:67-86 | Filtering never adds records. Which ones it keeps is `UpdateVideos.SelectedMembers`. |
| `UpdateVideos.SelectedMembers` | thumbnail_generator/update_youtube_videos.py:67-86 | A record is kept iff it is in the list and its title passes the filter. |
| `UpdateVideos.SelectedAppend` | thumbnail_generator/update_youtube_videos.py:67-86 | Filtering keeps list order: the filter of a concatenation is the concatenation of the filters. |
| `UpdateVideos.SelectedAll` | thumbnail_generator/update_youtube_videos.py:133-137 | With no filter every record is kept. |
| `UpdateVideos.FilterVideosByMinPart` | thumbnail_generator/update_youtube_videos.py:67-74 | Returns, in order, the records whose title has a part number >= the minimum. |
| `UpdateVideos.FilterVideosByPartRange` | thumbnail_generator/update_youtube_videos.py:77-86 | Returns, in order, the records whose title has a part number within the range, both ends included. |
| `UpdateVideos.ApplyFilters` | thumbnail_generator/update_youtube_videos.py:133-137 | `main`'s filter step selects the records of the filter `ChooseFilter` picks. |
| `UpdateVideos.FirstAccepted` | thumbnail_generator/update_youtube_videos.py:91-95 | The first accepted attempt in a span: every attempt before it was rejected. None means all were rejected. |
| `UpdateVideos.RetrySpec` | thumbnail_generator/update_youtube_videos.py:89-100 | There is no attempt iff `max_retries <= 0`. Otherwise 1 to `max_retries` attempts are made, with one sleep fewer than attempts. The update succeeds iff some attempt in `1..max_retries` is accepted. A raised error comes from attempt `max_retries` and carries its message. |
| `UpdateVideos.UpdateVideoThumbnail` | thumbnail_generator/update_youtube_videos.py:89-100 | Attempts run 1, 2, ... until one is accepted, with a sleep after each rejection but the last. It succeeds iff the last attempt made is accepted. When all are rejected it raises the last attempt's error after exactly `max_retries` attempts. With `max_retries <= 0` there is no attempt at all. |
| `UpdateVideos.RetryThirdTimeLucky` | thumbnail_generator/update_youtube_videos.py:89-100 | Two rejections and then an acceptance give success on attempt 3 after two sleeps. |
| `UpdateVideos.UploadLog` | thumbnail_generator/update_youtube_videos.py:154-163 | One message per record, the `i`-th naming the `i`-th record's title. |
| `UpdateVideos.UploadLogSpec` | thumbnail_generator/update_youtube_videos.py:154-163 | There is one message per record, in order, naming its title. A record without a (non-empty) thumbnail path is skipped. Otherwise it is updated iff one of its three attempts is accepted, and failed with the third attempt's error iff none is. |
| `UpdateVideos.UploadThumbnails` | thumbnail_generator/update_youtube_videos.py:154-163 | The upload loop produces exactly the upload log of the records' current values. A failure does not stop the loop. |
| `UpdateVideos.ProcessVideos` | thumbnail_generator/update_youtube_videos.py:133-165 | The saved records are the filtered records, in order, with ids and titles unchanged and paths set by matching. The upload log is produced only with `--update`. |
| `VideoIds.VideoInfo.constructor` | thumbnail_generator/get_youtube_video_ids.py:22-25 | A record holds the id and title given. |
| `VideoIds.LastPage` | thumbnail_generator/get_youtube_video_ids.py:63-65 | The paging stops at the first response whose next-page token is missing or empty. |
| `VideoIds.PrivateIdsMembers` | thumbnail_generator/get_youtube_video_ids.py:55-61 | An id is collected for the title lookup iff some item with that id is titled `Private Video`. |
| `VideoIds.ReadPage` | thumbnail_generator/get_youtube_video_ids.py:55-61 | Each item of a page becomes one new record, in order, and a private item's title becomes `""`. The private ids are collected in order, and the records are new and pairwise distinct objects. |
| `VideoIds.EnumeratePlaylist` | thumbnail_generator/get_youtube_video_ids.py:42-65 | The records are the placeholders of all items of the responses read, in page then item order, with the private ids in the same order. The first request carries no token and each later one carries the previous response's token. |
| `VideoIds.Chunks` | thumbnail_generator/get_youtube_video_ids.py:68-69 | Every lookup batch holds 1 to 50 ids. |
| `VideoIds.ChunksSpec` | thumbnail_generator/get_youtube_video_ids.py:68-69 | The lookup batches hold 1 to 50 ids each, there are ceil(n / 50) of them, and concatenated they give back the private ids exactly. |
| `VideoIds.FirstIndex` | thumbnail_generator/get_youtube_video_ids.py:77 | The position found holds the id and no earlier record does. None means no record holds it. |
| `VideoIds.FindFirst` | thumbnail_generator/get_youtube_video_ids.py:77 | The linear search returns the first record with the id, or none. |
| `VideoIds.SetFirstTitle` | thumbnail_generator/get_youtube_video_ids.py:77-79 | Only the first record with the item's id gets the item's title. All other records are unchanged. |
| `VideoIds.ApplyReplies` | thumbnail_generator/get_youtube_video_ids.py:75-79 | The items of one lookup response are applied in order. |
| `VideoIds.ResolvePrivateTitles` | thumbnail_generator/get_youtube_video_ids.py:67-79 | The lookups are made with exactly the 50-id batches, in order. The records end up patched by all their replies in order. |
| `VideoIds.PatchAll` | thumbnail_generator/get_youtube_video_ids.py:75-79 | Patching keeps the number of records. |
| `VideoIds.PatchAllKeepsIds` | thumbnail_generator/get_youtube_video_ids.py:75-79 | Patching never changes the number, order or ids of the records. |
| `VideoIds.PatchAllTitle` | thumbnail_generator/get_youtube_video_ids.py:75-79 | After patching, the first record with an id has the title of the last reply for that id, if any. Every other record, duplicates of an id included, keeps its title. |
| `VideoIds.GetVideoIdsFromPlaylist` | thumbnail_generator/get_youtube_video_ids.py:37-81 | The returned records are `Exported`: the placeholders patched by the lookups of the private ids' batches. The tokens and batches are as above. |
| `VideoIds.Exported` | thumbnail_generator/get_youtube_video_ids.py:37-81 | There is one exported record per playlist item read. |
| `VideoIds.ExportedSpec` | thumbnail_generator/get_youtube_video_ids.py:37-81 | There is one record per playlist item, in order, with the item's id. A record whose id no lookup returns keeps `""` if it was private and its own title otherwise. |

## Left out

- **I/O**: OAuth and the Google API client, the HTTP cache, reading and writing
  JSON files, the path checks of `main`, `mkdir`, `print`, `tqdm` and process
  exit codes are not modelled. The calls that matter are replaced by the oracles
  and sequences described above. `sys.exit(1)` becomes a `Status` value.
- **Logging set-up**: `setup_logging` and the handler/formatter set-up of
  `logging_config.py` are not modelled, nor are the `logger.info` /
  `logger.warning` calls of matching and filtering. Only the logger name of
  `get_logger` is modelled.
- **Argument parsing**: `argparse` itself is not modelled. Flags arrive as
  `Option` values, and the flag parsers (`parse_range`, `parse_part_range`)
  are modelled.
- `PyText.ParseInt`: Python's `int()` also accepts surrounding whitespace,
  underscores between digits and non-ASCII digits. The model accepts only an
  optional sign followed by ASCII digits.
- `UpdatePatterns.PartNumber`: `\d` and `re.IGNORECASE` are ASCII here. The
  model does not capture Unicode digits, Unicode case folding, or `$` matching
  before a trailing newline.
- `UpdatePatterns.ThumbPart`: the same ASCII restriction applies to the
  thumbnail pattern.
- `ThumbnailGen.JoinPath`: `outdir / name` is plain concatenation with `/`.
  Path normalisation is not modelled.
- `UpdateVideos.UploadMsg`: the log lines are kept as a `LogMsg` value (kind,
  title, error). Their rendered text and emoji are not modelled.
- `UpdateVideos.UpdateVideoThumbnail`: the sleeps are counted, not timed. The
  exception is reduced to its message, and the media upload object is not
  modelled.
- `VideoIds.GetVideoIdsFromPlaylist`: API errors are not modelled. In the
  source a failing `execute()` or a missing key in a response raises, and
  `main` then logs the error and saves nothing. In the model every response and
  every lookup succeeds.
- `VideoIds.EnumeratePlaylist`: it requires that some response ends the
  listing. The source would loop forever against a server that never did.
- **Request parameters**: the exporter's `part`, `playlistId` and
  `maxResults=50` parameters are not modelled. A response is whatever the server
  sends for the request.
- **`save_video_ids`, `get_authenticated_service` and the `main` functions'
  argument set-up**: these are I/O and are not modelled.
