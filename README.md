# YouTube upload script: a verified model

The script `src/upload_youtube.py` uploads a video to YouTube from a URL. It reads
OAuth credentials from the environment and parses the `--tags` option into a tag
list. It authenticates, streams the source video into `temp_video.mp4`, and uploads
that file with the YouTube Data API v3 through a resumable upload. Finally it prints
a JSON result record and exits: with 0 when the upload returned a non-empty video id, with 1
on every failure the model covers.

This project models the parts of that script that decide values and drive loops:

- `Text`: the Python string operations the script relies on. These are `str.strip()`
  (with Python's whitespace set), `str.split(',')` and `','.join`.
- `Json`: dicts whose keys keep insertion order, as the request body and the result
  record are built.
- `Tags`: parsing of `--tags`.
- `Metadata`: the `snippet`/`status` request body with `upload_video`'s defaults,
  and the `part` string derived from its keys.
- `Uploader`: the `YouTubeUploader` class. It holds the credential fields and the
  `youtube` service field, which `authenticate` sets. Its `download_video` chunk loop
  and its `upload_video` guard and `next_chunk()` loop are imperative methods.
- `Cli`: the watch URL, the result record and exit code, and one whole run of `main`.

The network enters only as data. `FetchResult` is what `requests.get` delivers: a
status code, a `content-length` header, the body chunks, and possibly an error that
breaks the stream. A sequence of `NextChunk` values is what successive
`next_chunk()` calls return. Each is a `(status, response)` pair, or an exception.

The script keeps no store of results and sends no notifications. The script itself
contains no retry or offset logic: a `next_chunk()` call that raises ends the
upload. What `next_chunk()` does inside one upload session is not modelled.

## Model

| member | source | states |
|---|---|---|
| `Text.Strip` | src/upload_youtube.py:238 | `tag.strip()` returns a string with no whitespace at either end, never longer than its input |
| `Text.StripOf` | src/upload_youtube.py:238 | stripping whitespace + core + whitespace, where the core has no whitespace at its ends, gives exactly the core |
| `Text.StripSplits` | src/upload_youtube.py:238 | every string is its stripped value with only whitespace before and after it |
| `Text.StripIdempotent` | src/upload_youtube.py:238 | stripping twice is stripping once |
| `Text.Split` | src/upload_youtube.py:238 | `split(',')` gives one more piece than there are commas (so `""` gives `[""]`), and no piece contains a comma |
| `Text.TrimStartDrops` | src/upload_youtube.py:238 | the leading part that `strip()` removes is all whitespace |
| `Text.TrimEndDrops` | src/upload_youtube.py:238 | the trailing part that `strip()` removes is all whitespace |
| `Text.JoinSplit` | src/upload_youtube.py:238 | joining the pieces with the separator gives back the original string |
| `Text.SplitConcat` | src/upload_youtube.py:238 | the pieces of `a + "," + b` are the pieces of `a` followed by the pieces of `b` |
| `Text.SplitJoin` | src/upload_youtube.py:158 | splitting `sep.join(parts)` at `sep` gives back `parts` when no part contains `sep` |
| `Tags.Tidy` | src/upload_youtube.py:238 | the comprehension keeps at most one tag per piece, and each kept tag is non-empty and stripped |
| `Tags.TidyCommaFree` | src/upload_youtube.py:238 | stripping adds no characters, so comma-free pieces give comma-free tags |
| `Tags.ParseTags` | src/upload_youtube.py:238 | every parsed tag is non-empty, has no leading or trailing whitespace and no comma; there are at most (number of commas + 1) tags |
| `Tags.ParseTagsDefault` | src/upload_youtube.py:207-208 | the default `--tags` value `''` parses to the empty list |
| `Tags.ParseTagsPiece` | src/upload_youtube.py:238 | a comma-free string gives its stripped text as the only tag, or no tag when it is blank |
| `Tags.ParseTagsConcat` | src/upload_youtube.py:238 | tags keep input order: the tags of `a + "," + b` are the tags of `a` followed by those of `b` |
| `Tags.ParseTagsJoin` | src/upload_youtube.py:238 | joining well-formed tags with commas and parsing the result gives back the same tags |
| `Tags.ParseTagsStable` | src/upload_youtube.py:238 | re-parsing the comma-joined output of a parse changes nothing |
| `Json.Keys` | src/upload_youtube.py:158 | `body.keys()` lists each field's key, in insertion order |
| `Metadata.TagsOrEmpty` | src/upload_youtube.py:138 | `tags or []`: an absent list becomes `[]`, a present list (empty or not) is kept |
| `Metadata.Body` | src/upload_youtube.py:134-145 | the body is a dict whose keys are exactly `snippet` then `status` |
| `Metadata.BodyFields` | src/upload_youtube.py:134-145 | title, description, tags (after `tags or []`), category and privacy each appear at their path in the body; `selfDeclaredMadeForKids` is always false; `snippet` holds exactly `title`, `description`, `tags`, `categoryId` and `status` exactly `privacyStatus`, `selfDeclaredMadeForKids` |
| `Metadata.BodyDefaults` | src/upload_youtube.py:110-113 | when only a title is given: empty description, empty tag list, category `"22"`, privacy `"private"` |
| `Metadata.Part` | src/upload_youtube.py:158 | for a dict body with at least one key and no key containing a comma, splitting `part` at the commas gives back the body's keys in order (an empty dict would give `''`, which splits to `['']`) |
| `Metadata.PartOfBody` | src/upload_youtube.py:158 | `','.join(body.keys())` is exactly `"snippet,status"`, and splitting it at commas gives back the body's keys |
| `Uploader.YouTubeUploader.constructor` | src/upload_youtube.py:28-40 | stores the three credentials; `youtube` starts unset |
| `Uploader.YouTubeUploader.Authenticate` | src/upload_youtube.py:42-63 | on success `youtube` becomes the `youtube`/`v3` service built from the stored credentials and the upload scope; otherwise the process exits and `youtube` is unchanged |
| `Uploader.RaisesForStatus` | src/upload_youtube.py:80 | `raise_for_status()` raises exactly for the 4xx and 5xx status classes |
| `Uploader.TotalSize` | src/upload_youtube.py:82 | a missing `content-length` counts as 0; an integer header gives its value |
| `Uploader.Progress` | src/upload_youtube.py:91-93 | progress is computed after every non-empty chunk when the total size is positive and never otherwise; the i-th value is the byte count after the first i+1 chunks |
| `Uploader.NonEmpty` | src/upload_youtube.py:87 | `if chunk:` passes on at most as many chunks as were received |
| `Uploader.NonEmptyKeepsNonEmpty` | src/upload_youtube.py:87 | every chunk that `if chunk:` passes on is non-empty |
| `Uploader.NonEmptyAppend` | src/upload_youtube.py:86-87 | the filter works chunk by chunk: filtering two runs of chunks in turn is filtering each run |
| `Uploader.NonEmptyOne` | src/upload_youtube.py:87 | a single chunk is passed on exactly when it is non-empty |
| `Uploader.YouTubeUploader.DownloadVideo` | src/upload_youtube.py:65-104 | failure when the request fails, the status is 4xx/5xx, the length header is not an integer, or the stream breaks; once the file is open, it is the file at `output_path` and holds the non-empty chunks concatenated in order, `downloaded` is the sum of their lengths, and progress is shown after each non-empty chunk only when the declared length is positive |
| `Uploader.YouTubeUploader.CopyBody` | src/upload_youtube.py:85-93 | the `with open` block: the file receives the non-empty chunks concatenated in order; `downloaded` is the sum of their lengths; the progress reports are those of `Progress` |
| `Uploader.ConcatNonEmpty` | src/upload_youtube.py:85-89 | skipping empty chunks loses no bytes: the file holds the whole body |
| `Uploader.ConcatLength` | src/upload_youtube.py:85-89 | the `downloaded` counter equals the size of what was written |
| `Uploader.ProgressShape` | src/upload_youtube.py:91-93 | no progress is shown (so nothing is divided) unless the total size is positive; otherwise one report per non-empty chunk, strictly rising, the last being the bytes copied |
| `Uploader.PercentMonotone` | src/upload_youtube.py:92 | the exact percentage rises strictly with the byte count and is 100 exactly at the declared size |
| `Uploader.FirstEnd` | src/upload_youtube.py:163-165 | the index of the first `next_chunk()` result that raises or carries a response; no earlier result does either |
| `Uploader.IdOf` | src/upload_youtube.py:170-184 | the id is `response['id']` when the ending call returned a response with an `id`; a call that raised, or a response without `id` (the `KeyError` the handler catches), gives None |
| `Uploader.FirstEndUnique` | src/upload_youtube.py:163-165 | a result that ends the loop after results that did not is exactly that first index |
| `Uploader.YouTubeUploader.UploadVideo` | src/upload_youtube.py:129-177 | without a service: returns None and issues no request; with one: issues one insert request with `part` from the body's keys, that body, and a 1 MiB resumable media upload; calls `next_chunk()` up to and including the first call that raises or returns a response; returns that response's `id`, or None when it raised or has no `id` |
| `Cli.WatchUrl` | src/upload_youtube.py:171 | the watch URL is the fixed prefix `https://www.youtube.com/watch?v=` followed by the id, and nothing else |
| `Cli.WatchUrlRoundTrip` | src/upload_youtube.py:265 | the id read back from the watch URL is the original id, and a URL names an id exactly when it is that id's watch URL |
| `Cli.Result` | src/upload_youtube.py:260-275 | the record is a dict and the exit code is 0 exactly for a present, non-empty id, 1 otherwise |
| `Cli.ResultRecord` | src/upload_youtube.py:260-275 | a present, non-empty id gives `{success: true, video_id, video_url}` with exit 0; an absent or empty id gives `{success: false, error: 'Upload failed'}` with exit 1; exit 0 exactly when `success` is true |
| `Cli.HasCredentials` | src/upload_youtube.py:230 | `all([...])` holds exactly when none of the three credentials is missing or empty |
| `Cli.Run` | src/upload_youtube.py:226-275 | exit 1 with no record when a credential is missing or empty, authentication fails or the download fails; otherwise the record and exit code are those of the uploaded id; exit 0 exactly when every step succeeds and the id is non-empty; the request body carries the parsed tags; whenever a request is issued, `video` is the downloaded `temp_video.mp4` with the body's non-empty chunks as content, and the request uploads that file's path |

## Left out

- Network I/O (`requests.get`, the Google API client, `MediaFileUpload` and the internals of `next_chunk`): these are parameters (`FetchResult`, `NextChunk`).
- OAuth: `Credentials.from_authorized_user_info` and `build` are reduced to one boolean, whether they succeeded. `get_refresh_token.py` is not part of this model. It is an interactive browser flow.
- Uploader.YouTubeUploader.UploadVideo: exceptions raised by `MediaFileUpload` or `videos().insert` before the loop are not modelled. Only exceptions from `next_chunk()` are. Both kinds end in the same None result.
- Uploader.YouTubeUploader.UploadVideo: the `next_chunk()` results are a finite trace, and the method requires that one of them ends the loop. A service that never answers makes the source loop forever, which the model does not represent.
- Uploader.YouTubeUploader.DownloadVideo: `progress` holds the byte counts at which a percentage is shown, not the floats. `Percent` gives the value as an exact real. Float rounding, the `:.1f` formatting, the MB size display and the upload's `int(status.progress() * 100)` display are not modelled.
- Uploader.YouTubeUploader.DownloadVideo: the 8192-byte `chunk_size` of `iter_content` is not modelled; the chunks are arbitrary. Errors from opening or writing the local file are not modelled.
- Printing, reading the environment (the three variables are parameters) and `sys.exit` (modelled as the returned exit code).
- `argparse`: the arguments arrive already parsed. A missing `--video-url` or `--title`, or a `--privacy` value outside `private`, `public` and `unlisted`, makes `parse_args()` exit with status 2 before anything else runs; the model does not cover that exit.
- Removal of the temporary file in `finally`. A failed download exits before the `try`, so in the script the partial `temp_video.mp4` is not removed on that path.
- A response `id` that is not a string: responses are modelled as string-to-string maps.

