/** The command-line entry point: it checks the credentials, parses the tags,
    authenticates, downloads the source video, uploads it and turns the video id
    into the JSON result record and the process exit code. */
module Cli {
  import opened Json
  import Tags
  import Metadata
  import opened Uploader

  const WATCH_URL_PREFIX: string := "https://www.youtube.com/watch?v="
  /** The local file the source video is downloaded to. */
  const TEMP_VIDEO_FILE: string := "temp_video.mp4"

  /** The watch URL of a video: the fixed prefix, then the id. */
  function WatchUrl(videoId: string): (url: string)
    ensures |url| == |WATCH_URL_PREFIX| + |videoId|
    ensures url[..|WATCH_URL_PREFIX|] == WATCH_URL_PREFIX && url[|WATCH_URL_PREFIX|..] == videoId
  {
    WATCH_URL_PREFIX + videoId
  }

  /** The video id a watch URL names, if it is one. */
  function VideoIdOf(url: string): Option<string> {
    if |WATCH_URL_PREFIX| <= |url| && url[..|WATCH_URL_PREFIX|] == WATCH_URL_PREFIX
    then Some(url[|WATCH_URL_PREFIX|..]) else None
  }

  /** The watch URL gives back the id it was made from, and only watch URLs name an
      id: the two functions are inverse. */
  lemma WatchUrlRoundTrip(videoId: string, url: string)
    ensures VideoIdOf(WatchUrl(videoId)) == Some(videoId)
    ensures VideoIdOf(url) == Some(videoId) <==> url == WatchUrl(videoId)
  {
    var w := WatchUrl(videoId);
    assert w[..|WATCH_URL_PREFIX|] == WATCH_URL_PREFIX;
    assert w[|WATCH_URL_PREFIX|..] == videoId;
    if VideoIdOf(url) == Some(videoId) {
      assert url == url[..|WATCH_URL_PREFIX|] + url[|WATCH_URL_PREFIX|..];
    }
  }

  /** Python truthiness of an optional string: present and non-empty. */
  predicate Truthy(s: Option<string>) {
    s.Some? && s.value != ""
  }

  datatype Outcome = Outcome(record: Value, exitCode: int)

  /** The result record and exit code for the id `upload_video` returned: exit 0,
      with a dict record, exactly for a present, non-empty id, exit 1 otherwise. */
  function Result(videoId: Option<string>): (o: Outcome)
    ensures o.record.Object?
    ensures o.exitCode == 0 <==> Truthy(videoId)
    ensures o.exitCode == 0 || o.exitCode == 1
  {
    if Truthy(videoId) then
      Outcome(Object([Field("success", Bool(true)),
                      Field("video_id", Str(videoId.value)),
                      Field("video_url", Str(WatchUrl(videoId.value)))]), 0)
    else
      Outcome(Object([Field("success", Bool(false)),
                      Field("error", Str("Upload failed"))]), 1)
  }

  /** The exit code is 0 exactly when the record says success; a present, non-empty
      id yields its id and watch URL, anything else the fixed error message. */
  lemma ResultRecord(videoId: Option<string>)
    ensures var o := Result(videoId);
      (o.exitCode == 0 <==> Lookup(o.record.fields, "success") == Some(Bool(true))) &&
      (o.exitCode == 0 || o.exitCode == 1) &&
      (Truthy(videoId) ==>
        o.exitCode == 0 &&
        Lookup(o.record.fields, "success") == Some(Bool(true)) &&
        Keys(o.record.fields) == ["success", "video_id", "video_url"] &&
        Lookup(o.record.fields, "video_id") == Some(Str(videoId.value)) &&
        Lookup(o.record.fields, "video_url") == Some(Str(WatchUrl(videoId.value)))) &&
      (!Truthy(videoId) ==>
        o.exitCode == 1 &&
        Lookup(o.record.fields, "success") == Some(Bool(false)) &&
        Keys(o.record.fields) == ["success", "error"] &&
        Lookup(o.record.fields, "error") == Some(Str("Upload failed")))
  {
    var o := Result(videoId);
    var f := o.record.fields;
    LookupFirst(f, 0);
    LookupFirst(f, 1);
    if Truthy(videoId) {
      assert "success" != "video_id" && "success" != "video_url" && "video_id" != "video_url";
      LookupFirst(f, 2);
    } else {
      assert "success" != "error";
    }
  }

  /** The command-line arguments after `argparse`. */
  datatype Args = Args(videoUrl: string, title: string, description: string, tags: string,
                       categoryId: string, privacy: string)

  /** `all([client_id, client_secret, refresh_token])`: none of the three is
      missing or empty, the two falsy values an environment lookup can give. */
  function HasCredentials(clientId: Option<string>, clientSecret: Option<string>,
                          refreshToken: Option<string>): (all: bool)
    ensures all <==> None !in [clientId, clientSecret, refreshToken] &&
                     Some("") !in [clientId, clientSecret, refreshToken]
  {
    var creds := [clientId, clientSecret, refreshToken];
    assert forall c :: c in creds <==> c == clientId || c == clientSecret || c == refreshToken;
    Truthy(clientId) && Truthy(clientSecret) && Truthy(refreshToken)
  }

  /** One run of the program. `built` is whether the client library accepted the
      credentials, `fetch` what the video URL delivers and `replies` what the
      upload's `next_chunk()` calls return. The run ends with `exitCode`; `result`
      is the JSON record printed when the upload was attempted, `request` the
      insert request it issued and `video` the downloaded file it uploaded. */
  method Run(args: Args, clientId: Option<string>, clientSecret: Option<string>,
             refreshToken: Option<string>, built: bool, fetch: FetchResult,
             replies: seq<NextChunk>)
    returns (exitCode: int, result: Option<Value>, request: Option<InsertRequest>,
             video: Option<LocalFile>)
    requires HasCredentials(clientId, clientSecret, refreshToken) && built && Downloads(fetch) ==>
      Answered(replies)
    ensures var reached := HasCredentials(clientId, clientSecret, refreshToken) && built &&
                           Downloads(fetch);
      (result.Some? <==> reached) && (request.Some? <==> reached) &&
      (reached ==> result == Some(Result(UploadedId(replies)).record) &&
                   exitCode == Result(UploadedId(replies)).exitCode) &&
      (!reached ==> exitCode == 1 && request.None?)
    ensures request.Some? ==>
      video == Some(LocalFile(TEMP_VIDEO_FILE, Concat(NonEmpty(fetch.chunks)))) &&
      request.value.mediaFile == video.value.path
    ensures exitCode == 0 <==>
      HasCredentials(clientId, clientSecret, refreshToken) && built && Downloads(fetch) &&
      Truthy(UploadedId(replies))
    ensures request.Some? ==>
      var body := Metadata.Body(args.title, args.description, Some(Tags.ParseTags(args.tags)),
                                args.categoryId, args.privacy);
      request.value == InsertRequest(Metadata.Part(body), body, TEMP_VIDEO_FILE, UPLOAD_CHUNK_SIZE, true)
  {
    if !HasCredentials(clientId, clientSecret, refreshToken) {
      return 1, None, None, None;
    }
    var tags := Tags.ParseTags(args.tags);
    var uploader := new YouTubeUploader(clientId.value, clientSecret.value, refreshToken.value);
    var exited := uploader.Authenticate(built);
    if exited {
      return 1, None, None, None;
    }
    var ok, file, downloaded, progress := uploader.DownloadVideo(args.videoUrl, TEMP_VIDEO_FILE, fetch);
    if !ok {
      return 1, None, None, None;
    }
    var videoId, calls;
    videoId, request, calls := uploader.UploadVideo(replies, file.value.path, args.title,
      args.description, Some(tags), args.categoryId, args.privacy);
    FirstEndUnique(replies, calls - 1);
    var outcome := Result(videoId);
    exitCode, result, video := outcome.exitCode, Some(outcome.record), file;
  }
}
