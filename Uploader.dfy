/** The `YouTubeUploader` class: it holds the OAuth credentials and, once
    authenticated, the API service handle; it streams the source video into a local
    file and drives the resumable upload. The network is not modelled: what
    `requests.get` delivers and what successive `next_chunk()` calls return are
    parameters. */
module Uploader {
  import opened Json
  import Metadata

  newtype byte = x: int | 0 <= x < 256

  const SCOPES: seq<string> := ["https://www.googleapis.com/auth/youtube.upload"]
  const API_SERVICE_NAME: string := "youtube"
  const API_VERSION: string := "v3"
  /** The chunk size handed to the resumable media upload (1 MiB). */
  const UPLOAD_CHUNK_SIZE: nat := 1024 * 1024

  datatype Credentials = Credentials(clientId: string, clientSecret: string,
                                     refreshToken: string, scopes: seq<string>)

  /** The client object that `build` returns. */
  datatype Service = Service(name: string, version: string, credentials: Credentials)

  // ---------------------------------------------------------------- download

  /** The `content-length` header: missing (read as 0), an integer, or text that
      `int()` refuses. */
  datatype ContentLength = Absent | Numeric(n: int) | Malformed(text: string)

  /** What `requests.get(url, stream=True)` delivers: either the request fails
      outright, or a response arrives with a status code, a length header and the
      chunks of its body; the body stream may break off with an error after the
      chunks it did deliver. */
  datatype FetchResult =
    | Unreachable(reason: string)
    | Reply(statusCode: int, contentLength: ContentLength, chunks: seq<seq<byte>>,
            interruption: Option<string>)

  /** `raise_for_status()` raises for client and server errors: the 4xx and 5xx
      status classes. */
  function RaisesForStatus(statusCode: int): (raises: bool)
    ensures raises <==> statusCode / 100 == 4 || statusCode / 100 == 5
  {
    400 <= statusCode < 600
  }

  /** The download gets as far as opening the output file and copying the body. */
  predicate OpensFile(fetch: FetchResult) {
    fetch.Reply? && !RaisesForStatus(fetch.statusCode) && !fetch.contentLength.Malformed?
  }

  /** The download reports success. */
  predicate Downloads(fetch: FetchResult) {
    OpensFile(fetch) && fetch.interruption.None?
  }

  /** `int(response.headers.get('content-length', 0))`. */
  function TotalSize(h: ContentLength): (n: int)
    requires !h.Malformed?
    ensures h.Absent? ==> n == 0
    ensures h.Numeric? ==> n == h.n
  {
    if h.Numeric? then h.n else 0
  }

  /** The chunks that `if chunk:` lets through, in order. */
  function NonEmpty(chunks: seq<seq<byte>>): (r: seq<seq<byte>>)
    ensures |r| <= |chunks|
  {
    if |chunks| == 0 then []
    else
      var last := chunks[|chunks| - 1];
      NonEmpty(chunks[..|chunks| - 1]) + (if |last| > 0 then [last] else [])
  }

  /** The chunks one after another. */
  function Concat(chunks: seq<seq<byte>>): seq<byte> {
    if |chunks| == 0 then [] else Concat(chunks[..|chunks| - 1]) + chunks[|chunks| - 1]
  }

  /** The sum of the chunk lengths. */
  function TotalLength(chunks: seq<seq<byte>>): nat {
    if |chunks| == 0 then 0 else TotalLength(chunks[..|chunks| - 1]) + |chunks[|chunks| - 1]|
  }

  /** The download progress as an exact percentage; only defined for a positive
      total, which is what the `total_size > 0` guard ensures. */
  function Percent(downloaded: nat, totalSize: int): real
    requires totalSize > 0
  {
    (downloaded as real / totalSize as real) * 100.0
  }

  /** The byte counts at which progress is reported while copying `chunks`: the
      running total after each chunk when the total size is positive, none
      otherwise. */
  function Progress(chunks: seq<seq<byte>>, totalSize: int): (p: seq<nat>)
    ensures |p| == if totalSize > 0 then |chunks| else 0
    ensures forall i :: 0 <= i < |p| ==> p[i] == TotalLength(chunks[..i + 1])
  {
    if |chunks| == 0 || totalSize <= 0 then []
    else
      var init := chunks[..|chunks| - 1];
      assert forall n :: 0 < n <= |init| ==> init[..n] == chunks[..n];
      assert chunks[..|chunks|] == chunks;
      Progress(init, totalSize) + [TotalLength(chunks)]
  }

  /** Every chunk that `if chunk:` lets through is non-empty. */
  lemma {:induction false} NonEmptyKeepsNonEmpty(chunks: seq<seq<byte>>)
    ensures forall i :: 0 <= i < |NonEmpty(chunks)| ==> |NonEmpty(chunks)[i]| > 0
  {
    if |chunks| > 0 {
      NonEmptyKeepsNonEmpty(chunks[..|chunks| - 1]);
    }
  }

  lemma NonEmptyStep(chunks: seq<seq<byte>>, i: nat)
    requires i < |chunks|
    ensures NonEmpty(chunks[..i + 1]) ==
      NonEmpty(chunks[..i]) + (if |chunks[i]| > 0 then [chunks[i]] else [])
  {
    assert chunks[..i + 1][..i] == chunks[..i];
  }

  lemma AppendChunk(chunks: seq<seq<byte>>, chunk: seq<byte>)
    ensures Concat(chunks + [chunk]) == Concat(chunks) + chunk
    ensures TotalLength(chunks + [chunk]) == TotalLength(chunks) + |chunk|
  {
    assert (chunks + [chunk])[..|chunks|] == chunks;
  }

  lemma AppendProgress(chunks: seq<seq<byte>>, chunk: seq<byte>, totalSize: int)
    ensures Progress(chunks + [chunk], totalSize) ==
      if totalSize > 0 then Progress(chunks, totalSize) + [TotalLength(chunks + [chunk])] else []
  {
    assert (chunks + [chunk])[..|chunks|] == chunks;
  }

  /** The filter works chunk by chunk: filtering two runs of chunks one after the
      other is filtering each run. */
  lemma {:induction false} NonEmptyAppend(a: seq<seq<byte>>, b: seq<seq<byte>>)
    ensures NonEmpty(a + b) == NonEmpty(a) + NonEmpty(b)
    decreases |b|
  {
    if |b| == 0 {
      assert a + b == a;
    } else {
      var init := b[..|b| - 1];
      assert (a + b)[..|a + b| - 1] == a + init;
      assert (a + b)[|a + b| - 1] == b[|b| - 1];
      NonEmptyAppend(a, init);
    }
  }

  /** One chunk is passed on exactly when it is non-empty. */
  lemma NonEmptyOne(c: seq<byte>)
    ensures NonEmpty([c]) == if |c| > 0 then [c] else []
  {
    assert [c][..0] == [];
  }

  /** Skipping the empty chunks loses no bytes: the file holds the whole body. */
  lemma {:induction false} ConcatNonEmpty(chunks: seq<seq<byte>>)
    ensures Concat(NonEmpty(chunks)) == Concat(chunks)
  {
    if |chunks| > 0 {
      var init := chunks[..|chunks| - 1];
      var last := chunks[|chunks| - 1];
      ConcatNonEmpty(init);
      if |last| > 0 {
        AppendChunk(NonEmpty(init), last);
      } else {
        assert NonEmpty(chunks) == NonEmpty(init) + [] == NonEmpty(init);
        assert last == [];
        assert Concat(chunks) == Concat(init) + last == Concat(init);
      }
    }
  }

  /** The byte counter is the size of what was written. */
  lemma {:induction false} ConcatLength(chunks: seq<seq<byte>>)
    ensures |Concat(chunks)| == TotalLength(chunks)
  {
    if |chunks| > 0 {
      ConcatLength(chunks[..|chunks| - 1]);
    }
  }

  /** Progress is reported once per non-empty chunk when the declared size is
      positive and never otherwise; the reported counts rise strictly and the last
      one is the number of bytes copied. */
  lemma {:induction false} ProgressShape(chunks: seq<seq<byte>>, totalSize: int)
    requires forall i :: 0 <= i < |chunks| ==> |chunks[i]| > 0
    ensures totalSize <= 0 ==> Progress(chunks, totalSize) == []
    ensures totalSize > 0 ==> |Progress(chunks, totalSize)| == |chunks|
    ensures totalSize > 0 && |chunks| > 0 ==>
      Progress(chunks, totalSize)[|chunks| - 1] == TotalLength(chunks)
    ensures forall i, j :: 0 <= i < j < |Progress(chunks, totalSize)| ==>
      Progress(chunks, totalSize)[i] < Progress(chunks, totalSize)[j]
  {
    if |chunks| > 0 && totalSize > 0 {
      var init := chunks[..|chunks| - 1];
      ProgressShape(init, totalSize);
      var p := Progress(chunks, totalSize);
      assert p == Progress(init, totalSize) + [TotalLength(chunks)];
      if |init| > 0 {
        assert p[|init| - 1] == TotalLength(init) < TotalLength(chunks);
      }
    }
  }

  /** The exact percentage grows with the byte count and reach 100 exactly at the
      declared size. */
  lemma PercentMonotone(a: nat, b: nat, totalSize: int)
    requires totalSize > 0 && a < b
    ensures Percent(a, totalSize) < Percent(b, totalSize)
    ensures Percent(totalSize, totalSize) == 100.0
  {
    var t := totalSize as real;
    assert t / t == 1.0;
    assert a as real / t < b as real / t by {
      assert (b as real - a as real) / t > 0.0;
    }
  }

  /** The file the download writes: where it is and what it holds. */
  datatype LocalFile = LocalFile(path: string, content: seq<byte>)

  // ------------------------------------------------------------------ upload

  /** What `status.progress()` is computed from. */
  datatype UploadProgress = UploadProgress(resumableProgress: nat, totalSize: nat)

  /** One call of `request.next_chunk()`: it returns a status and a response, either
      of which may be None, or it raises. A response is the decoded JSON resource. */
  datatype NextChunk =
    | Step(status: Option<UploadProgress>, response: Option<map<string, string>>)
    | Raised(error: string)

  /** A call after which the `while response is None` loop is left. */
  predicate Ends(reply: NextChunk) {
    reply.Raised? || reply.response.Some?
  }

  /** The service eventually answers: some call ends the loop. */
  predicate Answered(replies: seq<NextChunk>) {
    exists k :: 0 <= k < |replies| && Ends(replies[k])
  }

  /** The index of the call that ends the loop. */
  function FirstEnd(replies: seq<NextChunk>): (k: nat)
    requires Answered(replies)
    ensures k < |replies| && Ends(replies[k])
    ensures forall j :: 0 <= j < k ==> !Ends(replies[j])
  {
    if Ends(replies[0]) then 0
    else
      assert Answered(replies[1..]) by {
        ghost var k :| 0 <= k < |replies| && Ends(replies[k]);
        assert replies[1..][k - 1] == replies[k];
      }
      1 + FirstEnd(replies[1..])
  }

  /** `response['id']` of the reply that ends the loop; None when that call raised or
      the response has no `id` (whose KeyError `upload_video` also turns into None). */
  function IdOf(reply: NextChunk): (id: Option<string>)
    ensures id.Some? <==> reply.Step? && reply.response.Some? && "id" in reply.response.value
    ensures id.Some? ==> id.value == reply.response.value["id"]
  {
    if reply.Step? && reply.response.Some? && "id" in reply.response.value
    then Some(reply.response.value["id"]) else None
  }

  /** The video id an upload with these `next_chunk()` results yields. */
  function UploadedId(replies: seq<NextChunk>): Option<string>
    requires Answered(replies)
  {
    IdOf(replies[FirstEnd(replies)])
  }

  /** The loop stops at one place only: any call that ends the loop after calls
      that did not is the first ending one. */
  lemma FirstEndUnique(replies: seq<NextChunk>, k: nat)
    requires k < |replies| && Ends(replies[k])
    requires forall j :: 0 <= j < k ==> !Ends(replies[j])
    ensures Answered(replies) && FirstEnd(replies) == k
  {
    assert Ends(replies[k]);
  }

  /** The `videos().insert` request: its `part`, its body and its resumable media. */
  datatype InsertRequest = InsertRequest(part: string, body: Value, mediaFile: string,
                                         chunkSize: nat, resumable: bool)

  class YouTubeUploader {
    var clientId: string
    var clientSecret: string
    var refreshToken: string
    var youtube: Option<Service>

    constructor (clientId: string, clientSecret: string, refreshToken: string)
      ensures this.clientId == clientId && this.clientSecret == clientSecret
      ensures this.refreshToken == refreshToken
      ensures youtube.None?
    {
      this.clientId := clientId;
      this.clientSecret := clientSecret;
      this.refreshToken := refreshToken;
      youtube := None;
    }

    /** Builds the service from the stored credentials. `built` says whether the
        client library accepted them; when it did not, the script exits the process,
        reported here as `exited`. */
    method Authenticate(built: bool) returns (exited: bool)
      modifies this`youtube
      ensures exited == !built
      ensures built ==> youtube == Some(Service(API_SERVICE_NAME, API_VERSION,
                                                Credentials(clientId, clientSecret, refreshToken, SCOPES)))
      ensures !built ==> youtube == old(youtube)
    {
      exited := !built;
      if built {
        youtube := Some(Service(API_SERVICE_NAME, API_VERSION,
                                Credentials(clientId, clientSecret, refreshToken, SCOPES)));
      }
    }

    /** Streams the body of `fetch` (the response to `videoUrl`) into the file at
        `outputPath`. `file` is that file with its final content, None when it was
        never opened;
        `downloaded` is the running byte count when the loop stops and `progress` the
        byte counts at which a progress percentage was displayed. */
    method DownloadVideo(videoUrl: string, outputPath: string, fetch: FetchResult)
      returns (ok: bool, file: Option<LocalFile>, downloaded: nat, progress: seq<nat>)
      ensures ok <==> Downloads(fetch)
      ensures file.Some? <==> OpensFile(fetch)
      ensures OpensFile(fetch) ==>
        file.value == LocalFile(outputPath, Concat(NonEmpty(fetch.chunks))) &&
        downloaded == TotalLength(NonEmpty(fetch.chunks)) &&
        progress == Progress(NonEmpty(fetch.chunks), TotalSize(fetch.contentLength))
      ensures !OpensFile(fetch) ==> downloaded == 0 && progress == []
    {
      ok, file, downloaded, progress := false, None, 0, [];
      if fetch.Unreachable? || RaisesForStatus(fetch.statusCode) || fetch.contentLength.Malformed? {
        return;
      }
      var written;
      written, downloaded, progress := CopyBody(fetch.chunks, TotalSize(fetch.contentLength));
      file := Some(LocalFile(outputPath, written));
      ok := fetch.interruption.None?;
    }

    /** The body of the `with open(output_path, 'wb')` block: writes each non-empty
        chunk, adds its length to the byte counter and, when the declared total is
        positive, reports progress. */
    method CopyBody(chunks: seq<seq<byte>>, totalSize: int)
      returns (written: seq<byte>, downloaded: nat, progress: seq<nat>)
      ensures written == Concat(NonEmpty(chunks))
      ensures downloaded == TotalLength(NonEmpty(chunks))
      ensures progress == Progress(NonEmpty(chunks), totalSize)
    {
      written, downloaded, progress := [], 0, [];
      ghost var kept: seq<seq<byte>> := [];
      var i := 0;
      while i < |chunks|
        invariant 0 <= i <= |chunks|
        invariant kept == NonEmpty(chunks[..i])
        invariant written == Concat(kept)
        invariant downloaded == TotalLength(kept)
        invariant progress == Progress(kept, totalSize)
      {
        var chunk := chunks[i];
        NonEmptyStep(chunks, i);
        if |chunk| > 0 {
          AppendChunk(kept, chunk);
          AppendProgress(kept, chunk, totalSize);
          kept := kept + [chunk];
          written := written + chunk;
          downloaded := downloaded + |chunk|;
          if totalSize > 0 {
            progress := progress + [downloaded];
          }
        } else {
          assert kept + [] == kept;
        }
        i := i + 1;
      }
      assert chunks[..i] == chunks;
    }

    /** Uploads `videoFile` with the given metadata. Without a service it returns
        None and issues no request. Otherwise it issues one insert request and calls
        `next_chunk()` until a call raises or returns a response; the video id is that
        response's `id`. `calls` counts the `next_chunk()` calls. */
    method UploadVideo(replies: seq<NextChunk>, videoFile: string, title: string,
                       description: string := "", tags: Option<seq<string>> := None,
                       categoryId: string := Metadata.DEFAULT_CATEGORY_ID,
                       privacyStatus: string := Metadata.DEFAULT_PRIVACY_STATUS)
      returns (videoId: Option<string>, request: Option<InsertRequest>, calls: nat)
      requires youtube.Some? ==> Answered(replies)
      ensures youtube.None? ==> videoId.None? && request.None? && calls == 0
      ensures youtube.Some? ==>
        var body := Metadata.Body(title, description, tags, categoryId, privacyStatus);
        request == Some(InsertRequest(Metadata.Part(body), body, videoFile, UPLOAD_CHUNK_SIZE, true))
      ensures youtube.Some? ==>
        0 < calls <= |replies| && Ends(replies[calls - 1]) &&
        (forall j :: 0 <= j < calls - 1 ==> !Ends(replies[j])) &&
        videoId == IdOf(replies[calls - 1])
    {
      if youtube.None? {
        return None, None, 0;
      }
      var body := Metadata.Body(title, description, tags, categoryId, privacyStatus);
      request := Some(InsertRequest(Metadata.Part(body), body, videoFile, UPLOAD_CHUNK_SIZE, true));
      var response: Option<map<string, string>> := None;
      var raised := false;
      calls := 0;
      while response.None? && !raised
        invariant 0 <= calls <= |replies|
        invariant forall j :: 0 <= j < calls - 1 ==> !Ends(replies[j])
        invariant response.None? && !raised ==> forall j :: 0 <= j < calls ==> !Ends(replies[j])
        invariant response.Some? || raised ==>
          0 < calls && Ends(replies[calls - 1]) &&
          response == (if replies[calls - 1].Step? then replies[calls - 1].response else None)
        invariant raised ==> replies[calls - 1].Raised?
        decreases |replies| - calls
      {
        ghost var k :| 0 <= k < |replies| && Ends(replies[k]);
        assert calls <= k;
        match replies[calls] {
          case Raised(_) =>
            raised := true;
          case Step(status, r) =>
            response := r;
        }
        calls := calls + 1;
      }
      ghost var last := replies[calls - 1];
      assert raised <==> last.Raised?;
      assert !raised ==> last.response == response;
      if raised {
        videoId := None;
      } else if "id" in response.value {
        videoId := Some(response.value["id"]);
      } else {
        videoId := None;
      }
    }
  }
}
