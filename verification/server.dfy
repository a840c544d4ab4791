/**
 * The HTTP endpoints' logic: `/live/{method}` resolves an encoder by name,
 * rejects unknown names with a 400 that echoes the name, and otherwise streams
 * the encoder's output over a fresh frame source, with a response-end hook that
 * closes the stream. `/video_feed` drains the camera through `generate_frames`,
 * one multipart part per successful read.
 */
module Server {
  import opened Wrappers
  import opened Multipart
  import opened StreamingUtils

  // ------------------------------------------------------------ /video_feed

  /** A captured picture, as the camera hands it over. */
  type Image = seq<byte>

  /** One `camera.read()`: the success flag and the picture. */
  datatype Read = Read(success: bool, frame: Image)

  /** What `cv2.imencode('.jpg', ...)` returns: its success flag and the JPEG buffer. */
  datatype Encoded = Encoded(ret: bool, buffer: seq<byte>)

  /** `multipart/x-mixed-replace; boundary=frame`, the media type of `/video_feed`. */
  const VideoFeedMediaType: string := MixedReplaceType("frame")

  function Min(a: nat, b: nat): nat
  {
    if a <= b then a else b
  }

  /**
   * Everything `generate_frames` yields when drained, given the camera's read
   * results in order and `process`, the inversion, caption and JPEG encoding of a
   * picture: one part per successful read before the first failed one.
   */
  function Chunks(camera: seq<Read>, process: Image -> Encoded): (chunks: seq<seq<byte>>)
    ensures |chunks| <= |camera|
    ensures forall i | 0 <= i < |chunks| ::
      camera[i].success && chunks[i] == Part(process(camera[i].frame).buffer)
    ensures |chunks| < |camera| ==> !camera[|chunks|].success
    decreases |camera|
  {
    if camera == [] || !camera[0].success then []
    else [Part(process(camera[0].frame).buffer)] + Chunks(camera[1..], process)
  }

  /**
   * `generate_frames` pulled `wanted` times (or until it ends): reads the camera
   * once per requested part, stops at the first failed read, and never reads
   * again after it or after the last part the consumer asked for.
   */
  method GenerateFrames(camera: seq<Read>, wanted: nat, process: Image -> Encoded)
    returns (chunks: seq<seq<byte>>, taken: nat)
    ensures chunks == Chunks(camera, process)[..Min(wanted, |Chunks(camera, process)|)]
    ensures taken <= |camera| && taken <= wanted
    ensures taken == |chunks| || (taken == |chunks| + 1 && !camera[taken - 1].success)
    ensures taken == |chunks| ==> |chunks| == wanted || taken == |camera|
  {
    ghost var all := Chunks(camera, process);
    chunks, taken := [], 0;
    while |chunks| < wanted && taken < |camera|
      invariant taken == |chunks| <= |all|
      invariant chunks == all[..taken]
      invariant |chunks| <= wanted
    {
      var read := camera[taken];
      taken := taken + 1;
      if !read.success {
        assert chunks == all[..Min(wanted, |all|)];
        break;
      }
      var encoded := process(read.frame);
      // `ret` is not looked at: the part is written whatever the encoder reported
      assert |chunks| < |all| && all[|chunks|] == Part(encoded.buffer);
      chunks := chunks + [Part(encoded.buffer)];
    }
    assert |chunks| < wanted ==> |chunks| == |all|;
    assert chunks == all[..Min(wanted, |all|)];
  }

  /** The JPEG encoder's success flag plays no part: only its buffer reaches the stream. */
  lemma {:induction false} JpegFlagIgnored(camera: seq<Read>, process: Image -> Encoded, process': Image -> Encoded)
    requires forall image :: process(image).buffer == process'(image).buffer
    ensures Chunks(camera, process) == Chunks(camera, process')
    decreases |camera|
  {
    if camera != [] && camera[0].success {
      JpegFlagIgnored(camera[1..], process, process');
    }
  }

  /**
   * The media type of `/video_feed` declares `boundary=frame`, and every part the
   * feed writes opens with that boundary's delimiter line, and carries the
   * JPEG bytes unchanged between the 37-byte header and the closing CRLF.
   */
  lemma FeedBoundaryMatchesParts(camera: seq<Read>, process: Image -> Encoded)
    ensures BoundaryOf(VideoFeedMediaType) == Some("frame")
    ensures IsLatin1(Delimiter("frame") + "\r\n")
    ensures forall i | 0 <= i < |Chunks(camera, process)| ::
      && Chunks(camera, process)[i][..9] == Bytes(Delimiter("frame") + "\r\n")
      && ParsePart(Chunks(camera, process)[i]) == Some(process(camera[i].frame).buffer)
  {
    BoundaryRoundTrip("frame");
    var chunks := Chunks(camera, process);
    forall i | 0 <= i < |chunks|
      ensures chunks[i][..9] == Bytes(Delimiter("frame") + "\r\n")
      ensures ParsePart(chunks[i]) == Some(process(camera[i].frame).buffer)
    {
      PartOpensWithDelimiter(process(camera[i].frame).buffer);
      PartRoundTrip(process(camera[i].frame).buffer);
    }
  }

  // -------------------------------------------------------- /live/{method}

  datatype HttpError = HttpError(status: int, detail: string)

  const DetailPrefix: string := "Unsupported encoder method: '"
  const DetailSuffix: string := "'."

  predicate OccursAt(name: string, d: string, k: nat)
  {
    k + |name| <= |d| && d[k..k + |name|] == name
  }

  /** The detail of the 400 for an unknown encoder name; it holds the name verbatim. */
  function Detail(name: string): (d: string)
    ensures exists k :: OccursAt(name, d, k)
  {
    var d := DetailPrefix + name + DetailSuffix;
    assert OccursAt(name, d, |DetailPrefix|);
    d
  }

  /** Reads the requested name back out of a 400 detail. */
  function NameInDetail(d: string): (name: Option<string>)
    ensures name.Some? ==> |d| == |DetailPrefix| + |name.value| + |DetailSuffix|
  {
    var n, m := |DetailPrefix|, |DetailSuffix|;
    if |d| >= n + m && d[..n] == DetailPrefix && d[|d| - m..] == DetailSuffix then Some(d[n..|d| - m])
    else None
  }

  lemma {:induction false} DetailRoundTrip(name: string)
    ensures NameInDetail(Detail(name)) == Some(name)
  {
    var d := Detail(name);
    assert d == DetailPrefix + name + DetailSuffix;
    assert d[..|DetailPrefix|] == DetailPrefix;
    assert d[|DetailPrefix|..|d| - |DetailSuffix|] == name;
  }

  /** Distinct unknown names give distinct details. */
  lemma DetailInjective(a: string, b: string)
    ensures Detail(a) == Detail(b) ==> a == b
  {
    DetailRoundTrip(a);
    DetailRoundTrip(b);
  }

  /**
   * The decision `live` takes before streaming: the resolved encoder and the
   * media type of the response, or the 400 for a name the registry lacks.
   * `contentType` stands for the encoders' `get_content_type()`.
   */
  function Route(name: string, contentType: EncoderTag -> string): (r: Result<(EncoderTag, string), HttpError>)
    ensures r.Ok? <==> name == "mpeg4" || name == "mjpeg"
    ensures r.Ok? ==> r.value.0 == Registry[name] && r.value.1 == contentType(r.value.0)
    ensures r.Err? ==> r.error.status == 400 && NameInDetail(r.error.detail) == Some(name)
  {
    match Resolve(name)
    case None =>
      DetailRoundTrip(name);
      Err(HttpError(400, Detail(name)))
    case Some(encoder) => Ok((encoder, contentType(encoder)))
  }

  /**
   * The encoder's stream over its own frame source, as the response drains it.
   * What the encoder makes of each frame is not part of this model; `Pull` is the
   * encoder drawing its next input frame, taking the encoder to pass frames
   * through lazily, one per pull of its stream and none once that is closed.
   */
  class LiveStream {
    const encoder: EncoderTag
    const source: FrameStream
    var closed: bool

    ghost predicate Valid()
      reads this, source
    {
      source.Valid()
    }

    /** `encoder.encode(frame_stream())`: a new, unstarted frame source for this request only. */
    constructor (encoder: EncoderTag)
      ensures this.encoder == encoder && !closed
      ensures fresh(source) && source.State() == Initial && Valid()
    {
      this.encoder := encoder;
      source := new FrameStream();
      closed := false;
    }

    method Pull(dir: Directory) returns (r: Outcome)
      requires Valid()
      modifies source
      ensures Valid()
      ensures closed ==> r == Stopped && source.State() == old(source.State())
      ensures !closed ==> (source.State(), r) == Step(old(source.State()), dir)
    {
      if closed {
        r := Stopped;
      } else {
        r := source.Next(dir);
      }
    }

    /** `_end_stream`, run when the response ends: closes the encoder's stream. */
    method EndStream()
      requires Valid()
      modifies this
      ensures Valid() && closed
      ensures source.State() == old(source.State())
    {
      closed := true;
    }
  }

  datatype Response =
    | Rejected(error: HttpError)
    | Streaming(mediaType: string, stream: LiveStream)

  /** `GET /live/{method}`. */
  method Live(name: string, contentType: EncoderTag -> string) returns (resp: Response)
    ensures resp.Rejected? <==> name !in Registry
    ensures resp.Rejected? ==> resp.error.status == 400 && NameInDetail(resp.error.detail) == Some(name)
    ensures resp.Streaming? ==>
      && resp.mediaType == contentType(Registry[name])
      && resp.stream.encoder == Registry[name]
      && fresh(resp.stream) && fresh(resp.stream.source)
      && resp.stream.Valid() && !resp.stream.closed && resp.stream.source.State() == Initial
  {
    match Route(name, contentType) {
      case Err(error) =>
        resp := Rejected(error);
      case Ok((encoder, mediaType)) =>
        var stream := new LiveStream(encoder);
        resp := Streaming(mediaType, stream);
    }
  }
}
