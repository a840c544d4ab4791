# Live video streaming server — a Dafny model of its core

The server streams a live video feed over HTTP. `GET /live/{method}` looks the
requested encoder up in a fixed registry (`mpeg4`, `mjpeg`). An unknown name is
answered with a 400 whose detail is `Unsupported encoder method: '<method>'.`.
A known name gets a streaming response whose media type is the encoder's content
type. Its body is the encoder's stream over a fresh directory-replay frame
source, and a hook closes that stream when the response ends. The frame source
(`frame_stream`) lists the frame directory once, sorts the names and yields the
files' contents in that order, starting over after the last one, until it is
closed. `GET /video_feed` drains the camera through `generate_frames`. That loop
writes one `multipart/x-mixed-replace` part per successful camera read and stops
at the first failed read.

Modules:

- `Wrappers` (wrappers.dfy): `Option` and `Result`.
- `LexOrder` (lex_order.dfy): Python's string order (lexicographic by code point)
  and the sorted listing of a set of names, which is what `sorted(listdir(...))`
  returns.
- `Multipart` (multipart.dfy): bytes, the 37-byte part header, one part and its
  inverse, and the `boundary` parameter of the feed's media type. The delimiter
  is the dash-boundary of section 5.1.1 of RFC 2046.
- `StreamingUtils` (streaming_utils.dfy): the encoder registry, and the frame
  source. The generator's suspended state is the `Cursor` datatype, one pull is
  `Step`, closing is `CloseStep`, and many pulls are `Run`. The class
  `FrameStream` carries these out in place, and its methods are proved equal to
  them.
- `Server` (server.dfy): the `/live` routing decision and its 400, the live
  stream with its end-of-response hook, and `generate_frames` as a loop over the
  camera's read results.

I/O is passed in as parameters:

- The frame directory is a `map<string, seq<byte>>` snapshot handed to every
  pull, so files can come and go between pulls.
- The camera is the sequence of results its `read()` calls return.
- The image processing and JPEG encoding (`bitwise_not`, `putText`,
  `imencode`) form one function parameter, `process`.
- The encoders' `get_content_type()` is a function parameter, `contentType`.

## Model

| member | source | states |
|---|---|---|
| `StreamingUtils.Resolve` | utils/streaming_utils.py:15-18 | the registry finds a name exactly when it is `"mpeg4"` or `"mjpeg"` (case-sensitive, so `"MJPEG"` or `"h265"` is not found), giving the MPEG-4 and MJPEG encoders respectively |
| `Server.Route` | server.py:36-39 | a name is accepted exactly when it is a registry key; then the encoder is the registry's and the media type is that encoder's content type; otherwise the error has status 400 and its detail gives back exactly the requested name |
| `Server.Detail` | server.py:39 | the 400 detail contains the requested name verbatim |
| `Server.DetailRoundTrip` | server.py:39 | reading the name back out of the detail yields exactly the requested name |
| `Server.DetailInjective` | server.py:39 | two different unknown names never produce the same detail |
| `Server.Live` | server.py:30-47 | an unknown name is rejected with 400 echoing the name; a known one streams with the encoder's content type over a new, unstarted frame source of its own, not yet closed |
| `Server.LiveStream.constructor` | server.py:42 | each request's encoder stream wraps a newly created frame source in its initial, unstarted state |
| `Server.LiveStream.Pull` | server.py:42-47 | with the encoder taken as a lazy pass-through (see Left out): while the stream is open, a pull is exactly one step of the frame source; once closed, a pull yields nothing and leaves the source untouched |
| `Server.LiveStream.EndStream` | server.py:43-44 | the response-end hook marks the encoder stream closed and leaves the frame source's state as it was; under the pass-through assumption for `Pull`, no frame is drawn afterwards |
| `Server.Chunks` | server.py:11-25 | the drained feed has one chunk per successful read before the first failed read, in read order; chunk i is the part wrapping the JPEG buffer of read i; the read after the last chunk, if any, failed |
| `Server.GenerateFrames` | server.py:11-25 | when the consumer asks for `wanted` parts, the loop yields exactly the first min(`wanted`, all) chunks of `Chunks`; it reads the camera once per part, plus once more only if that read failed, and never more often than the number of parts requested, so it does no read after a failed one or after the last part requested |
| `Server.JpegFlagIgnored` | server.py:20-25 | the JPEG encoder's success flag has no effect on the stream: two encodings that agree on their buffers give the same chunks |
| `Server.FeedBoundaryMatchesParts` | server.py:49-51 | the `/video_feed` media type declares `boundary=frame`; every chunk opens with `--frame` and CRLF, and stripping header and trailer gives back the JPEG bytes |
| `Multipart.Part` | server.py:24-25 | a part is the 37-byte header, then the frame, then the 2-byte CRLF |
| `Multipart.ParsePart` | server.py:24-25 | a chunk that is accepted is 39 bytes longer than the frame it carries |
| `Multipart.PartRoundTrip` | server.py:24-25 | stripping the 37-byte prefix and 2-byte suffix of a part recovers the frame bytes |
| `Multipart.ParsePartSound` | server.py:24-25 | every chunk the parser accepts is exactly the part of the bytes it returns |
| `Multipart.PartOpensWithDelimiter` | server.py:24 | every part begins with the dash-boundary `--frame` followed by CRLF |
| `Multipart.BoundaryOf` | server.py:51 | the boundary is found exactly when the media type is `MixedReplaceType(b)` for some b, that is, the literal text `multipart/x-mixed-replace; boundary=` followed by b, and it is then that b; any other spelling of the type gives no boundary |
| `Multipart.BoundaryRoundTrip` | server.py:51 | the boundary read from `multipart/x-mixed-replace; boundary=b` is `b` |
| `LexOrder.LexLessIsFirstDifference` | utils/streaming_utils.py:26 | `LexLess`, Python's `<` on strings, holds exactly when the first string is a proper prefix of the second or, where they first differ, has the smaller code point |
| `LexOrder.LexLessIrreflexive` | utils/streaming_utils.py:26 | no name sorts before itself |
| `LexOrder.LexLessTransitive` | utils/streaming_utils.py:26 | the string order is transitive |
| `LexOrder.LexLessTotal` | utils/streaming_utils.py:26 | any two distinct names are ordered |
| `LexOrder.LexLessAsymmetric` | utils/streaming_utils.py:26 | no two names each sort before the other |
| `LexOrder.ProperPrefixIsLexLess` | utils/streaming_utils.py:26 | a proper prefix sorts first, as in Python |
| `LexOrder.LeastExists` | utils/streaming_utils.py:26 | every non-empty set of names has a least name |
| `LexOrder.LeastUnique` | utils/streaming_utils.py:26 | the least name of a set is unique |
| `LexOrder.Least` | utils/streaming_utils.py:26 | it returns the least name of a non-empty set |
| `LexOrder.Listing` | utils/streaming_utils.py:26 | the sorted listing is strictly ascending and holds exactly the directory's names |
| `LexOrder.SortedUnique` | utils/streaming_utils.py:26 | two strictly ascending lists of the same names are equal, so the listing does not depend on the order `listdir` returns |
| `LexOrder.SelectLeast` | utils/streaming_utils.py:26 | appending the least remaining name keeps the selected prefix sorted, and keeps it before every name not yet selected |
| `LexOrder.SortedNames` | utils/streaming_utils.py:26 | sorting the directory's names produces exactly the sorted listing |
| `StreamingUtils.Step` | utils/streaming_utils.py:20-44 | one pull keeps the cursor consistent; it yields a frame exactly when the generator is then suspended at a yield; the first pull takes the sorted listing of the directory, and no later pull changes it |
| `StreamingUtils.Open` | utils/streaming_utils.py:35-38 | opening listed name i yields a frame exactly when that name is a file; the frame is the file's full content and the file is then held open at position i; otherwise the outcome is `FileNotFoundError` for that name and the generator is finished with nothing held |
| `StreamingUtils.Following` | utils/streaming_utils.py:31-33 | after position `cur` of an n-name listing the loop goes on at (cur + 1) mod n, always a position of the listing |
| `StreamingUtils.CloseStep` | utils/streaming_utils.py:43-44 | closing an unstarted or suspended stream finishes it and releases the open file, and keeps the listing |
| `StreamingUtils.FrameStream.constructor` | utils/streaming_utils.py:20 | a new stream has run none of its body: nothing listed, no file open |
| `StreamingUtils.FrameStream.Next` | utils/streaming_utils.py:26-41 | a pull changes the stream's state and returns the outcome exactly as `Step` says |
| `StreamingUtils.FrameStream.OpenAt` | utils/streaming_utils.py:35-38 | opening a listed file yields its full content and holds it open; a missing file ends the stream |
| `StreamingUtils.FrameStream.Close` | utils/streaming_utils.py:29-44 | closing changes the state exactly as `CloseStep` says |
| `StreamingUtils.FirstPullOpensFirstName` | utils/streaming_utils.py:26-38 | a fresh stream's first pull yields the full content of the first name in sorted order, with that file held open |
| `StreamingUtils.CycleAt` | utils/streaming_utils.py:31-38 | from a yield at position c, the i-th later pull yields the file at (c + 1 + i) mod n |
| `StreamingUtils.CycleAfterFirst` | utils/streaming_utils.py:31-38 | once the first pull has yielded the first listed file, the k-th pull yields the file at position k mod n |
| `StreamingUtils.FollowingIsModular` | utils/streaming_utils.py:31-33 | advancing once and then j + 1 more times reaches the same position as counting on from `cur` modulo n, also across the wrap-around |
| `StreamingUtils.CycleFromStart` | utils/streaming_utils.py:31-38 | while every listed file stays present, every pull yields a frame, the k-th being the full content of listed file k mod n: the stream wraps around and never ends on its own |
| `StreamingUtils.EmptyDirectoryNeverYields` | utils/streaming_utils.py:26-33 | if the directory is empty at the first pull, no pull ever yields a frame |
| `StreamingUtils.SpinningStalls` | utils/streaming_utils.py:31-33 | once the outer loop spins over an empty listing, every pull stalls |
| `StreamingUtils.FinishedStops` | utils/streaming_utils.py:43-44 | a finished stream answers every pull with `StopIteration` and opens nothing |
| `StreamingUtils.ClosedYieldsNothing` | utils/streaming_utils.py:43-44 | after closing, no file is held open and every later pull yields nothing |
| `StreamingUtils.OnlyListedFilesMatter` | utils/streaming_utils.py:33-38 | after the first pull, the outcomes depend only on the listed files |
| `StreamingUtils.ListingTakenOnce` | utils/streaming_utils.py:26 | files added or removed after the first pull, other than listed ones, change nothing |

## Left out

- HTTP framework plumbing is not modelled: FastAPI routing, `StreamingResponse` mechanics, the scheduling of the background hook, `workers=10` and `run` (server.py:29-30, 47, 68-75).
- The static HTML index page (server.py:52-66) is not modelled.
- Camera access (`cv2.VideoCapture`, `read`, `release`) is hardware I/O. The camera is modelled only as the sequence of read results.
- The image processing and JPEG encoding (`bitwise_not`, `putText`, `imencode`) are foreign calls. They are the function parameter `process`.
- The `sleep(1/ACTUAL_FPS)` pacing is wall-clock timing and is not modelled.
- Real file-system access (`listdir`, `open`) is replaced by a name-to-bytes map per pull. Subdirectories and unreadable files are not modelled; only a file that is missing at open is. A missing frame directory, which makes `listdir` raise at the first pull (utils/streaming_utils.py:26, outside the `try`), cannot be expressed by a name-to-bytes map and is not modelled.
- The encoders `MPEG4Encoder` and `MJPEGEncoder` are not part of this model. They are tags, and their content types are a parameter. So the model does not say what chunks `/live` sends. It says which frame source the encoder is given and what that source yields when pulled.
- `Server.LiveStream.EndStream`: closes the encoder's stream only, as the hook does. Whether the inner frame source is then closed depends on the encoder code, which is not part of this model, and on the interpreter's garbage collection. The contract says only that the encoder stream is closed after the hook runs and that the source's state is left as it was.
- `Server.LiveStream.Pull`: assumes the encoder passes frames through lazily, drawing one source frame per pull of its stream and none once that stream is closed. The encoder code is not part of this model, so this is an assumption, not a consequence of the source. An encoder that buffers several frames per chunk, or feeds a subprocess from its own thread, would draw frames differently, possibly even after `close()`. Python's generator semantics alone give only that no further chunk is produced after `close()`.
- `Server.Live` assumes the registered encoder objects are truthy, so `if not encoder` rejects exactly the missing names. Their classes are not part of this model.
- `StreamingUtils.FrameStream.Close`: on a stream whose first pull is spinning forever over an empty listing, the generator is still executing; `close()` cannot stop it, so the model leaves that state unchanged.
- `Server.GenerateFrames`: the camera is a finite sequence of read results. If it runs out before a failed read, the model stops there. The real loop would instead wait on the next `camera.read()`.
- Concurrency between viewers and the shared global camera are not modelled.
- The unused Flask import is not modelled.

Behaviour of the code worth noting:

- A missing method gets status 400 exactly.
- An empty frame directory makes the first pull spin forever; it never yields.
- The response-end hook closes the encoder's stream, not the frame source itself.
