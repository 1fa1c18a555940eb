# swim-lap-counter ingestion core in Dafny

This project models the two sequential cores of the live-stream ingestion of
swim-lap-counter, with proofs:

- **Frame reassembly** (`decoder.py`, class `FFmpegDecoder`). `frames`
  appends each chunk read from the ffmpeg process's output to a byte
  buffer. While the buffer holds at least `width*height*3` bytes, it cuts the
  front frame off and yields it. Module `Decoder` models the read side as a
  sequence of `ReadResult`s: each one is the chunk read, plus what `poll()`
  would report if the chunk is empty. `FFmpegDecoder.Frames` is the loop,
  with a `seq<byte>` accumulator. It is proved against `Split`/`Rest`, the
  whole frames and the leftover of the bytes delivered before the ending
  read. The lemmas beside it say what follows:
  - every frame has the exact size;
  - frames followed by the leftover rebuild the input;
  - the leftover stays below one frame;
  - the frame count is the integer quotient of the byte count by the frame size;
  - frames already yielded are never revised by later bytes;
  - an empty read while the process runs changes nothing;
  - an empty read after it exited ends the stream.

  Because `Frames`' result depends only on `Delivered`, the delivered bytes,
  two chunkings of the same bytes give the same frames. `feed` and `close`
  are methods on the process's input-pipe state and swallow their errors.
- **Protocol client** (`client.py`, class `EufyClient`). Module `Protocol`
  holds the values:
  - the outbound commands, as the JSON objects they are;
  - the inbound messages, already decoded (`Msg`);
  - for each receive loop, what it does with one message (`ResultStep`,
    `VideoStep`, `ListenAction`);
  - `Scan`, a generic "consume until the first stopping message" function.

  Module `Client` holds the class. Its `inbox` is what successive
  `ws.recv()` calls return, `pos` is the receive position and `sent` the
  commands sent. Each wait loop is proved to leave exactly the reply and
  position its specification gives (`AwaitResult`, `AwaitVideo`,
  `AwaitLivestream`, `HaltIndex`/`VideoPayloads`).

When the modelled input runs out while a loop is still waiting, the reply
is `Blocked`; the real `recv()` would still be waiting.

The model follows what the code does, including these behaviours:
- the schema negotiation uses the fixed id `"schema"`, not a fresh one;
- the video-data wait does not skip non-JSON frames: `json.loads` raises there;
- the listener reads `msg["event"]["buffer"]` without a default, so a
  video-data event without a buffer ends it;
- a valid JSON value that is not an object makes `msg.get` raise
  `AttributeError`; the result waits catch only `JSONDecodeError` and
  `TypeError`, so they propagate it;
- a binary frame that is not valid UTF-8 (`NotText`) makes `json.loads`
  raise `UnicodeDecodeError`, a `ValueError` that is not a
  `JSONDecodeError`: the result waits propagate it instead of skipping the
  frame, and the video-data wait and the listener end on it too.

`app.py` has no start/stop/status controller and no idle timeout; it only
runs a loop, and is not part of this model.

## Model

| member | source | states |
|---|---|---|
| `Base.ToBytes` | client.py:72 | `bytes(list)` succeeds exactly when every element is in 0..255, and then keeps every value in order |
| `Decoder.EndIndex` | decoder.py:32-35 | the position of the first empty read whose poll shows the process exited; no earlier read is one |
| `Decoder.Split` | decoder.py:38-40 | every frame cut from the buffer is exactly `n` bytes long |
| `Decoder.Rest` | decoder.py:38-40 | what stays in the buffer after the slicing loop is shorter than one frame |
| `Decoder.SplitRecombine` | decoder.py:37-42 | the yielded frames, concatenated and followed by the buffer, give back exactly the bytes read |
| `Decoder.SplitCount` | decoder.py:29-40 | the number of frames is `total_bytes / (width*height*3)`; the leftover is the remainder |
| `Decoder.SplitAppend` | decoder.py:37-40 | extending the buffer by a chunk yields the old frames, then the frames of old leftover plus chunk |
| `Decoder.SplitPrefix` | decoder.py:37-42 | frames yielded so far are a prefix of the frames after any further bytes |
| `Decoder.DeliveredAppend` | decoder.py:32-37 | reads before the ending one contribute all their bytes, in order |
| `Decoder.EmptyReadIsTransparent` | decoder.py:33-36 | an empty read while the process runs leaves the delivered bytes, hence buffer and frames, unchanged |
| `Decoder.ExitedReadEndsStream` | decoder.py:33-35 | an empty read after the process exited ends the stream; nothing read after it is used |
| `Decoder.BytewiseReadsDeliverAll` | decoder.py:32-42 | reading one byte at a time delivers the same bytes as one read of everything, so yields the same frames |
| `Decoder.FFmpegDecoder.constructor` | decoder.py:6-18 | the spawned process starts with its input pipe present (or absent), nothing written, not killed |
| `Decoder.FFmpegDecoder.Feed` | decoder.py:20-26 | bytes reach the process only when stdin is open and the write succeeds; otherwise nothing changes and nothing is raised |
| `Decoder.FFmpegDecoder.Close` | decoder.py:44-53 | stdin is closed when present; the process is killed exactly when it does not exit in time |
| `Decoder.FFmpegDecoder.Frames` | decoder.py:28-42 | yields the whole frames of the bytes read before the ending read, in order, each of exact size, keeps the rest (under one frame), and reports whether the sequence ended |
| `Protocol.SchemaCommand` | client.py:21-22 | the schema command has exactly `messageId == "schema"`, `command == "set_api_schema"`, `schemaVersion == version` |
| `Protocol.StartLivestreamCommand` | client.py:40-45 | the start command has exactly `messageId`, `version`, `command == "device.start_livestream"`, `serialNumber` |
| `Protocol.Scan` | client.py:25-31 | a receive loop stops at the first message its step stops at, all earlier ones were skipped; it runs out of input exactly when every message is skipped |
| `Protocol.ScanStep` | client.py:25-31 | one pass of a receive loop: a skipped message hands on to the next one, a stopping one ends the loop right after it |
| `Protocol.ScanSkipsPrefix` | client.py:25-31 | skipped messages at the front do not change where or how the loop stops |
| `Protocol.ResultStep` | client.py:26-36 | in a result wait, only a result with exactly the awaited id completes it (successfully iff `success` is truthy); a receive error, a non-UTF-8 binary frame or a non-object raises; non-JSON frames, events, other objects and other ids are skipped |
| `Protocol.AwaitResult` | client.py:25-36 | the wait acknowledges only at `Result(id, true)`; no earlier message was a result for `id`, a receive error or a non-object |
| `Protocol.FirstMatchingResultEndsWait` | client.py:31-36 | the first result for `id` after skippable messages is where the wait stops, with `RuntimeError` when `success` is falsy |
| `Protocol.Fps` | client.py:71 | the frame rate is `videoFPS` when present and non-zero, else 15; it is never zero |
| `Protocol.PayloadData` | client.py:72 | the payload is `buffer.data`, or empty when the buffer or its data is missing |
| `Protocol.VideoStep` | client.py:64-73 | the video wait stops exactly at a receive error, a non-JSON or non-UTF-8 frame, a non-object or a "livestream video data" event, and succeeds only at the latter |
| `Protocol.VideoStepReplies` | client.py:65-73 | a non-JSON frame raises `JSONDecodeError`, a non-UTF-8 binary frame `UnicodeDecodeError`; a video-data event succeeds exactly when its data converts to bytes, and returns those bytes with width, height and frame rate from its metadata |
| `Protocol.AwaitVideo` | client.py:63-73 | the video wait returns only at a video-data event; nothing before it ended the wait |
| `Protocol.AwaitVideoReply` | client.py:67-73 | a successful video-data wait returns `bytes(buffer.data)` of the event it stopped at, with its `videoWidth`, `videoHeight` and `videoFPS or 15` |
| `Protocol.AwaitLivestream` | client.py:49-73 | the ack wait runs first: blocked or failed there means blocked or the same error; success only at a video-data event after the acknowledgement |
| `Protocol.VideoBeforeAckIsLost` | client.py:49-73 | after the acknowledgement at `j` the livestream is read from `j + 1`: video events before it are lost |
| `Protocol.EarlyVideoEventIsDropped` | client.py:49-66 | a video event just before the acknowledgement, with nothing after, leaves the call waiting |
| `Protocol.FailedAckRaises` | client.py:55-59 | a falsy `success` in the start result raises before any event is examined |
| `Protocol.ListenAction` | client.py:79-85 | the listener forwards only video-data events with a buffer; one without `buffer` raises (KeyError); it ignores exactly results, other events and other objects |
| `Protocol.ListenActionCases` | client.py:81-83 | a forwarded payload is `bytes(buffer.get("data", []))`; conversely every video-data event with a buffer whose data converts is forwarded, as `b''` when `data` is missing; data that does not convert ends the listener |
| `Protocol.HaltIndex` | client.py:77-85 | the listener stops at its first exception, and only there |
| `Protocol.ListenStep` | client.py:78-85 | the feeder, still running at a message, stops there exactly when that message raises |
| `Protocol.Forwarded` | client.py:81-83 | one message hands at most one payload to `on_data`, and one exactly when the listener forwards it |
| `Protocol.VideoPayloads` | client.py:78-83 | the payloads handed to `on_data` for a run of messages, at most one per message |
| `Protocol.VideoPayloadsSnoc` | client.py:81-83 | one more message adds its payload exactly when the listener forwards it |
| `Protocol.VideoPayloadsAppend` | client.py:78-83 | payloads are forwarded in receipt order: those of `a + b` are those of `a`, then those of `b` |
| `Protocol.IgnoredForwardNothing` | client.py:81 | results, other events and other objects forward nothing |
| `Protocol.ToBytesOfBytes` | client.py:82 | a byte string sent as its integer list converts back to the same bytes |
| `Protocol.VideoEventForwards` | client.py:81-83 | a well-formed video-data event is forwarded as exactly its payload |
| `Protocol.VideoEventsNeverHalt` | client.py:78-85 | the feeder never stops inside a run of well-formed video-data events |
| `Protocol.ForwardsEveryVideoEvent` | client.py:78-83 | N video-data events are forwarded as exactly their N payloads, in order, without halting |
| `Client.EufyClient.constructor` | client.py:8-12 | a new client keeps url, serial and schema version (default 18) and has no connection |
| `Client.EufyClient.Connect` | client.py:14-18 | an unreachable server raises and changes nothing; otherwise the connection is opened and the schema negotiated on it |
| `Client.EufyClient.SetSchema` | client.py:20-36 | sends the schema command, then ends as `AwaitResult` for `"schema"` says; raises without a connection |
| `Client.EufyClient.StartLivestream` | client.py:38-73 | sends the start command, then ends as `AwaitLivestream` says: the ack wait, then the first video event after it |
| `Client.EufyClient.ReceiveResult` | client.py:49-60 | the result loop's reply and stopping position are those of `AwaitResult` |
| `Client.EufyClient.ResultReply` | client.py:26-36 | one pass of the result loop's body gives exactly `ResultStep` for the received message |
| `Client.EufyClient.ReceiveVideo` | client.py:62-73 | the video-data loop's reply and stopping position are those of `AwaitVideo` |
| `Client.EufyClient.VideoReply` | client.py:64-73 | one pass of the video-data loop's body gives exactly `VideoStep` for the received message |
| `Client.EufyClient.Listen` | client.py:75-87 | delivers exactly the video payloads before the first exception, in order, and consumes up to and including it |
| `Client.EufyClient.Feeder` | client.py:76-85 | the feeder loop stops at the first message that raises (`HaltIndex`) and has handed `on_data` exactly the payloads forwarded before it |
| `Client.EufyClient.Handle` | client.py:79-83 | one feeder step raises exactly when `ListenAction` halts and otherwise forwards what it forwards |
| `Client.EufyClient.Close` | client.py:89-91 | closes the connection if there is one; a no-op when `ws` is None |

## Left out

- The websocket transport (`create_connection`, `send`, `recv`) and `json.loads`/`json.dumps`. They are replaced by an input sequence of decoded `Msg` values, a reachability flag and a log of sent commands.
- `ws.send` failing on a connection the peer has already closed (client.py:24, client.py:47) is not modelled: on an `Open` socket the command is always logged and the wait starts, while the source can raise before any wait. `json.loads` failures are modelled as `NotJson` (JSONDecodeError) and `NotText` (UnicodeDecodeError of a binary frame); a `TypeError` from a `recv()` value that is neither text nor bytes is not modelled.
- JSON values of unexpected types at nested positions (a `null` metadata or buffer object, a non-integer in `data`, a non-string `messageId` or event name). A result without a string id and an event without a string name are modelled as `Other`, since they can never match. `success` is modelled as its truth value, and `videoFPS` as an integer (a float rate is not modelled).
- The console `print` calls, including the `result.async` field printed on acknowledgement.
- The `time.time()`-derived start message id: it is the parameter `msgId`.
- `threading.Thread` in `listen`: the feeder runs to the end sequentially over the remaining input. The concurrency between the feeder and the frame loop is not modelled.
- `on_data` raising: the caller passes `FFmpegDecoder.feed`, which never raises, so `on_data` is modelled as appending to `delivered`.
- The ffmpeg subprocess (its arguments, spawning, `poll`, `wait(timeout=2)`, `kill`). Only its effects are modelled: the read results, the write outcome and whether it exits in time are inputs.
- The numpy reshape into `(height, width, 3)`: a frame is a flat byte sequence.
- The 4096-byte bound of each read: the proofs hold for chunks of any length.
- Decoder.FFmpegDecoder.Frames: requires `width > 0 && height > 0`. With a zero dimension the source's inner loop never ends, which a terminating method cannot express. Negative dimensions are also not modelled.
- Decoder.FFmpegDecoder.Feed: a partial write before a broken pipe is not modelled; a failed write adds nothing.
- app.py (orchestration over cv2 windows, key handling and the external swimmer detector), recorder.py (cv2 wrappers) and config.py (constants) are not part of this model.
