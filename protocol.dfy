/** The wire side of the camera client (client.py) as values: the commands it
    sends, the already-decoded messages it receives, and what each of its
    receive loops does with every message. The loops themselves are methods
    of `Client.EufyClient`; the functions here are their specifications. */
module Protocol {
  import opened Base

  /** The fixed message id of the schema negotiation. */
  const SchemaId := "schema"
  const SetApiSchema := "set_api_schema"
  const StartLivestreamName := "device.start_livestream"
  /** The only event this client consumes. */
  const VideoDataEvent := "livestream video data"
  /** Frame rate used when the event's metadata gives none (or zero). */
  const DefaultFps := 15
  /** The schema version a client is built with unless told otherwise. */
  const DefaultSchemaVersion := 18

  /** A JSON scalar in an outbound command. */
  datatype Value = Str(s: string) | Int(i: int)

  /** An outbound command: the JSON object handed to `json.dumps`. */
  type Command = map<string, Value>

  /** The schema-set command. */
  function SchemaCommand(version: int): (c: Command)
    ensures c.Keys == {"messageId", "command", "schemaVersion"}
    ensures c["messageId"] == Str(SchemaId)
    ensures c["command"] == Str(SetApiSchema)
    ensures c["schemaVersion"] == Int(version)
  {
    map["messageId" := Str(SchemaId), "command" := Str(SetApiSchema), "schemaVersion" := Int(version)]
  }

  /** The start-livestream command. */
  function StartLivestreamCommand(messageId: string, version: int, serialNumber: string): (c: Command)
    ensures c.Keys == {"messageId", "version", "command", "serialNumber"}
    ensures c["messageId"] == Str(messageId)
    ensures c["version"] == Int(version)
    ensures c["command"] == Str(StartLivestreamName)
    ensures c["serialNumber"] == Str(serialNumber)
  {
    map["messageId" := Str(messageId), "version" := Int(version),
        "command" := Str(StartLivestreamName), "serialNumber" := Str(serialNumber)]
  }

  /** The metadata object of an event; a missing object or a missing key is None. */
  datatype Metadata = Metadata(videoWidth: Option<int>, videoHeight: Option<int>, videoFPS: Option<int>)

  /** The `buffer` object of an event; `data` is its list of integers, if present. */
  datatype Buffer = Buffer(data: Option<seq<int>>)

  /** One inbound frame, as `ws.recv()` and `json.loads` leave it. */
  datatype Msg =
    | RecvFailed                                   // recv() raised: the connection is closed or broken
    | NotJson                                      // json.loads raised JSONDecodeError
    | NotText                                      // a binary frame that is not valid UTF-8:
                                                   // json.loads raises UnicodeDecodeError
    | NonObject                                    // valid JSON, but not an object: `.get` raises
    | Result(messageId: string, success: bool)     // "type": "result"; `success` as its truth value
    | Event(name: string, metadata: Metadata, buffer: Option<Buffer>)  // "type": "event"
    | Other                                        // any other JSON object

  /** The exceptions the client's operations can end with. */
  datatype ClientError =
    | ConnectFailed           // create_connection raised
    | NoConnection            // `self.ws` is still None
    | ConnectionClosed        // send or recv on a closed or broken connection
    | AttributeError          // `.get` on a JSON value that is not an object
    | JsonDecodeError         // a non-JSON frame in the video-data wait
    | UnicodeDecodeError      // json.loads of a binary frame that is not valid UTF-8
    | CommandFailed(reply: Msg)  // the RuntimeError for a falsy `success`
    | ByteValueError          // `bytes(...)` of a value outside 0..255

  /** How an operation of the client ended. `Blocked`: the modelled input ran
      out while the operation was still waiting in `recv()`. */
  datatype Outcome<+T> = Ok(value: T) | Err(error: ClientError) | Blocked

  /** Geometry and frame rate reported by the first video-data event. */
  datatype StreamInfo = StreamInfo(width: Option<int>, height: Option<int>, fps: int)

  /** What `start_livestream` returns: the first payload and the stream info. */
  datatype Livestream = Livestream(data: seq<byte>, info: StreamInfo)

  /** What a receive loop does with one message: keep waiting, or stop. */
  datatype Step<+T> = Skip | Stop(outcome: T)

  /** How a receive loop ended: at which message (`next` is the position
      after it), or by running out of input. */
  datatype Scanned<+T> = Stopped(outcome: T, next: nat) | Exhausted

  /** A receive loop over `inbox` starting at `from`: messages are consumed
      one by one until the first one the step stops at. */
  function Scan<T(==)>(inbox: seq<Msg>, from: nat, step: Msg -> Step<T>): (r: Scanned<T>)
    requires from <= |inbox|
    ensures r.Stopped? ==> from < r.next <= |inbox| && step(inbox[r.next - 1]) == Stop(r.outcome)
    ensures r.Stopped? ==> forall k :: from <= k < r.next - 1 ==> step(inbox[k]).Skip?
    ensures r.Exhausted? <==> forall k :: from <= k < |inbox| ==> step(inbox[k]).Skip?
    decreases |inbox| - from
  {
    if from == |inbox| then Exhausted
    else match step(inbox[from])
      case Skip => Scan(inbox, from + 1, step)
      case Stop(o) => Stopped(o, from + 1)
  }

  /** One step of the loop: a skipped message passes on to the next one,
      a stopping one ends the loop just after it. */
  lemma ScanStep<T>(inbox: seq<Msg>, from: nat, step: Msg -> Step<T>)
    requires from < |inbox|
    ensures step(inbox[from]).Skip? ==> Scan(inbox, from, step) == Scan(inbox, from + 1, step)
    ensures step(inbox[from]).Stop? ==> Scan(inbox, from, step) == Stopped(step(inbox[from]).outcome, from + 1)
  {
  }

  /** Messages the loop skips can be dropped from the front without changing
      where and how it stops. */
  lemma {:induction false} ScanSkipsPrefix<T>(inbox: seq<Msg>, from: nat, to: nat, step: Msg -> Step<T>)
    requires from <= to <= |inbox|
    requires forall k :: from <= k < to ==> step(inbox[k]).Skip?
    ensures Scan(inbox, from, step) == Scan(inbox, to, step)
    decreases |inbox| - from
  {
    if from < to {
      ScanSkipsPrefix(inbox, from + 1, to, step);
    }
  }

  /** The state a blocking operation leaves: its reply `r` and the receive
      position `pos`, given how its loop ended and the input length `end`. */
  predicate Settles<T(==)>(s: Scanned<Outcome<T>>, r: Outcome<T>, pos: nat, end: nat)
  {
    match s
    case Stopped(o, next) => r == o && pos == next
    case Exhausted => r == Blocked && pos == end
  }

  // ---------------------------------------------------------------------
  // Waiting for a command's result (`_set_schema`, first half of
  // `start_livestream`)

  /** The messages that end a result wait for `id`. */
  predicate EndsResultWait(m: Msg, id: string)
  {
    m.RecvFailed? || m.NotText? || m.NonObject? || (m.Result? && m.messageId == id)
  }

  /** One message in a result wait: non-JSON frames, events, other objects
      and results for other ids are skipped; the result for `id` ends the
      wait, successfully exactly when its `success` is truthy. The `except`
      catches only JSONDecodeError and TypeError, so a receive error, a
      non-UTF-8 binary frame and a non-object end it with their exception. */
  function ResultStep(m: Msg, id: string): (s: Step<Outcome<()>>)
    ensures s.Skip? <==> !EndsResultWait(m, id)
    ensures s == Stop(Ok(())) <==> m == Result(id, true)
    ensures s == Stop(Err(CommandFailed(m))) <==> m == Result(id, false)
    ensures m.RecvFailed? ==> s == Stop(Err(ConnectionClosed))
    ensures m.NonObject? ==> s == Stop(Err(AttributeError))
    ensures m.NotText? ==> s == Stop(Err(UnicodeDecodeError))
  {
    match m
    case RecvFailed => Stop(Err(ConnectionClosed))
    case NotJson => Skip
    case NotText => Stop(Err(UnicodeDecodeError))
    case NonObject => Stop(Err(AttributeError))
    case Result(messageId, success) =>
      if messageId != id then Skip
      else if success then Stop(Ok(()))
      else Stop(Err(CommandFailed(m)))
    case Event(_, _, _) => Skip
    case Other => Skip
  }

  function ResultStepFor(id: string): Msg -> Step<Outcome<()>>
  {
    m => ResultStep(m, id)
  }

  /** The result wait for `id` from position `from`. It acknowledges only at
      a result carrying exactly `id` with a truthy `success`, and nothing
      before that point was such a result, a receive error or a non-object. */
  function AwaitResult(inbox: seq<Msg>, from: nat, id: string): (r: Scanned<Outcome<()>>)
    requires from <= |inbox|
    ensures r.Stopped? ==> from < r.next <= |inbox| && EndsResultWait(inbox[r.next - 1], id)
    ensures r.Stopped? ==> forall k :: from <= k < r.next - 1 ==> !EndsResultWait(inbox[k], id)
    ensures r.Stopped? ==> (r.outcome == Ok(()) <==> inbox[r.next - 1] == Result(id, true))
    ensures r.Stopped? ==> r.outcome.Ok? || r.outcome.Err?
    ensures r.Exhausted? <==> forall k :: from <= k < |inbox| ==> !EndsResultWait(inbox[k], id)
  {
    Scan(inbox, from, ResultStepFor(id))
  }

  /** Conversely, the first result for `id` after only skippable messages is
      the one the wait stops at. */
  lemma FirstMatchingResultEndsWait(inbox: seq<Msg>, from: nat, id: string, j: nat, success: bool)
    requires from <= j < |inbox| && inbox[j] == Result(id, success)
    requires forall k :: from <= k < j ==> !EndsResultWait(inbox[k], id)
    ensures AwaitResult(inbox, from, id)
            == Stopped(if success then Ok(()) else Err(CommandFailed(inbox[j])), j + 1)
  {
    ScanSkipsPrefix(inbox, from, j, ResultStepFor(id));
  }

  // ---------------------------------------------------------------------
  // Waiting for the first video-data event (second half of `start_livestream`)

  /** `meta.get("videoFPS") or 15`. */
  function Fps(meta: Metadata): (fps: int)
    ensures fps != 0
    ensures meta.videoFPS.Some? && meta.videoFPS.value != 0 ==> fps == meta.videoFPS.value
    ensures meta.videoFPS.None? || meta.videoFPS.value == 0 ==> fps == DefaultFps
  {
    match meta.videoFPS
    case Some(v) => if v != 0 then v else DefaultFps
    case None => DefaultFps
  }

  /** `ev.get("buffer", {}).get("data", [])`: a missing buffer or a missing
      data list gives the empty payload. */
  function PayloadData(buffer: Option<Buffer>): (data: seq<int>)
    ensures buffer.Some? && buffer.value.data.Some? ==> data == buffer.value.data.value
    ensures buffer.None? || buffer.value.data.None? ==> data == []
  {
    match buffer
    case None => []
    case Some(Buffer(d)) => if d.Some? then d.value else []
  }

  predicate IsVideoData(m: Msg)
  {
    m.Event? && m.name == VideoDataEvent
  }

  /** The messages that end the video-data wait. Unlike the result wait, a
      non-JSON frame is among them. */
  predicate EndsVideoWait(m: Msg)
  {
    m.RecvFailed? || m.NotJson? || m.NotText? || m.NonObject? || IsVideoData(m)
  }

  /** One message in the video-data wait: the first video-data event gives
      its payload and stream info; non-JSON and non-UTF-8 frames raise. */
  function VideoStep(m: Msg): (s: Step<Outcome<Livestream>>)
    ensures s.Skip? <==> !EndsVideoWait(m)
    ensures s.Stop? ==> !s.outcome.Blocked? && (s.outcome.Ok? ==> IsVideoData(m))
  {
    match m
    case RecvFailed => Stop(Err(ConnectionClosed))
    case NotJson => Stop(Err(JsonDecodeError))
    case NotText => Stop(Err(UnicodeDecodeError))
    case NonObject => Stop(Err(AttributeError))
    case Event(name, meta, buffer) =>
      if name != VideoDataEvent then Skip
      else (match ToBytes(PayloadData(buffer))
        case None => Stop(Err(ByteValueError))
        case Some(data) => Stop(Ok(Livestream(data, StreamInfo(meta.videoWidth, meta.videoHeight, Fps(meta))))))
    case Result(_, _) => Skip
    case Other => Skip
  }

  /** What the video-data wait replies at the message that ends it: a
      non-JSON frame raises `JSONDecodeError`; a video-data event succeeds
      exactly when its data converts to bytes, and then gives those bytes
      and the stream info from its metadata. */
  lemma VideoStepReplies(m: Msg)
    ensures m.NotJson? ==> VideoStep(m) == Stop(Err(JsonDecodeError))
    ensures m.NotText? ==> VideoStep(m) == Stop(Err(UnicodeDecodeError))
    ensures IsVideoData(m) ==>
      VideoStep(m).Stop? && (VideoStep(m).outcome.Ok? <==> ToBytes(PayloadData(m.buffer)).Some?)
    ensures VideoStep(m).Stop? && VideoStep(m).outcome.Ok? ==>
      && Some(VideoStep(m).outcome.value.data) == ToBytes(PayloadData(m.buffer))
      && VideoStep(m).outcome.value.info == StreamInfo(m.metadata.videoWidth, m.metadata.videoHeight, Fps(m.metadata))
  {
  }

  /** The video-data wait from position `from`. */
  function AwaitVideo(inbox: seq<Msg>, from: nat): (r: Scanned<Outcome<Livestream>>)
    requires from <= |inbox|
    ensures r.Stopped? ==> from < r.next <= |inbox| && EndsVideoWait(inbox[r.next - 1])
    ensures r.Stopped? ==> forall k :: from <= k < r.next - 1 ==> !EndsVideoWait(inbox[k])
    ensures r.Stopped? && r.outcome.Ok? ==> IsVideoData(inbox[r.next - 1])
    ensures r.Stopped? ==> r.outcome.Ok? || r.outcome.Err?
    ensures r.Exhausted? <==> forall k :: from <= k < |inbox| ==> !EndsVideoWait(inbox[k])
  {
    Scan(inbox, from, VideoStep)
  }

  /** A successful video-data wait returns the payload bytes and the stream
      info (width, height, frame rate) of the event it stopped at. */
  lemma AwaitVideoReply(inbox: seq<Msg>, from: nat)
    requires from <= |inbox|
    ensures var r := AwaitVideo(inbox, from);
      r.Stopped? && r.outcome.Ok? ==>
        var m := inbox[r.next - 1];
        && Some(r.outcome.value.data) == ToBytes(PayloadData(m.buffer))
        && r.outcome.value.info == StreamInfo(m.metadata.videoWidth, m.metadata.videoHeight, Fps(m.metadata))
  {
    var r := AwaitVideo(inbox, from);
    if r.Stopped? {
      VideoStepReplies(inbox[r.next - 1]);
    }
  }

  /** `start_livestream` after sending its command: the result wait for `id`,
      then, if it acknowledged, the video-data wait from the next message. */
  function AwaitLivestream(inbox: seq<Msg>, from: nat, id: string): (r: Scanned<Outcome<Livestream>>)
    requires from <= |inbox|
    ensures AwaitResult(inbox, from, id).Exhausted? ==> r.Exhausted?
    ensures AwaitResult(inbox, from, id).Stopped? && AwaitResult(inbox, from, id).outcome.Err? ==>
      r == Stopped(Err(AwaitResult(inbox, from, id).outcome.error), AwaitResult(inbox, from, id).next)
    ensures r.Stopped? ==> from < r.next <= |inbox|
    ensures r.Stopped? && r.outcome.Ok? ==>
      && AwaitResult(inbox, from, id).Stopped? && AwaitResult(inbox, from, id).outcome.Ok?
      && AwaitResult(inbox, from, id).next < r.next
      && IsVideoData(inbox[r.next - 1])
  {
    match AwaitResult(inbox, from, id)
    case Exhausted => Exhausted
    case Stopped(o, next) =>
      if o.Ok? then AwaitVideo(inbox, next)
      else if o.Err? then Stopped(Err(o.error), next)
      else assert false; Exhausted
  }

  /** Everything before the acknowledgement is consumed by the result wait:
      the livestream starts from the message after the acknowledgement, so
      a video-data event that arrived before it is lost. */
  lemma VideoBeforeAckIsLost(inbox: seq<Msg>, from: nat, id: string, j: nat)
    requires from <= j < |inbox| && inbox[j] == Result(id, true)
    requires forall k :: from <= k < j ==> !EndsResultWait(inbox[k], id)
    ensures AwaitLivestream(inbox, from, id) == AwaitVideo(inbox, j + 1)
  {
    FirstMatchingResultEndsWait(inbox, from, id, j, true);
  }

  /** An instance of the loss: the first video-data event arrives just
      before the acknowledgement and nothing follows it, so the call is
      still waiting although a video-data event was received. */
  lemma EarlyVideoEventIsDropped(id: string, data: seq<byte>, meta: Metadata)
    ensures AwaitLivestream([VideoEvent(data, meta), Result(id, true)], 0, id) == Exhausted
  {
    VideoBeforeAckIsLost([VideoEvent(data, meta), Result(id, true)], 0, id, 1);
  }

  /** A failed acknowledgement ends `start_livestream` with the RuntimeError,
      before any event is looked at. */
  lemma FailedAckRaises(inbox: seq<Msg>, from: nat, id: string, j: nat)
    requires from <= j < |inbox| && inbox[j] == Result(id, false)
    requires forall k :: from <= k < j ==> !EndsResultWait(inbox[k], id)
    ensures AwaitLivestream(inbox, from, id) == Stopped(Err(CommandFailed(Result(id, false))), j + 1)
  {
    FirstMatchingResultEndsWait(inbox, from, id, j, false);
  }

  // ---------------------------------------------------------------------
  // The listener (`listen._feeder`)

  /** What the listener does with one message. */
  datatype Action = Ignore | Forward(payload: seq<byte>) | Halt

  /** One message in the listener: any exception ends it (a receive error,
      a non-JSON or non-UTF-8 frame, a non-object, a video-data event without `buffer`,
      a byte out of range); a video-data event otherwise forwards
      `bytes(buffer.get("data", []))`; anything else is ignored. */
  function ListenAction(m: Msg): (a: Action)
    ensures a.Forward? ==> IsVideoData(m) && m.buffer.Some?
    ensures IsVideoData(m) && m.buffer.None? ==> a.Halt?
    ensures a.Ignore? <==> !IsVideoData(m) && (m.Result? || m.Event? || m.Other?)
  {
    match m
    case RecvFailed => Halt
    case NotJson => Halt
    case NotText => Halt
    case NonObject => Halt
    case Event(name, _, buffer) =>
      if name != VideoDataEvent then Ignore
      else if buffer.None? then Halt
      else (match ToBytes(PayloadData(buffer))
        case None => Halt
        case Some(data) => Forward(data))
    case Result(_, _) => Ignore
    case Other => Ignore
  }

  /** What the listener forwards, in both directions: a forwarded payload
      is `bytes(buffer.get("data", []))` of a video-data event with a
      buffer, and every video-data event with a buffer whose data converts
      is forwarded, as `b''` when the buffer has no `data`. A video-data
      event whose data does not convert ends the listener. */
  lemma ListenActionCases(m: Msg)
    ensures ListenAction(m).Forward? ==>
      IsVideoData(m) && m.buffer.Some? && Some(ListenAction(m).payload) == ToBytes(PayloadData(m.buffer))
    ensures IsVideoData(m) && m.buffer.Some? && ToBytes(PayloadData(m.buffer)).Some? ==>
      ListenAction(m) == Forward(ToBytes(PayloadData(m.buffer)).value)
    ensures IsVideoData(m) && m.buffer.Some? && ToBytes(PayloadData(m.buffer)).None? ==> ListenAction(m).Halt?
    ensures IsVideoData(m) && m.buffer.Some? && m.buffer.value.data.None? ==> ListenAction(m) == Forward([])
  {
  }

  /** Where the listener stops: the first message it halts at, or |msgs|. */
  function HaltIndex(msgs: seq<Msg>): (k: nat)
    ensures k <= |msgs|
    ensures forall j :: 0 <= j < k ==> !ListenAction(msgs[j]).Halt?
    ensures k < |msgs| ==> ListenAction(msgs[k]).Halt?
  {
    if msgs == [] then 0
    else if ListenAction(msgs[0]).Halt? then 0
    else 1 + HaltIndex(msgs[1..])
  }

  /** What the listener hands to `on_data` for one message. */
  function Forwarded(m: Msg): (ps: seq<seq<byte>>)
    ensures |ps| <= 1
    ensures ps != [] <==> ListenAction(m).Forward?
  {
    if ListenAction(m).Forward? then [ListenAction(m).payload] else []
  }

  /** The payloads forwarded for `msgs`, in receipt order. */
  function VideoPayloads(msgs: seq<Msg>): (ps: seq<seq<byte>>)
    ensures |ps| <= |msgs|
  {
    GatherAtMostOne(msgs, Forwarded);
    Gather(msgs, Forwarded)
  }

  /** One more message adds its payload exactly when the listener forwards it. */
  lemma VideoPayloadsSnoc(done: seq<Msg>, m: Msg)
    ensures VideoPayloads(done + [m]) == VideoPayloads(done) + Forwarded(m)
  {
    GatherSnoc(done, m, Forwarded);
  }

  /** The listener, still running at position `i`, halts there exactly
      when that message makes it halt. */
  lemma ListenStep(msgs: seq<Msg>, i: nat)
    requires i < |msgs| && i <= HaltIndex(msgs)
    ensures ListenAction(msgs[i]).Halt? ==> HaltIndex(msgs) == i
    ensures !ListenAction(msgs[i]).Halt? ==> i + 1 <= HaltIndex(msgs)
  {
  }

  /** The message at position `i` adds what it forwards after what the
      messages before it forwarded. */
  lemma VideoPayloadsStep(msgs: seq<Msg>, i: nat)
    requires i < |msgs|
    ensures VideoPayloads(msgs[..i + 1]) == VideoPayloads(msgs[..i]) + Forwarded(msgs[i])
  {
    assert msgs[..i + 1] == msgs[..i] + [msgs[i]];
    VideoPayloadsSnoc(msgs[..i], msgs[i]);
  }

  lemma VideoPayloadsAppend(a: seq<Msg>, b: seq<Msg>)
    ensures VideoPayloads(a + b) == VideoPayloads(a) + VideoPayloads(b)
  {
    GatherAppend(a, b, Forwarded);
  }

  /** Results, other events and other objects forward nothing. */
  lemma {:induction false} IgnoredForwardNothing(msgs: seq<Msg>)
    requires forall k :: 0 <= k < |msgs| ==> ListenAction(msgs[k]).Ignore?
    ensures VideoPayloads(msgs) == []
    decreases |msgs|
  {
    if msgs != [] {
      var n := |msgs| - 1;
      IgnoredForwardNothing(msgs[..n]);
      assert msgs == msgs[..n] + [msgs[n]];
      VideoPayloadsSnoc(msgs[..n], msgs[n]);
    }
  }

  /** The video-data event a device sends for one payload. */
  function VideoEvent(data: seq<byte>, meta: Metadata): (m: Msg)
    ensures IsVideoData(m)
  {
    Event(VideoDataEvent, meta, Some(Buffer(Some(Ints(data)))))
  }

  /** The JSON integer list a byte string is sent as. */
  function Ints(data: seq<byte>): (xs: seq<int>)
    ensures |xs| == |data|
    ensures forall i :: 0 <= i < |data| ==> xs[i] == data[i] as int
  {
    if data == [] then [] else [data[0] as int] + Ints(data[1..])
  }

  lemma ToBytesOfBytes(data: seq<byte>)
    ensures ToBytes(Ints(data)) == Some(data)
  {
    var r := ToBytes(Ints(data));
    assert r.Some?;
    assert r.value == data;
  }

  /** The video-data events a device sends for a run of payloads. */
  function VideoEvents(payloads: seq<seq<byte>>, meta: Metadata): (msgs: seq<Msg>)
    ensures |msgs| == |payloads|
  {
    if payloads == [] then []
    else VideoEvents(payloads[..|payloads| - 1], meta) + [VideoEvent(payloads[|payloads| - 1], meta)]
  }

  /** The `i`-th event carries the `i`-th payload. */
  lemma {:induction false} VideoEventsAt(payloads: seq<seq<byte>>, meta: Metadata, i: nat)
    requires i < |payloads|
    ensures VideoEvents(payloads, meta)[i] == VideoEvent(payloads[i], meta)
    decreases |payloads|
  {
    var n := |payloads| - 1;
    if i < n {
      VideoEventsAt(payloads[..n], meta, i);
    }
  }

  lemma VideoEventForwards(data: seq<byte>, meta: Metadata)
    ensures ListenAction(VideoEvent(data, meta)) == Forward(data)
    ensures Forwarded(VideoEvent(data, meta)) == [data]
  {
    ToBytesOfBytes(data);
  }

  lemma ForwardsOneMore(done: seq<Msg>, m: Msg, ps: seq<seq<byte>>, p: seq<byte>)
    requires VideoPayloads(done) == ps && Forwarded(m) == [p]
    ensures VideoPayloads(done + [m]) == ps + [p]
  {
    VideoPayloadsSnoc(done, m);
  }

  /** The listener never halts on well-formed video-data events. */
  lemma VideoEventsNeverHalt(payloads: seq<seq<byte>>, meta: Metadata)
    ensures HaltIndex(VideoEvents(payloads, meta)) == |payloads|
  {
    var msgs := VideoEvents(payloads, meta);
    forall k | 0 <= k < |msgs|
      ensures !ListenAction(msgs[k]).Halt?
    {
      VideoEventsAt(payloads, meta, k);
      VideoEventForwards(payloads[k], meta);
    }
  }

  /** The streaming scenario: N video-data events are forwarded as exactly
      their N payloads, in order. */
  lemma {:induction false} ForwardsEveryVideoEvent(payloads: seq<seq<byte>>, meta: Metadata)
    ensures HaltIndex(VideoEvents(payloads, meta)) == |payloads|
    ensures VideoPayloads(VideoEvents(payloads, meta)) == payloads
    decreases |payloads|
  {
    VideoEventsNeverHalt(payloads, meta);
    if payloads != [] {
      var n := |payloads| - 1;
      var front, last := payloads[..n], payloads[n];
      ForwardsEveryVideoEvent(front, meta);
      VideoEventForwards(last, meta);
      ForwardsOneMore(VideoEvents(front, meta), VideoEvent(last, meta), front, last);
      assert payloads == front + [last];
    }
  }
}
