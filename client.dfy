/** The camera client of client.py as a class. The websocket is reduced to
    what the client sees of it: `inbox`, everything the server sends on the
    current connection in order (what successive `ws.recv()` calls return),
    the receive position `pos`, and `sent`, the commands written with
    `ws.send`. Each receive loop advances `pos` and is proved against its
    specification in module Protocol. */
module Client {
  import opened Base
  import opened Protocol

  /** `self.ws`: never connected (None), open, or closed by `close()`. */
  datatype Socket = NoSocket | Open | Closed

  class EufyClient {
    const url: string
    const deviceSerial: string
    const schemaVersion: int
    var ws: Socket
    var inbox: seq<Msg>
    var pos: nat
    var sent: seq<Command>
    /** Every payload handed to the listener's `on_data`, in order. */
    var delivered: seq<seq<byte>>

    ghost predicate Valid()
      reads this
    {
      pos <= |inbox|
    }

    constructor (url: string, deviceSerial: string, schemaVersion: int := DefaultSchemaVersion)
      ensures Valid()
      ensures this.url == url && this.deviceSerial == deviceSerial && this.schemaVersion == schemaVersion
      ensures ws == NoSocket && inbox == [] && pos == 0 && sent == [] && delivered == []
    {
      this.url := url;
      this.deviceSerial := deviceSerial;
      this.schemaVersion := schemaVersion;
      ws := NoSocket;
      inbox, pos, sent, delivered := [], 0, [], [];
    }

    /** `connect`: opens a connection (`reachable` says whether the server
        answers; `server` is what it will send) and negotiates the schema. */
    method Connect(reachable: bool, server: seq<Msg>) returns (r: Outcome<()>)
      requires Valid()
      modifies this
      ensures Valid() && delivered == old(delivered)
      ensures !reachable ==>
        r == Err(ConnectFailed) && ws == old(ws) && inbox == old(inbox) && pos == old(pos) && sent == old(sent)
      ensures reachable ==>
        && ws == Open && inbox == server && sent == [SchemaCommand(schemaVersion)]
        && Settles(AwaitResult(server, 0, SchemaId), r, pos, |server|)
    {
      if !reachable {
        return Err(ConnectFailed);
      }
      ws, inbox, pos, sent := Open, server, 0, [];
      r := SetSchema();
    }

    /** `_set_schema`: sends the schema command and waits for its result. */
    method SetSchema() returns (r: Outcome<()>)
      requires Valid()
      modifies this`sent, this`pos
      ensures Valid()
      ensures old(ws) == NoSocket ==> r == Err(NoConnection) && sent == old(sent) && pos == old(pos)
      ensures old(ws) == Closed ==> r == Err(ConnectionClosed) && sent == old(sent) && pos == old(pos)
      ensures old(ws) == Open ==>
        && sent == old(sent) + [SchemaCommand(schemaVersion)]
        && Settles(AwaitResult(inbox, old(pos), SchemaId), r, pos, |inbox|)
    {
      if ws == NoSocket {
        return Err(NoConnection);
      } else if ws == Closed {
        return Err(ConnectionClosed);
      }
      sent := sent + [SchemaCommand(schemaVersion)];
      r := ReceiveResult(SchemaId);
    }

    /** `start_livestream`: sends the start command with message id `msgId`,
        waits for its result, then for the first video-data event. */
    method StartLivestream(msgId: string) returns (r: Outcome<Livestream>)
      requires Valid()
      modifies this`sent, this`pos
      ensures Valid()
      ensures old(ws) == NoSocket ==> r == Err(NoConnection) && sent == old(sent) && pos == old(pos)
      ensures old(ws) == Closed ==> r == Err(ConnectionClosed) && sent == old(sent) && pos == old(pos)
      ensures old(ws) == Open ==>
        && sent == old(sent) + [StartLivestreamCommand(msgId, schemaVersion, deviceSerial)]
        && Settles(AwaitLivestream(inbox, old(pos), msgId), r, pos, |inbox|)
    {
      if ws == NoSocket {
        return Err(NoConnection);
      } else if ws == Closed {
        return Err(ConnectionClosed);
      }
      sent := sent + [StartLivestreamCommand(msgId, schemaVersion, deviceSerial)];
      var ack := ReceiveResult(msgId);
      match ack {
        case Ok(_) =>
          r := ReceiveVideo();
        case Err(e) =>
          r := Err(e);
        case Blocked =>
          r := Blocked;
      }
    }

    /** The result loop shared by `_set_schema` and `start_livestream`. */
    method ReceiveResult(id: string) returns (r: Outcome<()>)
      requires Valid()
      modifies this`pos
      ensures Valid()
      ensures Settles(AwaitResult(inbox, old(pos), id), r, pos, |inbox|)
    {
      ghost var goal := AwaitResult(inbox, pos, id);
      while pos < |inbox|
        invariant Valid()
        invariant goal == Scan(inbox, pos, ResultStepFor(id))
        decreases |inbox| - pos
      {
        ScanStep(inbox, pos, ResultStepFor(id));
        var step := ResultReply(inbox[pos], id);
        pos := pos + 1;
        if step.Stop? {
          return step.outcome;
        }
      }
      return Blocked;
    }

    /** The body of the result loop for one received message `m`: the
        executable form of `ResultStep`, case for case. */
    method ResultReply(m: Msg, id: string) returns (step: Step<Outcome<()>>)
      ensures step == ResultStep(m, id)
    {
      match m {
        case RecvFailed =>
          return Stop(Err(ConnectionClosed));
        case NotJson =>
          return Skip;  // json.JSONDecodeError: skip the frame
        case NotText =>
          return Stop(Err(UnicodeDecodeError));  // a ValueError the except does not catch
        case NonObject =>
          return Stop(Err(AttributeError));
        case Result(messageId, success) =>
          if messageId == id {
            if success {
              return Stop(Ok(()));
            }
            return Stop(Err(CommandFailed(m)));
          }
          return Skip;
        case Event(_, _, _) =>
          return Skip;
        case Other =>
          return Skip;
      }
    }

    /** The video-data loop of `start_livestream`. */
    method ReceiveVideo() returns (r: Outcome<Livestream>)
      requires Valid()
      modifies this`pos
      ensures Valid()
      ensures Settles(AwaitVideo(inbox, old(pos)), r, pos, |inbox|)
    {
      ghost var goal := AwaitVideo(inbox, pos);
      while pos < |inbox|
        invariant Valid()
        invariant goal == Scan(inbox, pos, VideoStep)
        decreases |inbox| - pos
      {
        ScanStep(inbox, pos, VideoStep);
        var step := VideoReply(inbox[pos]);
        pos := pos + 1;
        if step.Stop? {
          return step.outcome;
        }
      }
      return Blocked;
    }

    /** The body of the video-data loop for one received message `m`: the
        executable form of `VideoStep`, case for case. */
    method VideoReply(m: Msg) returns (step: Step<Outcome<Livestream>>)
      ensures step == VideoStep(m)
    {
      match m {
        case RecvFailed =>
          return Stop(Err(ConnectionClosed));
        case NotJson =>
          return Stop(Err(JsonDecodeError));
        case NotText =>
          return Stop(Err(UnicodeDecodeError));
        case NonObject =>
          return Stop(Err(AttributeError));
        case Event(name, meta, buffer) =>
          if name == VideoDataEvent {
            var data := ToBytes(PayloadData(buffer));
            if data.None? {
              return Stop(Err(ByteValueError));
            }
            var fps := Fps(meta);
            return Stop(Ok(Livestream(data.value, StreamInfo(meta.videoWidth, meta.videoHeight, fps))));
          }
          return Skip;
        case Result(_, _) =>
          return Skip;
        case Other =>
          return Skip;
      }
    }

    /** `listen` with its feeder run to the end on the current thread: every
        video-data payload is handed to `on_data` (here: appended to
        `delivered`) until the first exception, which ends it silently. */
    method Listen()
      requires Valid()
      modifies this`pos, this`delivered
      ensures Valid()
      ensures old(ws) != Open ==> pos == old(pos) && delivered == old(delivered)
      ensures old(ws) == Open ==>
        var rest := inbox[old(pos)..];
        var h := HaltIndex(rest);
        && delivered == old(delivered) + VideoPayloads(rest[..h])
        && pos == old(pos) + (if h < |rest| then h + 1 else h)
    {
      if ws != Open {
        return;  // recv on None or on a closed socket raises at once
      }
      var msgs := inbox[pos..];
      var h := Feeder(msgs);
      pos := pos + if h < |msgs| then h + 1 else h;
    }

    /** The feeder's loop over the messages `msgs` it receives: hands each
        forwarded payload to `on_data` and stops at the first exception.
        `n` is the position of the message it stopped at, or `|msgs|`. */
    method Feeder(msgs: seq<Msg>) returns (n: nat)
      modifies this`delivered
      ensures n == HaltIndex(msgs)
      ensures delivered == old(delivered) + VideoPayloads(msgs[..n])
    {
      n := 0;
      while n < |msgs|
        invariant n <= |msgs| && n <= HaltIndex(msgs)
        invariant delivered == old(delivered) + VideoPayloads(msgs[..n])
      {
        ListenStep(msgs, n);
        VideoPayloadsStep(msgs, n);
        var raised := Handle(msgs[n]);
        if raised {
          return;
        }
        n := n + 1;
      }
    }

    /** One pass of the feeder's loop body for the received message `m`,
        the executable form of `ListenAction`: `raised` says whether it
        threw, which ends the feeder. */
    method Handle(m: Msg) returns (raised: bool)
      modifies this`delivered
      ensures raised == ListenAction(m).Halt?
      ensures delivered == old(delivered) + Forwarded(m)
    {
      match m {
        case RecvFailed =>
          return true;
        case NotJson =>
          return true;
        case NotText =>
          return true;
        case NonObject =>
          return true;
        case Event(name, _, buffer) =>
          if name == VideoDataEvent {
            if buffer.None? {
              return true;  // KeyError on msg["event"]["buffer"]
            }
            var data := ToBytes(PayloadData(buffer));
            if data.None? {
              return true;  // ValueError from bytes(...)
            }
            delivered := delivered + [data.value];
          }
          return false;
        case Result(_, _) =>
          return false;
        case Other =>
          return false;
      }
    }

    /** `close`: closes the connection if there is one; harmless otherwise. */
    method Close()
      modifies this`ws
      ensures ws == if old(ws) == NoSocket then NoSocket else Closed
    {
      if ws != NoSocket {
        ws := Closed;
      }
    }
  }
}
