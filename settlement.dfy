/** One unary call of `GrpcClient.call`, as the state its event handlers
    share: the promise's outcome, whether the deadline timer is armed,
    whether the stream was destroyed, and the response chunks collected.
    The pure transition function `Step` is the specification; the class
    `PendingCall` holds the same state in fields and runs the handlers. */
module Settlement {
  import opened Wrappers
  import opened Framing
  import opened Requests

  /** What the stream and the timer deliver to the handlers `call`
      registers: the `response` event with its `grpc-status` and
      `grpc-message` headers, `data`, `end`, `error`, and the firing of the
      deadline timer. */
  datatype Event =
    | Response(status: Option<string>, message: Option<string>)
    | Data(chunk: Bytes)
    | End
    | StreamError(reason: string)
    | Timeout

  /** Why a call's promise is rejected. */
  datatype CallError =
    | SessionClosed                                 // client.request threw on a closed session
    | Unserializable(reason: string)                // protobuf lookup or encode threw
    | Unframable(cause: FrameError)                 // encodeMessage's writeUInt32BE threw
    | GrpcStatus(status: string, message: string)   // non-'0' grpc-status header
    | DeadlineExceeded                              // the timer fired
    | Transport(reason: string)                     // the stream's 'error' event
    | BadFrame(cause: FrameError)                   // decodeGrpcResponse threw at 'end'
    | BadMessage(reason: string)                    // protobuf decode threw at 'end'
  {
    /** The `Error` message the source builds for the errors it creates
        itself. */
    function Text(): string
      requires GrpcStatus? || DeadlineExceeded?
    {
      if GrpcStatus? then "gRPC 错误 " + status + ": " + message else "请求超时"
    }

    /** The promise was rejected before the request was written. */
    predicate IsEncodeFailure() {
      Unserializable? || Unframable?
    }
  }

  /** `{}` for an empty body, or the decoded response object. */
  datatype Response<V> = EmptyObject | Decoded(value: V)

  datatype Outcome<V> = Pending | Resolved(response: Response<V>) | Rejected(error: CallError)

  /** The two foreign decoders the `end` handler uses: gzip inflation and
      the protobuf decode (with `toJSON`) of the response type. */
  datatype Codec<V> = Codec(ungzip: Inflater, decodeMessage: Bytes -> Result<V, string>)

  datatype CallState<V> = CallState(
    outcome: Outcome<V>,
    timerArmed: bool,
    destroyed: bool,
    chunks: seq<Bytes>)
  {
    predicate Settled() {
      !outcome.Pending?
    }
  }

  /** What holds in every reachable state: a pending call still has its
      timer armed (so the timer can always settle it); the timer is still
      armed in a settled call only when the rejection came from encoding
      the request (the executor threw after arming it); and a destroyed
      stream (or one that was never opened) belongs to a settled call with
      no armed timer. */
  ghost predicate Inv<V>(s: CallState<V>) {
    && (!s.Settled() ==> s.timerArmed)
    && (s.timerArmed && s.Settled() ==> s.outcome.Rejected? && s.outcome.error.IsEncodeFailure())
    && (s.destroyed ==> s.Settled() && !s.timerArmed)
  }

  /** `resolve`/`reject` of a JavaScript promise: the first one wins. */
  function SettleWith<V>(s: CallState<V>, o: Outcome<V>): (r: CallState<V>)
    requires !o.Pending?
    ensures r.Settled()
    ensures r.outcome == if s.Settled() then s.outcome else o
    ensures r.timerArmed == s.timerArmed && r.destroyed == s.destroyed && r.chunks == s.chunks
  {
    if s.outcome.Pending? then s.(outcome := o) else s
  }

  /** `if (status && status !== '0')`: an absent or empty status and `'0'`
      are success. */
  predicate IsErrorStatus(status: Option<string>) {
    status.Some? && status.value != "" && status.value != "0"
  }

  /** `headers['grpc-message'] || '未知'`. */
  function StatusMessage(message: Option<string>): (r: string)
    ensures message.Some? && message.value != "" ==> r == message.value
    ensures message.None? || message.value == "" ==> r == "未知"
  {
    if message.Some? && message.value != "" then message.value else "未知"
  }

  /** `Buffer.concat(responseChunks)`: the chunks in arrival order. */
  function Concat(chunks: seq<Bytes>): (r: Bytes)
    ensures |r| == 0 <==> forall i :: 0 <= i < |chunks| ==> |chunks[i]| == 0
  {
    if |chunks| == 0 then [] else Concat(chunks[..|chunks| - 1]) + chunks[|chunks| - 1]
  }

  /** What the `end` handler settles with: the literal `{}` for an empty
      body, otherwise the decoded frame, and a rejection when either decoder
      throws. An empty body is never an error, and only an empty body takes
      the `EmptyObject` branch; a decoded message whose fields all hold
      their defaults is `Decoded`, even though its `toJSON()` is `{}` too. */
  function EndOutcome<V>(chunks: seq<Bytes>, codec: Codec<V>): (r: Outcome<V>)
    ensures !r.Pending?
    ensures r == Resolved(EmptyObject) <==> |Concat(chunks)| == 0
    ensures |Concat(chunks)| > 0 ==> match DecodeGrpcResponse(Concat(chunks), codec.ungzip)
      case Err(e) => r == Rejected(BadFrame(e))
      case Ok(m) => r == if codec.decodeMessage(m).Ok? then Resolved(Decoded(codec.decodeMessage(m).value))
                         else Rejected(BadMessage(codec.decodeMessage(m).error))
  {
    var body := Concat(chunks);
    if |body| == 0 then Resolved(EmptyObject)
    else
      match DecodeGrpcResponse(body, codec.ungzip)
      case Err(e) => Rejected(BadFrame(e))
      case Ok(m) =>
        match codec.decodeMessage(m)
        case Err(why) => Rejected(BadMessage(why))
        case Ok(v) => Resolved(Decoded(v))
  }

  /** What one handler does, for an event the stream actually delivers. */
  function Handle<V>(s: CallState<V>, e: Event, codec: Codec<V>): CallState<V> {
    match e
    case Response(status, message) =>
      if IsErrorStatus(status) then
        SettleWith(s.(timerArmed := false), Rejected(GrpcStatus(status.value, StatusMessage(message))))
      else s
    case Data(chunk) => s.(chunks := s.chunks + [chunk])
    case End => SettleWith(s.(timerArmed := false), EndOutcome(s.chunks, codec))
    case StreamError(reason) => SettleWith(s.(timerArmed := false), Rejected(Transport(reason)))
    case Timeout => SettleWith(s.(timerArmed := false, destroyed := true), Rejected(DeadlineExceeded))
  }

  /** `e` reaches a handler: a destroyed stream emits nothing more, and a
      cleared timer never fires. */
  predicate Delivered<V>(s: CallState<V>, e: Event) {
    !s.destroyed && (e.Timeout? ==> s.timerArmed)
  }

  /** One event. A settled call keeps its outcome, and the invariant is
      kept. */
  function Step<V>(s: CallState<V>, e: Event, codec: Codec<V>): (r: CallState<V>)
    ensures s.Settled() ==> r.Settled() && r.outcome == s.outcome
    ensures Inv(s) ==> Inv(r)
  {
    if Delivered(s, e) then Handle(s, e, codec) else s
  }

  /** A sequence of events, in order. */
  function Run<V>(s: CallState<V>, events: seq<Event>, codec: Codec<V>): CallState<V>
    decreases |events|
  {
    if |events| == 0 then s else Run(Step(s, events[0], codec), events[1..], codec)
  }

  /** The state once the promise executor has returned: the timer is
      armed, nothing has arrived, and the promise is already rejected when
      encoding the request threw. */
  function Initial<V>(serialized: Result<Bytes, string>): (r: CallState<V>)
    ensures Inv(r) && r.timerArmed && !r.destroyed && r.chunks == []
    ensures !r.Settled() <==> serialized.Ok? && |serialized.value| < UINT32_LIMIT
  {
    var armed := CallState(Pending, true, false, []);
    match serialized
    case Err(why) => SettleWith(armed, Rejected(Unserializable(why)))
    case Ok(payload) =>
      match Frame(payload)
      case Err(e) => SettleWith(armed, Rejected(Unframable(e)))
      case Ok(_) => armed
  }

  /** The state once the promise executor has returned, on a session that
      is open or not. On a session that was closed underneath the client
      (a connection error the no-op listener swallowed, or a GOAWAY),
      `client.request` throws before the timer is armed: the promise is
      rejected, no timer runs, and no stream exists to deliver events (it
      counts as destroyed). */
  function Start<V>(sessionOpen: bool, serialized: Result<Bytes, string>): (r: CallState<V>)
    ensures Inv(r) && r.chunks == []
    ensures sessionOpen ==> r == Initial(serialized)
    ensures !sessionOpen ==> r.outcome == Rejected(SessionClosed) && !r.timerArmed && r.destroyed
  {
    if sessionOpen then Initial(serialized) else CallState(Rejected(SessionClosed), false, true, [])
  }

  /** Running events one list after another is running their
      concatenation. */
  lemma {:induction false} RunAppend<V>(s: CallState<V>, a: seq<Event>, b: seq<Event>, codec: Codec<V>)
    ensures Run(s, a + b, codec) == Run(Run(s, a, codec), b, codec)
    decreases |a|
  {
    if |a| == 0 {
      assert a + b == b;
    } else {
      assert (a + b)[0] == a[0];
      assert (a + b)[1..] == a[1..] + b;
      RunAppend(Step(s, a[0], codec), a[1..], b, codec);
    }
  }

  /** Once settled, a call stays settled with the same outcome, whatever
      arrives later. */
  lemma {:induction false} RunKeepsOutcome<V>(s: CallState<V>, events: seq<Event>, codec: Codec<V>)
    requires s.Settled()
    ensures Run(s, events, codec).Settled() && Run(s, events, codec).outcome == s.outcome
    decreases |events|
  {
    if |events| > 0 {
      RunKeepsOutcome(Step(s, events[0], codec), events[1..], codec);
    }
  }

  /** Every state reached from a good state is good. */
  lemma {:induction false} RunKeepsInv<V>(s: CallState<V>, events: seq<Event>, codec: Codec<V>)
    requires Inv(s)
    ensures Inv(Run(s, events, codec))
    decreases |events|
  {
    if |events| > 0 {
      RunKeepsInv(Step(s, events[0], codec), events[1..], codec);
    }
  }

  /** Settled after a prefix means settled after every longer prefix. */
  lemma SettledStaysSettled<V>(s: CallState<V>, events: seq<Event>, i: nat, j: nat, codec: Codec<V>)
    requires i <= j <= |events|
    requires Run(s, events[..i], codec).Settled()
    ensures Run(s, events[..j], codec).Settled()
    ensures Run(s, events[..j], codec).outcome == Run(s, events[..i], codec).outcome
  {
    assert events[..j] == events[..i] + events[i..j];
    RunAppend(s, events[..i], events[i..j], codec);
    RunKeepsOutcome(Run(s, events[..i], codec), events[i..j], codec);
  }

  /** Event `k` is the one that settles the call. */
  ghost predicate SettlesAt<V>(s: CallState<V>, events: seq<Event>, k: nat, codec: Codec<V>) {
    k < |events| && !Run(s, events[..k], codec).Settled() && Run(s, events[..k + 1], codec).Settled()
  }

  /** A call settles at most once: no two events both settle it. */
  lemma SettlesAtMostOnce<V>(s: CallState<V>, events: seq<Event>, i: nat, j: nat, codec: Codec<V>)
    requires SettlesAt(s, events, i, codec) && SettlesAt(s, events, j, codec)
    ensures i == j
  {
    if i < j {
      SettledStaysSettled(s, events, i + 1, j, codec);
    } else if j < i {
      SettledStaysSettled(s, events, j + 1, i, codec);
    }
  }

  /** The first settling event decides the outcome of the whole run: the
      outcome is the one that event produced from the state before it. */
  lemma FirstSettlementDecides<V>(s: CallState<V>, events: seq<Event>, k: nat, codec: Codec<V>)
    requires SettlesAt(s, events, k, codec)
    ensures Run(s, events, codec).outcome == Step(Run(s, events[..k], codec), events[k], codec).outcome
  {
    assert events[..k + 1] == events[..k] + [events[k]];
    RunAppend(s, events[..k], [events[k]], codec);
    assert Run(s, events[..k + 1], codec) == Step(Run(s, events[..k], codec), events[k], codec);
    SettledStaysSettled(s, events, k + 1, |events|, codec);
    assert events[..|events|] == events;
  }

  /** Which events can settle a pending call, and with what: a non-'0'
      status header, the end of the stream, a stream error, or the timer.
      A data chunk and a successful status header never settle it. */
  lemma SettlingEvents<V>(s: CallState<V>, e: Event, codec: Codec<V>)
    requires !s.Settled() && Step(s, e, codec).Settled()
    ensures Delivered(s, e) && !e.Data?
    ensures e.Response? ==> (IsErrorStatus(e.status)
                             && Step(s, e, codec).outcome == Rejected(GrpcStatus(e.status.value, StatusMessage(e.message))))
    ensures e.End? ==> Step(s, e, codec).outcome == EndOutcome(s.chunks, codec)
    ensures e.StreamError? ==> Step(s, e, codec).outcome == Rejected(Transport(e.reason))
    ensures e.Timeout? ==> Step(s, e, codec).outcome == Rejected(DeadlineExceeded) && Step(s, e, codec).destroyed
  {
  }

  /** The header handler, both ways: a status that is absent, empty or
      `'0'` changes nothing; any other status clears the timer and, unless
      the call is settled, rejects with that status and the message text. */
  lemma ResponseHandling<V>(s: CallState<V>, status: Option<string>, message: Option<string>, codec: Codec<V>)
    requires !s.destroyed
    ensures !IsErrorStatus(status) ==> Step(s, Response(status, message), codec) == s
    ensures IsErrorStatus(status) ==> var r := Step(s, Response(status, message), codec);
      !r.timerArmed && r.chunks == s.chunks
      && r.outcome == if s.Settled() then s.outcome else Rejected(GrpcStatus(status.value, StatusMessage(message)))
  {
  }

  /** The end, error and error-status handlers clear the timer, and the
      timer's own firing disarms it and destroys the stream. */
  lemma TimerClearedOnSettlingEvents<V>(s: CallState<V>, e: Event, codec: Codec<V>)
    requires Delivered(s, e)
    requires e.End? || e.StreamError? || e.Timeout? || (e.Response? && IsErrorStatus(e.status))
    ensures !Step(s, e, codec).timerArmed
    ensures e.Timeout? ==> Step(s, e, codec).destroyed
  {
  }

  /** The events that neither settle a call nor touch its timer. */
  predicate Quiet(e: Event) {
    e.Data? || (e.Response? && !IsErrorStatus(e.status))
  }

  /** The data events carrying `chunks`, in order. */
  function DataEvents(chunks: seq<Bytes>): (r: seq<Event>)
    ensures |r| == |chunks|
    ensures forall i :: 0 <= i < |chunks| ==> r[i] == Data(chunks[i])
  {
    seq(|chunks|, i requires 0 <= i < |chunks| => Data(chunks[i]))
  }

  /** Quiet events keep a live call pending, armed and live. */
  lemma {:induction false} QuietRun<V>(s: CallState<V>, events: seq<Event>, codec: Codec<V>)
    requires !s.Settled() && s.timerArmed && !s.destroyed
    requires forall i :: 0 <= i < |events| ==> Quiet(events[i])
    ensures var r := Run(s, events, codec); !r.Settled() && r.timerArmed && !r.destroyed
    decreases |events|
  {
    if |events| > 0 {
      assert Quiet(events[0]);
      QuietRun(Step(s, events[0], codec), events[1..], codec);
    }
  }

  /** Data chunks are appended to the buffer in arrival order. */
  lemma {:induction false} DataAccumulates<V>(s: CallState<V>, chunks: seq<Bytes>, codec: Codec<V>)
    requires !s.destroyed
    ensures Run(s, DataEvents(chunks), codec) == s.(chunks := s.chunks + chunks)
    decreases |chunks|
  {
    if |chunks| == 0 {
      assert s.chunks + chunks == s.chunks;
    } else {
      assert DataEvents(chunks)[1..] == DataEvents(chunks[1..]);
      DataAccumulates(Step(s, Data(chunks[0]), codec), chunks[1..], codec);
      assert s.chunks + [chunks[0]] + chunks[1..] == s.chunks + chunks;
    }
  }

  /** A well-formed exchange: the chunks arrive and the stream ends; the
      call settles with what the end handler makes of all the chunks
      together, which takes the `EmptyObject` branch exactly when no byte
      arrived. */
  lemma DataThenEnd<V>(serialized: Result<Bytes, string>, chunks: seq<Bytes>, codec: Codec<V>)
    requires !Initial<V>(serialized).Settled()
    ensures var r := Run(Initial(serialized), DataEvents(chunks) + [End], codec);
      r.outcome == EndOutcome(chunks, codec) && !r.timerArmed
      && (r.outcome == Resolved(EmptyObject) <==> |Concat(chunks)| == 0)
  {
    var s0 := Initial<V>(serialized);
    RunAppend(s0, DataEvents(chunks), [End], codec);
    DataAccumulates(s0, chunks, codec);
    assert [] + chunks == chunks;
  }

  /** The deadline: when only quiet events arrive before the timer fires,
      the call is rejected with the timeout error, its stream is destroyed,
      and nothing that arrives afterwards changes anything. */
  lemma TimeoutWins<V>(s: CallState<V>, quiet: seq<Event>, later: seq<Event>, codec: Codec<V>)
    requires !s.Settled() && s.timerArmed && !s.destroyed
    requires forall i :: 0 <= i < |quiet| ==> Quiet(quiet[i])
    ensures var t := Run(s, quiet + [Timeout], codec);
      t.outcome == Rejected(DeadlineExceeded) && t.destroyed && !t.timerArmed
      && Run(s, quiet + [Timeout] + later, codec) == t
  {
    QuietRun(s, quiet, codec);
    RunAppend(s, quiet, [Timeout], codec);
    var t := Run(s, quiet + [Timeout], codec);
    RunAppend(s, quiet + [Timeout], later, codec);
    DestroyedIsInert(t, later, codec);
  }

  /** At least once: from the state the executor leaves, whatever events
      arrive, the call is either settled or still has its timer armed, so
      the timer's firing settles it. */
  lemma TimerGuaranteesSettlement<V>(serialized: Result<Bytes, string>, events: seq<Event>, codec: Codec<V>)
    ensures var s := Run(Initial<V>(serialized), events, codec);
      s.Settled() || (s.timerArmed && !s.destroyed)
    ensures Run(Run(Initial<V>(serialized), events, codec), [Timeout], codec).Settled()
  {
    RunKeepsInv(Initial<V>(serialized), events, codec);
  }

  /** A call on a closed session stays rejected, with no timer, whatever
      arrives; a call on an open session settles at the latest when its
      timer fires. */
  lemma StartSettles<V>(sessionOpen: bool, serialized: Result<Bytes, string>, events: seq<Event>, codec: Codec<V>)
    ensures !sessionOpen ==> Run(Start<V>(sessionOpen, serialized), events, codec) == Start(sessionOpen, serialized)
    ensures Run(Run(Start<V>(sessionOpen, serialized), events, codec), [Timeout], codec).Settled()
  {
    if sessionOpen {
      TimerGuaranteesSettlement<V>(serialized, events, codec);
    } else {
      var s0 := Start<V>(sessionOpen, serialized);
      DestroyedIsInert(s0, events, codec);
      DestroyedIsInert(s0, [Timeout], codec);
    }
  }

  /** The message texts of the errors `call` builds itself: the status
      and message of a rejecting header, and the timeout. */
  lemma ErrorTexts<V>(s: CallState<V>, codec: Codec<V>)
    requires !s.Settled() && !s.destroyed
    ensures var r := Step(s, Response(Some("5"), Some("not found")), codec);
      r.outcome.Rejected? && r.outcome.error.Text() == "gRPC 错误 5: not found"
    ensures var r := Step(s, Response(Some("14"), None), codec);
      r.outcome.Rejected? && r.outcome.error.Text() == "gRPC 错误 14: 未知"
    ensures s.timerArmed ==> var r := Step(s, Timeout, codec);
      r.outcome.Rejected? && r.outcome.error.Text() == "请求超时"
  {
  }

  /** A destroyed stream processes nothing more. */
  lemma {:induction false} DestroyedIsInert<V>(s: CallState<V>, events: seq<Event>, codec: Codec<V>)
    requires s.destroyed
    ensures Run(s, events, codec) == s
    decreases |events|
  {
    if |events| > 0 {
      DestroyedIsInert(s, events[1..], codec);
    }
  }

  /** The call's state held in fields, with the handlers `call` registers
      as methods. */
  class PendingCall<V> {
    const head: RequestHead
    const codec: Codec<V>
    /** What `req.write` was given; nothing when encoding threw first. */
    const requestBody: Option<Bytes>

    var outcome: Outcome<V>
    var timerArmed: bool
    var destroyed: bool
    var responseChunks: seq<Bytes>

    function State(): CallState<V>
      reads this
    {
      CallState(outcome, timerArmed, destroyed, responseChunks)
    }

    ghost predicate Valid()
      reads this
    {
      Inv(State())
    }

    /** The promise executor: open the request stream (which throws on a
        closed session), arm the timer, start with no chunks, then encode
        and write the request; an encoding error rejects the promise and
        leaves the timer armed. */
    constructor (head: RequestHead, sessionOpen: bool, serialized: Result<Bytes, string>, codec: Codec<V>)
      ensures Valid()
      ensures State() == Start(sessionOpen, serialized)
      ensures this.head == head && this.codec == codec
      ensures requestBody == if sessionOpen && serialized.Ok? && Frame(serialized.value).Ok? then Some(Frame(serialized.value).value) else None
    {
      this.head := head;
      this.codec := codec;
      responseChunks := [];
      if !sessionOpen {
        outcome := Rejected(SessionClosed);
        timerArmed := false;
        destroyed := true;
        requestBody := None;
      } else {
        outcome := Pending;
        timerArmed := true;
        destroyed := false;
        if serialized.Err? {
          outcome := Rejected(Unserializable(serialized.error));
          requestBody := None;
        } else {
          var frame := EncodeMessage(serialized.value);
          if frame.Err? {
            outcome := Rejected(Unframable(frame.error));
            requestBody := None;
          } else {
            requestBody := Some(frame.value);
          }
        }
      }
    }

    /** `resolve`/`reject`: only the first call has an effect. */
    method Settle(o: Outcome<V>)
      requires !o.Pending?
      modifies this
      ensures State() == SettleWith(old(State()), o)
    {
      if outcome.Pending? {
        outcome := o;
      }
    }

    /** The `response` handler. */
    method OnResponse(status: Option<string>, message: Option<string>)
      modifies this
      ensures State() == Handle(old(State()), Response(status, message), codec)
    {
      if IsErrorStatus(status) {
        timerArmed := false;
        Settle(Rejected(GrpcStatus(status.value, StatusMessage(message))));
      }
    }

    /** The `data` handler. */
    method OnData(chunk: Bytes)
      modifies this
      ensures State() == Handle(old(State()), Data(chunk), codec)
    {
      responseChunks := responseChunks + [chunk];
    }

    /** The `end` handler: clear the timer, then settle with `{}`, the
        decoded response, or the decoding error. */
    method OnEnd()
      modifies this
      ensures State() == Handle(old(State()), End, codec)
    {
      timerArmed := false;
      var responseBuffer := Concat(responseChunks);
      if |responseBuffer| == 0 {
        Settle(Resolved(EmptyObject));
        return;
      }
      var messageBuffer := DecodeGrpcResponse(responseBuffer, codec.ungzip);
      if messageBuffer.Err? {
        Settle(Rejected(BadFrame(messageBuffer.error)));
        return;
      }
      var decoded := codec.decodeMessage(messageBuffer.value);
      if decoded.Err? {
        Settle(Rejected(BadMessage(decoded.error)));
      } else {
        Settle(Resolved(Decoded(decoded.value)));
      }
    }

    /** The `error` handler. */
    method OnError(reason: string)
      modifies this
      ensures State() == Handle(old(State()), StreamError(reason), codec)
    {
      timerArmed := false;
      Settle(Rejected(Transport(reason)));
    }

    /** The timer callback: destroy the stream, then reject. */
    method OnTimeout()
      modifies this
      ensures State() == Handle(old(State()), Timeout, codec)
    {
      timerArmed := false;
      destroyed := true;
      Settle(Rejected(DeadlineExceeded));
    }

    /** The stream or the timer delivers one event. */
    method Deliver(e: Event)
      requires Valid()
      modifies this
      ensures Valid()
      ensures State() == Step(old(State()), e, codec)
    {
      if destroyed || (e.Timeout? && !timerArmed) {
        return;
      }
      match e
      case Response(status, message) => OnResponse(status, message);
      case Data(chunk) => OnData(chunk);
      case End => OnEnd();
      case StreamError(reason) => OnError(reason);
      case Timeout => OnTimeout();
    }

    /** A whole sequence of events, in order. */
    method DeliverAll(events: seq<Event>)
      requires Valid()
      modifies this
      ensures Valid()
      ensures State() == Run(old(State()), events, codec)
    {
      ghost var start := State();
      for i := 0 to |events|
        invariant Valid()
        invariant State() == Run(start, events[..i], codec)
      {
        RunAppend(start, events[..i], [events[i]], codec);
        assert events[..i + 1] == events[..i] + [events[i]];
        Deliver(events[i]);
      }
      assert events[..|events|] == events;
    }
  }
}
