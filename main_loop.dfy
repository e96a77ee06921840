/** The application loop: two sample buffers filled by the sampling loop and drained by
    the once-a-second publish task, the drop-oldest bound of ten readings, the sleep
    computation and the dispatch on the server's reply code. Lock availability and the
    result of CreateReading are inputs; each loop pass or timer tick is one step. */
module MainLoop {
  import opened Common
  import opened Defines
  import opened Rest

  /** A buffer holds at most this many readings after CheckBuffer. */
  const BUFFER_LIMIT: nat := 10
  /** The sampling period in milliseconds. */
  const SAMPLE_PERIOD_MS: int := 100

  /** CheckBuffer's effect: drop the oldest reading when there are more than ten. */
  function Trimmed(b: seq<Reading>): seq<Reading>
  {
    if |b| > BUFFER_LIMIT then b[1..] else b
  }

  /** push_back followed by CheckBuffer. */
  function AfterPush(b: seq<Reading>, e: Reading): seq<Reading>
  {
    Trimmed(b + [e])
  }

  /** The last (at most) ten readings of `s`. */
  function Newest(s: seq<Reading>): (r: seq<Reading>)
    ensures |r| <= BUFFER_LIMIT && |r| == if |s| <= BUFFER_LIMIT then |s| else BUFFER_LIMIT
    ensures r == s[|s| - |r|..]
  {
    if |s| > BUFFER_LIMIT then s[|s| - BUFFER_LIMIT..] else s
  }

  /** On a buffer of at most ten, a push keeps at most ten, keeps the new reading last,
      and keeps exactly the ten newest of the old contents and the new reading. */
  lemma AfterPushKeepsNewest(b: seq<Reading>, e: Reading)
    requires |b| <= BUFFER_LIMIT
    ensures |AfterPush(b, e)| <= BUFFER_LIMIT
    ensures AfterPush(b, e)[|AfterPush(b, e)| - 1] == e
    ensures AfterPush(b, e) == Newest(b + [e])
  {
  }

  /** The buffer after pushing `rs` one by one into an empty buffer. */
  function PushAll(rs: seq<Reading>): seq<Reading>
  {
    if rs == [] then [] else AfterPush(PushAll(rs[..|rs| - 1]), rs[|rs| - 1])
  }

  /** Pushing one reading onto the newest ten of `s` gives the newest ten of `s` with it. */
  lemma AfterPushNewest(s: seq<Reading>, e: Reading)
    ensures AfterPush(Newest(s), e) == Newest(s + [e])
  {
    if |s| > BUFFER_LIMIT {
      var w := s[|s| - BUFFER_LIMIT..] + [e];
      assert |w| == BUFFER_LIMIT + 1;
      assert w[1..] == (s + [e])[|s| + 1 - BUFFER_LIMIT..];
    }
  }

  /** However many readings arrive between two drains, the buffer holds the newest ten. */
  lemma {:induction false} PushAllIsWindow(rs: seq<Reading>)
    ensures PushAll(rs) == Newest(rs)
  {
    if rs != [] {
      var init := rs[..|rs| - 1];
      PushAllIsWindow(init);
      AfterPushNewest(init, rs[|rs| - 1]);
      assert init + [rs[|rs| - 1]] == rs;
    }
  }

  /** The sleep after a sampling pass: what is left of the 100 ms period, never negative. */
  function SleepFor(elapsed: int): (ms: int)
    ensures ms >= 0
    ensures elapsed < SAMPLE_PERIOD_MS ==> ms + elapsed == SAMPLE_PERIOD_MS
    ensures elapsed >= SAMPLE_PERIOD_MS ==> ms == 0
  {
    if SAMPLE_PERIOD_MS - elapsed > 0 then SAMPLE_PERIOD_MS - elapsed else 0
  }

  /** What ParseRestError does for a code: read the requested sensor and post that one
      reading (its result discarded), or only log one of the messages. */
  datatype LogMessage = Success | ConnectError | WriteError | ReadError | NoWifi | MqttError | ServerError
  datatype RestReaction = Reread(kind: VectorType) | Log(message: LogMessage) | NoReaction

  /** The labels of ParseRestError's switch must be distinct; REST_READ_FAIL and
      REST_SERVER_ERROR are not among the rerror enumerators and are parameters here. */
  predicate DistinctLabels(readFail: int, serverError: int)
  {
    readFail != serverError && readFail !in RestCodes() && serverError !in RestCodes()
  }

  /** ParseRestError(r). */
  function ParseRestError(r: int, readFail: int, serverError: int): (reaction: RestReaction)
    requires DistinctLabels(readFail, serverError)
  {
    if r == REST_FAIL || r == REST_OK then Log(Success)
    else if r == REST_REQUEST_ACCEL then Reread(Accelerometer)
    else if r == REST_REQUEST_MAG then Reread(Magnetometer)
    else if r == REST_REQUEST_GYRO then Reread(Gyroscope)
    else if r == REST_REQUEST_EULER then Reread(Euler)
    else if r == REST_REQUEST_LINEARA then Reread(LinearAccel)
    else if r == REST_REQUEST_GRAVITY then Reread(Gravity)
    else if r == REST_CONNECT_FAIL then Log(ConnectError)
    else if r == REST_WRITE_FAIL then Log(WriteError)
    else if r == readFail then Log(ReadError)
    else if r == REST_NO_WIFI then Log(NoWifi)
    else if r == REST_MQTT_ERROR then Log(MqttError)
    else if r == serverError then Log(ServerError)
    else NoReaction
  }

  /** Exactly the request codes 3..8 trigger a re-read, each of the matching kind (never a
      quaternion); every other code at most logs. */
  lemma ParseRestErrorDispatch(r: int, readFail: int, serverError: int)
    requires DistinctLabels(readFail, serverError)
    ensures ParseRestError(r, readFail, serverError).Reread? <==> REST_REQUEST_ACCEL <= r <= REST_REQUEST_GRAVITY
    ensures ParseRestError(r, readFail, serverError).Reread? ==>
              var kind := ParseRestError(r, readFail, serverError).kind;
              kind != QuaternionData &&
              kind == [Accelerometer, Magnetometer, Gyroscope, Euler, LinearAccel, Gravity][r - REST_REQUEST_ACCEL]
  {
  }

  lemma ReactionsToCodesSevenToNine(readFail: int, serverError: int)
    requires DistinctLabels(readFail, serverError)
    ensures ParseRestError(REST_REQUEST_LINEARA, readFail, serverError) == Reread(LinearAccel)
    ensures ParseRestError(REST_REQUEST_GRAVITY, readFail, serverError) == Reread(Gravity)
    ensures ParseRestError(REST_NO_WIFI, readFail, serverError) == Log(NoWifi)
  {
    assert RestCodes()[10] == REST_NO_WIFI;
  }

  /** A post that cannot connect, or whose header send fails, makes the root answer a
      linear-acceleration or gravity request; a failed receive reads as lost WiFi. */
  lemma SendFailuresTriggerRereads(readFail: int, serverError: int)
    requires DistinctLabels(readFail, serverError)
    ensures ParseRestError(RootResult(SendToServer(ConnectFailed).value), readFail, serverError) == Reread(LinearAccel)
    ensures ParseRestError(RootResult(SendToServer(HeaderSendFailed).value), readFail, serverError) == Reread(Gravity)
    ensures ParseRestError(RootResult(SendToServer(RecvFailed).value), readFail, serverError) == Log(NoWifi)
  {
    SendFailuresCollide();
    ReactionsToCodesSevenToNine(readFail, serverError);
  }

  /** The two sample buffers and the indices of the sampling loop and the publish task. */
  class SampleBuffers {
    const buffer: array<seq<Reading>>
    /** The `i` of the sampling loop. */
    var sampleIndex: int
    /** The static `i` of the publish task. */
    var publishIndex: int

    ghost predicate Valid()
      reads this
    {
      buffer.Length == 2 && 0 <= sampleIndex < 2 && 0 <= publishIndex < 2
    }

    constructor ()
      ensures Valid() && fresh(buffer)
      ensures buffer[..] == [[], []] && sampleIndex == 0 && publishIndex == 0
    {
      buffer := new seq<Reading>[2](_ => []);
      sampleIndex := 0;
      publishIndex := 0;
    }

    /** CheckBuffer(i): removes only the oldest reading of buffer i, and only when it holds
        more than ten. */
    method CheckBuffer(i: int)
      requires Valid() && 0 <= i < 2
      modifies buffer
      ensures buffer[i] == Trimmed(old(buffer[i]))
      ensures buffer[1 - i] == old(buffer[1 - i])
    {
      if |buffer[i]| > BUFFER_LIMIT {
        buffer[i] := buffer[i][1..];
      }
    }

    /** One pass of the sampling loop with `event` read: appended to buffer i when its lock
        is free, otherwise i switches and the event goes to the other buffer. */
    method SampleStep(event: Reading, lockFree: bool)
      requires Valid()
      modifies this, buffer
      ensures Valid()
      ensures sampleIndex == if lockFree then old(sampleIndex) else 1 - old(sampleIndex)
      ensures var j := sampleIndex;
              buffer[j] == AfterPush(old(buffer[j]), event) && buffer[1 - j] == old(buffer[1 - j])
      ensures publishIndex == old(publishIndex)
    {
      if !lockFree {
        sampleIndex := (sampleIndex + 1) % 2;
      }
      buffer[sampleIndex] := buffer[sampleIndex] + [event];
      CheckBuffer(sampleIndex);
    }

    /** One tick of PostDataAsyncThread. A non-empty buffer is posted once with
        CreateReading, whose result `createResult` is handed to ParseRestError unless it is
        REST_OK, and is then cleared; an empty one is left alone. Either way the publish
        index moves to the other buffer. */
    method PublishTick(createResult: int, readFail: int, serverError: int)
      returns (posted: Option<seq<Reading>>, reaction: Option<RestReaction>)
      requires Valid() && DistinctLabels(readFail, serverError)
      modifies this, buffer
      ensures Valid()
      ensures publishIndex == 1 - old(publishIndex) && sampleIndex == old(sampleIndex)
      ensures var i := old(publishIndex);
              buffer[1 - i] == old(buffer[1 - i]) &&
              (old(buffer[i]) == [] ==> posted.None? && reaction.None? && buffer[i] == []) &&
              (old(buffer[i]) != [] ==>
                 posted == Some(old(buffer[i])) && buffer[i] == [] &&
                 reaction == if createResult == REST_OK then None
                             else Some(ParseRestError(createResult, readFail, serverError)))
    {
      var i := publishIndex;
      posted, reaction := None, None;
      if buffer[i] != [] {
        posted := Some(buffer[i]);
        if createResult != REST_OK {
          reaction := Some(ParseRestError(createResult, readFail, serverError));
        }
        buffer[i] := [];
      }
      publishIndex := (publishIndex + 1) % 2;
    }
  }
}
