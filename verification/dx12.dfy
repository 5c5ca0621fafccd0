/** The capture path of `src/dx12.rs`: device creation, output duplication
    with bounded retry, and one frame acquisition. Every Windows call is an
    answer read from an `OsScript`; what the code prints, calls and sleeps is
    recorded in the trace. */
module Dx12 {
  import opened Results
  import opened Os

  const MaxRetries: nat := 10
  const DuplicateOutputWaitTimeMs: nat := 100
  /** Timeout passed to `AcquireNextFrame`. */
  const AcquireTimeoutMs: nat := 35
  /** `D3D_FEATURE_LEVEL_11_0`. */
  const FeatureLevel11_0: int := 0xb000
  /** `HRESULT(-1)`, returned once every duplication attempt has failed. */
  const RetriesExhausted: Error := Error(-1)

  /** What the OS answers to each call of one `dx12()` run.
      `duplicateOutput(n)` is the answer to the n-th `DuplicateOutput` attempt. */
  datatype OsScript = OsScript(
    createFactory: Outcome,
    enumAdapter: Outcome,
    createDevice: Outcome,
    enumOutput: Outcome,
    castOutput1: Outcome,
    duplicateOutput: nat -> Outcome,
    acquireNextFrame: Outcome,
    castTexture2D: Outcome,
    releaseFrame: Outcome)

  /** A device created on an adapter at a feature level. */
  datatype Device = Device(adapter: nat, featureLevel: int)

  /** A duplication handle for an output, obtained on a given attempt. */
  datatype Duplication = Duplication(output: nat, attempt: nat)

  /** The three calls `create_device` chains with `?`, in order. */
  const DeviceCalls: seq<Api> := [CreateDxgiFactory1, EnumAdapters1(0), D3D12CreateDevice(FeatureLevel11_0)]

  function DeviceOutcomes(os: OsScript): seq<Outcome>
  {
    [os.createFactory, os.enumAdapter, os.createDevice]
  }

  /** `create_device`: one attempt on adapter 0 at feature level 11_0; the
      calls are made in order up to the first failing one, whose error is
      returned. Nothing is logged and nothing is retried. */
  function CreateDevice(os: OsScript): (r: Traced<Result<Device, Error>>)
    ensures r.value.Ok? <==> FirstFailure(DeviceOutcomes(os)).None?
    ensures r.value.Ok? ==> r.value.value == Device(0, FeatureLevel11_0) && Calls(r.trace) == DeviceCalls
    ensures r.value.Err? ==> var i := FirstFailure(DeviceOutcomes(os)).value;
      r.value.error == DeviceOutcomes(os)[i].error && Calls(r.trace) == DeviceCalls[..i + 1]
    ensures |r.trace| == |Calls(r.trace)|
    ensures Attempts(r.trace) == [] && Sleeps(r.trace) == [] && Logs(r.trace) == []
  {
    match os.createFactory
    case Fails(e) =>
      assert DeviceOutcomes(os)[0].Fails?;
      Traced(Err(e), CallEvents(DeviceCalls[..1]))
    case Succeeds =>
      match os.enumAdapter
      case Fails(e) =>
        assert DeviceOutcomes(os)[1].Fails?;
        Traced(Err(e), CallEvents(DeviceCalls[..2]))
      case Succeeds =>
        match os.createDevice
        case Fails(e) =>
          assert DeviceOutcomes(os)[2].Fails?;
          assert DeviceCalls[..3] == DeviceCalls;
          Traced(Err(e), CallEvents(DeviceCalls))
        case Succeeds => Traced(Ok(Device(0, FeatureLevel11_0)), CallEvents(DeviceCalls))
  }

  /** The trace of making `calls` one after the other, none of them a
      duplication attempt. */
  function CallEvents(calls: seq<Api>): (t: seq<Event>)
    requires forall i :: 0 <= i < |calls| ==> !calls[i].DuplicateOutput?
    ensures |t| == |calls| && Calls(t) == calls
    ensures Attempts(t) == [] && Sleeps(t) == [] && Logs(t) == []
  {
    if |calls| == 0 then []
    else
      var rest := CallEvents(calls[1..]);
      ProjectCons(Call(calls[0]), rest);
      [Call(calls[0])] + rest
  }

  /** The `for retry in retry..=MAX_RETRIES` loop of `duplicate_output`. A
      failed attempt is logged with its number and is followed by a sleep
      unless it was the last one. */
  function RetryDuplicate(answer: nat -> Outcome, retry: nat): (r: Traced<Result<Duplication, Error>>)
    requires 1 <= retry <= MaxRetries + 1
    ensures r.value.Ok? ==> r.value.value.output == 0 && retry <= r.value.value.attempt <= MaxRetries
    ensures r.value.Ok? ==> answer(r.value.value.attempt).Succeeds?
    ensures r.value.Err? ==> r.value.error == RetriesExhausted
    decreases MaxRetries + 1 - retry
  {
    if retry > MaxRetries then Traced(Err(RetriesExhausted), [])
    else
      match answer(retry)
      case Succeeds => Traced(Ok(Duplication(0, retry)), SucceededAttempt(retry))
      case Fails(e) =>
        var rest := RetryDuplicate(answer, retry + 1);
        Traced(rest.value, FailedAttempt(retry, e) + rest.trace)
  }

  /** The events of the successful attempt `retry`: the call, then the
      line announcing that duplication started. */
  function SucceededAttempt(retry: nat): seq<Event>
  {
    [Call(DuplicateOutput(retry))] + [Log(DuplicationStarted)]
  }

  /** The events of the failed attempt `retry`: the call, one line with the
      attempt number, `MaxRetries` and the error, and a pause of
      `DuplicateOutputWaitTimeMs` unless it was the last attempt. */
  function FailedAttempt(retry: nat, e: Error): seq<Event>
  {
    var call, line := Call(DuplicateOutput(retry)), Log(DuplicationFailed(retry, MaxRetries, e));
    if retry < MaxRetries then [call] + ([line] + [Sleep(DuplicateOutputWaitTimeMs)])
    else [call] + [line]
  }

  /** The successful attempt `retry` makes one call, the attempt itself, and
      prints the line announcing that duplication started; it does not sleep. */
  lemma SucceededAttemptProjections(retry: nat)
    ensures Calls(SucceededAttempt(retry)) == [DuplicateOutput(retry)] && Attempts(SucceededAttempt(retry)) == [retry]
    ensures Sleeps(SucceededAttempt(retry)) == [] && Logs(SucceededAttempt(retry)) == [DuplicationStarted]
  {
    ProjectOne(Log(DuplicationStarted));
    ProjectCons(Call(DuplicateOutput(retry)), [Log(DuplicationStarted)]);
  }

  /** The failed attempt `retry` makes one call, the attempt itself, prints
      one line with its number, `MaxRetries` and the error, and sleeps
      `DuplicateOutputWaitTimeMs` unless it was the last attempt. */
  lemma FailedAttemptProjections(retry: nat, e: Error)
    ensures Calls(FailedAttempt(retry, e)) == [DuplicateOutput(retry)] && Attempts(FailedAttempt(retry, e)) == [retry]
    ensures Sleeps(FailedAttempt(retry, e)) == if retry < MaxRetries then [DuplicateOutputWaitTimeMs] else []
    ensures Logs(FailedAttempt(retry, e)) == [DuplicationFailed(retry, MaxRetries, e)]
  {
    var call, line := Call(DuplicateOutput(retry)), Log(DuplicationFailed(retry, MaxRetries, e));
    if retry < MaxRetries {
      ProjectOne(Sleep(DuplicateOutputWaitTimeMs));
      ProjectCons(line, [Sleep(DuplicateOutputWaitTimeMs)]);
      ProjectCons(call, [line] + [Sleep(DuplicateOutputWaitTimeMs)]);
    } else {
      ProjectOne(line);
      ProjectCons(call, [line]);
    }
  }

  /** The steps of the successful attempt `retry`: the attempt, then the
      line announcing that duplication started. */
  lemma SucceededAttemptSteps(retry: nat)
    ensures Pacing(SucceededAttempt(retry)) == [Try(retry)]
    ensures Reports(SucceededAttempt(retry)) == [Try(retry), Say(DuplicationStarted)]
  {
    StepOne(Log(DuplicationStarted));
    StepCons(Call(DuplicateOutput(retry)), [Log(DuplicationStarted)]);
  }

  /** The steps of the failed attempt `retry`: the attempt, at once its
      failure line, then a pause unless it was the last attempt. */
  lemma FailedAttemptSteps(retry: nat, e: Error)
    ensures Pacing(FailedAttempt(retry, e))
         == [Try(retry)] + if retry < MaxRetries then [Pause(DuplicateOutputWaitTimeMs)] else []
    ensures Reports(FailedAttempt(retry, e)) == [Try(retry), Say(DuplicationFailed(retry, MaxRetries, e))]
  {
    var call, line := Call(DuplicateOutput(retry)), Log(DuplicationFailed(retry, MaxRetries, e));
    if retry < MaxRetries {
      StepOne(Sleep(DuplicateOutputWaitTimeMs));
      StepCons(line, [Sleep(DuplicateOutputWaitTimeMs)]);
      StepCons(call, [line] + [Sleep(DuplicateOutputWaitTimeMs)]);
    } else {
      StepOne(line);
      StepCons(call, [line]);
    }
  }

  /** `duplicate_output`: output 0 and its `IDXGIOutput1` cast are obtained
      once, without retry; then up to `MaxRetries` duplication attempts. */
  function DuplicateOutputOf(os: OsScript): (r: Traced<Result<Duplication, Error>>)
    ensures r.value.Ok? ==> r.value.value.output == 0 && 1 <= r.value.value.attempt <= MaxRetries
    ensures r.value.Ok? ==> os.duplicateOutput(r.value.value.attempt).Succeeds?
    ensures r.value.Err? ==> r.value.error == RetriesExhausted || os.enumOutput.Fails? || os.castOutput1.Fails?
  {
    match os.enumOutput
    case Fails(e) => Traced(Err(e), [Call(EnumOutputs(0))])
    case Succeeds =>
      match os.castOutput1
      case Fails(e) => Traced(Err(e), [Call(EnumOutputs(0))] + [Call(CastToOutput1)])
      case Succeeds =>
        var loop := RetryDuplicate(os.duplicateOutput, 1);
        Traced(loop.value, [Call(EnumOutputs(0))] + ([Call(CastToOutput1)] + loop.trace))
  }

  /** The frame step of `dx12()`, once a duplication handle is held: the
      handle is printed and one frame is requested. A failed request is
      logged and swallowed; an acquired frame is cast to a texture,
      described and released, and errors of the cast and of the release
      propagate. `ReleaseFrame` is reached only with an acquired frame. */
  function ExamineFrame(os: OsScript): (r: Traced<Result<(), Error>>)
    ensures r.value.Ok? <==> os.acquireNextFrame.Fails? || (os.castTexture2D.Succeeds? && os.releaseFrame.Succeeds?)
    ensures r.value.Err? ==> r.value.error == if os.castTexture2D.Fails? then os.castTexture2D.error else os.releaseFrame.error
    ensures os.acquireNextFrame.Fails? ==> Logs(r.trace) == [DuplicationHandle, AcquireFailed(os.acquireNextFrame.error)]
    ensures Attempts(r.trace) == [] && Sleeps(r.trace) == []
    ensures Calls(r.trace) == FrameCalls(os)
  {
    match os.acquireNextFrame
    case Fails(e) => Traced(Ok(()), FrameNotAcquired(e))
    case Succeeds =>
      match os.castTexture2D
      case Fails(e) => Traced(Err(e), TextureCastFailed())
      case Succeeds =>
        match os.releaseFrame
        case Fails(e) => Traced(Err(e), FrameReleased())
        case Succeeds => Traced(Ok(()), FrameReleased())
  }

  /** The calls of the frame step, by how far it gets: the request, then
      the texture cast, then the description and the release. */
  function FrameCalls(os: OsScript): seq<Api>
  {
    var acquire := AcquireNextFrame(AcquireTimeoutMs);
    if os.acquireNextFrame.Fails? then [acquire]
    else if os.castTexture2D.Fails? then [acquire, CastToTexture2D]
    else [acquire, CastToTexture2D, GetDesc, ReleaseFrame]
  }

  /** The events of a frame request that the OS refused: the handle line,
      the request, and the line reporting the refusal. */
  function FrameNotAcquired(e: Error): (t: seq<Event>)
    ensures Calls(t) == [AcquireNextFrame(AcquireTimeoutMs)]
    ensures Logs(t) == [DuplicationHandle, AcquireFailed(e)]
    ensures Attempts(t) == [] && Sleeps(t) == []
  {
    var acquire := Call(AcquireNextFrame(AcquireTimeoutMs));
    ProjectOne(Log(AcquireFailed(e)));
    ProjectCons(acquire, [Log(AcquireFailed(e))]);
    ProjectCons(Log(DuplicationHandle), [acquire] + [Log(AcquireFailed(e))]);
    [Log(DuplicationHandle)] + ([acquire] + [Log(AcquireFailed(e))])
  }

  /** The events of an acquired frame whose texture cast failed. */
  function TextureCastFailed(): (t: seq<Event>)
    ensures Calls(t) == [AcquireNextFrame(AcquireTimeoutMs), CastToTexture2D]
    ensures Logs(t) == [DuplicationHandle]
    ensures Attempts(t) == [] && Sleeps(t) == []
  {
    var acquire := Call(AcquireNextFrame(AcquireTimeoutMs));
    var cast := Call(CastToTexture2D);
    ProjectOne(cast);
    ProjectCons(acquire, [cast]);
    ProjectCons(Log(DuplicationHandle), [acquire] + [cast]);
    [Log(DuplicationHandle)] + ([acquire] + [cast])
  }

  /** The events of an acquired frame that is cast, described and released. */
  function FrameReleased(): (t: seq<Event>)
    ensures Calls(t) == [AcquireNextFrame(AcquireTimeoutMs), CastToTexture2D, GetDesc, ReleaseFrame]
    ensures Logs(t) == [DuplicationHandle, TextureDescription]
    ensures Attempts(t) == [] && Sleeps(t) == []
  {
    var acquire := Call(AcquireNextFrame(AcquireTimeoutMs));
    var cast := Call(CastToTexture2D);
    var describe := [Call(GetDesc)] + ([Log(TextureDescription)] + [Call(ReleaseFrame)]);
    ProjectOne(Call(ReleaseFrame));
    ProjectCons(Log(TextureDescription), [Call(ReleaseFrame)]);
    ProjectCons(Call(GetDesc), [Log(TextureDescription)] + [Call(ReleaseFrame)]);
    ProjectCons(cast, describe);
    ProjectCons(acquire, [cast] + describe);
    ProjectCons(Log(DuplicationHandle), [acquire] + ([cast] + describe));
    [Log(DuplicationHandle)] + ([acquire] + ([cast] + describe))
  }

  /** `dx12()`: create the device, duplicate output 0, then examine one
      frame. Errors of the first two steps propagate. */
  function Capture(os: OsScript): (r: Traced<Result<(), Error>>)
    ensures r.value.Ok? ==> CreateDevice(os).value.Ok? && DuplicateOutputOf(os).value.Ok?
    ensures CreateDevice(os).value.Err? ==> r.trace == CreateDevice(os).trace
  {
    var dev := CreateDevice(os);
    match dev.value
    case Err(e) => Traced(Err(e), dev.trace)
    case Ok(_) =>
      var dup := DuplicateOutputOf(os);
      match dup.value
      case Err(e) => Traced(Err(e), dev.trace + ([Log(DevicesCreated)] + dup.trace))
      case Ok(_) =>
        var frame := ExamineFrame(os);
        Traced(frame.value, dev.trace + ([Log(DevicesCreated)] + (dup.trace + frame.trace)))
  }

  // ---------------------------------------------------------------------
  // Reference definitions for the retry loop

  /** Attempt `k` is the first of the `MaxRetries` attempts to succeed. */
  ghost predicate IsFirstSuccess(answer: nat -> Outcome, k: nat)
  {
    1 <= k <= MaxRetries && answer(k).Succeeds? && forall j :: 1 <= j < k ==> answer(j).Fails?
  }

  /** Every one of the `MaxRetries` attempts fails. */
  ghost predicate AllFail(answer: nat -> Outcome)
  {
    forall j :: 1 <= j <= MaxRetries ==> answer(j).Fails?
  }

  /** `lo, lo + 1, ..., hi - 1`. */
  function Ascending(lo: nat, hi: nat): (r: seq<nat>)
    ensures |r| == if lo <= hi then hi - lo else 0
    decreases hi - lo
  {
    if lo >= hi then [] else [lo] + Ascending(lo + 1, hi)
  }

  /** `n` copies of `x`. */
  function Repeat(x: nat, n: nat): (r: seq<nat>)
    ensures |r| == n
  {
    if n == 0 then [] else [x] + Repeat(x, n - 1)
  }

  /** The log lines of failed attempts `lo .. hi - 1`, each with its own
      attempt number, `MaxRetries` and the error the OS gave. */
  function FailureLines(answer: nat -> Outcome, lo: nat, hi: nat): (r: seq<Message>)
    requires forall j :: lo <= j < hi ==> answer(j).Fails?
    ensures |r| == if lo <= hi then hi - lo else 0
    decreases hi - lo
  {
    if lo >= hi then [] else [DuplicationFailed(lo, MaxRetries, answer(lo).error)] + FailureLines(answer, lo + 1, hi)
  }

  /** Attempts `lo, lo + 1, ..., hi` with one pause of
      `DuplicateOutputWaitTimeMs` between two consecutive ones: none before
      the first attempt and none after the last. */
  function Interleave(lo: nat, hi: nat): (r: seq<Step>)
    requires lo <= hi
    ensures |r| == 2 * (hi - lo) + 1
    decreases hi - lo
  {
    [Try(lo)] + if lo < hi then [Pause(DuplicateOutputWaitTimeMs)] + Interleave(lo + 1, hi) else []
  }

  /** Failed attempts `lo .. hi - 1`, each followed at once by its own
      failure line. */
  function FailureReports(answer: nat -> Outcome, lo: nat, hi: nat): (r: seq<Step>)
    requires forall j :: lo <= j < hi ==> answer(j).Fails?
    ensures |r| == if lo <= hi then 2 * (hi - lo) else 0
    decreases hi - lo
  {
    if lo >= hi then []
    else [Try(lo), Say(DuplicationFailed(lo, MaxRetries, answer(lo).error))] + FailureReports(answer, lo + 1, hi)
  }

  /** `Interleave` alternates: its even positions are the attempts in
      increasing order and its odd positions are pauses. */
  lemma {:induction false} InterleaveAt(lo: nat, hi: nat, i: nat)
    requires lo <= hi && i < |Interleave(lo, hi)|
    ensures Interleave(lo, hi)[i] == if i % 2 == 0 then Try(lo + i / 2) else Pause(DuplicateOutputWaitTimeMs)
    decreases hi - lo
  {
    if i >= 2 {
      var rest := Interleave(lo + 1, hi);
      assert Interleave(lo, hi) == [Try(lo)] + ([Pause(DuplicateOutputWaitTimeMs)] + rest);
      assert Interleave(lo, hi)[i] == rest[i - 2];
      InterleaveAt(lo + 1, hi, i - 2);
    }
  }

  /** Either some attempt is the first to succeed, or all fail. */
  lemma {:induction false} FirstSuccessOrAllFail(answer: nat -> Outcome, lo: nat)
    requires 1 <= lo <= MaxRetries + 1
    requires forall j :: 1 <= j < lo ==> answer(j).Fails?
    ensures AllFail(answer) || exists k :: IsFirstSuccess(answer, k)
    decreases MaxRetries + 1 - lo
  {
    if lo <= MaxRetries {
      if answer(lo).Succeeds? {
        assert IsFirstSuccess(answer, lo);
      } else {
        FirstSuccessOrAllFail(answer, lo + 1);
      }
    }
  }

  // ---------------------------------------------------------------------
  // The retry loop

  /** One failed attempt: it is called once, with its own number, and the
      loop then carries on with the next attempt and its result. */
  lemma RetryFailedStep(answer: nat -> Outcome, retry: nat)
    requires 1 <= retry <= MaxRetries
    requires answer(retry).Fails?
    ensures RetryDuplicate(answer, retry).value == RetryDuplicate(answer, retry + 1).value
    ensures Calls(RetryDuplicate(answer, retry).trace)
         == [DuplicateOutput(retry)] + Calls(RetryDuplicate(answer, retry + 1).trace)
    ensures Attempts(RetryDuplicate(answer, retry).trace)
         == [retry] + Attempts(RetryDuplicate(answer, retry + 1).trace)
  {
    var e := answer(retry).error;
    FailedAttemptProjections(retry, e);
    CallsConcat(FailedAttempt(retry, e), RetryDuplicate(answer, retry + 1).trace);
    AttemptsConcat(FailedAttempt(retry, e), RetryDuplicate(answer, retry + 1).trace);
  }

  /** A failed attempt is followed by a sleep unless it is the last. */
  lemma RetryFailedSleeps(answer: nat -> Outcome, retry: nat)
    requires 1 <= retry <= MaxRetries
    requires answer(retry).Fails?
    ensures Sleeps(RetryDuplicate(answer, retry).trace)
         == (if retry < MaxRetries then [DuplicateOutputWaitTimeMs] else []) + Sleeps(RetryDuplicate(answer, retry + 1).trace)
  {
    FailedAttemptProjections(retry, answer(retry).error);
    SleepsConcat(FailedAttempt(retry, answer(retry).error), RetryDuplicate(answer, retry + 1).trace);
  }

  /** A failed attempt logs one line with its number and its error. */
  lemma RetryFailedLogs(answer: nat -> Outcome, retry: nat)
    requires 1 <= retry <= MaxRetries
    requires answer(retry).Fails?
    ensures Logs(RetryDuplicate(answer, retry).trace)
         == [DuplicationFailed(retry, MaxRetries, answer(retry).error)] + Logs(RetryDuplicate(answer, retry + 1).trace)
  {
    FailedAttemptProjections(retry, answer(retry).error);
    LogsConcat(FailedAttempt(retry, answer(retry).error), RetryDuplicate(answer, retry + 1).trace);
  }

  /** The first successful attempt `k` wins, and attempts `retry..k` are
      made in increasing order. */
  lemma {:induction false} RetryWinsAt(answer: nat -> Outcome, retry: nat, k: nat)
    requires 1 <= retry <= k <= MaxRetries
    requires answer(k).Succeeds?
    requires forall j :: retry <= j < k ==> answer(j).Fails?
    ensures RetryDuplicate(answer, retry).value == Ok(Duplication(0, k))
    ensures Attempts(RetryDuplicate(answer, retry).trace) == Ascending(retry, k + 1)
    decreases k - retry
  {
    if retry < k {
      RetryFailedStep(answer, retry);
      RetryWinsAt(answer, retry + 1, k);
      calc {
        Attempts(RetryDuplicate(answer, retry).trace);
        [retry] + Attempts(RetryDuplicate(answer, retry + 1).trace);
        [retry] + Ascending(retry + 1, k + 1);
        Ascending(retry, k + 1);
      }
    } else {
      RetrySucceedsNow(answer, retry);
      assert Ascending(k, k + 1) == [k];
    }
  }

  /** Up to the winning attempt `k` there is one sleep per failed attempt;
      where each falls is stated by `RetryWinsAtPacing`. */
  lemma {:induction false} RetryWinsAtSleeps(answer: nat -> Outcome, retry: nat, k: nat)
    requires 1 <= retry <= k <= MaxRetries
    requires answer(k).Succeeds?
    requires forall j :: retry <= j < k ==> answer(j).Fails?
    ensures Sleeps(RetryDuplicate(answer, retry).trace) == Repeat(DuplicateOutputWaitTimeMs, k - retry)
    decreases k - retry
  {
    if retry < k {
      RetryFailedSleeps(answer, retry);
      RetryWinsAtSleeps(answer, retry + 1, k);
    } else {
      RetrySucceedsNow(answer, retry);
    }
  }

  /** Each failure before the winning attempt `k` is logged in order, and
      the win is announced last. */
  lemma {:induction false} RetryWinsAtLogs(answer: nat -> Outcome, retry: nat, k: nat)
    requires 1 <= retry <= k <= MaxRetries
    requires answer(k).Succeeds?
    requires forall j :: retry <= j < k ==> answer(j).Fails?
    ensures Logs(RetryDuplicate(answer, retry).trace) == FailureLines(answer, retry, k) + [DuplicationStarted]
    decreases k - retry
  {
    if retry < k {
      var line := DuplicationFailed(retry, MaxRetries, answer(retry).error);
      calc {
        Logs(RetryDuplicate(answer, retry).trace);
        { RetryFailedLogs(answer, retry); }
        [line] + Logs(RetryDuplicate(answer, retry + 1).trace);
        { RetryWinsAtLogs(answer, retry + 1, k); }
        [line] + (FailureLines(answer, retry + 1, k) + [DuplicationStarted]);
        { Reassociate([line], FailureLines(answer, retry + 1, k), [DuplicationStarted]); }
        FailureLines(answer, retry, k) + [DuplicationStarted];
      }
    } else {
      RetrySucceedsNow(answer, retry);
      assert FailureLines(answer, k, k) + [DuplicationStarted] == [DuplicationStarted];
    }
  }

  /** A successful attempt ends the loop at once. */
  lemma RetrySucceedsNow(answer: nat -> Outcome, retry: nat)
    requires 1 <= retry <= MaxRetries
    requires answer(retry).Succeeds?
    ensures RetryDuplicate(answer, retry).value == Ok(Duplication(0, retry))
    ensures Attempts(RetryDuplicate(answer, retry).trace) == [retry]
    ensures Sleeps(RetryDuplicate(answer, retry).trace) == []
    ensures Logs(RetryDuplicate(answer, retry).trace) == [DuplicationStarted]
  {
    assert RetryDuplicate(answer, retry).trace == SucceededAttempt(retry);
    SucceededAttemptProjections(retry);
  }

  /** When attempts `retry..MaxRetries` all fail, each is made once, in
      order, and the loop gives up with `HRESULT(-1)`. */
  lemma {:induction false} RetryExhausts(answer: nat -> Outcome, retry: nat)
    requires 1 <= retry <= MaxRetries
    requires forall j :: retry <= j <= MaxRetries ==> answer(j).Fails?
    ensures RetryDuplicate(answer, retry).value == Err(RetriesExhausted)
    ensures Attempts(RetryDuplicate(answer, retry).trace) == Ascending(retry, MaxRetries + 1)
    decreases MaxRetries - retry
  {
    RetryFailedStep(answer, retry);
    if retry < MaxRetries {
      RetryExhausts(answer, retry + 1);
      calc {
        Attempts(RetryDuplicate(answer, retry).trace);
        [retry] + Attempts(RetryDuplicate(answer, retry + 1).trace);
        [retry] + Ascending(retry + 1, MaxRetries + 1);
        Ascending(retry, MaxRetries + 1);
      }
    } else {
      assert RetryDuplicate(answer, retry + 1).trace == [];
      assert Ascending(retry, MaxRetries + 1) == [retry];
    }
  }

  /** When attempts `retry..MaxRetries` all fail, there is one sleep fewer
      than attempts; where each falls is stated by `RetryExhaustsPacing`. */
  lemma {:induction false} RetryExhaustsSleeps(answer: nat -> Outcome, retry: nat)
    requires 1 <= retry <= MaxRetries
    requires forall j :: retry <= j <= MaxRetries ==> answer(j).Fails?
    ensures Sleeps(RetryDuplicate(answer, retry).trace) == Repeat(DuplicateOutputWaitTimeMs, MaxRetries - retry)
    decreases MaxRetries - retry
  {
    RetryFailedSleeps(answer, retry);
    if retry < MaxRetries {
      RetryExhaustsSleeps(answer, retry + 1);
      assert Repeat(DuplicateOutputWaitTimeMs, MaxRetries - retry)
          == [DuplicateOutputWaitTimeMs] + Repeat(DuplicateOutputWaitTimeMs, MaxRetries - (retry + 1));
    } else {
      assert RetryDuplicate(answer, retry + 1).trace == [];
    }
  }

  /** When attempts `retry..MaxRetries` all fail, each failure is logged in
      order with its own error. */
  lemma {:induction false} RetryExhaustsLogs(answer: nat -> Outcome, retry: nat)
    requires 1 <= retry <= MaxRetries
    requires forall j :: retry <= j <= MaxRetries ==> answer(j).Fails?
    ensures Logs(RetryDuplicate(answer, retry).trace) == FailureLines(answer, retry, MaxRetries + 1)
    decreases MaxRetries - retry
  {
    var line := DuplicationFailed(retry, MaxRetries, answer(retry).error);
    RetryFailedLogs(answer, retry);
    var rest := Logs(RetryDuplicate(answer, retry + 1).trace);
    if retry < MaxRetries {
      RetryExhaustsLogs(answer, retry + 1);
      assert rest == FailureLines(answer, retry + 1, MaxRetries + 1);
    } else {
      assert RetryDuplicate(answer, retry + 1).trace == [];
      assert rest == [] == FailureLines(answer, retry + 1, MaxRetries + 1);
    }
    assert [line] + FailureLines(answer, retry + 1, MaxRetries + 1) == FailureLines(answer, retry, MaxRetries + 1);
  }

  /** A failed attempt is followed by a pause unless it is the last. */
  lemma RetryFailedPacing(answer: nat -> Outcome, retry: nat)
    requires 1 <= retry <= MaxRetries
    requires answer(retry).Fails?
    ensures Pacing(RetryDuplicate(answer, retry).trace)
         == ([Try(retry)] + if retry < MaxRetries then [Pause(DuplicateOutputWaitTimeMs)] else [])
            + Pacing(RetryDuplicate(answer, retry + 1).trace)
  {
    FailedAttemptSteps(retry, answer(retry).error);
    PacingConcat(FailedAttempt(retry, answer(retry).error), RetryDuplicate(answer, retry + 1).trace);
  }

  /** A failed attempt is reported right after it is made. */
  lemma RetryFailedReports(answer: nat -> Outcome, retry: nat)
    requires 1 <= retry <= MaxRetries
    requires answer(retry).Fails?
    ensures Reports(RetryDuplicate(answer, retry).trace)
         == [Try(retry), Say(DuplicationFailed(retry, MaxRetries, answer(retry).error))]
            + Reports(RetryDuplicate(answer, retry + 1).trace)
  {
    FailedAttemptSteps(retry, answer(retry).error);
    ReportsConcat(FailedAttempt(retry, answer(retry).error), RetryDuplicate(answer, retry + 1).trace);
  }

  /** Up to the winning attempt `k`, attempts and pauses alternate: each
      pause falls between two attempts. */
  lemma {:induction false} RetryWinsAtPacing(answer: nat -> Outcome, retry: nat, k: nat)
    requires 1 <= retry <= k <= MaxRetries
    requires answer(k).Succeeds?
    requires forall j :: retry <= j < k ==> answer(j).Fails?
    ensures Pacing(RetryDuplicate(answer, retry).trace) == Interleave(retry, k)
    decreases k - retry
  {
    if retry < k {
      var pause := [Pause(DuplicateOutputWaitTimeMs)];
      calc {
        Pacing(RetryDuplicate(answer, retry).trace);
        { RetryFailedPacing(answer, retry); }
        ([Try(retry)] + pause) + Pacing(RetryDuplicate(answer, retry + 1).trace);
        { RetryWinsAtPacing(answer, retry + 1, k); }
        ([Try(retry)] + pause) + Interleave(retry + 1, k);
        { Reassociate([Try(retry)], pause, Interleave(retry + 1, k)); }
        Interleave(retry, k);
      }
    } else {
      assert RetryDuplicate(answer, retry).trace == SucceededAttempt(retry);
      SucceededAttemptSteps(k);
      assert Interleave(k, k) == [Try(k)];
    }
  }

  /** Up to the winning attempt `k`, each failed attempt is reported right
      after it is made, and the win is announced right after attempt `k`. */
  lemma {:induction false} RetryWinsAtReports(answer: nat -> Outcome, retry: nat, k: nat)
    requires 1 <= retry <= k <= MaxRetries
    requires answer(k).Succeeds?
    requires forall j :: retry <= j < k ==> answer(j).Fails?
    ensures Reports(RetryDuplicate(answer, retry).trace)
         == FailureReports(answer, retry, k) + [Try(k), Say(DuplicationStarted)]
    decreases k - retry
  {
    if retry < k {
      var failed := [Try(retry), Say(DuplicationFailed(retry, MaxRetries, answer(retry).error))];
      calc {
        Reports(RetryDuplicate(answer, retry).trace);
        { RetryFailedReports(answer, retry); }
        failed + Reports(RetryDuplicate(answer, retry + 1).trace);
        { RetryWinsAtReports(answer, retry + 1, k); }
        failed + (FailureReports(answer, retry + 1, k) + [Try(k), Say(DuplicationStarted)]);
        { Reassociate(failed, FailureReports(answer, retry + 1, k), [Try(k), Say(DuplicationStarted)]); }
        FailureReports(answer, retry, k) + [Try(k), Say(DuplicationStarted)];
      }
    } else {
      assert RetryDuplicate(answer, retry).trace == SucceededAttempt(retry);
      SucceededAttemptSteps(k);
      assert FailureReports(answer, k, k) == [];
    }
  }

  /** When attempts `retry..MaxRetries` all fail, attempts and pauses
      alternate, ending with the last attempt. */
  lemma {:induction false} RetryExhaustsPacing(answer: nat -> Outcome, retry: nat)
    requires 1 <= retry <= MaxRetries
    requires forall j :: retry <= j <= MaxRetries ==> answer(j).Fails?
    ensures Pacing(RetryDuplicate(answer, retry).trace) == Interleave(retry, MaxRetries)
    decreases MaxRetries - retry
  {
    RetryFailedPacing(answer, retry);
    if retry < MaxRetries {
      var pause := [Pause(DuplicateOutputWaitTimeMs)];
      RetryExhaustsPacing(answer, retry + 1);
      Reassociate([Try(retry)], pause, Interleave(retry + 1, MaxRetries));
    } else {
      assert RetryDuplicate(answer, retry + 1).trace == [];
      assert Interleave(retry, retry) == [Try(retry)];
    }
  }

  /** When attempts `retry..MaxRetries` all fail, each is reported right
      after it is made. */
  lemma {:induction false} RetryExhaustsReports(answer: nat -> Outcome, retry: nat)
    requires 1 <= retry <= MaxRetries
    requires forall j :: retry <= j <= MaxRetries ==> answer(j).Fails?
    ensures Reports(RetryDuplicate(answer, retry).trace) == FailureReports(answer, retry, MaxRetries + 1)
    decreases MaxRetries - retry
  {
    RetryFailedReports(answer, retry);
    var rest := Reports(RetryDuplicate(answer, retry + 1).trace);
    if retry < MaxRetries {
      RetryExhaustsReports(answer, retry + 1);
      assert rest == FailureReports(answer, retry + 1, MaxRetries + 1);
    } else {
      assert RetryDuplicate(answer, retry + 1).trace == [];
      assert rest == [] == FailureReports(answer, retry + 1, MaxRetries + 1);
    }
  }

  /** Every call in `cs` is a `DuplicateOutput`. */
  predicate OnlyDuplicateOutput(cs: seq<Api>)
  {
    |cs| == 0 || (cs[0].DuplicateOutput? && OnlyDuplicateOutput(cs[1..]))
  }

  lemma {:induction false} OnlyDuplicateOutputMember(cs: seq<Api>, a: Api)
    requires OnlyDuplicateOutput(cs) && a in cs
    ensures a.DuplicateOutput?
    decreases |cs|
  {
    if a != cs[0] {
      assert a in cs[1..];
      OnlyDuplicateOutputMember(cs[1..], a);
    }
  }

  /** The retry loop makes no call other than `DuplicateOutput`. */
  lemma {:induction false} RetryCallsOnlyDuplicate(answer: nat -> Outcome, retry: nat)
    requires 1 <= retry <= MaxRetries + 1
    ensures OnlyDuplicateOutput(Calls(RetryDuplicate(answer, retry).trace))
    decreases MaxRetries + 1 - retry
  {
    if retry > MaxRetries {
      assert RetryDuplicate(answer, retry).trace == [];
    } else if answer(retry).Succeeds? {
      assert RetryDuplicate(answer, retry).trace == SucceededAttempt(retry);
      SucceededAttemptProjections(retry);
      assert [DuplicateOutput(retry)][1..] == [];
    } else {
      var next := Calls(RetryDuplicate(answer, retry + 1).trace);
      RetryFailedStep(answer, retry);
      RetryCallsOnlyDuplicate(answer, retry + 1);
      assert ([DuplicateOutput(retry)] + next)[1..] == next;
    }
  }

  // ---------------------------------------------------------------------
  // duplicate_output

  function OutputOutcomes(os: OsScript): seq<Outcome>
  {
    [os.enumOutput, os.castOutput1]
  }

  /** A failure of `EnumOutputs(0)` or of the `IDXGIOutput1` cast is
      returned at once: no duplication attempt, no sleep. */
  lemma DuplicateOutputNoOutput(os: OsScript)
    requires FirstFailure(OutputOutcomes(os)).Some?
    ensures DuplicateOutputOf(os).value == Err(OutputOutcomes(os)[FirstFailure(OutputOutcomes(os)).value].error)
    ensures Attempts(DuplicateOutputOf(os).trace) == []
    ensures Sleeps(DuplicateOutputOf(os).trace) == []
  {
    var t := DuplicateOutputOf(os).trace;
    if os.enumOutput.Fails? {
      ProjectOne(Call(EnumOutputs(0)));
    } else {
      ProjectCons(Call(EnumOutputs(0)), [Call(CastToOutput1)]);
      ProjectOne(Call(CastToOutput1));
    }
  }

  /** With output 0 available, `duplicate_output` returns the handle of the
      first successful attempt `k` after exactly `k` attempts and `k - 1`
      sleeps of `DuplicateOutputWaitTimeMs`. */
  lemma DuplicateOutputWins(os: OsScript, k: nat)
    requires FirstFailure(OutputOutcomes(os)).None?
    requires IsFirstSuccess(os.duplicateOutput, k)
    ensures DuplicateOutputOf(os).value == Ok(Duplication(0, k))
    ensures Attempts(DuplicateOutputOf(os).trace) == Ascending(1, k + 1)
    ensures Sleeps(DuplicateOutputOf(os).trace) == Repeat(DuplicateOutputWaitTimeMs, k - 1)
    ensures Logs(DuplicateOutputOf(os).trace) == FailureLines(os.duplicateOutput, 1, k) + [DuplicationStarted]
  {
    assert os.enumOutput.Succeeds? && os.castOutput1.Succeeds?;
    var loop := RetryDuplicate(os.duplicateOutput, 1);
    RetryWinsAt(os.duplicateOutput, 1, k);
    RetryWinsAtSleeps(os.duplicateOutput, 1, k);
    RetryWinsAtLogs(os.duplicateOutput, 1, k);
    ProjectCons(Call(EnumOutputs(0)), [Call(CastToOutput1)] + loop.trace);
    ProjectCons(Call(CastToOutput1), loop.trace);
    assert DuplicateOutputOf(os).trace == [Call(EnumOutputs(0))] + ([Call(CastToOutput1)] + loop.trace);
  }

  /** With output 0 available and all `MaxRetries` attempts failing,
      `duplicate_output` returns `HRESULT(-1)` after 10 attempts, 10 failure
      lines and 9 sleeps. */
  lemma DuplicateOutputExhausted(os: OsScript)
    requires FirstFailure(OutputOutcomes(os)).None?
    requires AllFail(os.duplicateOutput)
    ensures DuplicateOutputOf(os).value == Err(RetriesExhausted)
    ensures Attempts(DuplicateOutputOf(os).trace) == Ascending(1, MaxRetries + 1)
    ensures Sleeps(DuplicateOutputOf(os).trace) == Repeat(DuplicateOutputWaitTimeMs, MaxRetries - 1)
    ensures Logs(DuplicateOutputOf(os).trace) == FailureLines(os.duplicateOutput, 1, MaxRetries + 1)
  {
    assert os.enumOutput.Succeeds? && os.castOutput1.Succeeds?;
    var loop := RetryDuplicate(os.duplicateOutput, 1);
    RetryExhausts(os.duplicateOutput, 1);
    RetryExhaustsSleeps(os.duplicateOutput, 1);
    RetryExhaustsLogs(os.duplicateOutput, 1);
    ProjectCons(Call(EnumOutputs(0)), [Call(CastToOutput1)] + loop.trace);
    ProjectCons(Call(CastToOutput1), loop.trace);
    assert DuplicateOutputOf(os).trace == [Call(EnumOutputs(0))] + ([Call(CastToOutput1)] + loop.trace);
  }

  /** With output 0 available and attempt `k` the first success, attempts
      `1..k` alternate with pauses, each failed attempt is reported right
      after it is made, and the success line follows attempt `k`. */
  lemma DuplicateOutputWinsOrder(os: OsScript, k: nat)
    requires FirstFailure(OutputOutcomes(os)).None?
    requires IsFirstSuccess(os.duplicateOutput, k)
    ensures Pacing(DuplicateOutputOf(os).trace) == Interleave(1, k)
    ensures Reports(DuplicateOutputOf(os).trace)
         == FailureReports(os.duplicateOutput, 1, k) + [Try(k), Say(DuplicationStarted)]
  {
    assert os.enumOutput.Succeeds? && os.castOutput1.Succeeds?;
    var loop := RetryDuplicate(os.duplicateOutput, 1);
    RetryWinsAtPacing(os.duplicateOutput, 1, k);
    RetryWinsAtReports(os.duplicateOutput, 1, k);
    StepCons(Call(EnumOutputs(0)), [Call(CastToOutput1)] + loop.trace);
    StepCons(Call(CastToOutput1), loop.trace);
    assert DuplicateOutputOf(os).trace == [Call(EnumOutputs(0))] + ([Call(CastToOutput1)] + loop.trace);
  }

  /** With output 0 available and all attempts failing, attempts
      `1..MaxRetries` alternate with pauses, with no pause after the last,
      and each is reported right after it is made. */
  lemma DuplicateOutputExhaustedOrder(os: OsScript)
    requires FirstFailure(OutputOutcomes(os)).None?
    requires AllFail(os.duplicateOutput)
    ensures Pacing(DuplicateOutputOf(os).trace) == Interleave(1, MaxRetries)
    ensures Reports(DuplicateOutputOf(os).trace) == FailureReports(os.duplicateOutput, 1, MaxRetries + 1)
  {
    assert os.enumOutput.Succeeds? && os.castOutput1.Succeeds?;
    var loop := RetryDuplicate(os.duplicateOutput, 1);
    RetryExhaustsPacing(os.duplicateOutput, 1);
    RetryExhaustsReports(os.duplicateOutput, 1);
    StepCons(Call(EnumOutputs(0)), [Call(CastToOutput1)] + loop.trace);
    StepCons(Call(CastToOutput1), loop.trace);
    assert DuplicateOutputOf(os).trace == [Call(EnumOutputs(0))] + ([Call(CastToOutput1)] + loop.trace);
  }

  /** Whatever the OS answers, `duplicate_output` succeeds exactly when some
      attempt succeeds, returns the first such attempt's handle, and
      otherwise fails with `HRESULT(-1)` or the output's own error. */
  lemma DuplicateOutputOutcome(os: OsScript)
    ensures var r := DuplicateOutputOf(os);
      r.value.Ok? <==> FirstFailure(OutputOutcomes(os)).None? && !AllFail(os.duplicateOutput)
    ensures var r := DuplicateOutputOf(os);
      r.value.Ok? ==> IsFirstSuccess(os.duplicateOutput, r.value.value.attempt)
    ensures var r := DuplicateOutputOf(os);
      r.value.Err? && FirstFailure(OutputOutcomes(os)).None? ==> r.value.error == RetriesExhausted
    ensures var r := DuplicateOutputOf(os);
      FirstFailure(OutputOutcomes(os)).Some? ==>
        r.value == Err(OutputOutcomes(os)[FirstFailure(OutputOutcomes(os)).value].error)
  {
    if FirstFailure(OutputOutcomes(os)).Some? {
      DuplicateOutputNoOutput(os);
    } else {
      FirstSuccessOrAllFail(os.duplicateOutput, 1);
      if AllFail(os.duplicateOutput) {
        DuplicateOutputExhausted(os);
      } else {
        var k :| IsFirstSuccess(os.duplicateOutput, k);
        DuplicateOutputWins(os, k);
      }
    }
  }

  /** Whatever the OS answers, the duplication attempts are numbered
      `1, 2, ...`, at most `MaxRetries` of them, with one sleep of
      `DuplicateOutputWaitTimeMs` fewer than attempts. */
  lemma DuplicateOutputCounts(os: OsScript)
    ensures var n := |Attempts(DuplicateOutputOf(os).trace)|;
      n <= MaxRetries && Attempts(DuplicateOutputOf(os).trace) == Ascending(1, n + 1)
    ensures var n := |Attempts(DuplicateOutputOf(os).trace)|;
      Sleeps(DuplicateOutputOf(os).trace) == Repeat(DuplicateOutputWaitTimeMs, if n == 0 then 0 else n - 1)
  {
    if FirstFailure(OutputOutcomes(os)).Some? {
      DuplicateOutputNoOutput(os);
    } else {
      FirstSuccessOrAllFail(os.duplicateOutput, 1);
      if AllFail(os.duplicateOutput) {
        DuplicateOutputExhausted(os);
      } else {
        var k :| IsFirstSuccess(os.duplicateOutput, k);
        DuplicateOutputWins(os, k);
      }
    }
  }

  /** `duplicate_output` first enumerates output 0 and stops there if that
      fails; it then casts the output to `IDXGIOutput1` and stops there if
      that fails; every later call is a duplication attempt. */
  lemma DuplicateOutputCallOrder(os: OsScript)
    ensures var c := Calls(DuplicateOutputOf(os).trace);
      && |c| >= 1 && c[0] == EnumOutputs(0)
      && (os.enumOutput.Fails? ==> |c| == 1)
      && (os.enumOutput.Succeeds? ==> |c| >= 2 && c[1] == CastToOutput1 && OnlyDuplicateOutput(c[2..]))
      && (os.enumOutput.Succeeds? && os.castOutput1.Fails? ==> |c| == 2)
  {
    var loop := RetryDuplicate(os.duplicateOutput, 1).trace;
    DuplicateOutputSteps(os);
    if os.enumOutput.Fails? {
      ProjectOne(Call(EnumOutputs(0)));
    } else if os.castOutput1.Fails? {
      CallsOfTwo(EnumOutputs(0), CastToOutput1, []);
    } else {
      RetryCallsOnlyDuplicate(os.duplicateOutput, 1);
      CallsOfTwo(EnumOutputs(0), CastToOutput1, loop);
    }
  }

  /** An unfolding aid: the trace of `duplicate_output` by how far it gets,
      as its body builds it. */
  lemma DuplicateOutputSteps(os: OsScript)
    ensures os.enumOutput.Fails? ==> DuplicateOutputOf(os).trace == [Call(EnumOutputs(0))]
    ensures os.enumOutput.Succeeds? && os.castOutput1.Fails? ==>
      DuplicateOutputOf(os).trace == [Call(EnumOutputs(0))] + ([Call(CastToOutput1)] + [])
    ensures os.enumOutput.Succeeds? && os.castOutput1.Succeeds? ==>
      DuplicateOutputOf(os).trace
        == [Call(EnumOutputs(0))] + ([Call(CastToOutput1)] + RetryDuplicate(os.duplicateOutput, 1).trace)
  {
  }

  /** The calls of two calls followed by `t`. */
  lemma CallsOfTwo(a: Api, b: Api, t: seq<Event>)
    ensures var c := Calls([Call(a)] + ([Call(b)] + t));
      |c| == 2 + |Calls(t)| && c[0] == a && c[1] == b && c[2..] == Calls(t)
  {
    ProjectCons(Call(a), [Call(b)] + t);
    ProjectCons(Call(b), t);
  }

  /** `duplicate_output` neither requests nor releases a frame. */
  lemma DuplicateOutputCalls(os: OsScript)
    ensures AcquireNextFrame(AcquireTimeoutMs) !in Calls(DuplicateOutputOf(os).trace)
    ensures ReleaseFrame !in Calls(DuplicateOutputOf(os).trace)
  {
    if os.enumOutput.Fails? {
      ProjectOne(Call(EnumOutputs(0)));
    } else if os.castOutput1.Fails? {
      ProjectCons(Call(EnumOutputs(0)), [Call(CastToOutput1)]);
      ProjectOne(Call(CastToOutput1));
    } else {
      var loop := RetryDuplicate(os.duplicateOutput, 1);
      var loopCalls := Calls(loop.trace);
      RetryCallsOnlyDuplicate(os.duplicateOutput, 1);
      if AcquireNextFrame(AcquireTimeoutMs) in loopCalls {
        OnlyDuplicateOutputMember(loopCalls, AcquireNextFrame(AcquireTimeoutMs));
      }
      if ReleaseFrame in loopCalls {
        OnlyDuplicateOutputMember(loopCalls, ReleaseFrame);
      }
      ProjectCons(Call(EnumOutputs(0)), [Call(CastToOutput1)] + loop.trace);
      ProjectCons(Call(CastToOutput1), loop.trace);
    }
  }

  // ---------------------------------------------------------------------
  // dx12()

  /** The trace of `dx12()` is made of the device creation's, then, if that
      succeeded, `duplicate_output`'s, then, if that succeeded, the frame
      step's. */
  lemma CaptureProjection(os: OsScript)
    ensures CreateDevice(os).value.Err? ==> Calls(Capture(os).trace) == Calls(CreateDevice(os).trace)
    ensures CreateDevice(os).value.Ok? && DuplicateOutputOf(os).value.Err? ==>
      Calls(Capture(os).trace) == Calls(CreateDevice(os).trace) + Calls(DuplicateOutputOf(os).trace)
    ensures CreateDevice(os).value.Ok? && DuplicateOutputOf(os).value.Ok? ==>
      Calls(Capture(os).trace)
        == Calls(CreateDevice(os).trace) + (Calls(DuplicateOutputOf(os).trace) + Calls(ExamineFrame(os).trace))
    ensures Attempts(Capture(os).trace)
         == if CreateDevice(os).value.Err? then [] else Attempts(DuplicateOutputOf(os).trace)
    ensures Sleeps(Capture(os).trace)
         == if CreateDevice(os).value.Err? then [] else Sleeps(DuplicateOutputOf(os).trace)
  {
    var dev := CreateDevice(os);
    var dup := DuplicateOutputOf(os);
    var created := Log(DevicesCreated);
    if dev.value.Ok? {
      if dup.value.Err? {
        ProjectConcat(dev.trace, [created] + dup.trace);
        ProjectCons(created, dup.trace);
        assert [] + Calls(dup.trace) == Calls(dup.trace);
        assert [] + Attempts(dup.trace) == Attempts(dup.trace);
        assert [] + Sleeps(dup.trace) == Sleeps(dup.trace);
      } else {
        var frame := ExamineFrame(os);
        ProjectJoin(dev.trace, created, dup.trace, frame.trace);
        assert [] + (Calls(dup.trace) + Calls(frame.trace)) == Calls(dup.trace) + Calls(frame.trace);
        assert Attempts(dup.trace) + Attempts(frame.trace) == Attempts(dup.trace);
        assert Sleeps(dup.trace) + Sleeps(frame.trace) == Sleeps(dup.trace);
      }
    }
  }

  /** What `dx12()` prints: nothing when no device is created; otherwise the
      line announcing the devices, then every line of `duplicate_output`,
      then, once a duplication is held, the lines of the frame step. */
  lemma CaptureLogs(os: OsScript)
    ensures CreateDevice(os).value.Err? ==> Logs(Capture(os).trace) == []
    ensures CreateDevice(os).value.Ok? ==>
      Logs(Capture(os).trace)
        == [DevicesCreated] + Logs(DuplicateOutputOf(os).trace)
           + (if DuplicateOutputOf(os).value.Ok? then Logs(ExamineFrame(os).trace) else [])
  {
    if CreateDevice(os).value.Err? {
      assert Capture(os).trace == CreateDevice(os).trace;
    } else if DuplicateOutputOf(os).value.Err? {
      CaptureLogsWithoutFrame(os);
    } else {
      CaptureLogsWithFrame(os);
    }
  }

  /** An unfolding aid: `dx12()`'s result and trace by how far it gets, as
      its body builds them. Proving this once keeps the unfolding of
      `Capture` out of the lemmas about its projections. */
  lemma CaptureSteps(os: OsScript)
    ensures CreateDevice(os).value.Ok? && DuplicateOutputOf(os).value.Err? ==>
      Capture(os) == Traced(Err(DuplicateOutputOf(os).value.error),
                            CreateDevice(os).trace + ([Log(DevicesCreated)] + DuplicateOutputOf(os).trace))
    ensures CreateDevice(os).value.Ok? && DuplicateOutputOf(os).value.Ok? ==>
      Capture(os) == Traced(ExamineFrame(os).value,
                            CreateDevice(os).trace + ([Log(DevicesCreated)] + (DuplicateOutputOf(os).trace + ExamineFrame(os).trace)))
  {
  }

  lemma CaptureLogsWithoutFrame(os: OsScript)
    requires CreateDevice(os).value.Ok? && DuplicateOutputOf(os).value.Err?
    ensures Logs(Capture(os).trace) == [DevicesCreated] + Logs(DuplicateOutputOf(os).trace) + []
  {
    var dev, dup := CreateDevice(os), DuplicateOutputOf(os);
    assert Logs(Capture(os).trace) == [DevicesCreated] + Logs(dup.trace) by {
      CaptureSteps(os);
      LogsAfterDevices(dev.trace, dup.trace);
    }
    assert [DevicesCreated] + Logs(dup.trace) + [] == [DevicesCreated] + Logs(dup.trace);
  }

  lemma CaptureLogsWithFrame(os: OsScript)
    requires CreateDevice(os).value.Ok? && DuplicateOutputOf(os).value.Ok?
    ensures Logs(Capture(os).trace)
         == [DevicesCreated] + Logs(DuplicateOutputOf(os).trace) + Logs(ExamineFrame(os).trace)
  {
    var dev, dup, frame := CreateDevice(os), DuplicateOutputOf(os), ExamineFrame(os);
    assert Logs(dev.trace) == [];
    assert Capture(os).trace == dev.trace + ([Log(DevicesCreated)] + (dup.trace + frame.trace)) by {
      CaptureSteps(os);
    }
    LogsAfterDevices(dev.trace, dup.trace + frame.trace);
    LogsConcat(dup.trace, frame.trace);
    assert [DevicesCreated] + (Logs(dup.trace) + Logs(frame.trace))
        == [DevicesCreated] + Logs(dup.trace) + Logs(frame.trace);
  }

  /** The lines of a silent trace `d`, then the line announcing the
      devices, then `u`. */
  lemma LogsAfterDevices(d: seq<Event>, u: seq<Event>)
    requires Logs(d) == []
    ensures Logs(d + ([Log(DevicesCreated)] + u)) == [DevicesCreated] + Logs(u)
  {
    LogsConcat(d, [Log(DevicesCreated)] + u);
    LogsConcat([Log(DevicesCreated)], u);
    ProjectOne(Log(DevicesCreated));
  }

  /** The frame step's calls and lines in the order they happen: the handle
      is printed before the frame is requested; a refusal is printed right
      after the request returns and ends the step; an acquired frame is cast
      at once, and a cast texture is described between `GetDesc` and
      `ReleaseFrame`. */
  lemma ExamineFrameOrder(os: OsScript)
    ensures var t := ExamineFrame(os).trace;
      |t| >= 2 && t[0] == Log(DuplicationHandle) && t[1] == Call(AcquireNextFrame(AcquireTimeoutMs))
    ensures os.acquireNextFrame.Fails? ==>
      ExamineFrame(os).trace[2..] == [Log(AcquireFailed(os.acquireNextFrame.error))]
    ensures os.acquireNextFrame.Succeeds? && os.castTexture2D.Fails? ==>
      ExamineFrame(os).trace[2..] == [Call(CastToTexture2D)]
    ensures os.acquireNextFrame.Succeeds? && os.castTexture2D.Succeeds? ==>
      ExamineFrame(os).trace[2..] == [Call(CastToTexture2D), Call(GetDesc), Log(TextureDescription), Call(ReleaseFrame)]
  {
    FrameSteps(if os.acquireNextFrame.Fails? then os.acquireNextFrame.error else Error(0));
  }

  /** An unfolding aid: the frame step's three possible traces, event by
      event, as their bodies build them. */
  lemma FrameSteps(e: Error)
    ensures FrameNotAcquired(e)
         == [Log(DuplicationHandle), Call(AcquireNextFrame(AcquireTimeoutMs)), Log(AcquireFailed(e))]
    ensures TextureCastFailed()
         == [Log(DuplicationHandle), Call(AcquireNextFrame(AcquireTimeoutMs)), Call(CastToTexture2D)]
    ensures FrameReleased()
         == [Log(DuplicationHandle), Call(AcquireNextFrame(AcquireTimeoutMs)), Call(CastToTexture2D),
             Call(GetDesc), Log(TextureDescription), Call(ReleaseFrame)]
  {
  }

  /** A failure of `create_device` is returned by `dx12()` unchanged, after
      the calls up to the failing one: `duplicate_output` is never reached. */
  lemma CaptureDeviceFailure(os: OsScript)
    requires FirstFailure(DeviceOutcomes(os)).Some?
    ensures var i := FirstFailure(DeviceOutcomes(os)).value;
      && Capture(os).value == Err(DeviceOutcomes(os)[i].error)
      && Calls(Capture(os).trace) == DeviceCalls[..i + 1]
    ensures Attempts(Capture(os).trace) == [] && Sleeps(Capture(os).trace) == []
  {
    CaptureProjection(os);
  }

  /** With a device, a failure of `duplicate_output` is returned by `dx12()`
      unchanged (`HRESULT(-1)` once output 0 is available) and no frame is
      ever requested or released. */
  lemma CaptureDuplicationFailure(os: OsScript)
    requires FirstFailure(DeviceOutcomes(os)).None?
    requires FirstFailure(OutputOutcomes(os)).Some? || AllFail(os.duplicateOutput)
    ensures FirstFailure(OutputOutcomes(os)).None? ==> Capture(os).value == Err(RetriesExhausted)
    ensures FirstFailure(OutputOutcomes(os)).Some? ==>
      Capture(os).value == Err(OutputOutcomes(os)[FirstFailure(OutputOutcomes(os)).value].error)
    ensures AcquireNextFrame(AcquireTimeoutMs) !in Calls(Capture(os).trace)
    ensures ReleaseFrame !in Calls(Capture(os).trace)
  {
    CaptureCallsWithoutFrame(os);
    if FirstFailure(OutputOutcomes(os)).Some? {
      DuplicateOutputNoOutput(os);
    } else {
      DuplicateOutputExhausted(os);
    }
  }

  /** A failed `AcquireNextFrame` is only logged: `dx12()` still succeeds
      and no frame is released. */
  lemma CaptureSwallowsAcquireFailure(os: OsScript)
    requires FirstFailure(DeviceOutcomes(os)).None? && FirstFailure(OutputOutcomes(os)).None?
    requires !AllFail(os.duplicateOutput)
    requires os.acquireNextFrame.Fails?
    ensures Capture(os).value == Ok(())
    ensures ReleaseFrame !in Calls(Capture(os).trace)
    ensures AcquireFailed(os.acquireNextFrame.error) in Logs(Capture(os).trace)
  {
    DuplicateOutputSucceeds(os);
    CaptureCallsWithFrame(os);
    var frame := ExamineFrame(os);
    assert frame.trace == FrameNotAcquired(os.acquireNextFrame.error);
    ProjectJoin(CreateDevice(os).trace, Log(DevicesCreated), DuplicateOutputOf(os).trace, frame.trace);
  }

  /** Once a device and a duplication are held, `dx12()` returns what the
      frame step returns: the texture cast's error, else the release's
      error, else `Ok(())`, also when the frame was refused. */
  lemma CaptureFrameOutcome(os: OsScript)
    requires CreateDevice(os).value.Ok? && DuplicateOutputOf(os).value.Ok?
    ensures Capture(os).value == ExamineFrame(os).value
    ensures os.acquireNextFrame.Succeeds? && os.castTexture2D.Fails? ==> Capture(os).value == Err(os.castTexture2D.error)
    ensures os.acquireNextFrame.Succeeds? && os.castTexture2D.Succeeds? && os.releaseFrame.Fails?
         ==> Capture(os).value == Err(os.releaseFrame.error)
    ensures os.acquireNextFrame.Fails? ==> Capture(os).value == Ok(())
  {
  }

  /** Creating the device neither acquires nor releases a frame. */
  lemma DeviceCallsBeforeFrame(os: OsScript)
    ensures AcquireNextFrame(AcquireTimeoutMs) !in Calls(CreateDevice(os).trace)
    ensures ReleaseFrame !in Calls(CreateDevice(os).trace)
  {
    var n := if CreateDevice(os).value.Err? then FirstFailure(DeviceOutcomes(os)).value + 1 else 3;
    assert Calls(CreateDevice(os).trace) == DeviceCalls[..n];
    PrefixMembers(DeviceCalls, n);
  }

  /** What a prefix holds, the whole sequence holds. */
  lemma PrefixMembers<T>(s: seq<T>, n: nat)
    requires n <= |s|
    ensures forall x :: x in s[..n] ==> x in s
  {
    forall x | x in s[..n] ensures x in s {
      var j :| 0 <= j < n && s[..n][j] == x;
      assert s[j] == x;
    }
  }

  /** The calls of a released frame hold one request and one release, the
      release last. */
  lemma ReleasedFrameCalls(fc: seq<Api>)
    requires fc == [AcquireNextFrame(AcquireTimeoutMs), CastToTexture2D, GetDesc, ReleaseFrame]
    ensures multiset(fc)[AcquireNextFrame(AcquireTimeoutMs)] == 1
    ensures multiset(fc)[ReleaseFrame] == 1
    ensures fc[|fc| - 1] == ReleaseFrame && AcquireNextFrame(AcquireTimeoutMs) in fc[..|fc| - 1]
  {
    assert fc[..3][0] == AcquireNextFrame(AcquireTimeoutMs);
  }

  /** Within one `dx12()` the frame step calls `AcquireNextFrame` once, and
      `ReleaseFrame` once exactly when the frame was acquired and cast, as its
      last call. */
  lemma FrameCallCounts(os: OsScript)
    ensures multiset(FrameCalls(os))[AcquireNextFrame(AcquireTimeoutMs)] == 1
    ensures multiset(FrameCalls(os))[ReleaseFrame]
         == if os.acquireNextFrame.Succeeds? && os.castTexture2D.Succeeds? then 1 else 0
    ensures var fc := FrameCalls(os);
      ReleaseFrame in fc ==> fc[|fc| - 1] == ReleaseFrame && AcquireNextFrame(AcquireTimeoutMs) in fc[..|fc| - 1]
  {
    var fc := FrameCalls(os);
    var acquire := AcquireNextFrame(AcquireTimeoutMs);
    if os.acquireNextFrame.Succeeds? && os.castTexture2D.Succeeds? {
      ReleasedFrameCalls(fc);
    }
  }

  /** When `dx12()` stops before the frame step, it neither acquires nor
      releases a frame. */
  lemma CaptureCallsWithoutFrame(os: OsScript)
    requires CreateDevice(os).value.Err? || DuplicateOutputOf(os).value.Err?
    ensures AcquireNextFrame(AcquireTimeoutMs) !in Calls(Capture(os).trace)
    ensures ReleaseFrame !in Calls(Capture(os).trace)
  {
    CaptureProjection(os);
    DeviceCallsBeforeFrame(os);
    DuplicateOutputCalls(os);
  }

  /** When `dx12()` reaches the frame step, its calls are a prefix free of
      frame calls followed by the frame step's calls. */
  lemma CaptureCallsWithFrame(os: OsScript)
    requires CreateDevice(os).value.Ok? && DuplicateOutputOf(os).value.Ok?
    ensures var p := Calls(CreateDevice(os).trace) + Calls(DuplicateOutputOf(os).trace);
      && Calls(Capture(os).trace) == p + Calls(ExamineFrame(os).trace)
      && AcquireNextFrame(AcquireTimeoutMs) !in p && ReleaseFrame !in p
  {
    CaptureProjection(os);
    DeviceCallsBeforeFrame(os);
    DuplicateOutputCalls(os);
    Reassociate(Calls(CreateDevice(os).trace), Calls(DuplicateOutputOf(os).trace), Calls(ExamineFrame(os).trace));
  }

  /** `duplicate_output` succeeds exactly when output 0 is available and some
      attempt succeeds: the first clause of `DuplicateOutputOutcome`, on its
      own so that callers do not carry the other clauses. */
  lemma DuplicateOutputSucceeds(os: OsScript)
    ensures DuplicateOutputOf(os).value.Ok? <==> FirstFailure(OutputOutcomes(os)).None? && !AllFail(os.duplicateOutput)
  {
    DuplicateOutputOutcome(os);
  }

  /** When `dx12()` reaches the frame step, it requests one frame, and
      releases one exactly when that frame was acquired and cast, last. */
  lemma CaptureCountsWithFrame(os: OsScript)
    requires CreateDevice(os).value.Ok? && DuplicateOutputOf(os).value.Ok?
    ensures multiset(Calls(Capture(os).trace))[ReleaseFrame]
         == if os.acquireNextFrame.Succeeds? && os.castTexture2D.Succeeds? then 1 else 0
    ensures multiset(Calls(Capture(os).trace))[AcquireNextFrame(AcquireTimeoutMs)] == 1
    ensures var calls := Calls(Capture(os).trace);
      ReleaseFrame in calls ==> calls[|calls| - 1] == ReleaseFrame && AcquireNextFrame(AcquireTimeoutMs) in calls[..|calls| - 1]
  {
    CaptureCallsWithFrame(os);
    FrameCallCounts(os);
    var p := Calls(CreateDevice(os).trace) + Calls(DuplicateOutputOf(os).trace);
    FrameCountsAfter(p, FrameCalls(os), os.acquireNextFrame.Succeeds? && os.castTexture2D.Succeeds?);
  }

  /** Calls free of frame calls, followed by a frame step's calls, keep the
      frame step's counts and its last call. */
  lemma FrameCountsAfter(p: seq<Api>, fc: seq<Api>, released: bool)
    requires AcquireNextFrame(AcquireTimeoutMs) !in p && ReleaseFrame !in p
    requires multiset(fc)[AcquireNextFrame(AcquireTimeoutMs)] == 1
    requires multiset(fc)[ReleaseFrame] == if released then 1 else 0
    requires ReleaseFrame in fc ==> fc[|fc| - 1] == ReleaseFrame && AcquireNextFrame(AcquireTimeoutMs) in fc[..|fc| - 1]
    ensures multiset(p + fc)[ReleaseFrame] == if released then 1 else 0
    ensures multiset(p + fc)[AcquireNextFrame(AcquireTimeoutMs)] == 1
    ensures var calls := p + fc;
      ReleaseFrame in calls ==> calls[|calls| - 1] == ReleaseFrame && AcquireNextFrame(AcquireTimeoutMs) in calls[..|calls| - 1]
  {
    CountAfter(p, fc, ReleaseFrame);
    CountAfter(p, fc, AcquireNextFrame(AcquireTimeoutMs));
    assert AcquireNextFrame(AcquireTimeoutMs) in fc;
    LastAfter(p, fc);
  }

  /** `ReleaseFrame` is called at most once, exactly when a frame was
      acquired and cast to a texture, and then as the last call, after the
      single `AcquireNextFrame`. */
  lemma CaptureReleasesOnlyAcquiredFrame(os: OsScript)
    ensures multiset(Calls(Capture(os).trace))[ReleaseFrame]
         == if && FirstFailure(DeviceOutcomes(os)).None? && FirstFailure(OutputOutcomes(os)).None?
               && !AllFail(os.duplicateOutput)
               && os.acquireNextFrame.Succeeds? && os.castTexture2D.Succeeds?
            then 1 else 0
    ensures multiset(Calls(Capture(os).trace))[AcquireNextFrame(AcquireTimeoutMs)] <= 1
    ensures var calls := Calls(Capture(os).trace);
      ReleaseFrame in calls ==> calls[|calls| - 1] == ReleaseFrame && AcquireNextFrame(AcquireTimeoutMs) in calls[..|calls| - 1]
  {
    DuplicateOutputSucceeds(os);
    if CreateDevice(os).value.Err? || DuplicateOutputOf(os).value.Err? {
      CaptureCallsWithoutFrame(os);
    } else {
      CaptureCountsWithFrame(os);
    }
  }

  /** `dx12()` succeeds exactly when a device is created, some duplication
      attempt succeeds, and the frame is either not acquired or is described
      and released without error. */
  lemma CaptureSucceeds(os: OsScript)
    ensures Capture(os).value.Ok? <==>
      && FirstFailure(DeviceOutcomes(os)).None?
      && FirstFailure(OutputOutcomes(os)).None?
      && !AllFail(os.duplicateOutput)
      && (os.acquireNextFrame.Fails? || (os.castTexture2D.Succeeds? && os.releaseFrame.Succeeds?))
  {
    DuplicateOutputOutcome(os);
  }
}
