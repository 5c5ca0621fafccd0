/** The boundary to the operating system: what a Windows graphics call can
    answer, and the observable trace (calls made, lines logged, sleeps taken)
    of the capture prototype. */
module Os {
  import opened Results

  /** A `windows::core::Error`, identified by its HRESULT code. */
  datatype Error = Error(hresult: int)

  /** The answer the OS gives to one fallible call. */
  datatype Outcome = Succeeds | Fails(error: Error)

  /** The DXGI / Direct3D entry points the prototype calls. */
  datatype Api =
    | CreateDxgiFactory1
    | EnumAdapters1(adapter: nat)
    | D3D12CreateDevice(featureLevel: int)
    | EnumOutputs(output: nat)
    | CastToOutput1
    | DuplicateOutput(attempt: nat)
    | AcquireNextFrame(timeoutMs: nat)
    | CastToTexture2D
    | GetDesc
    | ReleaseFrame

  /** The lines the prototype prints, without their formatting. */
  datatype Message =
    | DevicesCreated
    | DuplicationStarted
    | DuplicationFailed(attempt: nat, maxRetries: nat, error: Error)
    | DuplicationHandle
    | TextureDescription
    | AcquireFailed(error: Error)
    | HostAndPort(host: string, port: string)
    | CaptureFailed(error: Error)

  datatype Event = Call(api: Api) | Log(message: Message) | Sleep(ms: nat)

  /** A value together with the events that produced it. */
  datatype Traced<T> = Traced(value: T, trace: seq<Event>)

  /** Index of the first failing outcome in a chain of `?`-propagated calls. */
  function FirstFailure(outcomes: seq<Outcome>): (r: Option<nat>)
    ensures r.Some? ==> r.value < |outcomes| && outcomes[r.value].Fails?
    ensures r.Some? ==> forall j :: 0 <= j < r.value ==> outcomes[j].Succeeds?
    ensures r.None? ==> forall j :: 0 <= j < |outcomes| ==> outcomes[j].Succeeds?
  {
    if |outcomes| == 0 then None
    else if outcomes[0].Fails? then Some(0)
    else match FirstFailure(outcomes[1..])
      case None => None
      case Some(i) => Some(i + 1)
  }

  function CallOf(e: Event): seq<Api> { if e.Call? then [e.api] else [] }

  function AttemptOf(e: Event): seq<nat>
  {
    if e.Call? && e.api.DuplicateOutput? then [e.api.attempt] else []
  }

  function SleepOf(e: Event): seq<nat> { if e.Sleep? then [e.ms] else [] }

  function LogOf(e: Event): seq<Message> { if e.Log? then [e.message] else [] }

  /** Every OS call of a trace, in order. */
  function Calls(t: seq<Event>): seq<Api>
  {
    if |t| == 0 then [] else CallOf(t[0]) + Calls(t[1..])
  }

  /** The attempt numbers of the `DuplicateOutput` calls of a trace, in order. */
  function Attempts(t: seq<Event>): seq<nat>
  {
    if |t| == 0 then [] else AttemptOf(t[0]) + Attempts(t[1..])
  }

  /** The durations of the sleeps of a trace, in order. */
  function Sleeps(t: seq<Event>): seq<nat>
  {
    if |t| == 0 then [] else SleepOf(t[0]) + Sleeps(t[1..])
  }

  /** The lines logged in a trace, in order. */
  function Logs(t: seq<Event>): seq<Message>
  {
    if |t| == 0 then [] else LogOf(t[0]) + Logs(t[1..])
  }

  lemma {:induction false} CallsConcat(a: seq<Event>, b: seq<Event>)
    ensures Calls(a + b) == Calls(a) + Calls(b)
    decreases |a|
  {
    if |a| == 0 {
      assert a + b == b;
    } else {
      calc {
        Calls(a + b);
        { assert (a + b)[0] == a[0]; assert (a + b)[1..] == a[1..] + b; }
        CallOf(a[0]) + Calls(a[1..] + b);
        { CallsConcat(a[1..], b); }
        CallOf(a[0]) + (Calls(a[1..]) + Calls(b));
        (CallOf(a[0]) + Calls(a[1..])) + Calls(b);
      }
    }
  }

  lemma {:induction false} AttemptsConcat(a: seq<Event>, b: seq<Event>)
    ensures Attempts(a + b) == Attempts(a) + Attempts(b)
    decreases |a|
  {
    if |a| == 0 {
      assert a + b == b;
    } else {
      calc {
        Attempts(a + b);
        { assert (a + b)[0] == a[0]; assert (a + b)[1..] == a[1..] + b; }
        AttemptOf(a[0]) + Attempts(a[1..] + b);
        { AttemptsConcat(a[1..], b); }
        AttemptOf(a[0]) + (Attempts(a[1..]) + Attempts(b));
        (AttemptOf(a[0]) + Attempts(a[1..])) + Attempts(b);
      }
    }
  }

  lemma {:induction false} SleepsConcat(a: seq<Event>, b: seq<Event>)
    ensures Sleeps(a + b) == Sleeps(a) + Sleeps(b)
    decreases |a|
  {
    if |a| == 0 {
      assert a + b == b;
    } else {
      calc {
        Sleeps(a + b);
        { assert (a + b)[0] == a[0]; assert (a + b)[1..] == a[1..] + b; }
        SleepOf(a[0]) + Sleeps(a[1..] + b);
        { SleepsConcat(a[1..], b); }
        SleepOf(a[0]) + (Sleeps(a[1..]) + Sleeps(b));
        (SleepOf(a[0]) + Sleeps(a[1..])) + Sleeps(b);
      }
    }
  }

  lemma {:induction false} LogsConcat(a: seq<Event>, b: seq<Event>)
    ensures Logs(a + b) == Logs(a) + Logs(b)
    decreases |a|
  {
    if |a| == 0 {
      assert a + b == b;
    } else {
      calc {
        Logs(a + b);
        { assert (a + b)[0] == a[0]; assert (a + b)[1..] == a[1..] + b; }
        LogOf(a[0]) + Logs(a[1..] + b);
        { LogsConcat(a[1..], b); }
        LogOf(a[0]) + (Logs(a[1..]) + Logs(b));
        (LogOf(a[0]) + Logs(a[1..])) + Logs(b);
      }
    }
  }

  /** Concatenation of traces distributes over every projection at once. */
  lemma ProjectConcat(a: seq<Event>, b: seq<Event>)
    ensures Calls(a + b) == Calls(a) + Calls(b)
    ensures Attempts(a + b) == Attempts(a) + Attempts(b)
    ensures Sleeps(a + b) == Sleeps(a) + Sleeps(b)
    ensures Logs(a + b) == Logs(a) + Logs(b)
  {
    CallsConcat(a, b);
    AttemptsConcat(a, b);
    SleepsConcat(a, b);
    LogsConcat(a, b);
  }

  /** The projections of a single event. */
  lemma ProjectOne(e: Event)
    ensures Calls([e]) == CallOf(e) && Attempts([e]) == AttemptOf(e)
    ensures Sleeps([e]) == SleepOf(e) && Logs([e]) == LogOf(e)
  {
    assert [e][0] == e;
    assert [e][1..] == [];
    assert CallOf(e) + [] == CallOf(e) && AttemptOf(e) + [] == AttemptOf(e);
    assert SleepOf(e) + [] == SleepOf(e) && LogOf(e) + [] == LogOf(e);
  }

  /** One step of the duplication retry loop as it happened: an attempt, a
      pause, or a line printed. */
  datatype Step = Try(attempt: nat) | Pause(ms: nat) | Say(message: Message)

  function PaceOf(e: Event): seq<Step>
  {
    match e
    case Call(api) => if api.DuplicateOutput? then [Try(api.attempt)] else []
    case Sleep(ms) => [Pause(ms)]
    case Log(_) => []
  }

  function ReportOf(e: Event): seq<Step>
  {
    match e
    case Call(api) => if api.DuplicateOutput? then [Try(api.attempt)] else []
    case Log(m) => [Say(m)]
    case Sleep(_) => []
  }

  /** The duplication attempts and the sleeps of a trace, interleaved in the
      order they happened. */
  function Pacing(t: seq<Event>): seq<Step>
  {
    if |t| == 0 then [] else PaceOf(t[0]) + Pacing(t[1..])
  }

  /** The duplication attempts and the printed lines of a trace, interleaved
      in the order they happened. */
  function Reports(t: seq<Event>): seq<Step>
  {
    if |t| == 0 then [] else ReportOf(t[0]) + Reports(t[1..])
  }

  lemma {:induction false} PacingConcat(a: seq<Event>, b: seq<Event>)
    ensures Pacing(a + b) == Pacing(a) + Pacing(b)
    decreases |a|
  {
    if |a| == 0 {
      assert a + b == b;
    } else {
      calc {
        Pacing(a + b);
        { assert (a + b)[0] == a[0]; assert (a + b)[1..] == a[1..] + b; }
        PaceOf(a[0]) + Pacing(a[1..] + b);
        { PacingConcat(a[1..], b); }
        PaceOf(a[0]) + (Pacing(a[1..]) + Pacing(b));
        (PaceOf(a[0]) + Pacing(a[1..])) + Pacing(b);
      }
    }
  }

  lemma {:induction false} ReportsConcat(a: seq<Event>, b: seq<Event>)
    ensures Reports(a + b) == Reports(a) + Reports(b)
    decreases |a|
  {
    if |a| == 0 {
      assert a + b == b;
    } else {
      calc {
        Reports(a + b);
        { assert (a + b)[0] == a[0]; assert (a + b)[1..] == a[1..] + b; }
        ReportOf(a[0]) + Reports(a[1..] + b);
        { ReportsConcat(a[1..], b); }
        ReportOf(a[0]) + (Reports(a[1..]) + Reports(b));
        (ReportOf(a[0]) + Reports(a[1..])) + Reports(b);
      }
    }
  }

  /** The steps of a single event. */
  lemma StepOne(e: Event)
    ensures Pacing([e]) == PaceOf(e) && Reports([e]) == ReportOf(e)
  {
    assert [e][0] == e;
    assert [e][1..] == [];
    assert PaceOf(e) + [] == PaceOf(e) && ReportOf(e) + [] == ReportOf(e);
  }

  /** Prefixing one event adds at most its own steps. */
  lemma StepCons(e: Event, t: seq<Event>)
    ensures Pacing([e] + t) == PaceOf(e) + Pacing(t)
    ensures Reports([e] + t) == ReportOf(e) + Reports(t)
  {
    assert ([e] + t)[0] == e;
    assert ([e] + t)[1..] == t;
  }

  lemma Reassociate<T>(a: seq<T>, b: seq<T>, c: seq<T>)
    ensures a + (b + c) == (a + b) + c
  {
  }

  /** An item absent from `p` is counted in `p + f` as often as in `f`. */
  lemma CountAfter<T>(p: seq<T>, f: seq<T>, x: T)
    requires x !in p
    ensures multiset(p + f)[x] == multiset(f)[x]
    ensures x in p + f <==> x in f
  {
    assert multiset(p)[x] == 0;
    assert multiset(p + f) == multiset(p) + multiset(f);
  }

  /** The last item of `p + f` is the last of a non-empty `f`, and what comes
      before it is `p` followed by the rest of `f`. */
  lemma LastAfter<T>(p: seq<T>, f: seq<T>)
    requires |f| > 0
    ensures (p + f)[|p + f| - 1] == f[|f| - 1]
    ensures (p + f)[..|p + f| - 1] == p + f[..|f| - 1]
  {
  }

  /** The projections of `a`, then one event `e`, then `b`, then `c`. */
  lemma ProjectJoin(a: seq<Event>, e: Event, b: seq<Event>, c: seq<Event>)
    ensures Calls(a + ([e] + (b + c))) == Calls(a) + (CallOf(e) + (Calls(b) + Calls(c)))
    ensures Attempts(a + ([e] + (b + c))) == Attempts(a) + (AttemptOf(e) + (Attempts(b) + Attempts(c)))
    ensures Sleeps(a + ([e] + (b + c))) == Sleeps(a) + (SleepOf(e) + (Sleeps(b) + Sleeps(c)))
    ensures Logs(a + ([e] + (b + c))) == Logs(a) + (LogOf(e) + (Logs(b) + Logs(c)))
  {
    ProjectConcat(a, [e] + (b + c));
    ProjectCons(e, b + c);
    ProjectConcat(b, c);
  }

  /** The projections of one event `e`, then `t`, then `u`. */
  lemma ProjectAround(e: Event, t: seq<Event>, u: seq<Event>)
    ensures Calls([e] + t + u) == CallOf(e) + Calls(t) + Calls(u)
    ensures Logs([e] + t + u) == LogOf(e) + Logs(t) + Logs(u)
  {
    ProjectConcat([e] + t, u);
    ProjectCons(e, t);
  }

  /** Prefixing one event adds at most its own projection. */
  lemma ProjectCons(e: Event, t: seq<Event>)
    ensures Calls([e] + t) == CallOf(e) + Calls(t)
    ensures Attempts([e] + t) == AttemptOf(e) + Attempts(t)
    ensures Sleeps([e] + t) == SleepOf(e) + Sleeps(t)
    ensures Logs([e] + t) == LogOf(e) + Logs(t)
  {
    assert ([e] + t)[0] == e;
    assert ([e] + t)[1..] == t;
  }
}
