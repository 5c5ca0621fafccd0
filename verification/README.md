# garp capture prototype: argument validation and duplication retry

This project models the two pieces of sequential logic in the garp screen-capture
prototype and proves properties about them:

- `src/lib.rs`: `Config::build`, which takes host and port from the command-line
  arguments, and `run`, which validates them before it starts the capture. The
  host must be local when the `non-local` feature is on. The port must parse as a
  `u16` and be at least four bytes long.
- `src/dx12.rs`: `create_device` (one attempt on adapter 0 at feature level 11_0),
  `duplicate_output` (up to ten `DuplicateOutput` attempts with a 100 ms pause
  between two of them) and `dx12()`, which chains the two and then examines one
  frame.

Every Windows call is an answer (`Succeeds` or `Fails(error)`) read from an
`OsScript`. The answer to the n-th duplication attempt is `duplicateOutput(n)`.
Each operation returns its result with a trace of events: calls made, lines
printed and sleeps taken. The properties are stated on projections of that
trace. `Calls`, `Attempts`, `Sleeps` and `Logs` keep one kind of event each.
`Pacing` keeps the duplication attempts and the sleeps in the order they
happened. `Reports` keeps the duplication attempts and the printed lines in the
order they happened.

Files:

- `results.dfy`: `Option` and `Result`.
- `os.dfy`: OS answers, the trace events, the projections and their laws.
- `rust_str.dfy`: `str::len`, which counts UTF-8 bytes, and `str::parse::<u16>`,
  following `u16::from_str_radix`. It includes a reference definition of the
  accepted text.
- `dx12.dfy`: the capture path.
- `lib.dfy`: `Config::build` and `run`.

## Model

| member | source | states |
|---|---|---|
| Lib.Build | src/lib.rs:14-19 | The first argument is the host and the second the port, whatever their text, and later arguments are ignored. No arguments gives exactly `Host not provided`. One argument gives exactly `Port not provided`. |
| Lib.Next | src/lib.rs:15-16 | `args.next()` gives nothing exactly when no argument is left. Otherwise it gives the first argument, and that argument followed by the rest is the whole list. |
| Lib.Run | src/lib.rs:22-38 | A rejected configuration has an empty trace and one of the two errors. The non-local error is returned exactly when `non-local` is on and the host is not local. Success needs a port that parses as `u16` and has at least four characters. |
| Lib.PortPasses | src/lib.rs:28 | A port that passes the check has a byte length equal to its character count, and that length is at least four. |
| RustStr.ParseU16 | src/lib.rs:28 | Every value `parse::<u16>` returns is at most 65535. |
| RustStr.ParseDigits | src/lib.rs:28 | The checked digit loop never returns less than its accumulator or more than 65535. |
| RustStr.Utf8Len | src/lib.rs:28 | `len()` counts between one and four bytes per character. |
| RustStr.ParseU16Spec | src/lib.rs:28 | `parse::<u16>` succeeds exactly on an optional `+` followed by one or more ASCII digits with value at most 65535, and returns that value. |
| RustStr.ParseDigitsValue | src/lib.rs:28 | The checked digit loop succeeds exactly when every character is a digit and the accumulated value stays within `u16`; its result is the positional value. |
| RustStr.U16LiteralLen | src/lib.rs:28 | Text that `parse::<u16>` accepts is ASCII, so its byte length `len()` equals its character count. |
| RustStr.ParseU16Samples | src/lib.rs:28 | `"0080"` and `"+123"` parse, 65535 parses and 65536 does not, and `"-123"`, `"+"` and the empty string do not. |
| Lib.PortPassesSpec | src/lib.rs:28-29 | The port check passes exactly for `u16` literals of at least four characters. |
| Lib.SamplePorts | src/lib.rs:28-29 | `"80"` is refused as too short and `"65536"` as too large. `"0080"`, `"+123"`, `"8080"` and `"65535"` pass. |
| Lib.RunAccepts | src/lib.rs:22-38 | `run` returns `Ok` exactly for a local host (when `non-local` is on) with a valid port, whatever `dx12()` does. |
| Lib.RunRejects | src/lib.rs:23-30 | A rejected configuration makes no call and prints nothing. The host check comes first, so a remote host is reported even when its port is bad too. |
| Lib.RunSwallowsCaptureError | src/lib.rs:32-38 | An accepted configuration prints host and port, makes exactly the calls of `dx12()`, prints its error last when there is one, and still returns `Ok(())`. The lines in between are those of `dx12()` (`Dx12.CaptureLogs`). The last line is built by `Lib.Reported`. |
| Lib.RunOrder | src/lib.rs:32-36 | For an accepted configuration, `run` prints host and port as its first event. All of `dx12()`'s events follow, unchanged and in order, including its sleeps. The report of `dx12()`'s outcome comes last. |
| Lib.Reported | src/lib.rs:34-36 | `run` makes no call after `dx12()` returns. It prints one line with the error when `dx12()` failed and nothing when it succeeded. |
| Lib.SampleRuns | src/lib.rs:22-38 | Sample configurations: a local host with a two-digit port is refused, and a remote host is refused only when `non-local` is on. |
| Os.FirstFailure | src/dx12.rs:13-17 | The index of the first failing call in a `?` chain: every earlier call succeeded. |
| Dx12.CreateDevice | src/dx12.rs:11-21 | `create_device` returns a device on adapter 0 at feature level 11_0 exactly when all three calls succeed. Otherwise it returns the first failure's error after making the calls up to that one. It never logs, retries or sleeps. |
| Dx12.RetryWinsAt | src/dx12.rs:32-37 | If attempt `k` is the first to succeed, the loop returns the handle of attempt `k` after making attempts `retry..k` in increasing order. |
| Dx12.RetryWinsAtSleeps | src/dx12.rs:38-46 | Before the winning attempt `k` there are exactly `k - retry` pauses, each of `DUPLICATE_OUTPUT_WAITTIME`. |
| Dx12.RetryWinsAtLogs | src/dx12.rs:35-42 | Each failure before the winning attempt is logged in order with its number, `MAX_RETRIES` and its error, and the success line comes last. |
| Dx12.RetryExhausts | src/dx12.rs:32-51 | When every remaining attempt fails, each is made once in increasing order and the loop returns `HRESULT(-1)`, none of the per-attempt errors. |
| Dx12.RetryExhaustsSleeps | src/dx12.rs:44-46 | When every remaining attempt fails, there are exactly `MAX_RETRIES - retry` pauses, one fewer than attempts. |
| Dx12.RetryExhaustsLogs | src/dx12.rs:38-42 | When every remaining attempt fails, each failure is logged once, in order, with its own error. |
| Dx12.RetryWinsAtPacing | src/dx12.rs:32-46 | Up to the winning attempt `k`, attempts and pauses alternate as `Interleave(retry, k)`. Every pause falls between two consecutive attempts, with none before the first attempt and none after the winning one. |
| Dx12.RetryWinsAtReports | src/dx12.rs:33-42 | Up to the winning attempt `k`, each failed attempt is followed at once by its own failure line, and the success line follows attempt `k`. |
| Dx12.RetryExhaustsPacing | src/dx12.rs:32-46 | When every remaining attempt fails, attempts and pauses alternate as `Interleave(retry, MAX_RETRIES)`, with no pause after the last attempt. |
| Dx12.RetryExhaustsReports | src/dx12.rs:33-42 | When every remaining attempt fails, each attempt is followed at once by its own failure line. |
| Dx12.InterleaveAt | src/dx12.rs:32-46 | In `Interleave(lo, hi)`, position `2i` holds attempt `lo + i` and every odd position holds a pause of `DUPLICATE_OUTPUT_WAITTIME`. The sequence starts and ends with an attempt. |
| Dx12.RetryDuplicate | src/dx12.rs:32-51 | The retry loop succeeds only on an attempt between `retry` and `MAX_RETRIES` that the OS accepted, with a handle for output 0. Otherwise it returns `HRESULT(-1)`. |
| Dx12.SucceededAttemptProjections | src/dx12.rs:33-37 | A successful attempt makes one `DuplicateOutput` call with its number, prints the success line and does not sleep. |
| Dx12.FailedAttemptProjections | src/dx12.rs:38-46 | A failed attempt makes one call with its number, prints one line with its number, `MAX_RETRIES` and the error, and sleeps only when it is not the last attempt. |
| Dx12.SucceededAttemptSteps | src/dx12.rs:33-37 | The success line is printed right after the successful attempt. |
| Dx12.FailedAttemptSteps | src/dx12.rs:38-46 | A failed attempt is followed at once by its failure line, and then by a pause only when it is not the last attempt. |
| Dx12.RetryCallsOnlyDuplicate | src/dx12.rs:32-49 | The retry loop makes no call other than `DuplicateOutput`. |
| Dx12.FirstSuccessOrAllFail | src/dx12.rs:32-51 | Every sequence of answers either has a first successful attempt within `MAX_RETRIES` or fails on all of them, so the loop's two exits cover every case. |
| Dx12.DuplicateOutputNoOutput | src/dx12.rs:29-30 | A failure of `EnumOutputs(0)` or of the `IDXGIOutput1` cast is returned at once, with no duplication attempt and no sleep. |
| Dx12.DuplicateOutputWins | src/dx12.rs:24-53 | With output 0 available and attempt `k` the first success, `duplicate_output` returns that handle. It has made exactly attempts `1..k`, `k - 1` sleeps and one failure line per failed attempt. |
| Dx12.DuplicateOutputExhausted | src/dx12.rs:24-53 | With output 0 available and all ten attempts failing, `duplicate_output` returns `HRESULT(-1)` after ten attempts, nine sleeps and ten failure lines. |
| Dx12.DuplicateOutputWinsOrder | src/dx12.rs:24-53 | With output 0 available and attempt `k` the first success, attempts `1..k` alternate with pauses, starting and ending with an attempt. Each failed attempt is reported right after it is made, and the success line follows attempt `k`. |
| Dx12.DuplicateOutputExhaustedOrder | src/dx12.rs:24-53 | With output 0 available and all attempts failing, attempts `1..10` alternate with nine pauses, with no pause after attempt 10, and each attempt is reported right after it is made. |
| Dx12.DuplicateOutputOf | src/dx12.rs:24-53 | A handle from `duplicate_output` is for output 0 and comes from an attempt between 1 and `MAX_RETRIES` that the OS accepted. An error occurs only when `EnumOutputs(0)` or the cast failed or all attempts failed (`HRESULT(-1)`). Which error is returned is stated by `DuplicateOutputOutcome`. |
| Dx12.DuplicateOutputOutcome | src/dx12.rs:24-53 | `duplicate_output` succeeds exactly when output 0 is available and some attempt succeeds, and then returns the first successful attempt. Otherwise it returns the error of `EnumOutputs(0)` or of the cast, whichever failed first, or `HRESULT(-1)` when the output was available. |
| Dx12.DuplicateOutputCounts | src/dx12.rs:24-53 | Whatever the OS answers, attempts are numbered `1, 2, ...`, at most `MAX_RETRIES` of them. There is one sleep of `DUPLICATE_OUTPUT_WAITTIME` fewer than there are attempts. |
| Dx12.DuplicateOutputCallOrder | src/dx12.rs:29-33 | `duplicate_output` first calls `EnumOutputs(0)` and stops if that fails. It then casts the output to `IDXGIOutput1` and stops if that fails. Every later call is a `DuplicateOutput` attempt. |
| Dx12.DuplicateOutputCalls | src/dx12.rs:24-53 | `duplicate_output` neither requests nor releases a frame. |
| Dx12.ExamineFrame | src/dx12.rs:62-92 | The frame step succeeds exactly when the request fails or the cast and release both succeed, and it otherwise returns the cast's or the release's error. A refused request is logged with its error. The step makes no duplication attempt and no sleep. Its three traces are built by `FrameNotAcquired`, `TextureCastFailed` and `FrameReleased`. Each of these states its calls and its lines. |
| Dx12.ExamineFrameOrder | src/dx12.rs:65-90 | Calls and lines in the order they happen. The handle is printed first and the frame is then requested. A refused request is followed at once by the line reporting it, which ends the step. An acquired frame is cast at once. A cast texture is described after `GetDesc` and before `ReleaseFrame`. |
| Dx12.FrameNotAcquired | src/dx12.rs:65-89 | A refused frame request prints the handle line and the refusal with its error, and makes the request as its only call. |
| Dx12.TextureCastFailed | src/dx12.rs:65-69 | A frame whose texture cast fails makes the request and the cast, and prints only the handle line. |
| Dx12.FrameReleased | src/dx12.rs:65-85 | A cast frame makes the request, the cast, `GetDesc` and `ReleaseFrame` in that order. It prints the handle line and the description. |
| Dx12.FrameCallCounts | src/dx12.rs:66-90 | The frame step requests one frame. It releases one exactly when the frame was acquired and cast, and then as its last call, after the request. |
| Dx12.CaptureProjection | src/dx12.rs:55-94 | The calls of `dx12()` are those of `create_device`, then `duplicate_output` if it got that far, then the frame step, and the attempts and sleeps are those of `duplicate_output`. |
| Dx12.CaptureLogs | src/dx12.rs:55-65 | `dx12()` prints nothing when no device is created. Otherwise it prints the "devices created" line, then every line of `duplicate_output`, then the frame step's lines once a duplication is held. |
| Dx12.CaptureDeviceFailure | src/dx12.rs:55-57 | A failure of `create_device` is returned unchanged, and `duplicate_output` is never reached. |
| Dx12.CaptureDuplicationFailure | src/dx12.rs:57-60 | With a device, a failure of `duplicate_output` is returned unchanged (`HRESULT(-1)` once the output is available), and no frame is requested or released. |
| Dx12.CaptureSwallowsAcquireFailure | src/dx12.rs:66-92 | A failed `AcquireNextFrame` is logged, `dx12()` still returns `Ok(())`, and no frame is released. |
| Dx12.CaptureFrameOutcome | src/dx12.rs:62-92 | Once a device and a duplication are held, `dx12()` returns what the frame step returns. That is the texture cast's error when the cast fails, else the error of `ReleaseFrame`, else `Ok(())`, and also `Ok(())` when the frame request was refused. |
| Dx12.Capture | src/dx12.rs:55-94 | `dx12()` succeeds only when `create_device` and `duplicate_output` both succeeded. When device creation fails, its calls are the whole trace. |
| Dx12.CaptureCallsWithFrame | src/dx12.rs:55-66 | Once `dx12()` reaches the frame step, no earlier call requested or released a frame. |
| Dx12.CaptureReleasesOnlyAcquiredFrame | src/dx12.rs:66-90 | `ReleaseFrame` is called once exactly when a device, a duplication and an acquired, cast frame were all obtained, and never otherwise. It is then the last call, after the single `AcquireNextFrame`. |
| Dx12.CaptureSucceeds | src/dx12.rs:55-94 | `dx12()` succeeds exactly when a device is created, some duplication attempt succeeds, and the frame is either refused or is cast and released without error. |

## Left out

- `src/recorder.rs` is not part of this model. Its frame loop is stopped by another thread through a shared flag, which is concurrency.
- `src/main.rs` is not part of this model. It is process glue: it reads the real arguments, prints to stderr and exits.
- The Windows COM calls are not modelled as behaviour. Each one is an answer given in the `OsScript`, and the model assumes the OS answers every call.
- An error is its HRESULT code. The `windows::core::Error` message text is not modelled.
- Standard output and standard error are one stream of `Log` events. The `eprintln!` lines of `dx12()` (the refused frame) and of `run` (the error of `dx12()`) are not told apart from the `println!` lines.
- `run` prints host and port as two lines with one `println!`. The model has one `HostAndPort` line for both.
- Printed text is not modelled. Each printed line is a `Message` carrying only the values that vary: the attempt number, `MAX_RETRIES`, the error, host and port. The frame description's fields are one `TextureDescription` line.
- `sleep` is a `Sleep(ms)` event, so no time passes in the model.
- The model assumes `device.unwrap()` and `desktop_resource.unwrap()` never panic. The model treats an `Ok` from `D3D12CreateDevice` and from `AcquireNextFrame` as yielding the object.
- `#[cfg(windows)]` is assumed. The `non-local` feature is the `nonLocal` parameter of `Run`.
- The model does not distinguish the error kinds of `from_str_radix`. `run` only asks whether parsing failed.
- Dx12.DuplicateOutputCalls: states only that the duplication step makes no frame calls. The order of its calls is stated by `DuplicateOutputCallOrder`: `EnumOutputs(0)`, then the cast, then only duplication attempts. The attempt numbers are stated through `Attempts` by `DuplicateOutputWins` and `DuplicateOutputExhausted`.
- The frame step of `dx12()` propagates errors of the texture cast and of `ReleaseFrame` with `?`, and the model follows the code there. Only a failed `AcquireNextFrame` is logged and swallowed, although a capture loop might be expected to absorb every per-frame failure.
