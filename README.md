# Traffic-generator client

A Dafny model of the client side of the RINA traffic generator
(`src/client.cc`). The client:

1. allocates one flow to the server through librina;
2. sends an Init message holding `count`, `duration` and `sduSize`, and reads
   the server's acknowledgement;
3. sends data units whose first eight bytes hold a running 64-bit sequence
   counter, checking its stop conditions every 997 units;
4. reads the server's Result message (sequence count, total bytes,
   milliseconds);
5. deallocates the flow.

The model has these modules:

- `Bytes`: bytes, fixed-width unsigned integers, and the `memcpy` copies of
  an integer into a buffer and back.
- `Wire`: the byte layouts of the Init and Result messages.
- `Timing`: `struct timespec` arithmetic. This covers `secondsElapsed` and the
  elapsed-time expression of `busyWait`.
- `Events`: IPC events, and the rule by which an event wait picks one out of
  the stream.
- `StopRule`: the 64-bit counter and the every-997-units stop check, stated as
  functions of a clock.
- `Ipc`: the parts of librina the client calls. A class holds:
  - the stream of events `eventWait` will return;
  - the sequence numbers handed out for requests;
  - an oracle for what `commitPendingFlow` returns;
  - the SDUs the server will send;
  - a trace of every call the client makes.
- `ClientModel`: the class `Client` with `createFlow`, `generateTraffic`,
  `destroyFlow` and `run` as methods. Their loops are `while` loops with
  invariants. The contracts of these methods state the client's trace of
  library calls, and what it computes, in terms of the functions above.

The clock, the event producer and the transport are inputs:

- `clock(0)` is the `start` reading, taken right after the acknowledgement
  is read (src/client.cc:121), so the handshake lies outside the run's clock.
- `clock(n)` is the reading `secondsElapsed` takes at the check after the
  n-th unit.
- The event stream, the commit oracle and the incoming SDUs are the initial
  state of the `Ipc` object.

The host is taken to be little-endian. The Init fields `count`, `duration`
and `sduSize` are taken to be 8, 4 and 4 bytes wide; `client.h`, which
declares them, is not part of this model. The Result fields are declared in
`generateTraffic` itself, as `unsigned long long seq` and `totalBytes` and
`unsigned int ms` (src/client.cc:119, 150-151); their widths 8, 8 and 4
assume a host where `unsigned long long` is 8 bytes and `unsigned int` is 4.

A run with a count and no duration does not stop at exactly `count` units:
the code can stop only at a multiple of 997, so it sends the smallest
positive multiple of 997 that is at least `count`. For example, a count of 5000 stops after 5982 = 6 * 997 units (`StopRule.CountOnlyRun`).
Because the counter wraps, a count above 18446744073709550655 is never
reached at a check (`StopRule.CountBeyondLastCheckNeverStops`).

## Model

| member | source | states |
|---|---|---|
| Bytes.FromLEOfLE | src/client.cc:107-109 | reading back the bytes `memcpy` lays down for an integer of a given width gives that integer |
| Bytes.LEOfFromLE | src/client.cc:152-154 | the bytes of an integer read from a buffer are the buffer bytes: every byte string of a width is the encoding of exactly one integer |
| Bytes.WriteLE | src/client.cc:107-109 | `memcpy(&buf[off], &x, width)` replaces bytes off..off+width-1 with the little-endian bytes of x and leaves every other byte of the buffer as it was |
| Bytes.ReadLE | src/client.cc:152-154 | `memcpy(&x, &buf[off], width)` yields the unsigned value of bytes off..off+width-1 |
| Wire.EncodeInit | src/client.cc:105 | the Init buffer is sizeof(count)+sizeof(duration)+sizeof(sduSize) = 16 bytes |
| Wire.InitRoundTrip | src/client.cc:105-111 | decoding the Init buffer at the encoder's offsets gives back count, duration and sduSize |
| Wire.InitEncodingOnto | src/client.cc:105-111 | every 16-byte buffer is the encoding of the Init it decodes to: the fields follow one another with no gap and no unused byte |
| Wire.PackInit | src/client.cc:105-109 | the three `memcpy` calls fill the 16-byte buffer with count's bytes, then duration's, then sduSize's, so the peer decodes the client's three fields |
| Wire.UnpackResult | src/client.cc:149-154 | the three `memcpy` calls out of the 50-byte response read seq from bytes [0,8), totalBytes from [8,16) and ms from [16,20) |
| Wire.ResultRoundTrip | src/client.cc:149-154 | for any response whose first 20 bytes come from an encoder with the same layout, the decoded triple is the encoded one, whatever follows |
| Wire.DecodeResult | src/client.cc:152-154 | the Result read at offsets 0, 8 and 16 re-encodes to the first 20 bytes of the response: every 20-byte prefix is the encoding of exactly one Result |
| Wire.DecodeResultReadsPrefix | src/client.cc:114-115 | only the first 20 bytes of the 50-byte response affect the decoded Result |
| Timing.CDiv | src/client.cc:165-166 | C's integer `/`: the remainder a - q*b lies in [0, b) for a non-negative dividend and in (-b, 0] for a negative one, that is, the quotient is truncated toward zero |
| Timing.SecondsElapsed | src/client.cc:170-178 | for normalised readings less than 2^32 seconds apart, now not before start, the borrow makes `secondsElapsed` the floor of the elapsed time in seconds |
| Timing.BusyWaitMillisAsWritten | src/client.cc:165-166 | the elapsed-time expression as written never reads positive while both readings fall in the same second, however much time has passed |
| Timing.BusyWaitMillisAsWrittenIsNegative | src/client.cc:165-166 | the elapsed-time expression as written gives -500 ms half a second after the start, where 500 ms have passed |
| Timing.BusyWaitMillisBounds | src/client.cc:165-166 | with the nanosecond term added, the expression is the elapsed time in whole milliseconds or one more |
| Events.FirstMatch | src/client.cc:80-87 | the wait ends at an event that is non-null, of the expected type and numbered with the request's sequence number, and no earlier event is such |
| Events.SkipsUnrelated | src/client.cc:189-196 | any run of unrelated or null events ahead of a matching one is skipped, and the wait ends at that event whatever follows it |
| Events.MatchHasClass | src/client.cc:89-93 | states the assumption the unchecked `dynamic_cast` after each wait relies on: an event's type agrees with its class, so a matched allocation-result event is an allocation result and a matched deallocation-response event is a deallocation response |
| StopRule.Increment | src/client.cc:138 | `seq++` on an `unsigned long long` adds one below 2^64 - 1 and wraps 2^64 - 1 to 0 |
| StopRule.CheckFires | src/client.cc:139-144 | the check block can clear the running flag only when the counter is a multiple of 997, and never when both count and duration are 0 |
| StopRule.Wrap64Succ | src/client.cc:138 | `seq++` on an `unsigned long long`: after n+1 increments from 0 the counter is one increment of its value after n |
| StopRule.CheckStep | src/client.cc:139-144 | one evaluation of the check block clears the running flag exactly when a stop condition holds at a multiple of 997, so the flag stays in step with the first stop point |
| StopRule.LoopOutcomeUnique | src/client.cc:132-145 | the number of units sent and whether the loop stopped are determined by count, duration and the clock |
| StopRule.CountStopPointSpec | src/client.cc:139-143 | the count stop point is the smallest positive multiple of 997 that is at least the count |
| StopRule.CountOnlyStop | src/client.cc:139-143 | with a count (up to the last multiple of 997 below 2^64) and no duration, the loop first stops after exactly the count stop point |
| StopRule.CountOnlyRun | src/client.cc:132-145 | such a run sends at least count and at most count+996 units |
| StopRule.UnboundedRun | src/client.cc:132-145 | with neither a count nor a duration the loop never stops |
| StopRule.CountBeyondLastCheckNeverStops | src/client.cc:138-143 | a count above 18446744073709550655 is never reached at a check, because the counter wraps to 0 first |
| StopRule.DurationStopElapsed | src/client.cc:140-141 | with a duration and no count, and readings that do not go back and stay within 2^32 seconds of the start, the loop stops only once at least `duration` seconds have elapsed since the start |
| StopRule.DurationNotYetElapsed | src/client.cc:139-141 | with a duration and no count, at every check point before the stop `secondsElapsed` was still below `duration` |
| StopRule.BackwardStepStopsEarly | src/client.cc:170-178 | when the wall clock steps back one second, `secondsElapsed` wraps and the first check stops a run with a one-second duration before any time has passed |
| ClientModel.MaxAllowableGap | src/client.cc:62-65 | a reliable flow is requested with maxAllowableGap 0, any other with 1 |
| ClientModel.AcceptCommitted | src/client.cc:94-100 | the allocation fails exactly when the committed flow is null or its port id is -1; otherwise the flow has the committed port id |
| ClientModel.AllocationOutcome | src/client.cc:89-100 | the flow `createFlow` returns is none exactly when committing the matched event's sequence number, port id and DIF name yields a null flow or port id -1, and otherwise has that port id |
| ClientModel.Client.Dif | src/client.cc:67-78 | the request names a DIF exactly when `difName` is non-empty, and then the DIF `(difName, "")` |
| ClientModel.MatchedEvent | src/client.cc:80-89 | the event a wait returns has the expected type and sequence number |
| ClientModel.Writes | src/client.cc:134 | one `writeSDU` call per data unit, in order |
| ClientModel.Client.WaitForEvent | src/client.cc:80-87 | the `for (;;)` loop returns the first matching event of the stream, discards every earlier event and takes no later one |
| ClientModel.Client.CreateFlow | src/client.cc:54-101 | requests allocation with the configured names, the DIF (none when difName is empty) and the QoS, waits for the result numbered with the request's sequence number, commits it with its port id and DIF name, and returns the accepted flow or none |
| ClientModel.Client.Handshake | src/client.cc:105-115 | sends the encoded Init as one SDU, then reads the acknowledgement into a new 50-byte response buffer |
| ClientModel.Client.SendUnit | src/client.cc:133-134 | the k-th unit sent is sduSize bytes whose first eight hold the counter after k increments |
| ClientModel.Client.SendUnits | src/client.cc:131-145 | the loop sends units 0, 1, ... in order and stops at the first check point where a stop condition holds (a multiple of 997), or is cut off at `limit` units |
| ClientModel.Client.ReceiveResult | src/client.cc:149-154 | the second `readSDU` and the three `memcpy` calls give the Result the server's SDU encodes, when that SDU holds at least 20 bytes |
| ClientModel.Client.GenerateTraffic | src/client.cc:103-154 | Init out, acknowledgement in, the data units out, then the Result in; the log reports seq units and seq*sduSize bytes, both modulo 2^64 |
| ClientModel.Client.DestroyFlow | src/client.cc:180-201 | requests deallocation of the flow's port, waits for the matching response, and reports success for that same port exactly when the result is 0 |
| ClientModel.Client.Run | src/client.cc:39-52 | traffic and teardown run only on an accepted flow, each once, traffic strictly before teardown |
| Ipc.Ipc.EventWait | src/client.cc:81 | `eventWait` takes the head of the event stream |
| Ipc.Ipc.RequestFlowAllocation | src/client.cc:67-78 | an allocation request is logged and gets a fresh sequence number |
| Ipc.Ipc.CommitPendingFlow | src/client.cc:91-93 | `commitPendingFlow` is logged with its three arguments and returns what the oracle gives for them |
| Ipc.Ipc.RequestFlowDeallocation | src/client.cc:187 | a deallocation request for the port is logged and gets a fresh sequence number |
| Ipc.Ipc.FlowDeallocationResult | src/client.cc:200 | the port and the success flag are logged |
| Ipc.Ipc.WriteSdu | src/client.cc:111 | `writeSDU` logs the port and the exact bytes sent |
| Ipc.Ipc.ReadSdu | src/client.cc:114-115 | `readSDU` copies as much of the next incoming SDU as fits to the front of the buffer and leaves the rest of the buffer as it was |

## Left out

- librina: the library is reduced to what the client observes. `Ipc` holds an event stream, a counter of sequence numbers, a commit oracle, the incoming SDUs and a trace of calls. How the library produces these is not modelled.
- `applicationRegister` and the `registerClient` branch (src/client.cc:43-44): these register a name with the name service, which is I/O.
- `clock_gettime` and the spin loop of `busyWait` (src/client.cc:160-168) depend on real time. Only the integer elapsed-time expression of `busyWait` is modelled, as a function.
- Floating point (src/client.cc:124-129, 136, 157): the pacing interval from `rate`, the busy-wait deadline and the Mbps figure, including its `ms == 0` case.
- Logging: the `LOG_*` messages are not modelled, and neither is printing `response` as a C string. `LOG_DBG` dereferences `event` even when it is null (src/client.cc:86, 195); the model skips a null event as the loop's exit condition does.
- Byte order and field widths: little-endian is an assumption about the host. The Init widths 8/4/4 are assumptions because `client.h`, which declares `count`, `duration` and `sduSize`, is not part of this model. The Result widths 8/8/4 assume `unsigned long long` is 8 bytes and `unsigned int` is 4 on the host.
- ClientModel.Client.SendUnits: the loop is cut off after `limit` units. A run with neither a count nor a duration never ends by itself, and the bound makes the method total. The model does not cover what happens after a cut-off.
- ClientModel.Client.Run: a run whose send loop was cut off ends there, without the Result read and without teardown, as the process would when killed.
- ClientModel.Client.GenerateTraffic: the fields of the Result are stated only when the server's SDU holds at least the 20 bytes they occupy. A shorter SDU leaves bytes of the acknowledgement (or zeros, where a fresh buffer in the model holds uninitialised stack memory in C) in those positions.
- Ipc.Ipc.ReadSdu: `readSDU` is taken to copy a truncated prefix when the SDU is longer than the buffer; the library's behaviour there is not visible.
- Sequence numbers: `seqnum` and `seqNum` are `unsigned int` in C and are compared against the event's sequence number; the model uses unbounded naturals and does not model their 32-bit wrap-around.
- StopRule.DurationStopElapsed: the lemma assumes the readings are in order and less than 2^32 seconds apart. The client reads `CLOCK_REALTIME` (src/client.cc:121, 173), which can step back. A later reading before the start makes `now.tv_sec - start.tv_sec - cor` negative, and as an `unsigned int` it wraps to nearly 2^32 (src/client.cc:177). The next multiple of 997 then stops the run before `duration` seconds have passed (`StopRule.BackwardStepStopsEarly`). An elapsed time of 2^32 seconds or more wraps as well. `time_t` seconds are unbounded integers here.
- Events.MatchHasClass: an event's `eventType` is taken to agree with its dynamic class. librina guarantees this and the model assumes it: the type of an `Event` value is computed from its constructor. The source trusts it too; the cast is unchecked at src/client.cc:89 and only `assert`ed at src/client.cc:198.
- Data units shorter than 8 bytes: `SendUnit`, `SendUnits`, `GenerateTraffic` and `Run` require `sduSize >= 8`. For a smaller `sduSize` the `memcpy` of the 8-byte counter overflows `char toSend[sduSize]` (src/client.cc:131-133), which is undefined behaviour in C, so those sizes are excluded.

## Findings

| source | as written | input that shows it | evidently intended | confidence | as-written member | corrected member |
|---|---|---|---|---|---|---|
| src/client.cc:165-166 | the elapsed milliseconds are computed as `((now.sec - start.sec) * 1000000 - (now.nsec - start.nsec) / 1000) / 1000`, subtracting the nanosecond difference | start (0 s, 0 ns), now (0 s, 500000000 ns): the expression gives -500 ms where 500 ms have passed, so the spin overruns its deadline when the nanosecond difference is positive and ends early when it is negative | add the nanosecond difference, giving the elapsed time in whole milliseconds (or one more, from truncating a negative nanosecond difference toward zero) | not executed | Timing.BusyWaitMillisAsWrittenIsNegative | Timing.BusyWaitMillisBounds |
| src/client.cc:173-177 | the run's clock is `CLOCK_REALTIME`, and the `long` second difference is returned as an `unsigned int` | start (10 s, 0 ns), every later reading (9 s, 0 ns), duration 1, no count: the wall clock stepped back, `secondsElapsed` wraps to 2^32 - 1, and the check after unit 997 stops the run before any time has passed | a monotonic clock, whose readings never go back, so that the run stops only once `duration` seconds have elapsed | not executed | StopRule.BackwardStepStopsEarly | StopRule.DurationStopElapsed |
