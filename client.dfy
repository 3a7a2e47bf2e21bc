/** `Client`: allocates one flow, runs the Init handshake, the paced send
    loop and the Result read over it, and deallocates it. */
module ClientModel {
  import opened Bytes
  import opened Wrappers
  import opened Events
  import opened Wire
  import opened Timing
  import opened StopRule
  import opened Ipc

  /** The QoS the client asks for: a reliable flow tolerates no gap in delivery,
      any other flow a gap of one. */
  function MaxAllowableGap(reliable: bool): (gap: int)
    ensures gap == 0 <==> reliable
    ensures gap == 0 || gap == 1
  {
    if reliable then 0 else 1
  }

  /** The check after `commitPendingFlow`: the flow is kept only when the
      pointer is non-null and its port id is not -1. */
  function AcceptCommitted(committed: Option<int>): (flow: Option<Flow>)
    ensures flow.None? <==> (committed.None? || committed.value == -1)
    ensures flow.Some? ==> flow.value.portId == committed.value
  {
    if committed.None? || committed.value == -1 then None else Some(Flow(committed.value))
  }

  /** The event a wait returns. */
  function MatchedEvent(stream: seq<Option<Event>>, t: EventType, sn: nat): (e: Event)
    requires HasMatch(stream, t, sn)
    ensures TypeOf(e) == t && e.sequenceNumber == sn
  {
    stream[FirstMatch(stream, t, sn)].value
  }

  /** The events still in the stream after a wait: those after the match. */
  function AfterMatch(stream: seq<Option<Event>>, t: EventType, sn: nat): (rest: seq<Option<Event>>)
    requires HasMatch(stream, t, sn)
    ensures |rest| < |stream|
  {
    stream[FirstMatch(stream, t, sn) + 1..]
  }

  /** What `createFlow` returns, given the stream it waits on, the sequence
      number of its request and what committing yields. */
  function AllocationOutcome(stream: seq<Option<Event>>, sn: nat, commit: (nat, int, string) -> Option<int>): (flow: Option<Flow>)
    requires HasMatch(stream, AllocateFlowRequestResultEvent, sn)
    ensures var ev := MatchedEvent(stream, AllocateFlowRequestResultEvent, sn);
            var committed := commit(ev.sequenceNumber, ev.portId, ev.difName);
            && (flow.None? <==> (committed.None? || committed.value == -1))
            && (flow.Some? ==> flow.value.portId == committed.value)
  {
    var ev := MatchedEvent(stream, AllocateFlowRequestResultEvent, sn);
    AcceptCommitted(commit(sn, ev.portId, ev.difName))
  }

  /** The k-th data unit (from 0): `sduSize` bytes whose first eight, read as
      an `unsigned long long`, are the 64-bit counter after k increments. The
      rest of the unit is unspecified. */
  predicate IsDataUnit(sdu: seq<byte>, k: nat, sduSize: nat) {
    |sdu| == sduSize && sduSize >= SeqSize && FromLE(sdu[..SeqSize]) == Wrap64(k)
  }

  /** `units` are the data units 0, 1, ... in order. */
  predicate DataUnits(units: seq<seq<byte>>, sduSize: nat) {
    forall k :: 0 <= k < |units| ==> IsDataUnit(units[k], k, sduSize)
  }

  lemma DataUnitsAppend(units: seq<seq<byte>>, sdu: seq<byte>, sduSize: nat)
    requires DataUnits(units, sduSize) && IsDataUnit(sdu, |units|, sduSize)
    ensures DataUnits(units + [sdu], sduSize)
  {
  }

  /** One `writeSDU` call per unit, in order. */
  function Writes(port: int, sdus: seq<seq<byte>>): (calls: seq<Call>)
    ensures |calls| == |sdus|
    ensures forall k :: 0 <= k < |sdus| ==> calls[k] == SduWritten(port, sdus[k])
  {
    if sdus == [] then [] else Writes(port, sdus[..|sdus| - 1]) + [SduWritten(port, sdus[|sdus| - 1])]
  }

  lemma WritesAppend(port: int, sdus: seq<seq<byte>>, sdu: seq<byte>)
    ensures Writes(port, sdus + [sdu]) == Writes(port, sdus) + [SduWritten(port, sdu)]
  {
    assert (sdus + [sdu])[..|sdus|] == sdus;
  }

  lemma ConcatAssoc<T>(a: seq<T>, b: seq<T>, c: seq<T>, d: seq<T>)
    ensures a + b + c + d == a + (b + c + d)
  {
  }

  /** The calls `generateTraffic` makes: Init out, acknowledgement in, the
      data units out, and (when the loop stopped) the Result in. */
  function TrafficCalls(port: int, init: InitMessage, units: seq<seq<byte>>, stopped: bool): seq<Call> {
    [SduWritten(port, EncodeInit(init)), SduRead(port)] + Writes(port, units) +
    (if stopped then [SduRead(port)] else [])
  }

  class Client {
    const appName: string
    const appInstance: string
    const serverName: string
    const serverInstance: string
    const difName: string
    const reliable: bool
    const count: uint64
    const duration: uint32
    const sduSize: uint32
    const ipc: Ipc

    constructor (appName: string, appInstance: string, serverName: string, serverInstance: string,
                 difName: string, reliable: bool, count: uint64, duration: uint32, sduSize: uint32, ipc: Ipc)
      ensures this.appName == appName && this.appInstance == appInstance
      ensures this.serverName == serverName && this.serverInstance == serverInstance
      ensures this.difName == difName && this.reliable == reliable
      ensures this.count == count && this.duration == duration && this.sduSize == sduSize
      ensures this.ipc == ipc
    {
      this.appName, this.appInstance := appName, appInstance;
      this.serverName, this.serverInstance := serverName, serverInstance;
      this.difName, this.reliable := difName, reliable;
      this.count, this.duration, this.sduSize := count, duration, sduSize;
      this.ipc := ipc;
    }

    function LocalName(): NamingInfo { NamingInfo(appName, appInstance) }
    function RemoteName(): NamingInfo { NamingInfo(serverName, serverInstance) }

    /** The DIF named in the request: none when `difName` is empty. */
    function Dif(): (dif: Option<NamingInfo>)
      ensures dif.None? <==> difName == ""
      ensures dif.Some? ==> dif.value.processName == difName && dif.value.processInstance == ""
    {
      if difName != "" then Some(NamingInfo(difName, "")) else None
    }

    function Qos(): FlowSpecification { FlowSpecification(MaxAllowableGap(reliable)) }
    function Init(): InitMessage { InitMessage(count, duration, sduSize) }

    /** The `for (;;)` loops of `createFlow` and `destroyFlow`: take events off
        the stream until one is non-null, of type `t` and numbered `sn`. Every
        earlier event is discarded, and no later one is taken. */
    method WaitForEvent(t: EventType, sn: nat) returns (ev: Event)
      requires HasMatch(ipc.events, t, sn)
      modifies ipc
      ensures ev == MatchedEvent(old(ipc.events), t, sn)
      ensures ipc.events == AfterMatch(old(ipc.events), t, sn)
      ensures ipc.nextSeqNum == old(ipc.nextSeqNum) && ipc.incoming == old(ipc.incoming)
      ensures ipc.trace == old(ipc.trace)
    {
      ghost var stream := ipc.events;
      ghost var first := FirstMatch(stream, t, sn);
      var e := ipc.EventWait();
      ghost var taken := 1;
      while !Matches(e, t, sn)
        invariant 1 <= taken <= first + 1
        invariant e == stream[taken - 1]
        invariant ipc.events == stream[taken..]
        invariant ipc.nextSeqNum == old(ipc.nextSeqNum) && ipc.incoming == old(ipc.incoming)
        invariant ipc.trace == old(ipc.trace)
        decreases |ipc.events|
      {
        e := ipc.EventWait();
        taken := taken + 1;
      }
      ev := e.value;
    }

    /** `createFlow` */
    method CreateFlow() returns (flow: Option<Flow>)
      requires HasMatch(ipc.events, AllocateFlowRequestResultEvent, ipc.nextSeqNum)
      modifies ipc
      ensures var sn := old(ipc.nextSeqNum);
              var ev := MatchedEvent(old(ipc.events), AllocateFlowRequestResultEvent, sn);
              && flow == AllocationOutcome(old(ipc.events), sn, ipc.commitOutcome)
              && ipc.events == AfterMatch(old(ipc.events), AllocateFlowRequestResultEvent, sn)
              && ipc.trace == old(ipc.trace) + [AllocationRequested(LocalName(), RemoteName(), Dif(), Qos()),
                                                FlowCommitted(sn, ev.portId, ev.difName)]
      ensures ipc.nextSeqNum == old(ipc.nextSeqNum) + 1 && ipc.incoming == old(ipc.incoming)
    {
      var qosspec := FlowSpecification(MaxAllowableGap(reliable));
      var seqnum := ipc.RequestFlowAllocation(LocalName(), RemoteName(), Dif(), qosspec);
      var afrrevent := WaitForEvent(AllocateFlowRequestResultEvent, seqnum);
      var committed := ipc.CommitPendingFlow(afrrevent.sequenceNumber, afrrevent.portId, afrrevent.difName);
      flow := AcceptCommitted(committed);
    }

    /** One pass of the send loop up to the send: `memcpy(toSend, &seq, sizeof(seq))`
        and `writeSDU(toSend, sduSize)`. The sent unit is the k-th data unit. */
    method SendUnit(flow: Flow, toSend: array<byte>, sequence: uint64, ghost k: nat) returns (sdu: seq<byte>)
      requires toSend.Length == sduSize >= SeqSize
      requires sequence == Wrap64(k)
      modifies ipc, toSend
      ensures IsDataUnit(sdu, k, sduSize)
      ensures ipc.trace == old(ipc.trace) + [SduWritten(flow.portId, sdu)]
      ensures ipc.incoming == old(ipc.incoming) && ipc.events == old(ipc.events)
      ensures ipc.nextSeqNum == old(ipc.nextSeqNum)
    {
      Pow256Widths();
      WriteLE(toSend, 0, sequence, SeqSize);
      sdu := toSend[..];
      ipc.WriteSdu(flow, sdu);
      assert sdu[..SeqSize] == LE(sequence, SeqSize);
      FromLEOfLE(sequence, SeqSize);
    }

    /** The start of `generateTraffic`: pack the Init message, send it, and
        read the acknowledgement into the response buffer. */
    method Handshake(flow: Flow) returns (response: array<byte>)
      requires ipc.incoming != []
      modifies ipc
      ensures fresh(response) && response.Length == ResponseSize
      ensures ipc.trace == old(ipc.trace) + [SduWritten(flow.portId, EncodeInit(Init())), SduRead(flow.portId)]
      ensures ipc.incoming == old(ipc.incoming[1..])
      ensures ipc.events == old(ipc.events) && ipc.nextSeqNum == old(ipc.nextSeqNum)
    {
      var initData := PackInit(Init());
      ipc.WriteSdu(flow, initData);
      response := new byte[ResponseSize];
      var _ := ipc.ReadSdu(flow, response);
    }

    /** The end of `generateTraffic`: read the Result into the response buffer
        and unpack its three fields. When the peer's SDU holds at least the 20
        bytes of a Result, the fields are those it encodes. */
    method ReceiveResult(flow: Flow, response: array<byte>) returns (r: ResultMessage)
      requires ipc.incoming != [] && response.Length == ResponseSize
      modifies ipc, response
      ensures |old(ipc.incoming[0])| >= ResultSize ==> r == DecodeResult(old(ipc.incoming[0]))
      ensures ipc.trace == old(ipc.trace) + [SduRead(flow.portId)]
      ensures ipc.incoming == old(ipc.incoming[1..])
      ensures ipc.events == old(ipc.events) && ipc.nextSeqNum == old(ipc.nextSeqNum)
    {
      ghost var sdu := ipc.incoming[0];
      var _ := ipc.ReadSdu(flow, response);
      r := UnpackResult(response);
      if |sdu| >= ResultSize {
        assert response[..][..ResultSize] == sdu[..ResultSize];
        DecodeResultReadsPrefix(response[..], sdu);
      }
    }

    /** The `while (running)` loop of `generateTraffic`, cut off after at most
        `limit` units: each pass writes the counter into the first bytes of
        `toSend`, sends it, increments the counter and, when the counter is a
        multiple of 997, evaluates the stop conditions. */
    method SendUnits(flow: Flow, clock: nat -> Timespec, limit: nat)
      returns (sent: nat, stopped: bool, sequence: uint64, ghost units: seq<seq<byte>>)
      requires sduSize >= SeqSize
      modifies ipc
      ensures LoopOutcome(count, duration, clock, limit, sent, stopped)
      ensures sequence == Wrap64(sent)
      ensures stopped ==> sent >= 1 && sequence % CheckInterval == 0
      ensures |units| == sent && DataUnits(units, sduSize)
      ensures ipc.trace == old(ipc.trace) + Writes(flow.portId, units)
      ensures ipc.incoming == old(ipc.incoming) && ipc.events == old(ipc.events)
      ensures ipc.nextSeqNum == old(ipc.nextSeqNum)
    {
      sequence := 0;
      var start := clock(0);
      var running := true;
      var toSend := new byte[sduSize];
      sent, units := 0, [];
      while running && sent < limit
        invariant sent <= limit && sequence == Wrap64(sent)
        invariant InStep(count, duration, clock, sent, running)
        invariant |units| == sent && DataUnits(units, sduSize)
        invariant ipc.trace == old(ipc.trace) + Writes(flow.portId, units)
        invariant ipc.incoming == old(ipc.incoming) && ipc.events == old(ipc.events)
        invariant ipc.nextSeqNum == old(ipc.nextSeqNum)
        decreases limit - sent
      {
        var sdu := SendUnit(flow, toSend, sequence, sent);
        WritesAppend(flow.portId, units, sdu);
        DataUnitsAppend(units, sdu, sduSize);
        units := units + [sdu];

        Wrap64Succ(sent);
        sequence := Increment(sequence);
        sent := sent + 1;
        assert sequence == Wrap64(sent);
        if sequence % CheckInterval == 0 {
          if duration != 0 && SecondsElapsed(start, clock(sent)) >= duration {
            running := false;
          }
          if count != 0 && sequence >= count {
            running := false;
          }
        }
        assert running == !CheckFires(count, duration, start, clock(sent), sequence);
        CheckStep(count, duration, clock, sent, sequence, running);
      }
      stopped := !running;
    }

    /** `generateTraffic` up to the point where at most `limit` data units
        have been sent. `clock(0)` is the reading taken as the run starts,
        `clock(n)` the one the stop check takes after the n-th unit. */
    method GenerateTraffic(flow: Flow, clock: nat -> Timespec, limit: nat)
      returns (sent: nat, stopped: bool, loggedUnits: uint64, loggedBytes: uint64,
               result: Option<ResultMessage>, ghost units: seq<seq<byte>>)
      requires sduSize >= SeqSize
      requires |ipc.incoming| >= 2
      modifies ipc
      ensures LoopOutcome(count, duration, clock, limit, sent, stopped)
      ensures |units| == sent && DataUnits(units, sduSize)
      ensures ipc.trace == old(ipc.trace) + TrafficCalls(flow.portId, Init(), units, stopped)
      ensures ipc.incoming == old(ipc.incoming)[if stopped then 2 else 1..]
      ensures stopped ==> loggedUnits == Wrap64(sent) && loggedBytes == Wrap64(Wrap64(sent) * sduSize)
      ensures result.Some? <==> stopped
      ensures stopped && |old(ipc.incoming)[1]| >= ResultSize ==> result == Some(DecodeResult(old(ipc.incoming)[1]))
      ensures ipc.events == old(ipc.events) && ipc.nextSeqNum == old(ipc.nextSeqNum)
    {
      ghost var before := ipc.trace;
      var response := Handshake(flow);
      var sequence;
      sent, stopped, sequence, units := SendUnits(flow, clock, limit);
      loggedUnits := sequence;
      loggedBytes := (sequence * sduSize) % TwoTo64;
      if stopped {
        var r := ReceiveResult(flow, response);
        result := Some(r);
      } else {
        result := None;
      }
      ConcatAssoc(before, [SduWritten(flow.portId, EncodeInit(Init())), SduRead(flow.portId)],
                  Writes(flow.portId, units), if stopped then [SduRead(flow.portId)] else []);
    }

    /** `destroyFlow`: request deallocation of the flow's port, wait for the
        matching response, and report success exactly when its result is 0. */
    method DestroyFlow(flow: Flow)
      requires HasMatch(ipc.events, DeallocateFlowResponseEvent, ipc.nextSeqNum)
      modifies ipc
      ensures var sn := old(ipc.nextSeqNum);
              var resp := MatchedEvent(old(ipc.events), DeallocateFlowResponseEvent, sn);
              && resp.DeallocateFlowResponse?
              && ipc.events == AfterMatch(old(ipc.events), DeallocateFlowResponseEvent, sn)
              && ipc.trace == old(ipc.trace) + [DeallocationRequested(flow.portId),
                                                DeallocationReported(flow.portId, resp.result == 0)]
      ensures ipc.nextSeqNum == old(ipc.nextSeqNum) + 1 && ipc.incoming == old(ipc.incoming)
    {
      var portId := flow.portId;
      var seqNum := ipc.RequestFlowDeallocation(portId);
      var resp := WaitForEvent(DeallocateFlowResponseEvent, seqNum);
      ipc.FlowDeallocationResult(portId, resp.result == 0);
    }

    /** `run`: traffic and teardown happen only on an accepted flow, each once,
        traffic first. A run whose send loop was cut off at `limit` units
        ends there, as the process would when killed. */
    method Run(clock: nat -> Timespec, limit: nat)
      returns (flow: Option<Flow>, sent: nat, stopped: bool, result: Option<ResultMessage>,
               ghost units: seq<seq<byte>>)
      requires HasMatch(ipc.events, AllocateFlowRequestResultEvent, ipc.nextSeqNum)
      requires AllocationOutcome(ipc.events, ipc.nextSeqNum, ipc.commitOutcome).Some? ==>
                 && sduSize >= SeqSize && |ipc.incoming| >= 2
                 && HasMatch(AfterMatch(ipc.events, AllocateFlowRequestResultEvent, ipc.nextSeqNum),
                             DeallocateFlowResponseEvent, ipc.nextSeqNum + 1)
      modifies ipc
      ensures var sn := old(ipc.nextSeqNum);
              var ev := MatchedEvent(old(ipc.events), AllocateFlowRequestResultEvent, sn);
              var allocation := [AllocationRequested(LocalName(), RemoteName(), Dif(), Qos()),
                                 FlowCommitted(sn, ev.portId, ev.difName)];
              && flow == AllocationOutcome(old(ipc.events), sn, ipc.commitOutcome)
              && (flow.None? ==> sent == 0 && !stopped && result.None? && ipc.trace == old(ipc.trace) + allocation)
              && (flow.Some? ==>
                    var p := flow.value.portId;
                    var rest := AfterMatch(old(ipc.events), AllocateFlowRequestResultEvent, sn);
                    var resp := MatchedEvent(rest, DeallocateFlowResponseEvent, sn + 1);
                    && LoopOutcome(count, duration, clock, limit, sent, stopped)
                    && |units| == sent && (DataUnits(units, sduSize))
                    && (result.Some? <==> stopped)
                    && (stopped && |old(ipc.incoming)[1]| >= ResultSize ==> result == Some(DecodeResult(old(ipc.incoming)[1])))
                    && ipc.trace == old(ipc.trace) + allocation + TrafficCalls(p, Init(), units, stopped) +
                       (if stopped then [DeallocationRequested(p), DeallocationReported(p, resp.result == 0)] else []))
    {
      flow := CreateFlow();
      sent, stopped, result, units := 0, false, None, [];
      if flow.Some? {
        var loggedUnits, loggedBytes;
        sent, stopped, loggedUnits, loggedBytes, result, units := GenerateTraffic(flow.value, clock, limit);
        if stopped {
          DestroyFlow(flow.value);
        }
      }
    }
  }
}
