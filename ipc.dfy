/** The part of librina the client calls, reduced to what the client can
    observe: an event stream, the sequence numbers handed out for requests,
    an oracle that decides what committing a pending flow yields, the SDUs
    the peer will send, and a trace of every call the client makes. */
module Ipc {
  import opened Bytes
  import opened Wrappers
  import opened Events

  /** `ApplicationProcessNamingInformation(processName, processInstance)` */
  datatype NamingInfo = NamingInfo(processName: string, processInstance: string)

  /** The one field of `FlowSpecification` the client sets. */
  datatype FlowSpecification = FlowSpecification(maxAllowableGap: int)

  /** A committed flow, identified by its port id. */
  datatype Flow = Flow(portId: int)

  /** One call into the library, with its arguments. */
  datatype Call =
    | AllocationRequested(local: NamingInfo, remote: NamingInfo, dif: Option<NamingInfo>, qos: FlowSpecification)
    | FlowCommitted(sequenceNumber: nat, portId: int, difName: string)
    | SduWritten(port: int, sdu: seq<byte>)
    | SduRead(port: int)
    | DeallocationRequested(port: int)
    | DeallocationReported(port: int, success: bool)

  class Ipc {
    /** Events `eventWait` will deliver, in order; None is a null event pointer. */
    var events: seq<Option<Event>>
    /** The sequence number the next request will be given. */
    var nextSeqNum: nat
    /** SDUs the peer will send on the flow, in order. */
    var incoming: seq<seq<byte>>
    /** Every call made so far, in order. */
    var trace: seq<Call>
    /** For `commitPendingFlow(sequenceNumber, portId, difName)`: the port id of
        the flow it returns, or None when it returns a null pointer. */
    const commitOutcome: (nat, int, string) -> Option<int>

    constructor (events: seq<Option<Event>>, firstSeqNum: nat, incoming: seq<seq<byte>>,
                 commitOutcome: (nat, int, string) -> Option<int>)
      ensures this.events == events && nextSeqNum == firstSeqNum
      ensures this.incoming == incoming && trace == []
      ensures this.commitOutcome == commitOutcome
    {
      this.events := events;
      nextSeqNum := firstSeqNum;
      this.incoming := incoming;
      trace := [];
      this.commitOutcome := commitOutcome;
    }

    /** `ipcEventProducer->eventWait()`: takes the next event off the stream. */
    method EventWait() returns (e: Option<Event>)
      requires events != []
      modifies this
      ensures e == old(events[0]) && events == old(events[1..])
      ensures nextSeqNum == old(nextSeqNum) && incoming == old(incoming) && trace == old(trace)
    {
      e := events[0];
      events := events[1..];
    }

    /** `requestFlowAllocation` / `requestFlowAllocationInDIF`: returns the request's sequence number. */
    method RequestFlowAllocation(local: NamingInfo, remote: NamingInfo, dif: Option<NamingInfo>,
                                 qos: FlowSpecification) returns (sn: nat)
      modifies this
      ensures sn == old(nextSeqNum) && nextSeqNum == sn + 1
      ensures trace == old(trace) + [AllocationRequested(local, remote, dif, qos)]
      ensures events == old(events) && incoming == old(incoming)
    {
      sn := nextSeqNum;
      nextSeqNum := nextSeqNum + 1;
      trace := trace + [AllocationRequested(local, remote, dif, qos)];
    }

    /** `commitPendingFlow`: None stands for a null flow pointer. */
    method CommitPendingFlow(sequenceNumber: nat, portId: int, difName: string) returns (committed: Option<int>)
      modifies this
      ensures committed == commitOutcome(sequenceNumber, portId, difName)
      ensures trace == old(trace) + [FlowCommitted(sequenceNumber, portId, difName)]
      ensures events == old(events) && nextSeqNum == old(nextSeqNum) && incoming == old(incoming)
    {
      committed := commitOutcome(sequenceNumber, portId, difName);
      trace := trace + [FlowCommitted(sequenceNumber, portId, difName)];
    }

    /** `requestFlowDeallocation(portId)`: returns the request's sequence number. */
    method RequestFlowDeallocation(portId: int) returns (sn: nat)
      modifies this
      ensures sn == old(nextSeqNum) && nextSeqNum == sn + 1
      ensures trace == old(trace) + [DeallocationRequested(portId)]
      ensures events == old(events) && incoming == old(incoming)
    {
      sn := nextSeqNum;
      nextSeqNum := nextSeqNum + 1;
      trace := trace + [DeallocationRequested(portId)];
    }

    /** `flowDeallocationResult(portId, success)` */
    method FlowDeallocationResult(portId: int, success: bool)
      modifies this
      ensures trace == old(trace) + [DeallocationReported(portId, success)]
      ensures events == old(events) && nextSeqNum == old(nextSeqNum) && incoming == old(incoming)
    {
      trace := trace + [DeallocationReported(portId, success)];
    }

    /** `flow->writeSDU(sdu, |sdu|)` */
    method WriteSdu(flow: Flow, sdu: seq<byte>)
      modifies this
      ensures trace == old(trace) + [SduWritten(flow.portId, sdu)]
      ensures events == old(events) && nextSeqNum == old(nextSeqNum) && incoming == old(incoming)
    {
      trace := trace + [SduWritten(flow.portId, sdu)];
    }

    /** `flow->readSDU(buf, buf.Length)`: takes the next SDU the peer sent and
        copies as much of it as fits to the front of `buf`; the rest of `buf`
        keeps its old bytes. Returns the number of bytes copied. */
    method ReadSdu(flow: Flow, buf: array<byte>) returns (n: nat)
      requires incoming != []
      modifies this, buf
      ensures n == if |old(incoming[0])| <= buf.Length then |old(incoming[0])| else buf.Length
      ensures buf[..] == Splice(old(buf[..]), 0, old(incoming[0])[..n])
      ensures incoming == old(incoming[1..])
      ensures trace == old(trace) + [SduRead(flow.portId)]
      ensures events == old(events) && nextSeqNum == old(nextSeqNum)
    {
      var sdu := incoming[0];
      n := if |sdu| <= buf.Length then |sdu| else buf.Length;
      var i := 0;
      while i < n
        modifies buf
        invariant 0 <= i <= n
        invariant forall k :: 0 <= k < i ==> buf[k] == sdu[k]
        invariant forall k :: i <= k < buf.Length ==> buf[k] == old(buf[k])
      {
        buf[i] := sdu[i];
        i := i + 1;
      }
      assert buf[..] == Splice(old(buf[..]), 0, sdu[..n]);
      incoming := incoming[1..];
      trace := trace + [SduRead(flow.portId)];
    }
  }
}
