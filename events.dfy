/** The IPC events the client waits for, and the rule by which a wait
    picks one out of the event stream. */
module Events {
  import opened Wrappers

  /** `IPCEvent::eventType`: the two kinds the client waits for, and the rest. */
  datatype EventType =
    | AllocateFlowRequestResultEvent
    | DeallocateFlowResponseEvent
    | OtherEventType(code: nat)

  /** An event with the fields of its dynamic class: an allocation result
      carries the new flow's port id and DIF name, a deallocation response
      carries a result code. */
  datatype Event =
    | AllocateFlowRequestResult(sequenceNumber: nat, portId: int, difName: string)
    | DeallocateFlowResponse(sequenceNumber: nat, result: int)
    | OtherEvent(code: nat, sequenceNumber: nat)

  function TypeOf(e: Event): EventType {
    match e
    case AllocateFlowRequestResult(_, _, _) => AllocateFlowRequestResultEvent
    case DeallocateFlowResponse(_, _) => DeallocateFlowResponseEvent
    case OtherEvent(code, _) => OtherEventType(code)
  }

  /** The loop's exit condition: the event pointer is non-null, and the event
      has the expected type and the expected sequence number. */
  predicate Matches(e: Option<Event>, t: EventType, sn: nat) {
    e.Some? && TypeOf(e.value) == t && e.value.sequenceNumber == sn
  }

  /** The stream holds an event that ends the wait; without one the wait blocks forever. */
  predicate HasMatch(stream: seq<Option<Event>>, t: EventType, sn: nat) {
    exists i :: 0 <= i < |stream| && Matches(stream[i], t, sn)
  }

  /** The position of the event that ends the wait: it matches, and no event before it does. */
  function FirstMatch(stream: seq<Option<Event>>, t: EventType, sn: nat): (i: nat)
    requires HasMatch(stream, t, sn)
    ensures i < |stream| && Matches(stream[i], t, sn)
    ensures forall j :: 0 <= j < i ==> !Matches(stream[j], t, sn)
  {
    if Matches(stream[0], t, sn) then 0
    else
      assert HasMatch(stream[1..], t, sn) by {
        var k :| 0 <= k < |stream| && Matches(stream[k], t, sn);
        assert stream[1..][k - 1] == stream[k];
      }
      1 + FirstMatch(stream[1..], t, sn)
  }

  /** A matching event of a given type is of the class of that type, so the
      `dynamic_cast` after each wait succeeds. */
  lemma MatchHasClass(e: Option<Event>, t: EventType, sn: nat)
    requires Matches(e, t, sn)
    ensures t == AllocateFlowRequestResultEvent ==> e.value.AllocateFlowRequestResult?
    ensures t == DeallocateFlowResponseEvent ==> e.value.DeallocateFlowResponse?
  {
  }

  /** Unrelated events ahead of a matching one are skipped: the wait ends at
      the matching event, whatever follows it. */
  lemma {:induction false} SkipsUnrelated(unrelated: seq<Option<Event>>, e: Event, rest: seq<Option<Event>>, t: EventType, sn: nat)
    requires forall j :: 0 <= j < |unrelated| ==> !Matches(unrelated[j], t, sn)
    requires Matches(Some(e), t, sn)
    ensures HasMatch(unrelated + [Some(e)] + rest, t, sn)
    ensures FirstMatch(unrelated + [Some(e)] + rest, t, sn) == |unrelated|
  {
    var s := unrelated + [Some(e)] + rest;
    assert s[|unrelated|] == Some(e);
  }
}
