/** `aisHubToDeltas` in index.js, from the point after `JSON.parse`: check the
    status element, then hand one delta per station record to the host. */
module Dispatch {
  import opened Json
  import opened Deltas

  /** `plugin.id`, the tag every message to the host carries. */
  const PLUGIN_ID := "signalk-aishub-station"

  /** The parsed upstream reply `[status, records]`. */
  datatype Report = Report(status: Record, records: seq<Record>)

  /** One `app.handleMessage(plugin.id, delta)` call. */
  datatype Message = Message(pluginId: string, delta: Delta)

  /** How a cycle ends: every record published; the upstream reported an
      error and nothing was published; or a record's conversion threw and the
      remaining records were not visited. */
  datatype Outcome = Done | Refused | Threw(error: TypeError)

  /** `status.ERROR` read as a condition. */
  predicate Raised(status: Record)
  {
    "ERROR" in status && Truthy(status["ERROR"])
  }

  /** The messages handed to the host sink, in order, and how the cycle ended. */
  method AisHubToDeltas(hub: Report) returns (sent: seq<Message>, outcome: Outcome)
    ensures Raised(hub.status) <==> outcome == Refused
    ensures Raised(hub.status) ==> sent == []
    ensures |sent| <= |hub.records|
    ensures forall j :: 0 <= j < |sent| ==>
      sent[j].pluginId == PLUGIN_ID && VesselDelta(hub.records[j]) == Success(sent[j].delta)
    ensures outcome == Done <==> !Raised(hub.status) && forall j :: 0 <= j < |hub.records| ==> VesselDelta(hub.records[j]).Success?
    ensures outcome == Done ==> |sent| == |hub.records|
    ensures outcome.Threw? ==>
      |sent| < |hub.records| && VesselDelta(hub.records[|sent|]) == Failure(outcome.error)
  {
    if Raised(hub.status) {
      return [], Refused;
    }
    sent := [];
    var i := 0;
    while i < |hub.records|
      invariant 0 <= i <= |hub.records|
      invariant |sent| == i
      invariant forall j :: 0 <= j < i ==>
        sent[j].pluginId == PLUGIN_ID && VesselDelta(hub.records[j]) == Success(sent[j].delta)
    {
      var delta := GetVesselDelta(hub.records[i]);
      if delta.Failure? {
        return sent, Threw(delta.error);
      }
      sent := sent + [Message(PLUGIN_ID, delta.value)];
      i := i + 1;
    }
    outcome := Done;
  }
}
