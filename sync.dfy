/**
 * The remote-sync decision at the end of saveAll: which calls go to the backend, in which order,
 * and which cloud id is stored locally. The backend is abstract: a create either returns an id or
 * fails, an update either succeeds or fails, and the outcome of the steps upload changes nothing.
 */
module Sync {
  import opened Wrappers
  import opened Records

  /** A step as uploaded: the stored step without its keys, `frequency` defaulted to `''`. */
  datatype StepPayload = StepPayload(
    index: int,
    who: string,
    action: string,
    tools: seq<string>,
    details: string,
    frequency: string,
    outcome: string,
    duration: string,
    isEnd: bool,
    nextType: NextType,
    nextRef: Option<NextRef>)

  function PayloadOf(s: StepRow): (p: StepPayload)
    ensures p.frequency == "" <==> s.frequency.None?
    ensures s.frequency.Some? ==> p.frequency == FrequencyLabel(s.frequency.value)
  {
    StepPayload(s.index, s.who, s.action, s.tools, s.details, FrequencyText(s.frequency),
                s.outcome, s.duration, s.isEnd, s.nextType, s.nextRef)
  }

  function Payload(steps: seq<StepRow>): (p: seq<StepPayload>)
    ensures |p| == |steps|
    ensures forall i :: 0 <= i < |steps| ==> p[i] == PayloadOf(steps[i])
  {
    seq(|steps|, i requires 0 <= i < |steps| => PayloadOf(steps[i]))
  }

  datatype RemoteCall =
    | CreateProcess(name: string)
    | UpdateProcess(cloudId: string, name: string)
    | PutSteps(cloudId: string, steps: seq<StepPayload>)

  /** How the backend answers: the id a create returns (`None` when it fails), and whether an
      update succeeds. */
  datatype Replies = Replies(created: Option<string>, updateOk: bool)

  /** The calls made, in order, and the cloud id to store on the local process (if any). */
  datatype SyncOutcome = SyncOutcome(calls: seq<RemoteCall>, storedCloudId: Option<string>)

  /** JavaScript truthiness of an optional string. */
  predicate Truthy(o: Option<string>)
  {
    o.Some? && o.value != ""
  }

  function CreateCount(calls: seq<RemoteCall>): nat
  {
    if calls == [] then 0 else (if calls[0].CreateProcess? then 1 else 0) + CreateCount(calls[1..])
  }

  /** The sync step of saveAll for the process `proc` and the saved list `steps`. */
  function SyncPlan(apiBase: string, proc: Option<ProcessRow>, steps: seq<StepRow>, replies: Replies): (r: SyncOutcome)
    ensures apiBase == "" ==> r == SyncOutcome([], None)
    ensures apiBase != "" && !(proc.Some? && Truthy(proc.value.cloudId)) ==>
      && CreateCount(r.calls) == 1 && 1 <= |r.calls|
      && r.calls[0] == CreateProcess(if proc.Some? && proc.value.name != "" then proc.value.name else "Untitled")
      && r.storedCloudId == replies.created
      && (replies.created.Some? <==> |r.calls| == 2)
      && (replies.created.Some? ==> r.calls[1] == PutSteps(replies.created.value, Payload(steps)))
    ensures apiBase != "" && proc.Some? && Truthy(proc.value.cloudId) ==>
      && CreateCount(r.calls) == 0 && r.storedCloudId.None? && 1 <= |r.calls|
      && r.calls[0] == UpdateProcess(proc.value.cloudId.value, proc.value.name)
      && (replies.updateOk <==> |r.calls| == 2)
      && (replies.updateOk ==> r.calls[1] == PutSteps(proc.value.cloudId.value, Payload(steps)))
    ensures 1 <= |r.calls| ==> |r.calls| <= 2 && forall i :: 0 <= i < |r.calls| - 1 ==> !r.calls[i].PutSteps?
  {
    if apiBase == "" then SyncOutcome([], None)
    else if !(proc.Some? && Truthy(proc.value.cloudId)) then
      var create := CreateProcess(if proc.Some? && proc.value.name != "" then proc.value.name else "Untitled");
      match replies.created
      case None =>
        assert CreateCount([create]) == 1 + CreateCount([create][1..]);
        SyncOutcome([create], None)
      case Some(id) =>
        var calls := [create, PutSteps(id, Payload(steps))];
        assert CreateCount(calls) == 1 + CreateCount(calls[1..]);
        assert CreateCount(calls[1..]) == CreateCount(calls[2..]);
        SyncOutcome(calls, Some(id))
    else
      var cloudId := proc.value.cloudId.value;
      var update := UpdateProcess(cloudId, proc.value.name);
      if replies.updateOk then
        var calls := [update, PutSteps(cloudId, Payload(steps))];
        assert CreateCount(calls) == CreateCount(calls[1..]);
        assert CreateCount(calls[1..]) == CreateCount(calls[2..]);
        SyncOutcome(calls, None)
      else
        assert CreateCount([update]) == CreateCount([update][1..]);
        SyncOutcome([update], None)
  }
}
