/**
 * The per-event handler of the watch scheduler: skip malformed events and
 * events other than ADDED and MODIFIED, act only on pods pending for this
 * scheduler, and turn every attempt into an outcome.
 */
module Watch {
  import opened Kube
  import opened Admission
  import opened Binder
  import Polling

  /** The event's object: missing, lacking a `spec`, or a pod. */
  datatype EventObject = NoObject | WithoutSpec | PodObject(pod: Pod)

  /** A watch event: its type ("ADDED", "MODIFIED", "DELETED", ...) and its object. */
  datatype WatchEvent = WatchEvent(kind: string, obj: EventObject)

  /** What handling one event did. */
  datatype EventResult = Malformed | IgnoredKind | NotPending | Attempted(outcome: Outcome)

  /** Only ADDED and MODIFIED events are acted on; DELETED, BOOKMARK and ERROR are not. */
  predicate IsActionableKind(kind: string): (r: bool)
    ensures kind == "ADDED" || kind == "MODIFIED" ==> r
    ensures kind == "DELETED" || kind == "BOOKMARK" || kind == "ERROR" ==> !r
  {
    kind == "ADDED" || kind == "MODIFIED"
  }

  /** One iteration of the event loop, against the node and pod lists the cluster returns at that moment. */
  function HandleEvent(e: WatchEvent, nodes: seq<Node>, pods: seq<Pod>, schedulerName: string,
                       api: BindingCall -> CallResult): (r: EventResult)
    ensures r.Attempted? <==> e.obj.PodObject? && IsActionableKind(e.kind) && IsEligible(e.obj.pod, schedulerName)
    ensures r.Attempted? ==> r.outcome == Attempt(nodes, pods, e.obj.pod.ref, api)
    ensures r == Malformed <==> !e.obj.PodObject?
    ensures r == IgnoredKind <==> e.obj.PodObject? && !IsActionableKind(e.kind)
    ensures r == NotPending <==> e.obj.PodObject? && IsActionableKind(e.kind) && !IsEligible(e.obj.pod, schedulerName)
  {
    match e.obj
    case NoObject => Malformed
    case WithoutSpec => Malformed
    case PodObject(pod) =>
      if !IsActionableKind(e.kind) then IgnoredKind
      else if !IsEligible(pod, schedulerName) then NotPending
      else Attempted(Attempt(nodes, pods, pod.ref, api))
  }

  /** Events of any other type (DELETED, BOOKMARK, ERROR, ...) never lead to a bind. */
  lemma OtherKindsNeverBind(e: WatchEvent, nodes: seq<Node>, pods: seq<Pod>, schedulerName: string,
                            api: BindingCall -> CallResult)
    requires !IsActionableKind(e.kind)
    ensures !HandleEvent(e, nodes, pods, schedulerName, api).Attempted?
  {
  }

  /**
   * The watch handler and the polling cycle decide alike: for a pending pod
   * that the polling cycle reaches with a given pod list, an ADDED or MODIFIED
   * event for that pod against the same list yields the outcome the cycle
   * records.
   */
  lemma {:induction false} WatchAgreesWithPolling(nodes: seq<Node>, snapshot: seq<Pod>, k: nat, kind: string,
                                                  schedulerName: string, api: BindingCall -> CallResult)
    requires k < |snapshot| && IsActionableKind(kind) && IsEligible(snapshot[k], schedulerName)
    ensures var before := Polling.Batch(nodes, snapshot, k, schedulerName, api);
            var after := Polling.Batch(nodes, snapshot, k + 1, schedulerName, api);
            var r := HandleEvent(WatchEvent(kind, PodObject(snapshot[k])), nodes, before.0, schedulerName, api);
            r.Attempted? && after.1 == before.1 + [Polling.Report(snapshot[k].ref, r.outcome)]
  {
  }
}
