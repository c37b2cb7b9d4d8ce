/**
 * Binding a pod to a node (`bind_pod`) and the per-pod try block shared by
 * both schedulers: choose a node, bind, and classify whatever is raised.
 * The cluster's binding endpoint is a parameter `api`, a function from the
 * request to what the client call did.
 */
module Binder {
  import opened Kube
  import opened Selection

  /** The exceptions the per-pod handler distinguishes. */
  datatype Exception =
    | ValueError(message: string)
    | ApiException(status: int, reason: string)
    | OtherException(kind: string, message: string)

  /** What `create_namespaced_binding` did: returned, or raised. */
  datatype CallResult = Returned | Raised(exc: Exception)

  datatype ObjectReference = ObjectReference(kind: string, apiVersion: string, name: string)
  datatype ObjectMeta = ObjectMeta(name: string)
  datatype Binding = Binding(target: ObjectReference, metadata: ObjectMeta)

  /**
   * A `create_namespaced_binding` call: a post to the namespace's `bindings`
   * endpoint. The call takes no pod name; the body's metadata names the pod.
   */
  datatype BindingCall = BindingCall(namespace: string, body: Binding)

  /** The pod a binding call addresses. */
  function AddressedPod(call: BindingCall): PodRef {
    PodRef(call.namespace, call.body.metadata.name)
  }

  /** The node a binding call assigns. */
  function TargetNode(call: BindingCall): string {
    call.body.target.name
  }

  /** The binding request `bind_pod` sends: a v1 Node reference to `node`, for `pod`, in its namespace. */
  function BindingCallFor(pod: PodRef, node: string): (r: BindingCall)
    ensures r.body.target.kind == "Node" && r.body.target.apiVersion == "v1"
    ensures AddressedPod(r) == pod && TargetNode(r) == node
  {
    BindingCall(pod.namespace, Binding(ObjectReference("Node", "v1", node), ObjectMeta(pod.name)))
  }

  /** Distinct (pod, node) pairs give distinct requests, so a request commits exactly the pair asked for. */
  lemma BindingCallInjective(p1: PodRef, n1: string, p2: PodRef, n2: string)
    requires BindingCallFor(p1, n1) == BindingCallFor(p2, n2)
    ensures p1 == p2 && n1 == n2
  {
    assert AddressedPod(BindingCallFor(p1, n1)) == p1;
    assert AddressedPod(BindingCallFor(p2, n2)) == p2;
  }

  /** `bind_pod`: the exception that escapes it, if any; a `ValueError` from the call is swallowed. */
  function BindPod(pod: PodRef, node: string, api: BindingCall -> CallResult): (r: Option<Exception>)
    ensures r == None <==> api(BindingCallFor(pod, node)) == Returned
                           || (api(BindingCallFor(pod, node)).Raised? && api(BindingCallFor(pod, node)).exc.ValueError?)
    ensures r.Some? ==> api(BindingCallFor(pod, node)) == Raised(r.value) && !r.value.ValueError?
  {
    match api(BindingCallFor(pod, node))
    case Returned => None
    case Raised(ValueError(_)) => None
    case Raised(e) => Some(e)
  }

  /** What the handler reports for one pod. */
  datatype Outcome =
    | Bound(node: string)
    | Conflict
    | ApiError(status: int, reason: string)
    | Failed(exc: Exception)

  /** The error `choose_node` raises on an empty node list. */
  const NoNodesError := OtherException("RuntimeError", "No nodes available")

  /** The `except` clauses: 409 is a conflict, other API errors keep their status, anything else is a generic failure. */
  function Classify(e: Exception): (o: Outcome)
    ensures !o.Bound?
    ensures o.Conflict? <==> e.ApiException? && e.status == 409
    ensures o.ApiError? <==> e.ApiException? && e.status != 409
    ensures o.ApiError? ==> o.status == e.status && o.reason == e.reason
    ensures o.Failed? ==> o.exc == e
  {
    match e
    case ApiException(status, reason) => if status == 409 then Conflict else ApiError(status, reason)
    case _ => Failed(e)
  }

  /**
   * The per-pod try block: choose a node against the current pods, bind, and
   * report. No exception leaves it: every path yields an outcome.
   */
  function Attempt(nodes: seq<Node>, pods: seq<Pod>, pod: PodRef, api: BindingCall -> CallResult): (o: Outcome)
    ensures nodes == [] ==> o == Failed(NoNodesError)
    ensures o.Bound? <==> nodes != [] && BindPod(pod, Choose(nodes, pods).value, api) == None
    ensures o.Bound? ==> o.node == Choose(nodes, pods).value
    ensures nodes != [] && BindPod(pod, Choose(nodes, pods).value, api).Some? ==>
      o == Classify(BindPod(pod, Choose(nodes, pods).value, api).value)
  {
    match Choose(nodes, pods)
    case Err(_) => Failed(NoNodesError)
    case Ok(node) =>
      match BindPod(pod, node, api)
      case None => Bound(node)
      case Some(e) => Classify(e)
  }

  /** A conflict is reported exactly when the binding call for the chosen node answered 409. */
  lemma AttemptConflict(nodes: seq<Node>, pods: seq<Pod>, pod: PodRef, api: BindingCall -> CallResult)
    ensures Attempt(nodes, pods, pod, api) == Conflict <==>
      && nodes != []
      && var call := api(BindingCallFor(pod, Choose(nodes, pods).value));
         call.Raised? && call.exc.ApiException? && call.exc.status == 409
  {
  }

  /**
   * Any API error other than 409 from the binding call is reported with its
   * status and reason, and nothing else is reported that way.
   */
  lemma AttemptApiError(nodes: seq<Node>, pods: seq<Pod>, pod: PodRef, api: BindingCall -> CallResult,
                        status: int, reason: string)
    ensures Attempt(nodes, pods, pod, api) == ApiError(status, reason) <==>
      && nodes != []
      && status != 409
      && api(BindingCallFor(pod, Choose(nodes, pods).value)) == Raised(ApiException(status, reason))
  {
  }

  /**
   * Any exception from the binding call other than an API error or a
   * ValueError is reported unchanged as a generic failure.
   */
  lemma AttemptOtherFailure(nodes: seq<Node>, pods: seq<Pod>, pod: PodRef, api: BindingCall -> CallResult,
                            kind: string, message: string)
    requires nodes != []
    requires api(BindingCallFor(pod, Choose(nodes, pods).value)) == Raised(OtherException(kind, message))
    ensures Attempt(nodes, pods, pod, api) == Failed(OtherException(kind, message))
  {
  }

  /** A ValueError raised anywhere inside the binding call counts as a successful bind. */
  lemma AttemptValueErrorBinds(nodes: seq<Node>, pods: seq<Pod>, pod: PodRef, api: BindingCall -> CallResult, msg: string)
    requires nodes != []
    requires api(BindingCallFor(pod, Choose(nodes, pods).value)) == Raised(ValueError(msg))
    ensures Attempt(nodes, pods, pod, api) == Bound(Choose(nodes, pods).value)
  {
  }

  /** With no nodes, no binding call is made: the outcome does not depend on the endpoint. */
  lemma AttemptWithoutNodes(pods: seq<Pod>, pod: PodRef, api1: BindingCall -> CallResult, api2: BindingCall -> CallResult)
    ensures Attempt([], pods, pod, api1) == Attempt([], pods, pod, api2) == Failed(NoNodesError)
  {
  }
}
