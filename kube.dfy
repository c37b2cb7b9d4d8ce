/**
 * The cluster records the scheduler reads: Kubernetes core/v1 nodes and pods,
 * reduced to the fields the scheduler consults. A field the client library may
 * leave as Python's `None` is an `Option` here.
 */
module Kube {

  datatype Option<+T> = None | Some(value: T)

  datatype Result<+T, +E> = Ok(value: T) | Err(error: E)

  /** One entry of `node.status.conditions`, such as type "Ready" with status "True". */
  datatype Condition = Condition(kind: string, status: string)

  /** `node.status`; its `conditions` list may be unset. */
  datatype NodeStatus = NodeStatus(conditions: Option<seq<Condition>>)

  /** A node: `metadata.name` and an optional `status`. */
  datatype Node = Node(name: string, status: Option<NodeStatus>)

  /** The (namespace, name) pair that addresses a pod. */
  datatype PodRef = PodRef(namespace: string, name: string)

  /**
   * A pod: its metadata reference, `spec.node_name`, `spec.scheduler_name`
   * and `status.phase`.
   */
  datatype Pod = Pod(ref: PodRef, nodeName: Option<string>, schedulerName: Option<string>, phase: Option<string>)
}
