/**
 * Which pods this scheduler acts on: no node yet, phase "Pending", and the
 * requested scheduler name equal to ours, compared exactly.
 */
module Admission {
  import opened Kube

  /** `not p.spec.node_name`: the field is unset or the empty string. */
  predicate IsUnassigned(p: Pod) {
    p.nodeName == None || p.nodeName == Some("")
  }

  /**
   * The pod filter of both schedulers. An eligible pod is in phase "Pending",
   * names exactly this scheduler, and carries no non-empty node name.
   */
  predicate IsEligible(p: Pod, schedulerName: string): (r: bool)
    ensures r ==> p.phase == Some("Pending") && p.schedulerName == Some(schedulerName)
    ensures r ==> p.nodeName.None? || p.nodeName.value == ""
  {
    && IsUnassigned(p)
    && p.phase == Some("Pending")
    && p.schedulerName == Some(schedulerName)
  }

  /** The pending pods of a snapshot for `schedulerName`, in list order. */
  function PendingPods(pods: seq<Pod>, schedulerName: string): (r: seq<Pod>)
    ensures |r| <= |pods|
    ensures forall p :: p in r <==> p in pods && IsEligible(p, schedulerName)
  {
    if pods == [] then []
    else
      var last := pods[|pods| - 1];
      PendingPods(pods[..|pods| - 1], schedulerName) + (if IsEligible(last, schedulerName) then [last] else [])
  }

  /** The filter keeps list order: it distributes over concatenation. */
  lemma {:induction false} PendingPodsAppend(a: seq<Pod>, b: seq<Pod>, schedulerName: string)
    ensures PendingPods(a + b, schedulerName) == PendingPods(a, schedulerName) + PendingPods(b, schedulerName)
  {
    if b == [] {
      assert a + b == a;
    } else {
      var b', last := b[..|b| - 1], b[|b| - 1];
      var ab := a + b;
      assert ab[..|ab| - 1] == a + b';
      assert ab[|ab| - 1] == last;
      var tail := if IsEligible(last, schedulerName) then [last] else [];
      calc {
        PendingPods(ab, schedulerName);
        PendingPods(a + b', schedulerName) + tail;
        { PendingPodsAppend(a, b', schedulerName); }
        PendingPods(a, schedulerName) + PendingPods(b', schedulerName) + tail;
        PendingPods(a, schedulerName) + (PendingPods(b', schedulerName) + tail);
        PendingPods(a, schedulerName) + PendingPods(b, schedulerName);
      }
    }
  }

  /** Each eligible entry of the snapshot is pending exactly as often as it is listed. */
  lemma {:induction false} PendingPodsCount(pods: seq<Pod>, schedulerName: string)
    ensures forall p :: multiset(PendingPods(pods, schedulerName))[p]
                     == if IsEligible(p, schedulerName) then multiset(pods)[p] else 0
  {
    if pods != [] {
      var init, last := pods[..|pods| - 1], pods[|pods| - 1];
      assert pods == init + [last];
      PendingPodsCount(init, schedulerName);
      assert multiset(pods) == multiset(init) + multiset{last};
    }
  }

  /** Once a pod names a (non-empty) node it is never eligible again, whatever else it holds. */
  lemma AssignedNeverEligible(p: Pod, node: string, schedulerName: string)
    requires node != ""
    ensures !IsEligible(p.(nodeName := Some(node)), schedulerName)
  {
  }
}
