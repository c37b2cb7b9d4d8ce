/**
 * One cycle of the polling scheduler: read every pod, keep the pending ones
 * for this scheduler, and for each in turn choose a node against the current
 * pod list, bind, and record the outcome. The pod array is the cluster's pod
 * list; a successful bind sets the pod's node there, so the next choice sees
 * the new load.
 */
module Polling {
  import opened Kube
  import opened Selection
  import opened Admission
  import opened Binder

  /** The recorded result for one attempted pod. */
  datatype Report = Report(pod: PodRef, outcome: Outcome)

  /**
   * The cluster's pods and the reports after the cycle has visited the first
   * `k` entries of the snapshot it started from.
   */
  function Batch(nodes: seq<Node>, snapshot: seq<Pod>, k: nat, schedulerName: string,
                 api: BindingCall -> CallResult): (r: (seq<Pod>, seq<Report>))
    requires k <= |snapshot|
    ensures |r.0| == |snapshot|
    ensures forall i :: k <= i < |snapshot| ==> r.0[i] == snapshot[i]
  {
    if k == 0 then (snapshot, [])
    else
      var (cur, log) := Batch(nodes, snapshot, k - 1, schedulerName, api);
      var pod := snapshot[k - 1];
      if IsEligible(pod, schedulerName) then
        var o := Attempt(nodes, cur, pod.ref, api);
        var next := if o.Bound? then cur[k - 1 := pod.(nodeName := Some(o.node))] else cur;
        (next, log + [Report(pod.ref, o)])
      else (cur, log)
  }

  /**
   * The body of the polling loop for one cycle. Whatever one pod's attempt
   * yields, the loop goes on to the next pending pod.
   */
  method ScheduleBatch(nodes: seq<Node>, pods: array<Pod>, schedulerName: string,
                       api: BindingCall -> CallResult) returns (log: seq<Report>)
    modifies pods
    ensures (pods[..], log) == Batch(nodes, old(pods[..]), pods.Length, schedulerName, api)
  {
    var allPods := pods[..];
    log := [];
    for i := 0 to pods.Length
      invariant (pods[..], log) == Batch(nodes, allPods, i, schedulerName, api)
    {
      var pod := allPods[i];
      if IsEligible(pod, schedulerName) {
        var outcome: Outcome;
        var choice := ChooseNode(nodes, pods[..]);
        match choice {
          case Err(_) =>
            outcome := Failed(NoNodesError);
          case Ok(node) =>
            var raised := BindPod(pod.ref, node, api);
            match raised {
              case None =>
                outcome := Bound(node);
                pods[i] := pod.(nodeName := Some(node));
              case Some(e) =>
                outcome := Classify(e);
            }
        }
        log := log + [Report(pod.ref, outcome)];
      }
    }
    assert allPods[..pods.Length] == allPods;
  }

  /** The reports name the pods of `pending`, one each, in the same order. */
  ghost predicate ReportsFollow(log: seq<Report>, pending: seq<Pod>) {
    |log| == |pending| && forall j :: 0 <= j < |log| ==> log[j].pod == pending[j].ref
  }

  lemma ReportsFollowAppend(log: seq<Report>, pending: seq<Pod>, p: Pod, o: Outcome)
    requires ReportsFollow(log, pending)
    ensures ReportsFollow(log + [Report(p.ref, o)], pending + [p])
  {
  }

  /**
   * Every pending pod of the snapshot is attempted exactly once, in list
   * order, whatever the earlier attempts produced.
   */
  lemma {:induction false} BatchAttemptsEachPendingPod(nodes: seq<Node>, snapshot: seq<Pod>, k: nat,
                                                      schedulerName: string, api: BindingCall -> CallResult)
    requires k <= |snapshot|
    ensures var log := Batch(nodes, snapshot, k, schedulerName, api).1;
            var pending := PendingPods(snapshot[..k], schedulerName);
            |log| == |pending| && forall j :: 0 <= j < |log| ==> log[j].pod == pending[j].ref
  {
    BatchReportsFollow(nodes, snapshot, k, schedulerName, api);
  }

  lemma {:induction false} BatchReportsFollow(nodes: seq<Node>, snapshot: seq<Pod>, k: nat,
                                             schedulerName: string, api: BindingCall -> CallResult)
    requires k <= |snapshot|
    ensures ReportsFollow(Batch(nodes, snapshot, k, schedulerName, api).1, PendingPods(snapshot[..k], schedulerName))
  {
    if k > 0 {
      BatchReportsFollow(nodes, snapshot, k - 1, schedulerName, api);
      var prev := Batch(nodes, snapshot, k - 1, schedulerName, api);
      var pod := snapshot[k - 1];
      PendingPodsStep(snapshot, k, schedulerName);
      if IsEligible(pod, schedulerName) {
        ReportsFollowAppend(prev.1, PendingPods(snapshot[..k - 1], schedulerName), pod, Attempt(nodes, prev.0, pod.ref, api));
      }
    }
  }

  /** Extending the visited prefix by one entry extends the pending list by that entry when it is pending. */
  lemma PendingPodsStep(snapshot: seq<Pod>, k: nat, schedulerName: string)
    requires 0 < k <= |snapshot|
    ensures PendingPods(snapshot[..k], schedulerName)
              == PendingPods(snapshot[..k - 1], schedulerName)
                 + (if IsEligible(snapshot[k - 1], schedulerName) then [snapshot[k - 1]] else [])
  {
    assert snapshot[..k][..k - 1] == snapshot[..k - 1];
    assert snapshot[..k][k - 1] == snapshot[k - 1];
  }

  /**
   * `after` differs from `snapshot` only at pending positions below `k`, and
   * there only by a node field set to the name of a listed node.
   */
  ghost predicate AssignsOnlyPending(nodes: seq<Node>, snapshot: seq<Pod>, after: seq<Pod>, k: nat, schedulerName: string)
    requires |after| == |snapshot|
  {
    forall i :: 0 <= i < |snapshot| && after[i] != snapshot[i] ==>
      && i < k
      && IsEligible(snapshot[i], schedulerName)
      && exists m :: m in nodes && after[i] == snapshot[i].(nodeName := Some(m.name))
  }

  lemma AssignsOnlyPendingWiden(nodes: seq<Node>, snapshot: seq<Pod>, cur: seq<Pod>, k: nat, schedulerName: string)
    requires 0 < k <= |snapshot| == |cur|
    requires AssignsOnlyPending(nodes, snapshot, cur, k - 1, schedulerName)
    ensures AssignsOnlyPending(nodes, snapshot, cur, k, schedulerName)
  {
  }

  lemma AssignsOnlyPendingStep(nodes: seq<Node>, snapshot: seq<Pod>, cur: seq<Pod>, k: nat, schedulerName: string, m: Node)
    requires 0 < k <= |snapshot| == |cur|
    requires cur[k - 1] == snapshot[k - 1]
    requires AssignsOnlyPending(nodes, snapshot, cur, k - 1, schedulerName)
    requires IsEligible(snapshot[k - 1], schedulerName) && m in nodes
    ensures AssignsOnlyPending(nodes, snapshot, cur[k - 1 := snapshot[k - 1].(nodeName := Some(m.name))], k, schedulerName)
  {
  }

  /** One step of the cycle either leaves the pods alone or binds the visited pending pod to the chosen node. */
  lemma BatchStepCases(nodes: seq<Node>, snapshot: seq<Pod>, k: nat, schedulerName: string,
                       api: BindingCall -> CallResult)
    requires 0 < k <= |snapshot|
    ensures var cur := Batch(nodes, snapshot, k - 1, schedulerName, api).0;
            var after := Batch(nodes, snapshot, k, schedulerName, api).0;
            || after == cur
            || (&& IsEligible(snapshot[k - 1], schedulerName)
                && nodes != []
                && after == cur[k - 1 := snapshot[k - 1].(nodeName := Some(Choose(nodes, cur).value))])
  {
  }

  /**
   * The cycle changes only pods that were pending, and only their node field,
   * which it sets to the name of a listed node; an assigned pod is never
   * reassigned.
   */
  lemma {:induction false} BatchOnlyAssignsPendingPods(nodes: seq<Node>, snapshot: seq<Pod>, k: nat,
                                                      schedulerName: string, api: BindingCall -> CallResult)
    requires k <= |snapshot|
    ensures AssignsOnlyPending(nodes, snapshot, Batch(nodes, snapshot, k, schedulerName, api).0, k, schedulerName)
  {
    if k > 0 {
      BatchOnlyAssignsPendingPods(nodes, snapshot, k - 1, schedulerName, api);
      BatchStepCases(nodes, snapshot, k, schedulerName, api);
      var cur := Batch(nodes, snapshot, k - 1, schedulerName, api).0;
      var after := Batch(nodes, snapshot, k, schedulerName, api).0;
      if after == cur {
        AssignsOnlyPendingWiden(nodes, snapshot, cur, k, schedulerName);
      } else {
        ChooseIsListed(nodes, cur);
        var m :| m in nodes && m.name == Choose(nodes, cur).value;
        AssignsOnlyPendingStep(nodes, snapshot, cur, k, schedulerName, m);
      }
    }
  }

  /** With non-empty node names, a pod the cycle bound is no longer pending. */
  lemma BatchBoundPodsLeavePending(nodes: seq<Node>, snapshot: seq<Pod>, schedulerName: string,
                                   api: BindingCall -> CallResult)
    requires forall m :: m in nodes ==> m.name != ""
    ensures var after := Batch(nodes, snapshot, |snapshot|, schedulerName, api).0;
            forall i :: 0 <= i < |snapshot| && after[i] != snapshot[i] ==> !IsEligible(after[i], schedulerName)
  {
    BatchOnlyAssignsPendingPods(nodes, snapshot, |snapshot|, schedulerName, api);
  }

  /**
   * The pod list is read again for each choice: after a bind to `n`, the next
   * choice counts one more pod on `n`.
   */
  lemma BatchBindRaisesLoad(nodes: seq<Node>, snapshot: seq<Pod>, k: nat, schedulerName: string,
                            api: BindingCall -> CallResult)
    requires k < |snapshot|
    requires forall m :: m in nodes ==> m.name != ""
    ensures var before := Batch(nodes, snapshot, k, schedulerName, api);
            var after := Batch(nodes, snapshot, k + 1, schedulerName, api);
            |after.1| > |before.1| && after.1[|before.1|].outcome.Bound? ==>
              var n := after.1[|before.1|].outcome.node;
              LoadOf(after.0, n) == LoadOf(before.0, n) + 1
  {
    var before := Batch(nodes, snapshot, k, schedulerName, api);
    var pod := snapshot[k];
    if IsEligible(pod, schedulerName) {
      var o := Attempt(nodes, before.0, pod.ref, api);
      if o.Bound? {
        ChooseIsListed(nodes, before.0);
        var m :| m in nodes && m.name == o.node;
        LoadOfUpdate(before.0, k, pod.(nodeName := Some(o.node)), o.node);
      }
    }
  }

  /** Two ready nodes A and B: with no pod anywhere A is chosen; once A carries one pod, B is. */
  lemma TiedChoices(a: Node, b: Node, p1: Pod, p2: Pod)
    requires a == Node("A", Some(NodeStatus(Some([Condition("Ready", "True")]))))
    requires b == Node("B", Some(NodeStatus(Some([Condition("Ready", "True")]))))
    requires p1.nodeName == None && p2.nodeName == None
    ensures Choose([a, b], [p1, p2]) == Ok("A")
    ensures Choose([a, b], [p1.(nodeName := Some("A")), p2]) == Ok("B")
  {
    var nodes := [a, b];
    assert IsReadyCondition(a.status.value.conditions.value[0]);
    assert IsReady(a) && IsReady(b);
    assert ReadyNodes([a]) == [a] by { assert [a][..0] == []; }
    assert nodes[..1] == [a];
    assert Candidates(nodes) == nodes;
    assert Choose(nodes, [p1, p2]) == Ok("A") by {
      var snapshot := [p1, p2];
      assert snapshot[1..] == [p2];
      assert snapshot[1..][1..] == [];
      assert LoadOf([p2], "A") == 0 && LoadOf([p2], "B") == 0;
      assert LoadOf(snapshot, "A") == 0;
      assert LoadOf(snapshot, "B") == 0;
      assert LeastLoaded(nodes, snapshot) == 0;
    }
    assert Choose(nodes, [p1.(nodeName := Some("A")), p2]) == Ok("B") by {
      var mid := [p1.(nodeName := Some("A")), p2];
      assert mid[1..] == [p2];
      assert mid[1..][1..] == [];
      assert LoadOf(mid, "A") == 1;
      assert LoadOf(mid, "B") == 0;
      assert LeastLoaded(nodes, mid) == 1;
    }
  }

  /** One step of the cycle over a pending pod whose bind succeeds. */
  lemma BatchBoundStep(nodes: seq<Node>, snapshot: seq<Pod>, k: nat, schedulerName: string,
                       api: BindingCall -> CallResult, n: string)
    requires k < |snapshot| && IsEligible(snapshot[k], schedulerName)
    requires Attempt(nodes, Batch(nodes, snapshot, k, schedulerName, api).0, snapshot[k].ref, api) == Bound(n)
    ensures var before := Batch(nodes, snapshot, k, schedulerName, api);
            var after := Batch(nodes, snapshot, k + 1, schedulerName, api);
            after.0 == before.0[k := snapshot[k].(nodeName := Some(n))]
            && after.1 == before.1 + [Report(snapshot[k].ref, Bound(n))]
  {
  }

  /**
   * One step of the cycle over an entry that is not pending, or whose attempt
   * is a conflict, an API error or a failure, leaves the pod list unchanged.
   */
  lemma BatchUnboundStep(nodes: seq<Node>, snapshot: seq<Pod>, k: nat, schedulerName: string,
                         api: BindingCall -> CallResult)
    requires k < |snapshot|
    ensures var before := Batch(nodes, snapshot, k, schedulerName, api);
            var after := Batch(nodes, snapshot, k + 1, schedulerName, api);
            (!IsEligible(snapshot[k], schedulerName) || !Attempt(nodes, before.0, snapshot[k].ref, api).Bound?)
              ==> after.0 == before.0
  {
  }

  /** Two pending pods whose binds both succeed, to `n1` and then to `n2`. */
  lemma TwoBoundSteps(nodes: seq<Node>, snapshot: seq<Pod>, schedulerName: string,
                      api: BindingCall -> CallResult, n1: string, n2: string)
    requires |snapshot| == 2
    requires IsEligible(snapshot[0], schedulerName) && IsEligible(snapshot[1], schedulerName)
    requires Attempt(nodes, snapshot, snapshot[0].ref, api) == Bound(n1)
    requires Attempt(nodes, snapshot[0 := snapshot[0].(nodeName := Some(n1))], snapshot[1].ref, api) == Bound(n2)
    ensures Batch(nodes, snapshot, 2, schedulerName, api)
              == ([snapshot[0].(nodeName := Some(n1)), snapshot[1].(nodeName := Some(n2))],
                  [Report(snapshot[0].ref, Bound(n1)), Report(snapshot[1].ref, Bound(n2))])
  {
    var r1, r2 := Report(snapshot[0].ref, Bound(n1)), Report(snapshot[1].ref, Bound(n2));
    var s1, s2 := snapshot[0].(nodeName := Some(n1)), snapshot[1].(nodeName := Some(n2));
    BatchBoundStep(nodes, snapshot, 0, schedulerName, api, n1);
    var b1 := Batch(nodes, snapshot, 1, schedulerName, api);
    assert b1.1 == [] + [r1] == [r1];
    assert b1.0 == snapshot[0 := s1];
    BatchBoundStep(nodes, snapshot, 1, schedulerName, api, n2);
    var b2 := Batch(nodes, snapshot, 2, schedulerName, api);
    assert b2.1 == [r1] + [r2] == [r1, r2];
    assert b2.0 == snapshot[0 := s1][1 := s2] == [s1, s2];
  }

  /**
   * Two pending pods and two ready, empty nodes A and B: the first pod goes to
   * A (ties go to the first node), and the second, seeing A's new load, goes to B.
   */
  lemma SpreadOverTiedNodes(nodes: seq<Node>, snapshot: seq<Pod>, schedulerName: string,
                            api: BindingCall -> CallResult)
    requires nodes == [Node("A", Some(NodeStatus(Some([Condition("Ready", "True")])))),
                       Node("B", Some(NodeStatus(Some([Condition("Ready", "True")]))))]
    requires |snapshot| == 2
    requires forall i :: 0 <= i < 2 ==> snapshot[i].nodeName == None && IsEligible(snapshot[i], schedulerName)
    requires api(BindingCallFor(snapshot[0].ref, "A")) == Returned
    requires api(BindingCallFor(snapshot[1].ref, "B")) == Returned
    ensures Batch(nodes, snapshot, |snapshot|, schedulerName, api)
              == ([snapshot[0].(nodeName := Some("A")), snapshot[1].(nodeName := Some("B"))],
                  [Report(snapshot[0].ref, Bound("A")), Report(snapshot[1].ref, Bound("B"))])
  {
    var p1, p2 := snapshot[0], snapshot[1];
    assert snapshot == [p1, p2];
    assert nodes == [nodes[0], nodes[1]];
    TiedChoices(nodes[0], nodes[1], p1, p2);
    assert snapshot[0 := p1.(nodeName := Some("A"))] == [p1.(nodeName := Some("A")), p2];
    TwoBoundSteps(nodes, snapshot, schedulerName, api, "A", "B");
  }
}
