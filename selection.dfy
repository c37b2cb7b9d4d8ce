/**
 * Node selection (`choose_node`, written identically in the polling and the
 * watch scheduler): keep the ready nodes, fall back to every node when none is
 * ready, count the pods assigned to each candidate and pick the first one with
 * the fewest.
 */
module Selection {
  import opened Kube

  /** A condition of type "Ready" whose status is "True". */
  predicate IsReadyCondition(c: Condition) {
    c.kind == "Ready" && c.status == "True"
  }

  /**
   * A node is ready when it reports a status, with a conditions list, holding a
   * Ready/True condition. A node without a status, or with no or an empty
   * conditions list, is never ready.
   */
  predicate IsReady(n: Node): (r: bool)
    ensures n.status.None? ==> !r
    ensures n.status.Some? && (n.status.value.conditions.None? || n.status.value.conditions.value == []) ==> !r
  {
    && n.status.Some?
    && n.status.value.conditions.Some?
    && exists j :: 0 <= j < |n.status.value.conditions.value| && IsReadyCondition(n.status.value.conditions.value[j])
  }

  /** The ready nodes in input order: each ready entry of `nodes` once, nothing else. */
  function ReadyNodes(nodes: seq<Node>): (r: seq<Node>)
    ensures |r| <= |nodes|
    ensures forall n :: n in r <==> n in nodes && IsReady(n)
  {
    if nodes == [] then []
    else
      var last := nodes[|nodes| - 1];
      assert nodes == nodes[..|nodes| - 1] + [last];
      ReadyNodes(nodes[..|nodes| - 1]) + (if IsReady(last) then [last] else [])
  }

  /** Each ready entry of the input appears in the ready list exactly as often as in the input. */
  lemma {:induction false} ReadyNodesCount(nodes: seq<Node>)
    ensures forall n :: multiset(ReadyNodes(nodes))[n] == if IsReady(n) then multiset(nodes)[n] else 0
  {
    if nodes != [] {
      var init, last := nodes[..|nodes| - 1], nodes[|nodes| - 1];
      assert nodes == init + [last];
      ReadyNodesCount(init);
      assert multiset(nodes) == multiset(init) + multiset{last};
    }
  }

  /** The readiness filter keeps input order: it distributes over concatenation. */
  lemma {:induction false} ReadyNodesAppend(a: seq<Node>, b: seq<Node>)
    ensures ReadyNodes(a + b) == ReadyNodes(a) + ReadyNodes(b)
  {
    if b == [] {
      assert a + b == a;
    } else {
      var b', last := b[..|b| - 1], b[|b| - 1];
      var ab := a + b;
      assert ab[..|ab| - 1] == a + b';
      assert ab[|ab| - 1] == last;
      var tail := if IsReady(last) then [last] else [];
      calc {
        ReadyNodes(ab);
        ReadyNodes(a + b') + tail;
        { ReadyNodesAppend(a, b'); }
        ReadyNodes(a) + ReadyNodes(b') + tail;
        ReadyNodes(a) + (ReadyNodes(b') + tail);
        ReadyNodes(a) + ReadyNodes(b);
      }
    }
  }

  /** The nodes the pick is made from: the ready ones, or all of them when none is ready. */
  function Candidates(nodes: seq<Node>): (r: seq<Node>)
    ensures |nodes| > 0 ==> |r| > 0
    ensures forall n :: n in r ==> n in nodes
  {
    var ready := ReadyNodes(nodes);
    if ready == [] then nodes else assert ready[0] in ready; ready
  }

  /** The fallback rule: the ready nodes when at least one node is ready, otherwise every node. */
  lemma {:induction false} CandidatesRule(nodes: seq<Node>)
    ensures (exists n :: n in nodes && IsReady(n)) ==> Candidates(nodes) == ReadyNodes(nodes)
    ensures (forall n :: n in nodes ==> !IsReady(n)) ==> Candidates(nodes) == nodes
  {
    if exists n :: n in nodes && IsReady(n) {
      var n :| n in nodes && IsReady(n);
      assert n in ReadyNodes(nodes);
    }
    if ReadyNodes(nodes) != [] {
      assert ReadyNodes(nodes)[0] in ReadyNodes(nodes);
    }
  }

  /** The load of a node: how many pods, of any namespace and any phase, are assigned to `name`. */
  function LoadOf(pods: seq<Pod>, name: string): (r: nat)
    ensures r <= |pods|
  {
    if pods == [] then 0
    else (if pods[0].nodeName == Some(name) then 1 else 0) + LoadOf(pods[1..], name)
  }

  /** A node no pod names has load 0, and only such a node. */
  lemma {:induction false} LoadOfZero(pods: seq<Pod>, name: string)
    ensures LoadOf(pods, name) == 0 <==> forall i :: 0 <= i < |pods| ==> pods[i].nodeName != Some(name)
  {
    if pods != [] {
      LoadOfZero(pods[1..], name);
      assert forall i :: 1 <= i < |pods| ==> pods[i] == pods[1..][i - 1];
    }
  }

  lemma {:induction false} LoadOfAppend(a: seq<Pod>, b: seq<Pod>, name: string)
    ensures LoadOf(a + b, name) == LoadOf(a, name) + LoadOf(b, name)
  {
    if a == [] {
      assert a + b == b;
    } else {
      assert (a + b)[1..] == a[1..] + b;
      LoadOfAppend(a[1..], b, name);
    }
  }

  /** Taking one pod out of the list takes away exactly what that pod adds to the load. */
  lemma LoadOfRemove(b: seq<Pod>, k: nat, name: string)
    requires k < |b|
    ensures LoadOf(b, name) == LoadOf(b[..k] + b[k + 1..], name) + LoadOf([b[k]], name)
    ensures multiset(b[..k] + b[k + 1..]) == multiset(b) - multiset{b[k]}
  {
    assert b == b[..k] + [b[k]] + b[k + 1..];
    LoadOfAppend(b[..k] + [b[k]], b[k + 1..], name);
    LoadOfAppend(b[..k], [b[k]], name);
    LoadOfAppend(b[..k], b[k + 1..], name);
  }

  /** The load does not depend on the order in which the pods are listed. */
  lemma {:induction false} LoadOfPermutation(a: seq<Pod>, b: seq<Pod>, name: string)
    requires multiset(a) == multiset(b)
    ensures LoadOf(a, name) == LoadOf(b, name)
  {
    if a == [] {
      assert |b| == |multiset(b)| == 0;
    } else {
      var x := a[0];
      assert x in multiset(b);
      var k :| 0 <= k < |b| && b[k] == x;
      LoadOfRemove(b, k, name);
      assert a == [x] + a[1..];
      assert multiset(a[1..]) == multiset(a) - multiset{x};
      LoadOfPermutation(a[1..], b[..k] + b[k + 1..], name);
      assert [x][1..] == [];
    }
  }

  /**
   * Replacing one pod changes each node's load by what the new pod adds and
   * what the old one took away; a bind moves exactly one unit of load.
   */
  lemma {:induction false} LoadOfUpdate(pods: seq<Pod>, i: nat, p: Pod, name: string)
    requires i < |pods|
    ensures LoadOf(pods[i := p], name) + (if pods[i].nodeName == Some(name) then 1 else 0)
         == LoadOf(pods, name) + (if p.nodeName == Some(name) then 1 else 0)
  {
    if i == 0 {
      assert pods[i := p][1..] == pods[1..];
    } else {
      assert pods[i := p][1..] == pods[1..][i - 1 := p];
      LoadOfUpdate(pods[1..], i - 1, p, name);
    }
  }

  /**
   * `c[k]` is the earliest of `c[..n]` with the least load: no candidate in
   * `c[..n]` is less loaded, and every one before it is strictly more loaded.
   */
  ghost predicate FirstLeast(c: seq<Node>, pods: seq<Pod>, n: nat, k: int)
    requires n <= |c|
  {
    && 0 <= k < n
    && (forall j :: 0 <= j < n ==> LoadOf(pods, c[k].name) <= LoadOf(pods, c[j].name))
    && (forall j :: 0 <= j < k ==> LoadOf(pods, c[k].name) < LoadOf(pods, c[j].name))
  }

  /** Ties go to the earliest candidate, so the first least-loaded position is unique. */
  lemma FirstLeastUnique(c: seq<Node>, pods: seq<Pod>, n: nat, k1: int, k2: int)
    requires n <= |c|
    requires FirstLeast(c, pods, n, k1) && FirstLeast(c, pods, n, k2)
    ensures k1 == k2
  {
    // Each is no more loaded than the other, so neither can be strictly less loaded than the other.
    assert LoadOf(pods, c[k1].name) <= LoadOf(pods, c[k2].name);
    assert LoadOf(pods, c[k2].name) <= LoadOf(pods, c[k1].name);
  }

  /** The first least-loaded position among the first `n` candidates. */
  function FirstLeastIn(c: seq<Node>, pods: seq<Pod>, n: nat): (k: nat)
    requires 0 < n <= |c|
    ensures FirstLeast(c, pods, n, k)
  {
    if n == 1 then 0
    else
      var k := FirstLeastIn(c, pods, n - 1);
      if LoadOf(pods, c[n - 1].name) < LoadOf(pods, c[k].name) then n - 1 else k
  }

  /** The first least-loaded position among all candidates. */
  function LeastLoaded(c: seq<Node>, pods: seq<Pod>): (k: nat)
    requires |c| > 0
    ensures FirstLeast(c, pods, |c|, k)
  {
    FirstLeastIn(c, pods, |c|)
  }

  datatype ChooseError = NoNodesAvailable

  /**
   * What `choose_node` returns: an error on an empty node list, otherwise the
   * name of the first least-loaded candidate.
   */
  function Choose(nodes: seq<Node>, pods: seq<Pod>): (r: Result<string, ChooseError>)
    ensures r.Err? <==> nodes == []
  {
    if nodes == [] then Err(NoNodesAvailable)
    else
      var c := Candidates(nodes);
      Ok(c[LeastLoaded(c, pods)].name)
  }

  /** The chosen name is the name of a listed node. */
  lemma ChooseIsListed(nodes: seq<Node>, pods: seq<Pod>)
    requires nodes != []
    ensures exists m :: m in nodes && m.name == Choose(nodes, pods).value
  {
    var c := Candidates(nodes);
    var k := LeastLoaded(c, pods);
    assert c[k] in c;
  }

  /** The readiness filter: a nested scan that appends a node at its first Ready/True condition. */
  method FilterReady(nodes: seq<Node>) returns (ready: seq<Node>)
    ensures ready == ReadyNodes(nodes)
  {
    ready := [];
    for i := 0 to |nodes|
      invariant ready == ReadyNodes(nodes[..i])
    {
      var n := nodes[i];
      assert nodes[..i + 1][..i] == nodes[..i];
      if n.status.Some? && n.status.value.conditions.Some? && n.status.value.conditions.value != [] {
        var conditions := n.status.value.conditions.value;
        for j := 0 to |conditions|
          invariant ready == ReadyNodes(nodes[..i])
          invariant forall m :: 0 <= m < j ==> !IsReadyCondition(conditions[m])
        {
          if conditions[j].kind == "Ready" && conditions[j].status == "True" {
            ready := ready + [n];
            break;
          }
        }
      }
    }
    assert nodes[..|nodes|] == nodes;
  }

  /**
   * The least-loaded scan: `minCnt` starts unset (`choose_node`'s `math.inf` seed) and a
   * candidate replaces the pick only when its count is strictly smaller.
   */
  method PickLeastLoaded(cands: seq<Node>, pods: seq<Pod>) returns (pick: string)
    requires |cands| > 0
    ensures pick == cands[LeastLoaded(cands, pods)].name
  {
    var minCnt: Option<nat> := None;
    pick := cands[0].name;
    for i := 0 to |cands|
      invariant i == 0 ==> minCnt == None
      invariant i > 0 ==> minCnt == Some(LoadOf(pods, cands[FirstLeastIn(cands, pods, i)].name))
                          && pick == cands[FirstLeastIn(cands, pods, i)].name
    {
      var cnt := LoadOf(pods, cands[i].name);
      if minCnt.None? || cnt < minCnt.value {
        minCnt := Some(cnt);
        pick := cands[i].name;
      }
    }
  }

  /** `choose_node` over a node list and a pod list read from the cluster. */
  method ChooseNode(nodes: seq<Node>, pods: seq<Pod>) returns (r: Result<string, ChooseError>)
    ensures r == Choose(nodes, pods)
  {
    if |nodes| == 0 {
      return Err(NoNodesAvailable);
    }
    var ready := FilterReady(nodes);
    if ready == [] {
      ready := nodes;
    }
    var pick := PickLeastLoaded(ready, pods);
    return Ok(pick);
  }

  /**
   * The selection contract in one place: no pick from an empty list; with no
   * ready node every node competes; otherwise only ready nodes do; the pick is
   * the first least-loaded competitor.
   */
  lemma ChooseContract(nodes: seq<Node>, pods: seq<Pod>)
    ensures nodes == [] ==> Choose(nodes, pods) == Err(NoNodesAvailable)
    ensures nodes != [] ==>
      var c := if exists n :: n in nodes && IsReady(n) then ReadyNodes(nodes) else nodes;
      && |c| > 0
      && Choose(nodes, pods).Ok?
      && exists k :: FirstLeast(c, pods, |c|, k) && Choose(nodes, pods).value == c[k].name
  {
    if nodes != [] {
      var ready := ReadyNodes(nodes);
      if exists n :: n in nodes && IsReady(n) {
        var n :| n in nodes && IsReady(n);
        assert n in ready;
      }
      if ready != [] {
        assert ready[0] in ready;
      }
      var c := Candidates(nodes);
      var k := LeastLoaded(c, pods);
      assert FirstLeast(c, pods, |c|, k) && Choose(nodes, pods).value == c[k].name;
    }
  }
}
