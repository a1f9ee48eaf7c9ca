/**
 * One step of the vote-flow game (app/utils/vote-flow.ts): every node turns
 * its rank into votes (rank x 100), splits them evenly over the links whose
 * source is its id (or keeps them when it has none), every link records the
 * votes it carried, and the new ranks and flows are rescaled by the new total.
 *
 * The step is specified by the functions below (`NewVotes`, `TotalVotes`,
 * `StepRank`, `StepFlow`); `RunVotingStep` computes it with the source's
 * maps, arrays and loops and is proved equal to them; the lemmas state what
 * the step promises (ranks sum to 1, conservation of votes, non-negativity).
 */
module VoteFlow {
  import opened Wrappers
  import opened PageRankProtocol

  /** `node.rank || 0`: a missing rank counts as 0. */
  function RankOr0(n: Node): real {
    if n.rank.Some? then n.rank.value else 0.0
  }

  /** A node's votes before the step. */
  function Votes(n: Node): real {
    RankOr0(n) * 100.0
  }

  /** What `nodeIndexMap` holds for `id`: the LAST index whose node carries `id`. */
  function IndexOf(nodes: seq<Node>, id: string): (r: Option<nat>)
    ensures r.Some? ==> r.value < |nodes|
  {
    if nodes == [] then None
    else
      var later := IndexOf(nodes[1..], id);
      if later.Some? then Some(later.value + 1)
      else if nodes[0].id == id then Some(0)
      else None
  }

  /** `IndexOf` finds the last node carrying `id`, and finds nothing exactly when no node carries it. */
  lemma {:induction false} IndexOfIsLast(nodes: seq<Node>, id: string)
    ensures IndexOf(nodes, id).Some? ==> nodes[IndexOf(nodes, id).value].id == id
    ensures IndexOf(nodes, id).Some? ==> forall i :: IndexOf(nodes, id).value < i < |nodes| ==> nodes[i].id != id
    ensures IndexOf(nodes, id).None? <==> forall i :: 0 <= i < |nodes| ==> nodes[i].id != id
  {
    if nodes != [] {
      IndexOfIsLast(nodes[1..], id);
      assert forall i :: 0 < i < |nodes| ==> nodes[i] == nodes[1..][i - 1];
    }
  }

  /** Appending a node carrying `id` makes it the one `IndexOf` names; any other node leaves `IndexOf` alone. */
  lemma {:induction false} IndexOfAppend(nodes: seq<Node>, n: Node, id: string)
    ensures IndexOf(nodes + [n], id) == if n.id == id then Some(|nodes|) else IndexOf(nodes, id)
  {
    if nodes != [] {
      IndexOfAppend(nodes[1..], n, id);
      assert (nodes + [n])[1..] == nodes[1..] + [n];
    }
  }

  /** What `outDegreeMap` holds for `id`: every link whose source is `id`, parallel ones and dangling ones included. */
  function OutDegree(links: seq<Link>, id: string): (d: nat)
    ensures d <= |links|
  {
    if links == [] then 0
    else (if links[0].source == id then 1 else 0) + OutDegree(links[1..], id)
  }

  lemma {:induction false} OutDegreeAppend(links: seq<Link>, l: Link, id: string)
    ensures OutDegree(links + [l], id) == OutDegree(links, id) + (if l.source == id then 1 else 0)
  {
    if links != [] {
      OutDegreeAppend(links[1..], l, id);
      assert (links + [l])[1..] == links[1..] + [l];
    }
  }

  /** What the links out of `id` deliver into node `j` when each carries `amount`. */
  function Delivered(nodes: seq<Node>, links: seq<Link>, id: string, j: nat, amount: real): real {
    if links == [] then 0.0
    else
      (if links[0].source == id && IndexOf(nodes, links[0].target) == Some(j) then amount else 0.0)
      + Delivered(nodes, links[1..], id, j, amount)
  }

  lemma {:induction false} DeliveredAppend(nodes: seq<Node>, links: seq<Link>, l: Link, id: string, j: nat, amount: real)
    ensures Delivered(nodes, links + [l], id, j, amount) ==
      Delivered(nodes, links, id, j, amount) + (if l.source == id && IndexOf(nodes, l.target) == Some(j) then amount else 0.0)
  {
    if links != [] {
      DeliveredAppend(nodes, links[1..], l, id, j, amount);
      assert (links + [l])[1..] == links[1..] + [l];
    }
  }

  /** What the links out of `id` deliver to any node when each carries `amount`; links to unknown targets deliver nothing. */
  function DeliveredAnywhere(nodes: seq<Node>, links: seq<Link>, id: string, amount: real): real {
    if links == [] then 0.0
    else
      (if links[0].source == id && IndexOf(nodes, links[0].target).Some? then amount else 0.0)
      + DeliveredAnywhere(nodes, links[1..], id, amount)
  }

  /** A node has out-degree 0 exactly when no link has it as source. */
  lemma {:induction false} OutDegreeZero(links: seq<Link>, id: string)
    ensures OutDegree(links, id) == 0 <==> forall k :: 0 <= k < |links| ==> links[k].source != id
  {
    if links != [] {
      OutDegreeZero(links[1..], id);
      assert forall k :: 0 < k < |links| ==> links[k] == links[1..][k - 1];
    }
  }

  /** When every link target is a node, the links out of `id` deliver `amount` each, out-degree times. */
  lemma {:induction false} DeliveredAnywhereAllKnown(nodes: seq<Node>, links: seq<Link>, id: string, amount: real)
    requires forall k :: 0 <= k < |links| ==> IndexOf(nodes, links[k].target).Some?
    ensures DeliveredAnywhere(nodes, links, id, amount) == amount * OutDegree(links, id) as real
  {
    if links != [] {
      var rest := links[1..];
      assert forall k :: 0 <= k < |rest| ==> rest[k] == links[k + 1];
      DeliveredAnywhereAllKnown(nodes, rest, id, amount);
      var d := OutDegree(rest, id);
      if links[0].source == id {
        assert IndexOf(nodes, links[0].target).Some?;
        assert DeliveredAnywhere(nodes, links, id, amount) == amount + DeliveredAnywhere(nodes, rest, id, amount);
        assert OutDegree(links, id) == 1 + d;
        assert amount * (1 + d) as real == amount + amount * d as real;
      } else {
        assert DeliveredAnywhere(nodes, links, id, amount) == DeliveredAnywhere(nodes, rest, id, amount);
        assert OutDegree(links, id) == d;
      }
    }
  }

  /** `votePerTarget` of node `i`: its votes over its out-degree, 0 when it has no links. */
  function Share(nodes: seq<Node>, links: seq<Link>, i: nat): real
    requires i < |nodes|
  {
    var d := OutDegree(links, nodes[i].id);
    if d > 0 then Votes(nodes[i]) / d as real else 0.0
  }

  /** What node `i` adds to `newVotes[j]`. */
  function Contribution(nodes: seq<Node>, links: seq<Link>, i: nat, j: nat): real
    requires i < |nodes|
  {
    if OutDegree(links, nodes[i].id) > 0 then Delivered(nodes, links, nodes[i].id, j, Share(nodes, links, i))
    else if i == j then Votes(nodes[i])
    else 0.0
  }

  /** `newVotes[j]` once the first `n` nodes have been processed. */
  function PartialVotes(nodes: seq<Node>, links: seq<Link>, n: nat, j: nat): real
    requires n <= |nodes|
  {
    if n == 0 then 0.0 else PartialVotes(nodes, links, n - 1, j) + Contribution(nodes, links, n - 1, j)
  }

  /** `newVotes[j]` after the distribution loop. */
  function NewVotes(nodes: seq<Node>, links: seq<Link>, j: nat): real {
    PartialVotes(nodes, links, |nodes|, j)
  }

  /** The sum of `newVotes[0..m)` after the first `n` nodes. */
  function TotalUpTo(nodes: seq<Node>, links: seq<Link>, n: nat, m: nat): real
    requires n <= |nodes|
  {
    if m == 0 then 0.0 else TotalUpTo(nodes, links, n, m - 1) + PartialVotes(nodes, links, n, m - 1)
  }

  /** `totalVotes`. */
  function TotalVotes(nodes: seq<Node>, links: seq<Link>): real {
    TotalUpTo(nodes, links, |nodes|, |nodes|)
  }

  /** The new rank of node `j`. */
  function StepRank(nodes: seq<Node>, links: seq<Link>, j: nat): real {
    var total := TotalVotes(nodes, links);
    if total > 0.0 then NewVotes(nodes, links, j) / total else 0.0
  }

  /** `link.flow` of link `k` after the first `n` nodes have distributed (before rescaling). */
  function RawFlow(nodes: seq<Node>, links: seq<Link>, n: nat, k: nat): real
    requires n <= |nodes| && k < |links|
  {
    if n == 0 then 0.0
    else if nodes[n - 1].id == links[k].source && IndexOf(nodes, links[k].target).Some? then Share(nodes, links, n - 1)
    else RawFlow(nodes, links, n - 1, k)
  }

  /** The flow of link `k` in the result. */
  function StepFlow(nodes: seq<Node>, links: seq<Link>, k: nat): real
    requires k < |links|
  {
    var total := TotalVotes(nodes, links);
    var raw := RawFlow(nodes, links, |nodes|, k);
    if total > 0.0 then raw * (100.0 / total) else raw
  }

  /** `(graph.currentIteration || 0) + 1`. */
  function NextIteration(g: GraphData): int {
    (if g.currentIteration.Some? then g.currentIteration.value else 0) + 1
  }

  /**
   * runVotingStep: the result holds the same nodes and links with the new
   * ranks and flows, the next iteration number, the copied parameters and
   * no traversal mode.
   */
  method RunVotingStep(g: GraphData) returns (r: GraphData)
    ensures |r.nodes| == |g.nodes| && |r.links| == |g.links|
    ensures forall i :: 0 <= i < |g.nodes| ==> r.nodes[i] == g.nodes[i].(rank := Some(StepRank(g.nodes, g.links, i)))
    ensures forall k :: 0 <= k < |g.links| ==> r.links[k] == g.links[k].(flow := Some(StepFlow(g.nodes, g.links, k)))
    ensures r.currentIteration == Some(NextIteration(g))
    ensures r.maxIterations == g.maxIterations && r.dampingFactor == g.dampingFactor
    ensures r.threshold == g.threshold && r.algo == g.algo
    ensures r.traversalMode.None?
  {
    var nodes, links := g.nodes, g.links;
    var index := BuildIndexMap(nodes);
    var degree := BuildDegreeMap(links);
    var votesArray, flowArray := Distribute(nodes, links, index, degree);
    var newVotes, flow := votesArray[..], flowArray[..];

    var total := SumVotes(nodes, links, newVotes);
    var outNodes := NormalizeRanks(nodes, links, newVotes, total);
    var outLinks := ScaleFlows(nodes, links, flow, total);
    r := GraphData(outNodes, outLinks, Some(NextIteration(g)), g.maxIterations, g.dampingFactor,
                   g.threshold, g.algo, None);
  }

  /** The `totalVotes` loop. */
  method SumVotes(nodes: seq<Node>, links: seq<Link>, newVotes: seq<real>) returns (total: real)
    requires |newVotes| == |nodes| && forall j :: 0 <= j < |nodes| ==> newVotes[j] == NewVotes(nodes, links, j)
    ensures total == TotalVotes(nodes, links)
  {
    total := 0.0;
    var j := 0;
    while j < |nodes|
      invariant j <= |nodes|
      invariant total == TotalUpTo(nodes, links, |nodes|, j)
    {
      total := total + newVotes[j];
      j := j + 1;
    }
  }

  /** The node `map`: each rank becomes its share of the total, as a percentage divided by 100. */
  method NormalizeRanks(nodes: seq<Node>, links: seq<Link>, newVotes: seq<real>, total: real) returns (outNodes: seq<Node>)
    requires |newVotes| == |nodes| && forall j :: 0 <= j < |nodes| ==> newVotes[j] == NewVotes(nodes, links, j)
    requires total == TotalVotes(nodes, links)
    ensures |outNodes| == |nodes|
    ensures forall i :: 0 <= i < |nodes| ==> outNodes[i] == nodes[i].(rank := Some(StepRank(nodes, links, i)))
  {
    outNodes := [];
    var j := 0;
    while j < |nodes|
      invariant j <= |nodes| && |outNodes| == j
      invariant forall i :: 0 <= i < j ==> outNodes[i] == nodes[i].(rank := Some(StepRank(nodes, links, i)))
    {
      var normalized := if total > 0.0 then (newVotes[j] / total) * 100.0 else 0.0;
      outNodes := outNodes + [nodes[j].(rank := Some(normalized / 100.0))];
      j := j + 1;
    }
  }

  /** The link `map`: each raw flow scaled by 100 / total (left as it is when the total is 0). */
  method ScaleFlows(nodes: seq<Node>, links: seq<Link>, flow: seq<real>, total: real) returns (outLinks: seq<Link>)
    requires |flow| == |links| && forall q :: 0 <= q < |links| ==> flow[q] == RawFlow(nodes, links, |nodes|, q)
    requires total == TotalVotes(nodes, links)
    ensures |outLinks| == |links|
    ensures forall k :: 0 <= k < |links| ==> outLinks[k] == links[k].(flow := Some(StepFlow(nodes, links, k)))
  {
    outLinks := [];
    var k := 0;
    while k < |links|
      invariant k <= |links| && |outLinks| == k
      invariant forall q :: 0 <= q < k ==> outLinks[q] == links[q].(flow := Some(StepFlow(nodes, links, q)))
    {
      var f := if total > 0.0 then flow[k] * (100.0 / total) else flow[k];
      assert f == StepFlow(nodes, links, k);
      outLinks := outLinks + [links[k].(flow := Some(f))];
      k := k + 1;
    }
  }

  /** The `nodeIndexMap` loop: every id maps to the last index carrying it. */
  method BuildIndexMap(nodes: seq<Node>) returns (index: map<string, nat>)
    ensures forall id :: id in index <==> IndexOf(nodes, id).Some?
    ensures forall id :: id in index ==> index[id] == IndexOf(nodes, id).value
  {
    index := map[];
    var i := 0;
    while i < |nodes|
      invariant i <= |nodes|
      invariant forall id :: id in index <==> IndexOf(nodes[..i], id).Some?
      invariant forall id :: id in index ==> index[id] == IndexOf(nodes[..i], id).value
    {
      assert nodes[..i + 1] == nodes[..i] + [nodes[i]];
      var next := index[nodes[i].id := i];
      forall id
        ensures id in next <==> IndexOf(nodes[..i + 1], id).Some?
        ensures id in next ==> next[id] == IndexOf(nodes[..i + 1], id).value
      {
        IndexOfAppend(nodes[..i], nodes[i], id);
      }
      index := next;
      i := i + 1;
    }
    assert nodes[..i] == nodes;
  }

  /** The `outDegreeMap` loop: every source maps to its number of links. */
  method BuildDegreeMap(links: seq<Link>) returns (degree: map<string, nat>)
    ensures forall id :: id in degree <==> OutDegree(links, id) > 0
    ensures forall id :: id in degree ==> degree[id] == OutDegree(links, id)
  {
    degree := map[];
    var k := 0;
    while k < |links|
      invariant k <= |links|
      invariant forall id :: id in degree <==> OutDegree(links[..k], id) > 0
      invariant forall id :: id in degree ==> degree[id] == OutDegree(links[..k], id)
    {
      assert links[..k + 1] == links[..k] + [links[k]];
      var s := links[k].source;
      forall id
        ensures OutDegree(links[..k + 1], id) == OutDegree(links[..k], id) + (if s == id then 1 else 0)
      {
        OutDegreeAppend(links[..k], links[k], id);
      }
      degree := degree[s := (if s in degree then degree[s] else 0) + 1];
      k := k + 1;
    }
    assert links[..k] == links;
  }

  /** The distribution loop over the nodes, filling `newVotes` and the raw flows. */
  method Distribute(nodes: seq<Node>, links: seq<Link>, index: map<string, nat>, degree: map<string, nat>)
    returns (newVotes: array<real>, flow: array<real>)
    requires forall id :: id in index <==> IndexOf(nodes, id).Some?
    requires forall id :: id in index ==> index[id] == IndexOf(nodes, id).value
    requires forall id :: id in degree <==> OutDegree(links, id) > 0
    requires forall id :: id in degree ==> degree[id] == OutDegree(links, id)
    ensures newVotes.Length == |nodes| && flow.Length == |links|
    ensures forall j :: 0 <= j < |nodes| ==> newVotes[j] == NewVotes(nodes, links, j)
    ensures forall k :: 0 <= k < |links| ==> flow[k] == RawFlow(nodes, links, |nodes|, k)
  {
    newVotes := new real[|nodes|](_ => 0.0);
    flow := new real[|links|](_ => 0.0);
    var i := 0;
    while i < |nodes|
      invariant i <= |nodes|
      invariant forall j :: 0 <= j < |nodes| ==> newVotes[j] == PartialVotes(nodes, links, i, j)
      invariant forall k :: 0 <= k < |links| ==> flow[k] == RawFlow(nodes, links, i, k)
    {
      var current := Votes(nodes[i]);
      var outDegree := if nodes[i].id in degree then degree[nodes[i].id] else 0;
      if outDegree > 0 {
        var votePerTarget := current / outDegree as real;
        SendAlongLinks(nodes, links, index, i, votePerTarget, newVotes, flow);
      } else {
        OutDegreeZero(links, nodes[i].id);
        newVotes[i] := newVotes[i] + current;
      }
      i := i + 1;
    }
  }

  /** The inner `filter(...).forEach(...)` of node `i`, which has at least one link. */
  method SendAlongLinks(nodes: seq<Node>, links: seq<Link>, index: map<string, nat>, i: nat, votePerTarget: real,
                        newVotes: array<real>, flow: array<real>)
    requires i < |nodes| && OutDegree(links, nodes[i].id) > 0 && votePerTarget == Share(nodes, links, i)
    requires forall id :: id in index <==> IndexOf(nodes, id).Some?
    requires forall id :: id in index ==> index[id] == IndexOf(nodes, id).value
    requires newVotes.Length == |nodes| && flow.Length == |links| && newVotes != flow
    requires forall j :: 0 <= j < |nodes| ==> newVotes[j] == PartialVotes(nodes, links, i, j)
    requires forall k :: 0 <= k < |links| ==> flow[k] == RawFlow(nodes, links, i, k)
    modifies newVotes, flow
    ensures forall j :: 0 <= j < |nodes| ==> newVotes[j] == PartialVotes(nodes, links, i + 1, j)
    ensures forall k :: 0 <= k < |links| ==> flow[k] == RawFlow(nodes, links, i + 1, k)
  {
    var id := nodes[i].id;
    var k := 0;
    while k < |links|
      invariant k <= |links|
      invariant forall j :: 0 <= j < |nodes| ==>
        newVotes[j] == PartialVotes(nodes, links, i, j) + Delivered(nodes, links[..k], id, j, votePerTarget)
      invariant forall q :: 0 <= q < |links| ==>
        flow[q] == (if q < k && links[q].source == id && IndexOf(nodes, links[q].target).Some? then votePerTarget
                    else RawFlow(nodes, links, i, q))
    {
      assert links[..k + 1] == links[..k] + [links[k]];
      var delivers := links[k].source == id && links[k].target in index;
      ghost var hit := if delivers then index[links[k].target] else |nodes|;
      if delivers {
        var t := index[links[k].target];
        newVotes[t] := newVotes[t] + votePerTarget;
        flow[k] := votePerTarget;
      }
      forall j | 0 <= j < |nodes|
        ensures Delivered(nodes, links[..k + 1], id, j, votePerTarget) ==
          Delivered(nodes, links[..k], id, j, votePerTarget) + (if j == hit then votePerTarget else 0.0)
      {
        DeliveredAppend(nodes, links[..k], links[k], id, j, votePerTarget);
      }
      k := k + 1;
    }
    assert links[..k] == links;
    forall j | 0 <= j < |nodes|
      ensures PartialVotes(nodes, links, i + 1, j) == PartialVotes(nodes, links, i, j) + Delivered(nodes, links, id, j, votePerTarget)
    {
    }
    forall q | 0 <= q < |links|
      ensures RawFlow(nodes, links, i + 1, q) ==
        (if links[q].source == id && IndexOf(nodes, links[q].target).Some? then votePerTarget else RawFlow(nodes, links, i, q))
    {
    }
  }

  // ---------------------------------------------------------------------
  // What the step promises.

  /** The sum of the new ranks of nodes `0..m)`. */
  function RankSumUpTo(nodes: seq<Node>, links: seq<Link>, m: nat): real {
    if m == 0 then 0.0 else RankSumUpTo(nodes, links, m - 1) + StepRank(nodes, links, m - 1)
  }

  /** The sum of the input ranks, a missing rank counting as 0. */
  function RankTotal(nodes: seq<Node>): real {
    if nodes == [] then 0.0 else RankOr0(nodes[0]) + RankTotal(nodes[1..])
  }

  lemma {:induction false} RankTotalAppend(nodes: seq<Node>, n: Node)
    ensures RankTotal(nodes + [n]) == RankTotal(nodes) + RankOr0(n)
  {
    if nodes != [] {
      RankTotalAppend(nodes[1..], n);
      assert (nodes + [n])[1..] == nodes[1..] + [n];
    }
  }

  /** With a positive new total, the new ranks sum to exactly 1. */
  lemma {:induction false} RanksSumToOne(nodes: seq<Node>, links: seq<Link>)
    requires TotalVotes(nodes, links) > 0.0
    ensures RankSumUpTo(nodes, links, |nodes|) == 1.0
  {
    var total := TotalVotes(nodes, links);
    RankSumIsShare(nodes, links, |nodes|);
    DivideBySelf(total);
  }

  lemma {:induction false} DivideBySelf(x: real)
    requires x > 0.0
    ensures x / x == 1.0
  {
  }

  lemma {:induction false} RankSumIsShare(nodes: seq<Node>, links: seq<Link>, m: nat)
    requires TotalVotes(nodes, links) > 0.0
    ensures RankSumUpTo(nodes, links, m) == TotalUpTo(nodes, links, |nodes|, m) / TotalVotes(nodes, links)
  {
    if m > 0 {
      RankSumIsShare(nodes, links, m - 1);
      var total := TotalVotes(nodes, links);
      var a, b := TotalUpTo(nodes, links, |nodes|, m - 1), NewVotes(nodes, links, m - 1);
      assert StepRank(nodes, links, m - 1) == b / total;
      AddShares(a, b, total, RankSumUpTo(nodes, links, m - 1), StepRank(nodes, links, m - 1));
    }
  }

  lemma AddShares(a: real, b: real, total: real, x: real, y: real)
    requires total > 0.0 && x == a / total && y == b / total
    ensures x + y == (a + b) / total
  {
  }

  /** Every input rank is non-negative (or missing). */
  ghost predicate NonNegativeRanks(nodes: seq<Node>) {
    forall i :: 0 <= i < |nodes| ==> RankOr0(nodes[i]) >= 0.0
  }

  lemma {:induction false} DeliveredNonNegative(nodes: seq<Node>, links: seq<Link>, id: string, j: nat, amount: real)
    requires amount >= 0.0
    ensures Delivered(nodes, links, id, j, amount) >= 0.0
  {
    if links != [] {
      DeliveredNonNegative(nodes, links[1..], id, j, amount);
    }
  }

  lemma {:induction false} ShareNonNegative(nodes: seq<Node>, links: seq<Link>, i: nat)
    requires i < |nodes| && RankOr0(nodes[i]) >= 0.0
    ensures Share(nodes, links, i) >= 0.0
  {
    var d := OutDegree(links, nodes[i].id);
    if d > 0 {
      assert Votes(nodes[i]) >= 0.0;
      assert Votes(nodes[i]) / d as real >= 0.0;
    }
  }

  lemma {:induction false} PartialVotesNonNegative(nodes: seq<Node>, links: seq<Link>, n: nat, j: nat)
    requires n <= |nodes| && NonNegativeRanks(nodes)
    ensures PartialVotes(nodes, links, n, j) >= 0.0
  {
    if n > 0 {
      PartialVotesNonNegative(nodes, links, n - 1, j);
      ShareNonNegative(nodes, links, n - 1);
      DeliveredNonNegative(nodes, links, nodes[n - 1].id, j, Share(nodes, links, n - 1));
    }
  }

  lemma {:induction false} TotalUpToNonNegative(nodes: seq<Node>, links: seq<Link>, m: nat)
    requires NonNegativeRanks(nodes)
    ensures TotalUpTo(nodes, links, |nodes|, m) >= 0.0
  {
    if m > 0 {
      TotalUpToNonNegative(nodes, links, m - 1);
      PartialVotesNonNegative(nodes, links, |nodes|, m - 1);
    }
  }

  lemma {:induction false} RawFlowNonNegative(nodes: seq<Node>, links: seq<Link>, n: nat, k: nat)
    requires n <= |nodes| && k < |links| && NonNegativeRanks(nodes)
    ensures RawFlow(nodes, links, n, k) >= 0.0
  {
    if n > 0 {
      RawFlowNonNegative(nodes, links, n - 1, k);
      ShareNonNegative(nodes, links, n - 1);
    }
  }

  /** With non-negative input ranks, every new rank, the total and every flow are non-negative. */
  lemma {:induction false} StepNonNegative(nodes: seq<Node>, links: seq<Link>)
    requires NonNegativeRanks(nodes)
    ensures TotalVotes(nodes, links) >= 0.0
    ensures forall j :: 0 <= j < |nodes| ==> StepRank(nodes, links, j) >= 0.0
    ensures forall k :: 0 <= k < |links| ==> StepFlow(nodes, links, k) >= 0.0
  {
    var total := TotalVotes(nodes, links);
    TotalUpToNonNegative(nodes, links, |nodes|);
    forall j | 0 <= j < |nodes|
      ensures StepRank(nodes, links, j) >= 0.0
    {
      PartialVotesNonNegative(nodes, links, |nodes|, j);
      if total > 0.0 {
        assert NewVotes(nodes, links, j) / total >= 0.0;
      }
    }
    forall k | 0 <= k < |links|
      ensures StepFlow(nodes, links, k) >= 0.0
    {
      RawFlowNonNegative(nodes, links, |nodes|, k);
      if total > 0.0 {
        assert 100.0 / total > 0.0;
        assert RawFlow(nodes, links, |nodes|, k) * (100.0 / total) >= 0.0;
      }
    }
  }

  /**
   * The flow a link records is the share of the last node carrying its
   * source id (the one `nodeIndexMap` names), provided its target is a
   * node; a link to an unknown target, or from an unknown source, keeps 0.
   */
  lemma {:induction false} RawFlowIsSourceShare(nodes: seq<Node>, links: seq<Link>, n: nat, k: nat)
    requires n <= |nodes| && k < |links|
    ensures RawFlow(nodes, links, n, k) ==
      (if IndexOf(nodes[..n], links[k].source).Some? && IndexOf(nodes, links[k].target).Some?
       then Share(nodes, links, IndexOf(nodes[..n], links[k].source).value) else 0.0)
  {
    if n > 0 {
      RawFlowIsSourceShare(nodes, links, n - 1, k);
      assert nodes[..n] == nodes[..n - 1] + [nodes[n - 1]];
      IndexOfAppend(nodes[..n - 1], nodes[n - 1], links[k].source);
    }
  }

  /**
   * The flow of link `k` in the result: the votes of the last node carrying
   * its source id over that id's out-degree (never 0, link `k` counts), or 0
   * when either end is unknown; rescaled by 100/total when the total is positive.
   */
  lemma {:induction false} StepFlowIsShare(nodes: seq<Node>, links: seq<Link>, k: nat)
    requires k < |links|
    ensures OutDegree(links, links[k].source) > 0
    ensures var src, tgt := IndexOf(nodes, links[k].source), IndexOf(nodes, links[k].target);
      var raw := if src.Some? && tgt.Some?
        then Votes(nodes[src.value]) / OutDegree(links, links[k].source) as real else 0.0;
      StepFlow(nodes, links, k) == (if TotalVotes(nodes, links) > 0.0 then raw * (100.0 / TotalVotes(nodes, links)) else raw)
  {
    OutDegreeZero(links, links[k].source);
    RawFlowIsSourceShare(nodes, links, |nodes|, k);
    assert nodes[..|nodes|] == nodes;
    var src, tgt := IndexOf(nodes, links[k].source), IndexOf(nodes, links[k].target);
    if src.Some? && tgt.Some? {
      IndexOfIsLast(nodes, links[k].source);
      assert nodes[src.value].id == links[k].source;
      assert RawFlow(nodes, links, |nodes|, k) == Share(nodes, links, src.value);
    } else {
      assert RawFlow(nodes, links, |nodes|, k) == 0.0;
    }
  }

  /** A node that is the source of no link keeps all its votes (and may receive more). */
  lemma {:induction false} KeeperKeepsVotes(nodes: seq<Node>, links: seq<Link>, i: nat, n: nat)
    requires i < n <= |nodes| && NonNegativeRanks(nodes) && OutDegree(links, nodes[i].id) == 0
    ensures PartialVotes(nodes, links, n, i) >= Votes(nodes[i])
  {
    ShareNonNegative(nodes, links, n - 1);
    DeliveredNonNegative(nodes, links, nodes[n - 1].id, i, Share(nodes, links, n - 1));
    if n - 1 == i {
      PartialVotesNonNegative(nodes, links, n - 1, i);
    } else {
      KeeperKeepsVotes(nodes, links, i, n - 1);
    }
  }

  // Conservation of votes.

  /** What node `i` keeps in the game: everything when it has no links, otherwise what its links deliver. */
  function Kept(nodes: seq<Node>, links: seq<Link>, i: nat): real
    requires i < |nodes|
  {
    if OutDegree(links, nodes[i].id) > 0 then DeliveredAnywhere(nodes, links, nodes[i].id, Share(nodes, links, i))
    else Votes(nodes[i])
  }

  function KeptUpTo(nodes: seq<Node>, links: seq<Link>, n: nat): real
    requires n <= |nodes|
  {
    if n == 0 then 0.0 else KeptUpTo(nodes, links, n - 1) + Kept(nodes, links, n - 1)
  }

  /** The sum of node `i`'s contributions to `newVotes[0..m)`. */
  function RowUpTo(nodes: seq<Node>, links: seq<Link>, i: nat, m: nat): real
    requires i < |nodes|
  {
    if m == 0 then 0.0 else RowUpTo(nodes, links, i, m - 1) + Contribution(nodes, links, i, m - 1)
  }

  /** The sum over targets `0..m)` of what the links out of `id` deliver. */
  function DeliveredSum(nodes: seq<Node>, links: seq<Link>, id: string, amount: real, m: nat): real {
    if m == 0 then 0.0 else DeliveredSum(nodes, links, id, amount, m - 1) + Delivered(nodes, links, id, m - 1, amount)
  }

  lemma {:induction false} TotalUpToNoNodes(nodes: seq<Node>, links: seq<Link>, m: nat)
    ensures TotalUpTo(nodes, links, 0, m) == 0.0
  {
    if m > 0 {
      TotalUpToNoNodes(nodes, links, m - 1);
    }
  }

  lemma {:induction false} TotalUpToAddRow(nodes: seq<Node>, links: seq<Link>, n: nat, m: nat)
    requires n < |nodes|
    ensures TotalUpTo(nodes, links, n + 1, m) == TotalUpTo(nodes, links, n, m) + RowUpTo(nodes, links, n, m)
  {
    if m > 0 {
      TotalUpToAddRow(nodes, links, n, m - 1);
    }
  }

  lemma {:induction false} DeliveredSumFirstLink(nodes: seq<Node>, links: seq<Link>, id: string, amount: real, m: nat)
    requires links != []
    ensures var l := links[0];
      DeliveredSum(nodes, links, id, amount, m) ==
        (if l.source == id && IndexOf(nodes, l.target).Some? && IndexOf(nodes, l.target).value < m then amount else 0.0)
        + DeliveredSum(nodes, links[1..], id, amount, m)
  {
    if m > 0 {
      DeliveredSumFirstLink(nodes, links, id, amount, m - 1);
    }
  }

  lemma {:induction false} DeliveredSumIsAnywhere(nodes: seq<Node>, links: seq<Link>, id: string, amount: real)
    ensures DeliveredSum(nodes, links, id, amount, |nodes|) == DeliveredAnywhere(nodes, links, id, amount)
  {
    if links == [] {
      DeliveredSumEmpty(nodes, id, amount, |nodes|);
    } else {
      DeliveredSumIsAnywhere(nodes, links[1..], id, amount);
      DeliveredSumFirstLink(nodes, links, id, amount, |nodes|);
    }
  }

  lemma {:induction false} DeliveredSumEmpty(nodes: seq<Node>, id: string, amount: real, m: nat)
    ensures DeliveredSum(nodes, [], id, amount, m) == 0.0
  {
    if m > 0 {
      DeliveredSumEmpty(nodes, id, amount, m - 1);
    }
  }

  lemma {:induction false} RowOfKeeper(nodes: seq<Node>, links: seq<Link>, i: nat, m: nat)
    requires i < |nodes| && OutDegree(links, nodes[i].id) == 0
    ensures RowUpTo(nodes, links, i, m) == if i < m then Votes(nodes[i]) else 0.0
  {
    if m > 0 {
      RowOfKeeper(nodes, links, i, m - 1);
    }
  }

  lemma {:induction false} RowOfSender(nodes: seq<Node>, links: seq<Link>, i: nat, m: nat)
    requires i < |nodes| && OutDegree(links, nodes[i].id) > 0
    ensures RowUpTo(nodes, links, i, m) == DeliveredSum(nodes, links, nodes[i].id, Share(nodes, links, i), m)
  {
    if m > 0 {
      RowOfSender(nodes, links, i, m - 1);
    }
  }

  lemma {:induction false} RowIsKept(nodes: seq<Node>, links: seq<Link>, i: nat)
    requires i < |nodes|
    ensures RowUpTo(nodes, links, i, |nodes|) == Kept(nodes, links, i)
  {
    if OutDegree(links, nodes[i].id) > 0 {
      RowOfSender(nodes, links, i, |nodes|);
      DeliveredSumIsAnywhere(nodes, links, nodes[i].id, Share(nodes, links, i));
    } else {
      RowOfKeeper(nodes, links, i, |nodes|);
    }
  }

  /** The new total is what the nodes keep in the game: shares sent to unknown targets are lost. */
  lemma {:induction false} TotalIsKept(nodes: seq<Node>, links: seq<Link>, n: nat)
    requires n <= |nodes|
    ensures TotalUpTo(nodes, links, n, |nodes|) == KeptUpTo(nodes, links, n)
  {
    if n == 0 {
      TotalUpToNoNodes(nodes, links, |nodes|);
    } else {
      TotalIsKept(nodes, links, n - 1);
      TotalUpToAddRow(nodes, links, n - 1, |nodes|);
      RowIsKept(nodes, links, n - 1);
    }
  }

  /** When every link target is a node, each node keeps exactly its votes in the game. */
  lemma {:induction false} KeptAllKnown(nodes: seq<Node>, links: seq<Link>, i: nat)
    requires i < |nodes|
    requires forall k :: 0 <= k < |links| ==> IndexOf(nodes, links[k].target).Some?
    ensures Kept(nodes, links, i) == Votes(nodes[i])
  {
    var d := OutDegree(links, nodes[i].id);
    if d > 0 {
      var share := Share(nodes, links, i);
      DeliveredAnywhereAllKnown(nodes, links, nodes[i].id, share);
      var v := Votes(nodes[i]);
      assert Kept(nodes, links, i) == DeliveredAnywhere(nodes, links, nodes[i].id, share);
      DivideThenMultiply(v, d as real);
    }
  }

  lemma {:induction false} DivideThenMultiply(v: real, d: real)
    requires d > 0.0
    ensures v / d * d == v
  {
  }

  lemma {:induction false} KeptIsVotes(nodes: seq<Node>, links: seq<Link>, n: nat)
    requires n <= |nodes|
    requires forall k :: 0 <= k < |links| ==> IndexOf(nodes, links[k].target).Some?
    ensures KeptUpTo(nodes, links, n) == 100.0 * RankTotal(nodes[..n])
  {
    if n == 0 {
      assert nodes[..n] == [];
    } else {
      KeptIsVotes(nodes, links, n - 1);
      assert nodes[..n] == nodes[..n - 1] + [nodes[n - 1]];
      RankTotalAppend(nodes[..n - 1], nodes[n - 1]);
      KeptAllKnown(nodes, links, n - 1);
    }
  }

  /**
   * Conservation: when every link target is a node, no vote is lost, and
   * the total before normalisation is 100 times the sum of the input ranks.
   */
  lemma {:induction false} VotesConserved(nodes: seq<Node>, links: seq<Link>)
    requires forall k :: 0 <= k < |links| ==> IndexOf(nodes, links[k].target).Some?
    ensures TotalVotes(nodes, links) == 100.0 * RankTotal(nodes)
  {
    TotalIsKept(nodes, links, |nodes|);
    KeptIsVotes(nodes, links, |nodes|);
    assert nodes[..|nodes|] == nodes;
  }

  // The worked example: the link list of the bundled sample graph, every rank 0.25.

  function SampleNodes(): seq<Node> {
    [Node("A", Some("A"), Some(0.25), Some(100.0), Some(100.0)),
     Node("B", Some("B"), Some(0.25), Some(250.0), Some(100.0)),
     Node("C", Some("C"), Some(0.25), Some(175.0), Some(200.0)),
     Node("D", Some("D"), Some(0.25), Some(50.0), Some(200.0))]
  }

  function SampleLinks(): seq<Link> {
    [Link("A", "B", Some(1.0), None), Link("A", "C", Some(1.0), None), Link("B", "C", Some(1.0), None),
     Link("C", "A", Some(1.0), None), Link("D", "C", Some(1.0), None)]
  }

  lemma SampleShares()
    ensures Share(SampleNodes(), SampleLinks(), 0) == 12.5
    ensures Share(SampleNodes(), SampleLinks(), 1) == 25.0
    ensures Share(SampleNodes(), SampleLinks(), 2) == 25.0
    ensures Share(SampleNodes(), SampleLinks(), 3) == 25.0
  {
  }

  lemma SampleVotesA()
    ensures NewVotes(SampleNodes(), SampleLinks(), 0) == 25.0
  {
    var nodes, links := SampleNodes(), SampleLinks();
    SampleShares();
    assert Contribution(nodes, links, 0, 0) == 0.0;
    assert PartialVotes(nodes, links, 1, 0) == 0.0;
    assert Contribution(nodes, links, 1, 0) == 0.0;
    assert PartialVotes(nodes, links, 2, 0) == 0.0;
    assert Contribution(nodes, links, 2, 0) == 25.0;
    assert PartialVotes(nodes, links, 3, 0) == 25.0;
    assert Contribution(nodes, links, 3, 0) == 0.0;
    assert PartialVotes(nodes, links, 4, 0) == 25.0;
  }

  lemma SampleVotesB()
    ensures NewVotes(SampleNodes(), SampleLinks(), 1) == 12.5
  {
    var nodes, links := SampleNodes(), SampleLinks();
    SampleShares();
    assert Contribution(nodes, links, 0, 1) == 12.5;
    assert PartialVotes(nodes, links, 1, 1) == 12.5;
    assert Contribution(nodes, links, 1, 1) == 0.0;
    assert PartialVotes(nodes, links, 2, 1) == 12.5;
    assert Contribution(nodes, links, 2, 1) == 0.0;
    assert PartialVotes(nodes, links, 3, 1) == 12.5;
    assert Contribution(nodes, links, 3, 1) == 0.0;
    assert PartialVotes(nodes, links, 4, 1) == 12.5;
  }

  lemma SampleVotesC()
    ensures NewVotes(SampleNodes(), SampleLinks(), 2) == 62.5
  {
    var nodes, links := SampleNodes(), SampleLinks();
    SampleShares();
    assert Contribution(nodes, links, 0, 2) == 12.5;
    assert PartialVotes(nodes, links, 1, 2) == 12.5;
    assert Contribution(nodes, links, 1, 2) == 25.0;
    assert PartialVotes(nodes, links, 2, 2) == 37.5;
    assert Contribution(nodes, links, 2, 2) == 0.0;
    assert PartialVotes(nodes, links, 3, 2) == 37.5;
    assert Contribution(nodes, links, 3, 2) == 25.0;
    assert PartialVotes(nodes, links, 4, 2) == 62.5;
  }

  lemma SampleVotesD()
    ensures NewVotes(SampleNodes(), SampleLinks(), 3) == 0.0
  {
    var nodes, links := SampleNodes(), SampleLinks();
    SampleShares();
    assert Contribution(nodes, links, 0, 3) == 0.0;
    assert PartialVotes(nodes, links, 1, 3) == 0.0;
    assert Contribution(nodes, links, 1, 3) == 0.0;
    assert PartialVotes(nodes, links, 2, 3) == 0.0;
    assert Contribution(nodes, links, 2, 3) == 0.0;
    assert PartialVotes(nodes, links, 3, 3) == 0.0;
    assert Contribution(nodes, links, 3, 3) == 0.0;
    assert PartialVotes(nodes, links, 4, 3) == 0.0;
  }

  /** A keeps 25 votes (from C), B gets half of A's, C gets half of A's plus all of B's and D's, D gets nothing. */
  lemma SampleStep()
    ensures StepRank(SampleNodes(), SampleLinks(), 0) == 0.25
    ensures StepRank(SampleNodes(), SampleLinks(), 1) == 0.125
    ensures StepRank(SampleNodes(), SampleLinks(), 2) == 0.625
    ensures StepRank(SampleNodes(), SampleLinks(), 3) == 0.0
  {
    SampleVotesA();
    SampleVotesB();
    SampleVotesC();
    SampleVotesD();
    var nodes, links := SampleNodes(), SampleLinks();
    assert TotalUpTo(nodes, links, 4, 1) == 25.0;
    assert TotalUpTo(nodes, links, 4, 2) == 37.5;
    assert TotalUpTo(nodes, links, 4, 3) == 100.0;
    assert TotalVotes(nodes, links) == 100.0;
  }
}
