/**
 * What one PageRank iteration, a run and the normalisation promise about
 * the ranks: the teleportation floor, the convergence test, the rank sum
 * an iteration produces (kept at 1 exactly when no rank is stranded on a
 * node without out-links), and a normalised table summing to 1.
 */
module PageRankProperties {
  import opened Seqs
  import opened PageRank

  // ---------------------------------------------------------------------
  // Counting distinct ids.

  /** Distinct ids: as many as the set they form. */
  lemma {:induction false} DistinctCount(ids: seq<string>)
    requires Distinct(ids)
    ensures |set id | id in ids| == |ids|
  {
    if ids != [] {
      var prefix := ids[..|ids| - 1];
      var last := ids[|ids| - 1];
      DistinctCount(prefix);
      assert ids == prefix + [last];
      assert last !in prefix;
      assert (set id | id in ids) == (set id | id in prefix) + {last};
    }
  }

  /** A table whose keys are the distinct ids of `order` has |order| entries. */
  lemma TableSize(nodes: map<string, PageRankNode>, order: seq<string>)
    requires Distinct(order) && forall id :: id in nodes <==> id in order
    ensures |nodes| == |order|
  {
    DistinctCount(order);
    assert nodes.Keys == set id | id in order;
  }

  // ---------------------------------------------------------------------
  // One iteration, node by node.

  lemma {:induction false} InSumNonNegative(nodes: map<string, PageRankNode>, ins: seq<string>)
    requires forall id :: id in nodes ==> nodes[id].rank >= 0.0
    ensures InSum(nodes, ins) >= 0.0
  {
    if ins != [] {
      InSumNonNegative(nodes, ins[..|ins| - 1]);
      var s := ins[|ins| - 1];
      if s in nodes && |nodes[s].outLinks| > 0 {
        assert nodes[s].rank >= 0.0;
      }
    }
  }

  /**
   * With non-negative ranks and a non-negative damping factor, every new
   * rank is at least the teleportation term (1 - d) / N.
   */
  lemma NewRankFloor(nodes: map<string, PageRankNode>, id: string, d: real)
    requires id in nodes
    requires forall v :: v in nodes ==> nodes[v].rank >= 0.0
    requires d >= 0.0
    ensures NewRank(nodes, id, d) >= (1.0 - d) / |nodes| as real
  {
    InSumNonNegative(nodes, nodes[id].inLinks);
  }

  lemma {:induction false} InListWithoutUsableLinks(links: seq<PageRankLink>, known: set<string>, id: string)
    requires forall k :: 0 <= k < |links| ==> !(links[k].source in known && links[k].target in known)
    ensures InList(links, known, id) == []
  {
    if links != [] {
      InListWithoutUsableLinks(links[..|links| - 1], known, id);
    }
  }

  /** When no link joins two nodes, one iteration gives every node exactly (1 - d) / N. */
  lemma NoUsableLinksGiveTeleport(nodes: map<string, PageRankNode>, links: seq<PageRankLink>, d: real, id: string)
    requires BuiltFrom(nodes, links)
    requires forall k :: 0 <= k < |links| ==> !(links[k].source in nodes && links[k].target in nodes)
    requires id in nodes
    ensures Stepped(nodes, d)[id].rank == (1.0 - d) / |nodes| as real
  {
    InListWithoutUsableLinks(links, nodes.Keys, id);
  }

  /** The convergence test of `iterate`: the largest change is below `t` exactly when every change is. */
  lemma {:induction false} MaxDiffBelow(nodes: map<string, PageRankNode>, ids: seq<string>, d: real, t: real)
    requires forall id :: id in ids ==> id in nodes
    ensures MaxDiff(nodes, ids, d) < t <==>
      0.0 < t && forall i :: 0 <= i < |ids| ==> Abs(NewRank(nodes, ids[i], d) - nodes[ids[i]].rank) < t
  {
    if ids != [] {
      var prefix := ids[..|ids| - 1];
      MaxDiffBelow(nodes, prefix, d, t);
      assert forall i :: 0 <= i < |prefix| ==> prefix[i] == ids[i];
    }
  }

  // ---------------------------------------------------------------------
  // The rank sum after one iteration.
  //
  // Every usable link carries its source's weight once: summed over the
  // receiving nodes that is the total of the in-link sums, summed over the
  // sending nodes it is |out-links| x weight, which is the whole rank of a
  // node with out-links and nothing for a node without.

  /** What the usable links carry in one iteration: each passes its source's weight. */
  function LinkFlow(nodes: map<string, PageRankNode>, links: seq<PageRankLink>, known: set<string>): real {
    if links == [] then 0.0 else LinkFlow(nodes, links[..|links| - 1], known) + LastCarried(nodes, links, known)
  }

  /** What the last link of `links` carries: its source's weight if both its ends are nodes. */
  function LastCarried(nodes: map<string, PageRankNode>, links: seq<PageRankLink>, known: set<string>): real
    requires links != []
  {
    var l := links[|links| - 1];
    if l.source in known && l.target in known then Weight(nodes, l.source) else 0.0
  }

  /** The in-link sums, built from `links`, of the nodes of `order`. */
  function InFlowSum(nodes: map<string, PageRankNode>, links: seq<PageRankLink>, known: set<string>, order: seq<string>): real {
    if order == [] then 0.0
    else InFlowSum(nodes, links, known, order[..|order| - 1]) + InSum(nodes, InList(links, known, order[|order| - 1]))
  }

  /** |out-links| x weight, with out-links built from `links`, over the nodes of `order`. */
  function OutFlowSum(nodes: map<string, PageRankNode>, links: seq<PageRankLink>, known: set<string>, order: seq<string>): real {
    if order == [] then 0.0
    else
      var u := order[|order| - 1];
      OutFlowSum(nodes, links, known, order[..|order| - 1]) + Copies(Weight(nodes, u), |OutList(links, known, u)|)
  }

  /** `w` added up `n` times. */
  function Copies(w: real, n: nat): real {
    if n == 0 then 0.0 else Copies(w, n - 1) + w
  }

  lemma {:induction false} CopiesIsProduct(w: real, n: nat)
    ensures Copies(w, n) == n as real * w
  {
    if n > 0 {
      CopiesIsProduct(w, n - 1);
    }
  }

  /** n shares of v / n add up to v. */
  lemma CopiesOfShare(v: real, n: nat)
    requires n > 0
    ensures Copies(v / n as real, n) == v
  {
    CopiesIsProduct(v / n as real, n);
    DivideThenMultiply(v, n as real);
  }

  lemma InSumAppend(nodes: map<string, PageRankNode>, ins: seq<string>, extra: seq<string>)
    requires |extra| <= 1
    ensures InSum(nodes, ins + extra) == InSum(nodes, ins) + (if extra == [] then 0.0 else Weight(nodes, extra[0]))
  {
    if extra == [] {
      assert ins + extra == ins;
    } else {
      assert (ins + extra)[..|ins|] == ins;
    }
  }

  /** The last link adds its weight to the in-link sum of its target and of no other node. */
  lemma InSumOfLastLink(nodes: map<string, PageRankNode>, links: seq<PageRankLink>, known: set<string>, v: string)
    requires links != []
    ensures InSum(nodes, InList(links, known, v))
      == InSum(nodes, InList(links[..|links| - 1], known, v))
         + (if v == links[|links| - 1].target then LastCarried(nodes, links, known) else 0.0)
  {
    var l := links[|links| - 1];
    InSumAppend(nodes, InList(links[..|links| - 1], known, v),
      if l.target == v && l.source in known && l.target in known then [l.source] else []);
  }

  /** The last link adds one out-link, and so one weight, to its source and to no other node. */
  lemma OutFlowOfLastLink(nodes: map<string, PageRankNode>, links: seq<PageRankLink>, known: set<string>, u: string)
    requires links != []
    ensures Copies(Weight(nodes, u), |OutList(links, known, u)|)
      == Copies(Weight(nodes, u), |OutList(links[..|links| - 1], known, u)|)
         + (if u == links[|links| - 1].source then LastCarried(nodes, links, known) else 0.0)
  {
    var l := links[|links| - 1];
    if u == l.source && l.source in known && l.target in known {
      assert |OutList(links, known, u)| == |OutList(links[..|links| - 1], known, u)| + 1;
    }
  }

  lemma {:induction false} InFlowSumStep(nodes: map<string, PageRankNode>, links: seq<PageRankLink>, known: set<string>, order: seq<string>)
    requires links != [] && Distinct(order)
    ensures InFlowSum(nodes, links, known, order)
      == InFlowSum(nodes, links[..|links| - 1], known, order)
         + (if links[|links| - 1].target in order then LastCarried(nodes, links, known) else 0.0)
  {
    if order != [] {
      var prefix := order[..|order| - 1];
      var v := order[|order| - 1];
      var pre := links[..|links| - 1];
      var l := links[|links| - 1];
      InFlowSumStep(nodes, links, known, prefix);
      InSumOfLastLink(nodes, links, known, v);
      LastOfDistinct(order);
      AddOnce(InFlowSum(nodes, links, known, prefix), InFlowSum(nodes, pre, known, prefix),
        InSum(nodes, InList(links, known, v)), InSum(nodes, InList(pre, known, v)),
        LastCarried(nodes, links, known), l.target in prefix, l.target == v);
    }
  }

  /** The last id of a list without repeats is not among the others. */
  lemma LastOfDistinct(order: seq<string>)
    requires Distinct(order) && order != []
    ensures Distinct(order[..|order| - 1])
    ensures forall x :: x in order <==> x in order[..|order| - 1] || x == order[|order| - 1]
    ensures order[|order| - 1] !in order[..|order| - 1]
  {
    assert order == order[..|order| - 1] + [order[|order| - 1]];
  }

  /** Two sums each gaining `c` under exclusive conditions gain `c` once in total. */
  lemma AddOnce(a': real, a: real, b': real, b: real, c: real, x: bool, y: bool)
    requires !(x && y)
    requires a' == a + (if x then c else 0.0) && b' == b + (if y then c else 0.0)
    ensures a' + b' == a + b + (if x || y then c else 0.0)
  {
  }

  lemma {:induction false} OutFlowSumStep(nodes: map<string, PageRankNode>, links: seq<PageRankLink>, known: set<string>, order: seq<string>)
    requires links != [] && Distinct(order)
    ensures OutFlowSum(nodes, links, known, order)
      == OutFlowSum(nodes, links[..|links| - 1], known, order)
         + (if links[|links| - 1].source in order then LastCarried(nodes, links, known) else 0.0)
  {
    if order != [] {
      var prefix := order[..|order| - 1];
      var u := order[|order| - 1];
      var pre := links[..|links| - 1];
      var l := links[|links| - 1];
      OutFlowSumStep(nodes, links, known, prefix);
      OutFlowOfLastLink(nodes, links, known, u);
      LastOfDistinct(order);
      AddOnce(OutFlowSum(nodes, links, known, prefix), OutFlowSum(nodes, pre, known, prefix),
        Copies(Weight(nodes, u), |OutList(links, known, u)|), Copies(Weight(nodes, u), |OutList(pre, known, u)|),
        LastCarried(nodes, links, known), l.source in prefix, l.source == u);
    }
  }

  lemma {:induction false} FlowSumsWithoutLinks(nodes: map<string, PageRankNode>, known: set<string>, order: seq<string>)
    ensures InFlowSum(nodes, [], known, order) == 0.0
    ensures OutFlowSum(nodes, [], known, order) == 0.0
  {
    if order != [] {
      FlowSumsWithoutLinks(nodes, known, order[..|order| - 1]);
    }
  }

  /** Summed over the nodes, the in-link sums and |out-links| x weight both add up to what the links carry. */
  lemma {:induction false} FlowSumsAreLinkFlow(nodes: map<string, PageRankNode>, links: seq<PageRankLink>, order: seq<string>, known: set<string>)
    requires Distinct(order) && forall id :: id in known <==> id in order
    ensures InFlowSum(nodes, links, known, order) == LinkFlow(nodes, links, known)
    ensures OutFlowSum(nodes, links, known, order) == LinkFlow(nodes, links, known)
  {
    if links == [] {
      FlowSumsWithoutLinks(nodes, known, order);
    } else {
      FlowSumsAreLinkFlow(nodes, links[..|links| - 1], order, known);
      InFlowSumStep(nodes, links, known, order);
      OutFlowSumStep(nodes, links, known, order);
    }
  }

  /** The rank a node passes on in an iteration: all of it if it has out-links, none otherwise. */
  function PassedRank(nodes: map<string, PageRankNode>, id: string): real {
    if id in nodes && |nodes[id].outLinks| > 0 then nodes[id].rank else 0.0
  }

  /** The rank a node keeps out of the iteration: all of it if it has no out-links. */
  function KeptRank(nodes: map<string, PageRankNode>, id: string): real {
    if id in nodes && |nodes[id].outLinks| == 0 then nodes[id].rank else 0.0
  }

  /** The rank passed on by the nodes of `order`. */
  function PassedSum(nodes: map<string, PageRankNode>, order: seq<string>): real {
    if order == [] then 0.0 else PassedSum(nodes, order[..|order| - 1]) + PassedRank(nodes, order[|order| - 1])
  }

  /** The rank kept by the nodes of `order`. */
  function KeptSum(nodes: map<string, PageRankNode>, order: seq<string>): real {
    if order == [] then 0.0 else KeptSum(nodes, order[..|order| - 1]) + KeptRank(nodes, order[|order| - 1])
  }

  /** The in-link sums stored in the table, over the nodes of `order`. */
  function TableInSum(nodes: map<string, PageRankNode>, order: seq<string>): real {
    if order == [] then 0.0
    else
      var v := order[|order| - 1];
      TableInSum(nodes, order[..|order| - 1]) + (if v in nodes then InSum(nodes, nodes[v].inLinks) else 0.0)
  }

  lemma DivideThenMultiply(v: real, n: real)
    requires n > 0.0
    ensures n * (v / n) == v
  {
  }

  /** In a built table the stored lists are the built ones, so the flow sums become rank sums. */
  lemma {:induction false} TableFlows(nodes: map<string, PageRankNode>, links: seq<PageRankLink>, order: seq<string>)
    requires BuiltFrom(nodes, links)
    requires forall id :: id in order ==> id in nodes
    ensures TableInSum(nodes, order) == InFlowSum(nodes, links, nodes.Keys, order)
    ensures OutFlowSum(nodes, links, nodes.Keys, order) == PassedSum(nodes, order)
  {
    if order != [] {
      TableFlows(nodes, links, order[..|order| - 1]);
      BuiltNodeFlows(nodes, links, order[|order| - 1]);
    }
  }

  lemma BuiltNodeFlows(nodes: map<string, PageRankNode>, links: seq<PageRankLink>, u: string)
    requires BuiltFrom(nodes, links) && u in nodes
    ensures InSum(nodes, nodes[u].inLinks) == InSum(nodes, InList(links, nodes.Keys, u))
    ensures Copies(Weight(nodes, u), |OutList(links, nodes.Keys, u)|) == PassedRank(nodes, u)
  {
    var n := |nodes[u].outLinks|;
    if n > 0 {
      CopiesOfShare(nodes[u].rank, n);
    }
  }

  /** Every rank is either passed on or kept. */
  lemma {:induction false} PassedPlusKept(nodes: map<string, PageRankNode>, order: seq<string>)
    requires forall id :: id in order ==> id in nodes
    ensures RankSum(nodes, order) == PassedSum(nodes, order) + KeptSum(nodes, order)
  {
    if order != [] {
      PassedPlusKept(nodes, order[..|order| - 1]);
    }
  }

  /** d times the stored in-link sum, added up over the nodes of `order`. */
  function DampedInSum(nodes: map<string, PageRankNode>, order: seq<string>, d: real): real {
    if order == [] then 0.0
    else
      var v := order[|order| - 1];
      DampedInSum(nodes, order[..|order| - 1], d) + (if v in nodes then d * InSum(nodes, nodes[v].inLinks) else 0.0)
  }

  /** The new ranks of `order` sum to |order| teleportation terms plus the damped in-link sums. */
  lemma {:induction false} SteppedSum(nodes: map<string, PageRankNode>, order: seq<string>, d: real)
    requires forall id :: id in order ==> id in nodes
    ensures RankSum(Stepped(nodes, d), order) == Copies(Teleport(nodes, d), |order|) + DampedInSum(nodes, order, d)
  {
    if order != [] {
      var v := order[|order| - 1];
      SteppedSum(nodes, order[..|order| - 1], d);
      assert Stepped(nodes, d)[v].rank == Teleport(nodes, d) + d * InSum(nodes, nodes[v].inLinks);
    }
  }

  lemma {:induction false} DampedInSumIsScaled(nodes: map<string, PageRankNode>, order: seq<string>, d: real)
    ensures DampedInSum(nodes, order, d) == d * TableInSum(nodes, order)
  {
    if order != [] {
      var prefix := order[..|order| - 1];
      var v := order[|order| - 1];
      DampedInSumIsScaled(nodes, prefix, d);
      var i := if v in nodes then InSum(nodes, nodes[v].inLinks) else 0.0;
      Distribute(d, TableInSum(nodes, order), TableInSum(nodes, prefix), i);
    }
  }

  /** N teleportation terms add up to 1 - d. */
  lemma TeleportShares(nodes: map<string, PageRankNode>, d: real, n: nat)
    requires |nodes| == n > 0
    ensures Copies(Teleport(nodes, d), n) == 1.0 - d
  {
    CopiesOfShare(1.0 - d, n);
  }

  lemma Distribute(d: real, sum: real, a: real, b: real)
    requires sum == a + b
    ensures d * sum == d * a + d * b
  {
  }

  /**
   * One iteration of a built table yields ranks summing to (1 - d) plus d
   * times the rank held by nodes with out-links: a node without out-links
   * passes nothing on.
   */
  lemma SteppedRankSum(nodes: map<string, PageRankNode>, links: seq<PageRankLink>, order: seq<string>, d: real)
    requires Distinct(order) && forall id :: id in nodes <==> id in order
    requires BuiltFrom(nodes, links)
    requires |order| > 0
    ensures RankSum(Stepped(nodes, d), order) == (1.0 - d) + d * PassedSum(nodes, order)
  {
    TableSize(nodes, order);
    TableInIsPassed(nodes, links, order);
    SteppedSum(nodes, order, d);
    SteppedSumOfTable(nodes, order, d, RankSum(Stepped(nodes, d), order));
  }

  /** In a built table, the stored in-link sums add up to the rank passed on. */
  lemma TableInIsPassed(nodes: map<string, PageRankNode>, links: seq<PageRankLink>, order: seq<string>)
    requires Distinct(order) && forall id :: id in nodes <==> id in order
    requires BuiltFrom(nodes, links)
    ensures TableInSum(nodes, order) == PassedSum(nodes, order)
  {
    TableFlows(nodes, links, order);
    FlowSumsAreLinkFlow(nodes, links, order, nodes.Keys);
  }

  lemma SteppedSumOfTable(nodes: map<string, PageRankNode>, order: seq<string>, d: real, r: real)
    requires |nodes| == |order| > 0
    requires TableInSum(nodes, order) == PassedSum(nodes, order)
    requires r == Copies(Teleport(nodes, d), |order|) + DampedInSum(nodes, order, d)
    ensures r == (1.0 - d) + d * PassedSum(nodes, order)
  {
    TeleportShares(nodes, d, |order|);
    DampedOfPassed(nodes, order, d);
  }

  lemma DampedOfPassed(nodes: map<string, PageRankNode>, order: seq<string>, d: real)
    requires TableInSum(nodes, order) == PassedSum(nodes, order)
    ensures DampedInSum(nodes, order, d) == d * PassedSum(nodes, order)
  {
    DampedInSumIsScaled(nodes, order, d);
    Scale(d, TableInSum(nodes, order), PassedSum(nodes, order));
  }

  lemma Scale(d: real, a: real, b: real)
    requires a == b
    ensures d * a == d * b
  {
  }

  lemma {:induction false} NothingKept(nodes: map<string, PageRankNode>, order: seq<string>)
    requires forall id :: id in nodes ==> |nodes[id].outLinks| > 0
    ensures KeptSum(nodes, order) == 0.0
  {
    if order != [] {
      NothingKept(nodes, order[..|order| - 1]);
    }
  }

  /** With no node lacking out-links, an iteration keeps a rank sum of 1. */
  lemma SumStaysOne(nodes: map<string, PageRankNode>, links: seq<PageRankLink>, order: seq<string>, d: real)
    requires Distinct(order) && forall id :: id in nodes <==> id in order
    requires BuiltFrom(nodes, links)
    requires forall id :: id in nodes ==> |nodes[id].outLinks| > 0
    requires RankSum(nodes, order) == 1.0
    ensures RankSum(Stepped(nodes, d), order) == 1.0
  {
    SteppedRankSum(nodes, links, order, d);
    AllPassed(nodes, order, d, RankSum(Stepped(nodes, d), order));
  }

  lemma AllPassed(nodes: map<string, PageRankNode>, order: seq<string>, d: real, r: real)
    requires forall id :: id in order ==> id in nodes
    requires forall id :: id in nodes ==> |nodes[id].outLinks| > 0
    requires RankSum(nodes, order) == 1.0
    requires r == (1.0 - d) + d * PassedSum(nodes, order)
    ensures r == 1.0
  {
    PassedPlusKept(nodes, order);
    NothingKept(nodes, order);
    DampedOfOne(d, PassedSum(nodes, order), r);
  }

  lemma DampedOfOne(d: real, p: real, r: real)
    requires p == 1.0 && r == (1.0 - d) + d * p
    ensures r == 1.0
  {
  }

  /** With non-negative ranks, the rank kept by `order` is at least the rank kept by each of its nodes. */
  lemma {:induction false} KeptAtLeast(nodes: map<string, PageRankNode>, order: seq<string>, x: string)
    requires forall id :: id in nodes ==> nodes[id].rank >= 0.0
    ensures KeptSum(nodes, order) >= 0.0
    ensures x in order ==> KeptSum(nodes, order) >= KeptRank(nodes, x)
  {
    if order != [] {
      var prefix := order[..|order| - 1];
      KeptAtLeast(nodes, prefix, x);
      assert order == prefix + [order[|order| - 1]];
    }
  }

  /** A node without out-links that holds rank makes the sum shrink below 1 (for d > 0). */
  lemma SumShrinks(nodes: map<string, PageRankNode>, links: seq<PageRankLink>, order: seq<string>, d: real, x: string)
    requires Distinct(order) && forall id :: id in nodes <==> id in order
    requires BuiltFrom(nodes, links)
    requires forall id :: id in nodes ==> nodes[id].rank >= 0.0
    requires RankSum(nodes, order) == 1.0 && d > 0.0
    requires x in nodes && |nodes[x].outLinks| == 0 && nodes[x].rank > 0.0
    ensures RankSum(Stepped(nodes, d), order) < 1.0
  {
    SteppedRankSum(nodes, links, order, d);
    SomeKept(nodes, order, d, x, RankSum(Stepped(nodes, d), order));
  }

  lemma SomeKept(nodes: map<string, PageRankNode>, order: seq<string>, d: real, x: string, r: real)
    requires forall id :: id in order ==> id in nodes
    requires forall id :: id in nodes ==> nodes[id].rank >= 0.0
    requires RankSum(nodes, order) == 1.0 && d > 0.0
    requires x in order && |nodes[x].outLinks| == 0 && nodes[x].rank > 0.0
    requires r == (1.0 - d) + d * PassedSum(nodes, order)
    ensures r < 1.0
  {
    PassedPlusKept(nodes, order);
    KeptAtLeast(nodes, order, x);
    assert KeptRank(nodes, x) > 0.0;
    DampedBelowOne(d, PassedSum(nodes, order), r);
  }

  lemma DampedBelowOne(d: real, p: real, r: real)
    requires d > 0.0 && p < 1.0 && r == (1.0 - d) + d * p
    ensures r < 1.0
  {
  }

  // ---------------------------------------------------------------------
  // Initial table and normalisation.

  lemma {:induction false} FirstOccurrencesOfDistinct(ids: seq<string>)
    requires Distinct(ids)
    ensures FirstOccurrences(ids) == ids
  {
    if ids != [] {
      var prefix := ids[..|ids| - 1];
      FirstOccurrencesOfDistinct(prefix);
      assert ids[|ids| - 1] !in prefix;
      assert ids == prefix + [ids[|ids| - 1]];
    }
  }

  lemma {:induction false} EqualRanksSum(nodes: map<string, PageRankNode>, ids: seq<string>, c: real)
    requires forall id :: id in ids ==> id in nodes && nodes[id].rank == c
    ensures RankSum(nodes, ids) == Copies(c, |ids|)
  {
    if ids != [] {
      EqualRanksSum(nodes, ids[..|ids| - 1], c);
    }
  }

  /** `initializeGraph` on distinct ids: link lists built from the links, ranks 1/N summing to 1. */
  lemma InitialRanks(ids: seq<string>, links: seq<PageRankLink>)
    requires Distinct(ids) && |ids| > 0
    ensures BuiltFrom(Initial(ids, links), links)
    ensures RankSum(Initial(ids, links), FirstOccurrences(ids)) == 1.0
  {
    var nodes := Initial(ids, links);
    assert nodes.Keys == set id | id in ids;
    FirstOccurrencesOfDistinct(ids);
    EqualRanksSum(nodes, ids, 1.0 / |ids| as real);
    CopiesOfShare(1.0, |ids|);
  }

  lemma {:induction false} NormalizedRankSum(nodes: map<string, PageRankNode>, ids: seq<string>, total: real)
    requires forall id :: id in ids ==> id in nodes
    requires total != 0.0
    ensures RankSum(Normalized(nodes, total), ids) == RankSum(nodes, ids) / total
  {
    if ids != [] {
      NormalizedRankSum(nodes, ids[..|ids| - 1], total);
    }
  }

  /** After `calculate` divides by a non-zero total, the ranks sum to 1. */
  lemma NormalizedSumsToOne(nodes: map<string, PageRankNode>, order: seq<string>)
    requires forall id :: id in order ==> id in nodes
    requires RankSum(nodes, order) != 0.0
    ensures RankSum(Normalized(nodes, RankSum(nodes, order)), order) == 1.0
  {
    var total := RankSum(nodes, order);
    NormalizedRankSum(nodes, order, total);
    DivideBySelf(total);
  }

  lemma DivideBySelf(x: real)
    requires x != 0.0
    ensures x / x == 1.0
  {
  }
}
