/**
 * The PageRank calculator (app/utils/pagerank.ts): a node table keyed by id
 * whose entries carry a rank and the out-link and in-link lists built from
 * the link list, a synchronous damped update with a convergence test, a run
 * to convergence followed by normalisation, and a driver that records one
 * snapshot per iteration.
 *
 * The JavaScript `Map` is modelled by `order` (its keys in insertion order,
 * which is the order `forEach` and `values()` visit them) and `nodes` (the
 * entries). Every method is specified by the functions below; the lemmas
 * state what an iteration and a run promise.
 */
module PageRank {
  import opened Seqs

  datatype PageRankNode = PageRankNode(id: string, rank: real, outLinks: seq<string>, inLinks: seq<string>)

  datatype PageRankLink = PageRankLink(source: string, target: string, weight: real)

  datatype RankedNode = RankedNode(id: string, rank: real)

  datatype PageRankResult = PageRankResult(
    nodes: seq<RankedNode>,
    links: seq<PageRankLink>,
    currentIteration: int,
    maxIterations: int,
    dampingFactor: real,
    threshold: real,
    converged: bool)

  function Abs(x: real): real { if x < 0.0 then -x else x }

  function Max(a: real, b: real): real { if a < b then b else a }

  function MaxInt(a: int, b: int): int { if a < b then b else a }

  // ---------------------------------------------------------------------
  // The graph as `initializeGraph` builds it.

  /** The targets `id` links to, in link order, counting only links whose two ends are nodes. */
  function OutList(links: seq<PageRankLink>, known: set<string>, id: string): seq<string> {
    if links == [] then []
    else
      var l := links[|links| - 1];
      OutList(links[..|links| - 1], known, id)
      + (if l.source == id && l.source in known && l.target in known then [l.target] else [])
  }

  /** The sources linking to `id`, in link order, counting only links whose two ends are nodes. */
  function InList(links: seq<PageRankLink>, known: set<string>, id: string): seq<string> {
    if links == [] then []
    else
      var l := links[|links| - 1];
      InList(links[..|links| - 1], known, id)
      + (if l.target == id && l.source in known && l.target in known then [l.source] else [])
  }

  /** The table `initializeGraph` builds: one entry per id, rank 1/|ids|, link lists from `links`. */
  function Initial(ids: seq<string>, links: seq<PageRankLink>): map<string, PageRankNode> {
    var known := set id | id in ids;
    map id | id in known :: PageRankNode(id, 1.0 / |ids| as real, OutList(links, known, id), InList(links, known, id))
  }

  /** The two `forEach` loops of `initializeGraph` build `Initial(ids, links)`. */
  lemma AddedIsInitial(ids: seq<string>, links: seq<PageRankLink>, table0: map<string, PageRankNode>, table: map<string, PageRankNode>)
    requires forall id :: id in table0 <==> id in ids
    requires forall id :: id in table0 ==> table0[id] == PageRankNode(id, 1.0 / |ids| as real, [], [])
    requires table.Keys == table0.Keys
    requires forall id :: id in table ==>
      && table[id].id == table0[id].id && table[id].rank == table0[id].rank
      && table[id].outLinks == OutList(links, table0.Keys, id)
      && table[id].inLinks == InList(links, table0.Keys, id)
    ensures table == Initial(ids, links)
  {
    var known := set id | id in ids;
    assert table0.Keys == known;
  }

  /** The node table's link lists are exactly those built from `links`. */
  ghost predicate BuiltFrom(nodes: map<string, PageRankNode>, links: seq<PageRankLink>) {
    forall id :: id in nodes ==>
      nodes[id].id == id
      && nodes[id].outLinks == OutList(links, nodes.Keys, id)
      && nodes[id].inLinks == InList(links, nodes.Keys, id)
  }

  // ---------------------------------------------------------------------
  // One iteration.

  /** What a source passes to each of its out-links: rank / |outLinks|, or nothing if it is unknown or has none. */
  function Weight(nodes: map<string, PageRankNode>, s: string): real {
    if s in nodes && |nodes[s].outLinks| > 0 then nodes[s].rank / |nodes[s].outLinks| as real else 0.0
  }

  /** `rankSum` over the in-link list `ins`. */
  function InSum(nodes: map<string, PageRankNode>, ins: seq<string>): real {
    if ins == [] then 0.0 else InSum(nodes, ins[..|ins| - 1]) + Weight(nodes, ins[|ins| - 1])
  }

  /** `teleportation`: (1 - d) / N; never used when there are no nodes. */
  function Teleport(nodes: map<string, PageRankNode>, d: real): real {
    if |nodes| > 0 then (1.0 - d) / |nodes| as real else 0.0
  }

  /** The new rank of `id`: (1 - d)/N + d * rankSum. */
  function NewRank(nodes: map<string, PageRankNode>, id: string, d: real): real
    requires id in nodes
  {
    Teleport(nodes, d) + d * InSum(nodes, nodes[id].inLinks)
  }

  /** The table after one iteration: every rank replaced by its new rank, computed from the old ranks only. */
  function Stepped(nodes: map<string, PageRankNode>, d: real): (r: map<string, PageRankNode>)
    ensures r.Keys == nodes.Keys
  {
    map id | id in nodes :: nodes[id].(rank := NewRank(nodes, id, d))
  }

  /** The table halfway through an iteration: the ids of `done` carry their new rank, the others their old one. */
  function PartlyStepped(nodes: map<string, PageRankNode>, done: seq<string>, d: real): map<string, PageRankNode> {
    map id | id in nodes :: if id in done then nodes[id].(rank := NewRank(nodes, id, d)) else nodes[id]
  }

  lemma PartlySteppedNext(nodes: map<string, PageRankNode>, done: seq<string>, id: string, d: real)
    requires id in nodes && id !in done
    ensures PartlyStepped(nodes, done + [id], d)
      == PartlyStepped(nodes, done, d)[id := PartlyStepped(nodes, done, d)[id].(rank := NewRank(nodes, id, d))]
  {
  }

  /** What storing the new rank of `order[i]` does to the partial table and to `maxDiff`. */
  lemma ApplyStep(nodes: map<string, PageRankNode>, order: seq<string>, i: nat, d: real,
                  table: map<string, PageRankNode>, maxDiff: real, newRank: real)
    requires Distinct(order) && forall id :: id in nodes <==> id in order
    requires i < |order|
    requires table == PartlyStepped(nodes, order[..i], d) && maxDiff == MaxDiff(nodes, order[..i], d)
    requires order[i] in nodes && newRank == NewRank(nodes, order[i], d)
    ensures order[i] in table
    ensures table[order[i] := table[order[i]].(rank := newRank)] == PartlyStepped(nodes, order[..i + 1], d)
    ensures Max(maxDiff, Abs(newRank - table[order[i]].rank)) == MaxDiff(nodes, order[..i + 1], d)
  {
    assert order[..i + 1][..i] == order[..i];
    assert order[..i + 1] == order[..i] + [order[i]];
    assert order[i] !in order[..i];
    PartlySteppedNext(nodes, order[..i], order[i], d);
  }

  /** Once every id of `order` is stored, the partial table is the stepped table. */
  lemma ApplyDone(nodes: map<string, PageRankNode>, order: seq<string>, d: real, table: map<string, PageRankNode>, maxDiff: real)
    requires forall id :: id in nodes <==> id in order
    requires table == PartlyStepped(nodes, order[..|order|], d) && maxDiff == MaxDiff(nodes, order[..|order|], d)
    ensures table == Stepped(nodes, d) && maxDiff == MaxDiff(nodes, order, d)
  {
    assert order[..|order|] == order;
    PartlySteppedAll(nodes, order, d);
  }

  lemma PartlySteppedNone(nodes: map<string, PageRankNode>, d: real)
    ensures PartlyStepped(nodes, [], d) == nodes
  {
  }

  lemma PartlySteppedAll(nodes: map<string, PageRankNode>, order: seq<string>, d: real)
    requires forall id :: id in nodes ==> id in order
    ensures PartlyStepped(nodes, order, d) == Stepped(nodes, d)
  {
  }

  /** `maxDiff` over the ids `ids`, starting from 0. */
  function MaxDiff(nodes: map<string, PageRankNode>, ids: seq<string>, d: real): real
    requires forall id :: id in ids ==> id in nodes
  {
    if ids == [] then 0.0
    else
      var id := ids[|ids| - 1];
      Max(MaxDiff(nodes, ids[..|ids| - 1], d), Abs(NewRank(nodes, id, d) - nodes[id].rank))
  }

  /** The table after `k` iterations. */
  function IterateN(nodes: map<string, PageRankNode>, d: real, k: nat): (r: map<string, PageRankNode>)
    ensures r.Keys == nodes.Keys
  {
    if k == 0 then nodes else IterateN(Stepped(nodes, d), d, k - 1)
  }

  /** One more iteration is one more step on the table reached so far. */
  lemma {:induction false} IterateNext(nodes: map<string, PageRankNode>, d: real, k: nat)
    ensures IterateN(nodes, d, k + 1) == Stepped(IterateN(nodes, d, k), d)
  {
    if k > 0 {
      IterateNext(Stepped(nodes, d), d, k - 1);
      IterateUnfold(nodes, d, k);
    }
  }

  lemma IterateUnfold(nodes: map<string, PageRankNode>, d: real, k: nat)
    requires k > 0
    requires IterateN(Stepped(nodes, d), d, k) == Stepped(IterateN(Stepped(nodes, d), d, k - 1), d)
    ensures IterateN(nodes, d, k + 1) == Stepped(IterateN(nodes, d, k), d)
  {
    var before := IterateN(Stepped(nodes, d), d, k - 1);
    assert IterateN(nodes, d, k) == before;
  }

  /** Where the `while` loop of `calculate` stops: the table, the iterations run, and whether the last one converged. */
  datatype RunOutcome = RunOutcome(nodes: map<string, PageRankNode>, iterations: nat, converged: bool)

  /**
   * The loop of `calculate` with `budget` iterations left: stop when the
   * budget is spent, otherwise iterate once and stop if that iteration
   * converged.
   */
  function Run(nodes: map<string, PageRankNode>, order: seq<string>, d: real, t: real, budget: int): (r: RunOutcome)
    requires forall id :: id in order ==> id in nodes
    ensures r.nodes.Keys == nodes.Keys
    decreases budget
  {
    if budget <= 0 then RunOutcome(nodes, 0, false)
    else if MaxDiff(nodes, order, d) < t then RunOutcome(Stepped(nodes, d), 1, true)
    else
      var rest := Run(Stepped(nodes, d), order, d, t, budget - 1);
      rest.(iterations := rest.iterations + 1)
  }

  /** `r` with `k` more iterations counted in front of it. */
  function Later(r: RunOutcome, k: nat): RunOutcome {
    r.(iterations := r.iterations + k)
  }

  /**
   * The loop of `calculate` after `iteration` iterations from `start` has
   * reached `nodes`: the whole run is this one if the last iteration
   * converged, otherwise the rest of the run from `nodes`.
   */
  ghost predicate RunSoFar(start: map<string, PageRankNode>, order: seq<string>, d: real, t: real, budget: int,
                           nodes: map<string, PageRankNode>, iteration: nat, converged: bool)
  {
    (forall id :: id in order ==> id in start && id in nodes)
    && Run(start, order, d, t, budget)
       == if converged then RunOutcome(nodes, iteration, true) else Later(Run(nodes, order, d, t, budget - iteration), iteration)
  }

  lemma RunSoFarStart(start: map<string, PageRankNode>, order: seq<string>, d: real, t: real, budget: int)
    requires forall id :: id in order ==> id in start
    ensures RunSoFar(start, order, d, t, budget, start, 0, false)
  {
    assert Later(Run(start, order, d, t, budget), 0) == Run(start, order, d, t, budget);
  }

  lemma RunSoFarNext(start: map<string, PageRankNode>, order: seq<string>, d: real, t: real, budget: int,
                     nodes: map<string, PageRankNode>, iteration: nat)
    requires RunSoFar(start, order, d, t, budget, nodes, iteration, false) && iteration < budget
    ensures RunSoFar(start, order, d, t, budget, Stepped(nodes, d), iteration + 1, MaxDiff(nodes, order, d) < t)
  {
  }

  lemma RunSoFarEnd(start: map<string, PageRankNode>, order: seq<string>, d: real, t: real, budget: int,
                    nodes: map<string, PageRankNode>, iteration: nat, converged: bool)
    requires RunSoFar(start, order, d, t, budget, nodes, iteration, converged) && (converged || iteration >= budget)
    ensures Run(start, order, d, t, budget) == RunOutcome(nodes, iteration, converged)
  {
  }

  /** A run stays within its budget, and runs the whole budget unless it converged. */
  lemma {:induction false} RunWithinBudget(nodes: map<string, PageRankNode>, order: seq<string>, d: real, t: real, budget: int)
    requires forall id :: id in order ==> id in nodes
    ensures var r := Run(nodes, order, d, t, budget);
      && r.iterations <= MaxInt(0, budget)
      && (!r.converged ==> r.iterations == MaxInt(0, budget))
      && (r.converged ==> r.iterations >= 1)
    decreases budget
  {
    if budget > 0 && MaxDiff(nodes, order, d) >= t {
      var s := Stepped(nodes, d);
      assert forall id :: id in order ==> id in s;
      RunWithinBudget(s, order, d, t, budget - 1);
    }
  }

  /** `r` holds the table of as many synchronous iterations from `nodes` as it counts. */
  ghost predicate TableAfter(r: RunOutcome, nodes: map<string, PageRankNode>, d: real) {
    r.nodes == IterateN(nodes, d, r.iterations)
  }

  /** A run leaves the table of as many synchronous iterations as it counts. */
  lemma {:induction false} RunTable(nodes: map<string, PageRankNode>, order: seq<string>, d: real, t: real, budget: int,
                                    r: RunOutcome)
    requires forall id :: id in order ==> id in nodes
    requires r == Run(nodes, order, d, t, budget)
    ensures TableAfter(r, nodes, d)
    decreases budget
  {
    if budget <= 0 {
      assert r == RunOutcome(nodes, 0, false);
    } else if MaxDiff(nodes, order, d) < t {
      assert r == RunOutcome(Stepped(nodes, d), 1, true);
      IterateFirst(nodes, d, 0);
    } else {
      var s := Stepped(nodes, d);
      assert forall id :: id in order ==> id in s;
      var rest := Run(s, order, d, t, budget - 1);
      RunTable(s, order, d, t, budget - 1, rest);
      assert r == rest.(iterations := rest.iterations + 1);
      TableAfterStep(nodes, d, s, rest, r);
    }
  }

  lemma TableAfterStep(nodes: map<string, PageRankNode>, d: real, s: map<string, PageRankNode>, rest: RunOutcome, r: RunOutcome)
    requires s == Stepped(nodes, d) && TableAfter(rest, s, d)
    requires r == rest.(iterations := rest.iterations + 1)
    ensures TableAfter(r, nodes, d)
  {
    IterateFirst(nodes, d, rest.iterations);
  }

  lemma IterateFirst(nodes: map<string, PageRankNode>, d: real, k: nat)
    ensures IterateN(nodes, d, k + 1) == IterateN(Stepped(nodes, d), d, k)
  {
  }

  /** A run reports convergence exactly when its last iteration had a largest change below `t`. */
  lemma {:induction false} RunConvergedAtLast(nodes: map<string, PageRankNode>, order: seq<string>, d: real, t: real, budget: int)
    requires forall id :: id in order ==> id in nodes
    ensures var r := Run(nodes, order, d, t, budget);
      r.converged <==> r.iterations > 0 && MaxDiff(IterateN(nodes, d, r.iterations - 1), order, d) < t
    decreases budget
  {
    var r := Run(nodes, order, d, t, budget);
    if budget > 0 && MaxDiff(nodes, order, d) >= t {
      var rest := Run(Stepped(nodes, d), order, d, t, budget - 1);
      RunConvergedAtLast(Stepped(nodes, d), order, d, t, budget - 1);
    }
  }

  /** Every iteration of a run before its last had a largest change of at least `t`. */
  lemma {:induction false} RunEarlierUnconverged(nodes: map<string, PageRankNode>, order: seq<string>, d: real, t: real, budget: int, k: nat)
    requires forall id :: id in order ==> id in nodes
    requires k + 1 < Run(nodes, order, d, t, budget).iterations
    ensures MaxDiff(IterateN(nodes, d, k), order, d) >= t
    decreases budget
  {
    assert budget > 0 && MaxDiff(nodes, order, d) >= t;
    if k > 0 {
      var rest := Run(Stepped(nodes, d), order, d, t, budget - 1);
      assert Run(nodes, order, d, t, budget).iterations == rest.iterations + 1;
      RunEarlierUnconverged(Stepped(nodes, d), order, d, t, budget - 1, k - 1);
    }
  }

  /** The sum of the ranks of `ids`. */
  function RankSum(nodes: map<string, PageRankNode>, ids: seq<string>): real
    requires forall id :: id in ids ==> id in nodes
  {
    if ids == [] then 0.0 else RankSum(nodes, ids[..|ids| - 1]) + nodes[ids[|ids| - 1]].rank
  }

  /**
   * The table after the normalisation of `calculate`. A zero total (which
   * JavaScript turns into NaN ranks) leaves the ranks as they are.
   */
  function Normalized(nodes: map<string, PageRankNode>, total: real): (r: map<string, PageRankNode>)
    ensures r.Keys == nodes.Keys
  {
    map id | id in nodes :: nodes[id].(rank := if total != 0.0 then nodes[id].rank / total else nodes[id].rank)
  }

  /** The table halfway through the normalisation: the ids of `done` are divided by `total`. */
  function PartlyNormalized(nodes: map<string, PageRankNode>, done: seq<string>, total: real): map<string, PageRankNode> {
    map id | id in nodes :: if id in done then Normalized(nodes, total)[id] else nodes[id]
  }

  lemma PartlyNormalizedNone(nodes: map<string, PageRankNode>, total: real)
    ensures PartlyNormalized(nodes, [], total) == nodes
  {
  }

  lemma PartlyNormalizedNext(nodes: map<string, PageRankNode>, order: seq<string>, i: nat, total: real)
    requires Distinct(order) && forall id :: id in nodes <==> id in order
    requires i < |order|
    ensures order[i] in nodes
    ensures var table := PartlyNormalized(nodes, order[..i], total);
      PartlyNormalized(nodes, order[..i + 1], total)
        == if total != 0.0 then table[order[i] := table[order[i]].(rank := table[order[i]].rank / total)] else table
  {
    assert order[..i + 1] == order[..i] + [order[i]];
    assert order[i] !in order[..i];
  }

  lemma PartlyNormalizedAll(nodes: map<string, PageRankNode>, order: seq<string>, total: real)
    requires forall id :: id in nodes ==> id in order
    ensures PartlyNormalized(nodes, order[..|order|], total) == Normalized(nodes, total)
  {
    assert order[..|order|] == order;
  }

  /** `Array.from(this.nodes.values()).map(...)`: the ids and ranks in table order. */
  function Ranked(nodes: map<string, PageRankNode>, ids: seq<string>): (r: seq<RankedNode>)
    requires forall id :: id in ids ==> id in nodes
    ensures |r| == |ids|
    ensures forall i :: 0 <= i < |ids| ==> r[i] == RankedNode(ids[i], nodes[ids[i]].rank)
  {
    if ids == [] then [] else Ranked(nodes, ids[..|ids| - 1]) + [RankedNode(ids[|ids| - 1], nodes[ids[|ids| - 1]].rank)]
  }

  // ---------------------------------------------------------------------
  // The calculator.

  class PageRankCalculator {
    var order: seq<string>
    var nodes: map<string, PageRankNode>
    var links: seq<PageRankLink>
    var dampingFactor: real
    var threshold: real
    var maxIterations: int

    /** `order` lists every key of the table once, and every entry is stored under its own id. */
    ghost predicate Valid()
      reads this
    {
      Distinct(order)
      && (forall id :: id in nodes <==> id in order)
      && (forall id :: id in nodes ==> nodes[id].id == id)
    }

    constructor (dampingFactor: real := 0.85, threshold: real := 0.0001, maxIterations: int := 100)
      ensures Valid()
      ensures this.order == [] && this.nodes == map[] && this.links == []
      ensures this.dampingFactor == dampingFactor && this.threshold == threshold && this.maxIterations == maxIterations
    {
      this.order := [];
      this.nodes := map[];
      this.links := [];
      this.dampingFactor := dampingFactor;
      this.threshold := threshold;
      this.maxIterations := maxIterations;
    }

    /** The result of a run, or a snapshot, built from the current table. */
    function Snapshot(iteration: int, converged: bool): (r: PageRankResult)
      requires Valid()
      reads this
      ensures r.nodes == Ranked(nodes, order) && r.links == links
      ensures r.currentIteration == iteration && r.converged == converged
      ensures r.maxIterations == maxIterations && r.dampingFactor == dampingFactor && r.threshold == threshold
    {
      PageRankResult(Ranked(nodes, order), links, iteration, maxIterations, dampingFactor, threshold, converged)
    }

    /** getCurrentState: the current table, reported as iteration 0 and not converged. */
    function GetCurrentState(): (r: PageRankResult)
      requires Valid()
      reads this
      ensures r == Snapshot(0, false)
    {
      Snapshot(0, false)
    }

    /**
     * initializeGraph: one entry per distinct id with rank 1/|ids| (repeats
     * counted in the denominator), link lists from the links whose two ends
     * are nodes, and every link kept in `links`.
     */
    method InitializeGraph(ids: seq<string>, links: seq<PageRankLink>)
      modifies this
      ensures dampingFactor == old(dampingFactor) && threshold == old(threshold) && maxIterations == old(maxIterations)
      ensures this.links == links
      ensures Valid()
      ensures order == FirstOccurrences(ids)
      ensures nodes == Initial(ids, links)
    {
      this.links := links;
      var keys, table0 := AddNodes(ids);
      var table := AddLinks(table0, links);
      AddedIsInitial(ids, links, table0, table);
      order, nodes := keys, table;
    }

    /** The first `forEach` of `initializeGraph`: a fresh entry for every id. */
    static method AddNodes(ids: seq<string>) returns (keys: seq<string>, table: map<string, PageRankNode>)
      ensures keys == FirstOccurrences(ids) && Distinct(keys)
      ensures forall id :: id in table <==> id in ids
      ensures forall id :: id in table ==> table[id] == PageRankNode(id, 1.0 / |ids| as real, [], [])
    {
      table, keys := map[], [];
      var i := 0;
      while i < |ids|
        invariant i <= |ids|
        invariant keys == FirstOccurrences(ids[..i]) && Distinct(keys)
        invariant forall id :: id in table <==> id in ids[..i]
        invariant forall id :: id in table ==> table[id] == PageRankNode(id, 1.0 / |ids| as real, [], [])
      {
        assert ids[..i + 1][..i] == ids[..i];
        var id := ids[i];
        table := table[id := PageRankNode(id, 1.0 / |ids| as real, [], [])];
        if id !in keys {
          keys := keys + [id];
        }
        i := i + 1;
      }
      assert ids[..i] == ids;
    }

    /** `table` is `table0` with the link lists built from `done`. */
    static ghost predicate LinksAdded(table: map<string, PageRankNode>, table0: map<string, PageRankNode>, done: seq<PageRankLink>) {
      forall id :: id in table ==> EntryAdded(table, table0, done, id)
    }

    /** The entry of `id` in `table` is that of `table0` with the link lists built from `done`. */
    static ghost predicate EntryAdded(table: map<string, PageRankNode>, table0: map<string, PageRankNode>, done: seq<PageRankLink>, id: string)
      requires id in table
    {
      && id in table0
      && table[id].id == table0[id].id && table[id].rank == table0[id].rank
      && table[id].outLinks == OutList(done, table0.Keys, id)
      && table[id].inLinks == InList(done, table0.Keys, id)
    }

    /** The second `forEach` of `initializeGraph`: each link between two nodes extends both link lists. */
    static method AddLinks(table0: map<string, PageRankNode>, links: seq<PageRankLink>) returns (table: map<string, PageRankNode>)
      requires forall id :: id in table0 ==> table0[id].outLinks == [] && table0[id].inLinks == []
      ensures table.Keys == table0.Keys
      ensures LinksAdded(table, table0, links)
    {
      table := table0;
      assert LinksAdded(table, table0, links[..0]);
      var k := 0;
      while k < |links|
        invariant k <= |links|
        invariant table.Keys == table0.Keys
        invariant LinksAdded(table, table0, links[..k])
      {
        assert links[..k + 1] == links[..k] + [links[k]];
        table := AddLink(table, table0, links[..k], links[k]);
        k := k + 1;
      }
      assert links[..k] == links;
    }

    /** One link of the second `forEach`: when both ends are nodes, push the target and the source. */
    static method AddLink(table: map<string, PageRankNode>, ghost table0: map<string, PageRankNode>,
                          ghost done: seq<PageRankLink>, link: PageRankLink)
      returns (table': map<string, PageRankNode>)
      requires table.Keys == table0.Keys
      requires LinksAdded(table, table0, done)
      ensures table'.Keys == table0.Keys
      ensures LinksAdded(table', table0, done + [link])
    {
      assert (done + [link])[..|done|] == done;
      table' := table;
      if link.source in table && link.target in table {
        table' := table'[link.source := table'[link.source].(outLinks := table'[link.source].outLinks + [link.target])];
        table' := table'[link.target := table'[link.target].(inLinks := table'[link.target].inLinks + [link.source])];
      }
      forall id | id in table'
        ensures EntryAdded(table', table0, done + [link], id)
      {
        assert EntryAdded(table, table0, done, id);
      }
    }

    /**
     * iterate: every rank becomes its new rank, all computed from the old
     * ranks (a synchronous update); the result says whether the largest
     * change was strictly below the threshold.
     */
    method Iterate() returns (converged: bool)
      requires Valid()
      modifies this
      ensures order == old(order) && links == old(links)
      ensures dampingFactor == old(dampingFactor) && threshold == old(threshold) && maxIterations == old(maxIterations)
      ensures Valid()
      ensures nodes == Stepped(old(nodes), dampingFactor)
      ensures converged <==> MaxDiff(old(nodes), order, dampingFactor) < threshold
    {
      var newRanks := ComputeNewRanks();
      var table, maxDiff := ApplyNewRanks(nodes, order, newRanks, dampingFactor);
      nodes := table;
      converged := maxDiff < threshold;
    }

    /** The second `forEach` of `iterate`: store every new rank and track the largest change. */
    static method ApplyNewRanks(nodes: map<string, PageRankNode>, order: seq<string>, newRanks: map<string, real>, d: real)
      returns (table: map<string, PageRankNode>, maxDiff: real)
      requires Distinct(order) && forall id :: id in nodes <==> id in order
      requires forall id :: id in newRanks <==> id in nodes
      requires forall id :: id in newRanks ==> newRanks[id] == NewRank(nodes, id, d)
      ensures table == Stepped(nodes, d)
      ensures maxDiff == MaxDiff(nodes, order, d)
    {
      maxDiff := 0.0;
      table := nodes;
      PartlySteppedNone(nodes, d);
      var i := 0;
      while i < |order|
        invariant i <= |order|
        invariant maxDiff == MaxDiff(nodes, order[..i], d)
        invariant table == PartlyStepped(nodes, order[..i], d)
      {
        table, maxDiff := ApplyNewRank(nodes, order, newRanks, d, i, table, maxDiff);
        i := i + 1;
      }
      ApplyDone(nodes, order, d, table, maxDiff);
    }

    /** One step of the second `forEach` of `iterate`: node `order[i]` takes its new rank. */
    static method ApplyNewRank(nodes: map<string, PageRankNode>, order: seq<string>, newRanks: map<string, real>, d: real,
                               i: nat, table: map<string, PageRankNode>, maxDiff: real)
      returns (table': map<string, PageRankNode>, maxDiff': real)
      requires Distinct(order) && forall id :: id in nodes <==> id in order
      requires forall id :: id in newRanks <==> id in nodes
      requires forall id :: id in newRanks ==> newRanks[id] == NewRank(nodes, id, d)
      requires i < |order|
      requires table == PartlyStepped(nodes, order[..i], d) && maxDiff == MaxDiff(nodes, order[..i], d)
      ensures table' == PartlyStepped(nodes, order[..i + 1], d) && maxDiff' == MaxDiff(nodes, order[..i + 1], d)
    {
      var id := order[i];
      var newRank := newRanks[id];
      ApplyStep(nodes, order, i, d, table, maxDiff, newRank);
      var diff := Abs(newRank - table[id].rank);
      maxDiff' := Max(maxDiff, diff);
      table' := table[id := table[id].(rank := newRank)];
    }

    /** The first `forEach` of `iterate`: the new rank of every node, into `newRanks`. */
    method ComputeNewRanks() returns (newRanks: map<string, real>)
      requires Valid()
      ensures forall id :: id in newRanks <==> id in nodes
      ensures forall id :: id in newRanks ==> newRanks[id] == NewRank(nodes, id, dampingFactor)
    {
      newRanks := map[];
      var numNodes := |nodes|;
      var teleportation := if numNodes > 0 then (1.0 - dampingFactor) / numNodes as real else 0.0;
      var i := 0;
      while i < |order|
        invariant i <= |order|
        invariant forall id :: id in newRanks <==> id in order[..i]
        invariant forall id :: id in newRanks ==> newRanks[id] == NewRank(nodes, id, dampingFactor)
      {
        assert order[..i + 1][..i] == order[..i];
        var node := nodes[order[i]];
        var rankSum := SumInLinks(nodes, node.inLinks);
        newRanks := newRanks[node.id := teleportation + dampingFactor * rankSum];
        i := i + 1;
      }
      assert order[..i] == order;
    }

    /** The inner `forEach` of `iterate`: `rankSum` over one node's in-links. */
    static method SumInLinks(nodes: map<string, PageRankNode>, ins: seq<string>) returns (rankSum: real)
      ensures rankSum == InSum(nodes, ins)
    {
      rankSum := 0.0;
      var j := 0;
      while j < |ins|
        invariant j <= |ins|
        invariant rankSum == InSum(nodes, ins[..j])
      {
        assert ins[..j + 1][..j] == ins[..j];
        var sourceId := ins[j];
        if sourceId in nodes && |nodes[sourceId].outLinks| > 0 {
          rankSum := rankSum + nodes[sourceId].rank / |nodes[sourceId].outLinks| as real;
        }
        j := j + 1;
      }
      assert ins[..j] == ins;
    }

    /**
     * calculate: iterate until an iteration converges or `maxIterations`
     * iterations have run, then divide every rank by the total.
     */
    method Calculate() returns (result: PageRankResult)
      requires Valid()
      modifies this
      ensures order == old(order) && links == old(links)
      ensures dampingFactor == old(dampingFactor) && threshold == old(threshold) && maxIterations == old(maxIterations)
      ensures Valid()
      ensures var run := Run(old(nodes), order, dampingFactor, threshold, maxIterations);
        && result.currentIteration == run.iterations
        && result.converged == run.converged
        && nodes == Normalized(run.nodes, RankSum(run.nodes, order))
      ensures result == Snapshot(result.currentIteration, result.converged)
    {
      ghost var start := nodes;
      var iteration := 0;
      var converged := false;
      while iteration < maxIterations && !converged
        invariant order == old(order) && links == old(links)
        invariant dampingFactor == old(dampingFactor) && threshold == old(threshold) && maxIterations == old(maxIterations)
        invariant Valid()
        invariant 0 <= iteration
        invariant RunSoFar(start, order, dampingFactor, threshold, maxIterations, nodes, iteration, converged)
        decreases maxIterations - iteration
      {
        ghost var before := nodes;
        converged := Iterate();
        RunSoFarNext(start, order, dampingFactor, threshold, maxIterations, before, iteration);
        iteration := iteration + 1;
      }
      RunSoFarEnd(start, order, dampingFactor, threshold, maxIterations, nodes, iteration, converged);
      Normalize();
      result := Snapshot(iteration, converged);
    }

    /** The `forEach` of the normalisation: every rank divided by `total`. */
    static method DivideRanks(nodes: map<string, PageRankNode>, order: seq<string>, total: real)
      returns (table: map<string, PageRankNode>)
      requires Distinct(order) && forall id :: id in nodes <==> id in order
      ensures table == Normalized(nodes, total)
    {
      table := nodes;
      PartlyNormalizedNone(nodes, total);
      var i := 0;
      while i < |order|
        invariant i <= |order|
        invariant table == PartlyNormalized(nodes, order[..i], total)
      {
        var id := order[i];
        PartlyNormalizedNext(nodes, order, i, total);
        if total != 0.0 {
          table := table[id := table[id].(rank := table[id].rank / total)];
        }
        i := i + 1;
      }
      PartlyNormalizedAll(nodes, order, total);
    }

    /** The normalisation at the end of `calculate`. */
    method Normalize()
      requires Valid()
      modifies this
      ensures order == old(order) && links == old(links)
      ensures dampingFactor == old(dampingFactor) && threshold == old(threshold) && maxIterations == old(maxIterations)
      ensures Valid()
      ensures nodes == Normalized(old(nodes), RankSum(old(nodes), order))
    {
      var totalRank := 0.0;
      var i := 0;
      while i < |order|
        invariant i <= |order|
        invariant totalRank == RankSum(nodes, order[..i])
      {
        assert order[..i + 1][..i] == order[..i];
        totalRank := totalRank + nodes[order[i]].rank;
        i := i + 1;
      }
      assert order[..i] == order;
      nodes := DivideRanks(nodes, order, totalRank);
    }
  }

  // ---------------------------------------------------------------------
  // Step-by-step run.

  /** The state `calculatePageRankStepByStep` reports after `k` iterations on the initial table. */
  function StepResult(ids: seq<string>, links: seq<PageRankLink>, d: real, t: real, maxIterations: int, k: nat, converged: bool): PageRankResult
  {
    PageRankResult(Ranked(IterateN(Initial(ids, links), d, k), FirstOccurrences(ids)), links, k, maxIterations, d, t, converged)
  }

  /** The first `|results|` reports of a step-by-step run, the last one carrying `converged`. */
  ghost predicate StepsSoFar(results: seq<PageRankResult>, ids: seq<string>, links: seq<PageRankLink>, d: real, t: real,
                             maxIterations: int, converged: bool)
  {
    forall i :: 0 <= i < |results| ==>
      results[i] == StepResult(ids, links, d, t, maxIterations, i, i == |results| - 1 && converged)
  }

  lemma StepsNext(results: seq<PageRankResult>, ids: seq<string>, links: seq<PageRankLink>, d: real, t: real,
                  maxIterations: int, converged: bool)
    requires StepsSoFar(results, ids, links, d, t, maxIterations, false)
    ensures StepsSoFar(results + [StepResult(ids, links, d, t, maxIterations, |results|, converged)],
                       ids, links, d, t, maxIterations, converged)
  {
    var next := results + [StepResult(ids, links, d, t, maxIterations, |results|, converged)];
    forall i | 0 <= i < |next|
      ensures next[i] == StepResult(ids, links, d, t, maxIterations, i, i == |next| - 1 && converged)
    {
      if i < |results| {
        assert next[i] == results[i];
      }
    }
  }

  /**
   * The state of the loop of `calculatePageRankStepByStep` after
   * `iteration` iterations: the table reached, the reports so far, and the
   * run of `calculate` this loop follows.
   */
  ghost predicate StepLoop(ids: seq<string>, links: seq<PageRankLink>, d: real, t: real, maxIterations: int,
                           nodes: map<string, PageRankNode>, iteration: nat, converged: bool, results: seq<PageRankResult>)
  {
    |results| == iteration + 1
    && nodes == IterateN(Initial(ids, links), d, iteration)
    && StepsSoFar(results, ids, links, d, t, maxIterations, converged)
    && RunSoFar(Initial(ids, links), FirstOccurrences(ids), d, t, maxIterations, nodes, iteration, converged)
  }

  lemma StepLoopStart(ids: seq<string>, links: seq<PageRankLink>, d: real, t: real, maxIterations: int)
    ensures StepLoop(ids, links, d, t, maxIterations, Initial(ids, links), 0, false,
                     [StepResult(ids, links, d, t, maxIterations, 0, false)])
  {
    RunSoFarStart(Initial(ids, links), FirstOccurrences(ids), d, t, maxIterations);
  }

  lemma StepLoopNext(ids: seq<string>, links: seq<PageRankLink>, d: real, t: real, maxIterations: int,
                     nodes: map<string, PageRankNode>, iteration: nat, results: seq<PageRankResult>)
    requires StepLoop(ids, links, d, t, maxIterations, nodes, iteration, false, results) && iteration < maxIterations
    ensures var converged := MaxDiff(nodes, FirstOccurrences(ids), d) < t;
      StepLoop(ids, links, d, t, maxIterations, Stepped(nodes, d), iteration + 1, converged,
               results + [StepResult(ids, links, d, t, maxIterations, iteration + 1, converged)])
  {
    RunSoFarNext(Initial(ids, links), FirstOccurrences(ids), d, t, maxIterations, nodes, iteration);
    IterateNext(Initial(ids, links), d, iteration);
    StepsNext(results, ids, links, d, t, maxIterations, MaxDiff(nodes, FirstOccurrences(ids), d) < t);
  }

  lemma StepLoopNodes(ids: seq<string>, links: seq<PageRankLink>, d: real, t: real, maxIterations: int,
                      nodes: map<string, PageRankNode>, iteration: nat, converged: bool, results: seq<PageRankResult>)
    requires StepLoop(ids, links, d, t, maxIterations, nodes, iteration, converged, results)
    ensures nodes == IterateN(Initial(ids, links), d, iteration)
  {
  }

  lemma StepLoopEnd(ids: seq<string>, links: seq<PageRankLink>, d: real, t: real, maxIterations: int,
                    nodes: map<string, PageRankNode>, iteration: nat, converged: bool, results: seq<PageRankResult>)
    requires StepLoop(ids, links, d, t, maxIterations, nodes, iteration, converged, results)
    requires converged || iteration >= maxIterations
    ensures var run := Run(Initial(ids, links), FirstOccurrences(ids), d, t, maxIterations);
      |results| == run.iterations + 1
      && forall i :: 0 <= i < |results| ==>
           results[i] == StepResult(ids, links, d, t, maxIterations, i, i == run.iterations && run.converged)
    ensures 1 <= |results| <= MaxInt(0, maxIterations) + 1
  {
    RunSoFarEnd(Initial(ids, links), FirstOccurrences(ids), d, t, maxIterations, nodes, iteration, converged);
    RunWithinBudget(Initial(ids, links), FirstOccurrences(ids), d, t, maxIterations);
  }

  /**
   * calculatePageRankStepByStep: the initial state, then one report per
   * iteration of the `calculate` loop, as many as `Run` performs; the k-th
   * report holds the ranks after k iterations and only the last may say
   * converged, which it does exactly when the run converged.
   */
  method CalculatePageRankStepByStep(ids: seq<string>, links: seq<PageRankLink>,
                                     d: real := 0.85, t: real := 0.0001, maxIterations: int := 20)
    returns (results: seq<PageRankResult>)
    ensures var run := Run(Initial(ids, links), FirstOccurrences(ids), d, t, maxIterations);
      |results| == run.iterations + 1
      && forall i :: 0 <= i < |results| ==>
           results[i] == StepResult(ids, links, d, t, maxIterations, i, i == run.iterations && run.converged)
    ensures 1 <= |results| <= MaxInt(0, maxIterations) + 1
  {
    var calculator := new PageRankCalculator(d, t, maxIterations);
    calculator.InitializeGraph(ids, links);
    var state := calculator.GetCurrentState();
    results := [state];
    var converged := false;
    var iteration := 0;
    StepLoopStart(ids, links, d, t, maxIterations);
    while iteration < maxIterations && !converged
      invariant calculator.Valid()
      invariant calculator.order == FirstOccurrences(ids) && calculator.links == links
      invariant calculator.dampingFactor == d && calculator.threshold == t && calculator.maxIterations == maxIterations
      invariant 0 <= iteration
      invariant StepLoop(ids, links, d, t, maxIterations, calculator.nodes, iteration, converged, results)
      decreases maxIterations - iteration
    {
      ghost var before := calculator.nodes;
      converged := calculator.Iterate();
      StepLoopNext(ids, links, d, t, maxIterations, before, iteration, results);
      iteration := iteration + 1;
      state := calculator.GetCurrentState();
      state := state.(currentIteration := iteration, converged := converged);
      StepLoopNodes(ids, links, d, t, maxIterations, calculator.nodes, iteration, converged,
                    results + [StepResult(ids, links, d, t, maxIterations, iteration, converged)]);
      assert state == StepResult(ids, links, d, t, maxIterations, iteration, converged);
      results := results + [state];
    }
    StepLoopEnd(ids, links, d, t, maxIterations, calculator.nodes, iteration, converged, results);
  }
}
