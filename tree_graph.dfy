/**
 * The page tree of the structure view and the three walks over it:
 * breadth-first order, depth-first order and the cycle check. Each walk
 * first builds an adjacency list keyed by node id, then moves over the
 * links whose source is a known node.
 */
module TreeGraph {
  import opened Seqs

  datatype TreeNode = TreeNode(id: string, labelText: string, href: string)

  datatype TreeLink = TreeLink(source: string, target: string, weight: real)

  /** Node id to the targets of its links, in link order. */
  type Adjacency = map<string, seq<string>>

  /** The ids of `nodes`. */
  function Ids(nodes: seq<TreeNode>): (r: set<string>)
    ensures forall i :: 0 <= i < |nodes| ==> nodes[i].id in r
    ensures forall id :: id in r ==> exists i :: 0 <= i < |nodes| && nodes[i].id == id
  {
    if nodes == [] then {} else Ids(nodes[..|nodes| - 1]) + {nodes[|nodes| - 1].id}
  }

  /** The targets of the links leaving `id`, in link order, repeats kept. */
  function Targets(links: seq<TreeLink>, id: string): (r: seq<string>)
    ensures |r| <= |links|
    ensures forall v :: v in r <==> exists i :: 0 <= i < |links| && links[i].source == id && links[i].target == v
  {
    if links == [] then []
    else
      var last := links[|links| - 1];
      var front := Targets(links[..|links| - 1], id);
      assert forall i :: 0 <= i < |links| - 1 ==> links[..|links| - 1][i] == links[i];
      front + (if last.source == id then [last.target] else [])
  }

  /**
   * The adjacency list the three walks build: an empty list for every
   * node id, then the target of every link whose source is a node id.
   */
  function AdjacencyOf(nodes: seq<TreeNode>, links: seq<TreeLink>): (adj: Adjacency)
    ensures adj.Keys == Ids(nodes)
    ensures forall u, v :: u in adj ==>
              (v in adj[u] <==> exists i :: 0 <= i < |links| && links[i].source == u && links[i].target == v)
  {
    map id | id in Ids(nodes) :: Targets(links, id)
  }

  /** The list the walks read for `u`: its entry, or the empty list for an id that is not a node. */
  function Neighbors(adj: Adjacency, u: string): seq<string> {
    if u in adj then adj[u] else []
  }

  predicate Edge(adj: Adjacency, u: string, v: string) {
    v in Neighbors(adj, u)
  }

  /** `p` follows edges from its first to its last element. */
  ghost predicate IsPath(adj: Adjacency, p: seq<string>) {
    |p| >= 1 && forall i :: 0 <= i < |p| - 1 ==> Edge(adj, p[i], p[i + 1])
  }

  ghost predicate Reachable(adj: Adjacency, s: string, v: string) {
    exists p :: IsPath(adj, p) && p[0] == s && p[|p| - 1] == v
  }

  /** A directed cycle, self-loops included. */
  ghost predicate HasCycle(adj: Adjacency) {
    exists p :: |p| >= 2 && IsPath(adj, p) && p[0] == p[|p| - 1]
  }

  /** Every id a walk can meet: the node ids and every link target listed under one. */
  ghost function Universe(adj: Adjacency): set<string> {
    adj.Keys + set u, v | u in adj && v in adj[u] :: v
  }

  // ---------------------------------------------------------------------------
  // The adjacency list
  // ---------------------------------------------------------------------------

  /** The first two `forEach` loops of each walk: empty lists for the nodes, then one push per link with a known source. */
  method BuildAdjacency(nodes: seq<TreeNode>, links: seq<TreeLink>) returns (adj: Adjacency)
    ensures adj == AdjacencyOf(nodes, links)
  {
    adj := map[];
    for i := 0 to |nodes|
      invariant adj == EmptyLists(nodes[..i])
    {
      EmptyListsStep(nodes, i);
      adj := adj[nodes[i].id := []];
    }
    assert nodes[..|nodes|] == nodes;
    for j := 0 to |links|
      invariant adj == TargetsSoFar(nodes, links[..j])
    {
      PushStep(nodes, links, j);
      var link := links[j];
      if link.source in adj {
        adj := adj[link.source := adj[link.source] + [link.target]];
      }
    }
    assert links[..|links|] == links;
  }

  function EmptyLists(nodes: seq<TreeNode>): Adjacency {
    map id | id in Ids(nodes) :: []
  }

  function TargetsSoFar(nodes: seq<TreeNode>, links: seq<TreeLink>): Adjacency {
    map id | id in Ids(nodes) :: Targets(links, id)
  }

  lemma EmptyListsStep(nodes: seq<TreeNode>, i: nat)
    requires i < |nodes|
    ensures EmptyLists(nodes[..i])[nodes[i].id := []] == EmptyLists(nodes[..i + 1])
  {
    assert nodes[..i + 1][..i] == nodes[..i];
  }

  lemma PushStep(nodes: seq<TreeNode>, links: seq<TreeLink>, j: nat)
    requires j < |links|
    ensures var adj := TargetsSoFar(nodes, links[..j]);
      var l := links[j];
      TargetsSoFar(nodes, links[..j + 1])
        == if l.source in adj then adj[l.source := adj[l.source] + [l.target]] else adj
  {
    var adj := TargetsSoFar(nodes, links[..j]);
    var next := TargetsSoFar(nodes, links[..j + 1]);
    var l := links[j];
    var pushed := if l.source in adj then adj[l.source := adj[l.source] + [l.target]] else adj;
    assert links[..j + 1][..j] == links[..j];
    assert next.Keys == pushed.Keys;
    forall id | id in next
      ensures next[id] == pushed[id]
    {
      assert Targets(links[..j + 1], id) == Targets(links[..j], id) + (if l.source == id then [l.target] else []);
    }
  }

  // ---------------------------------------------------------------------------
  // Paths
  // ---------------------------------------------------------------------------

  lemma ReachableSelf(adj: Adjacency, s: string)
    ensures Reachable(adj, s, s)
  {
    assert IsPath(adj, [s]);
  }

  lemma ReachableStep(adj: Adjacency, s: string, u: string, v: string)
    requires Reachable(adj, s, u) && Edge(adj, u, v)
    ensures Reachable(adj, s, v)
  {
    var p :| IsPath(adj, p) && p[0] == s && p[|p| - 1] == u;
    var q := p + [v];
    assert forall i :: 0 <= i < |p| ==> q[i] == p[i];
    assert IsPath(adj, q);
  }

  /** No edge leaves `set`, except from the ids in `open`. */
  ghost predicate ClosedExcept(adj: Adjacency, s: set<string>, open: set<string>) {
    forall u, v :: u in s && u !in open && Edge(adj, u, v) ==> v in s
  }

  /** A path that starts in a set no edge leaves stays in it. */
  lemma {:induction false} PathStaysIn(adj: Adjacency, s: set<string>, p: seq<string>, k: nat)
    requires ClosedExcept(adj, s, {}) && IsPath(adj, p) && p[0] in s && k < |p|
    ensures p[k] in s
  {
    if k > 0 {
      PathStaysIn(adj, s, p, k - 1);
    }
  }

  /** Every id reachable from an id of a set no edge leaves is in that set. */
  lemma ClosedHoldsReachable(adj: Adjacency, s: set<string>, start: string, v: string)
    requires ClosedExcept(adj, s, {}) && start in s && Reachable(adj, start, v)
    ensures v in s
  {
    var p :| IsPath(adj, p) && p[0] == start && p[|p| - 1] == v;
    PathStaysIn(adj, s, p, |p| - 1);
  }

  lemma {:induction false} SubsetSize<T>(a: set<T>, b: set<T>)
    requires a <= b
    ensures |a| <= |b|
    decreases |b|
  {
    if b != {} {
      var x :| x in b;
      SubsetSize(a - {x}, b - {x});
    }
  }

  /** Marking a new id of `u` visited leaves fewer ids of `u` unvisited. */
  lemma FewerUnvisited(u: set<string>, a: set<string>, b: set<string>, x: string)
    requires a <= b && x in b && x !in a && x in u
    ensures |u - b| < |u - a|
  {
    SubsetSize(u - b, (u - a) - {x});
  }

  lemma InUniverse(adj: Adjacency, u: string, v: string)
    requires Edge(adj, u, v)
    ensures v in Universe(adj)
  {
  }

  // ---------------------------------------------------------------------------
  // generateBFSOrder
  // ---------------------------------------------------------------------------

  /** The ids of `ns` not in `visited`, in order: what the `forEach` over neighbours pushes. */
  function Unvisited(ns: seq<string>, visited: set<string>): (r: seq<string>)
    ensures forall x :: x in r <==> x in ns && x !in visited
  {
    if ns == [] then []
    else
      var last := ns[|ns| - 1];
      Unvisited(ns[..|ns| - 1], visited) + (if last in visited then [] else [last])
  }

  lemma UnvisitedStep(ns: seq<string>, k: nat, visited: set<string>)
    requires k < |ns|
    ensures Unvisited(ns[..k + 1], visited) == Unvisited(ns[..k], visited) + (if ns[k] in visited then [] else [ns[k]])
  {
    assert ns[..k + 1][..k] == ns[..k];
  }

  /** Push every neighbour not yet visited onto the queue, in list order. */
  method EnqueueUnvisited(queue: seq<string>, neighbors: seq<string>, visited: set<string>)
    returns (queue': seq<string>)
    ensures queue' == queue + Unvisited(neighbors, visited)
  {
    queue' := queue;
    for k := 0 to |neighbors|
      invariant queue' == queue + Unvisited(neighbors[..k], visited)
    {
      UnvisitedStep(neighbors, k, visited);
      if neighbors[k] !in visited {
        queue' := queue' + [neighbors[k]];
      }
    }
    assert neighbors[..|neighbors|] == neighbors;
  }

  /** Some id of `src` has an edge to `x`. */
  ghost predicate EdgeFrom(adj: Adjacency, src: seq<string>, x: string) {
    exists u :: u in src && Edge(adj, u, x)
  }

  /** The id at `i` is reached by an edge from an id listed before it. */
  ghost predicate EdgeBefore(adj: Adjacency, order: seq<string>, i: nat)
    requires i < |order|
  {
    exists j :: 0 <= j < i && Edge(adj, order[j], order[i])
  }

  /** Each id after the first is reached by an edge from an id listed before it. */
  ghost predicate EachFromEarlier(adj: Adjacency, order: seq<string>) {
    forall i :: 0 < i < |order| ==> EdgeBefore(adj, order, i)
  }

  lemma EachFromEarlierAppend(adj: Adjacency, order: seq<string>, x: string)
    requires EachFromEarlier(adj, order) && EdgeFrom(adj, order, x)
    ensures EachFromEarlier(adj, order + [x])
  {
    var o := order + [x];
    forall i | 0 < i < |o|
      ensures EdgeBefore(adj, o, i)
    {
      if i < |order| {
        assert EdgeBefore(adj, order, i);
        var j :| 0 <= j < i && Edge(adj, order[j], order[i]);
        assert o[j] == order[j] && o[i] == order[i];
      } else {
        var u :| u in order && Edge(adj, u, x);
        var j :| 0 <= j < |order| && order[j] == u;
        assert o[j] == u && o[i] == x;
      }
    }
  }

  /** Every neighbour of a visited id is visited or waiting in the queue. */
  ghost predicate NeighborsSeen(adj: Adjacency, visited: set<string>, queue: seq<string>) {
    forall u, w :: u in visited && Edge(adj, u, w) ==> w in visited || w in queue
  }

  /** Where the listed and the waiting ids come from. */
  ghost predicate BfsFound(adj: Adjacency, start: string, queue: seq<string>, order: seq<string>) {
    && (forall x :: x in queue ==> x in Universe(adj) + {start})
    && (order == [] ==> queue == [start])
    && (order != [] ==> order[0] == start)
    && (forall x :: x in order ==> Reachable(adj, start, x))
    && EachFromEarlier(adj, order)
    && (order != [] ==> forall x :: x in queue ==> EdgeFrom(adj, order, x))
  }

  /** What the queue loop of `generateBFSOrder` keeps true. */
  ghost predicate BfsLoop(adj: Adjacency, start: string, visited: set<string>, queue: seq<string>, order: seq<string>) {
    && visited <= Universe(adj) + {start}
    && (forall x :: x in visited <==> x in order)
    && Distinct(order)
    && BfsFound(adj, start, queue, order)
    && NeighborsSeen(adj, visited, queue)
  }

  lemma BfsStart(adj: Adjacency, start: string)
    ensures BfsLoop(adj, start, {}, [start], [])
  {
  }

  /** Listing the head `c` of the queue and queueing some of its neighbours. */
  lemma BfsFoundVisit(adj: Adjacency, start: string, queue: seq<string>, order: seq<string>, pushed: seq<string>)
    requires BfsFound(adj, start, queue, order) && queue != []
    requires forall x :: x in pushed ==> Edge(adj, queue[0], x)
    ensures BfsFound(adj, start, queue[1..] + pushed, order + [queue[0]])
  {
    var c := queue[0];
    var q' := queue[1..] + pushed;
    var o' := order + [c];
    if order == [] {
      ReachableSelf(adj, start);
    } else {
      assert c in queue;
      var u :| u in order && Edge(adj, u, c);
      EachFromEarlierAppend(adj, order, c);
      ReachableStep(adj, start, u, c);
    }
    forall x | x in q'
      ensures x in Universe(adj) + {start}
      ensures EdgeFrom(adj, o', x)
    {
      if x in queue[1..] {
        assert x in queue;
        var u :| u in order && Edge(adj, u, x);
        assert u in o';
      } else {
        InUniverse(adj, c, x);
        assert c in o';
      }
    }
  }

  lemma NeighborsSeenVisit(adj: Adjacency, visited: set<string>, queue: seq<string>)
    requires NeighborsSeen(adj, visited, queue) && queue != []
    ensures var c := queue[0];
      NeighborsSeen(adj, visited + {c}, queue[1..] + Unvisited(Neighbors(adj, c), visited + {c}))
  {
    var c := queue[0];
    var v' := visited + {c};
    var q' := queue[1..] + Unvisited(Neighbors(adj, c), v');
    forall u, w | u in v' && Edge(adj, u, w)
      ensures w in v' || w in q'
    {
      if u == c {
        assert w in v' || w in Unvisited(Neighbors(adj, c), v');
      } else if w !in v' {
        assert w in queue && w != queue[0];
        assert w in queue[1..];
      }
    }
  }

  lemma NeighborsSeenSkip(adj: Adjacency, visited: set<string>, queue: seq<string>)
    requires NeighborsSeen(adj, visited, queue) && queue != [] && queue[0] in visited
    ensures NeighborsSeen(adj, visited, queue[1..])
  {
    forall u, w | u in visited && Edge(adj, u, w) && w !in visited
      ensures w in queue[1..]
    {
      assert w in queue && w != queue[0];
    }
  }

  /** Visiting `current`, the head of the queue, when it is new. */
  lemma BfsVisit(adj: Adjacency, start: string, visited: set<string>, queue: seq<string>, order: seq<string>)
    requires BfsLoop(adj, start, visited, queue, order) && queue != [] && queue[0] !in visited
    ensures var c := queue[0];
      BfsLoop(adj, start, visited + {c}, queue[1..] + Unvisited(Neighbors(adj, c), visited + {c}), order + [c])
  {
    var c := queue[0];
    BfsFoundVisit(adj, start, queue, order, Unvisited(Neighbors(adj, c), visited + {c}));
    NeighborsSeenVisit(adj, visited, queue);
    DistinctAppend(order, c);
  }

  /** Dropping the head of the queue when it is already visited. */
  lemma BfsSkip(adj: Adjacency, start: string, visited: set<string>, queue: seq<string>, order: seq<string>)
    requires BfsLoop(adj, start, visited, queue, order) && queue != [] && queue[0] in visited
    ensures BfsLoop(adj, start, visited, queue[1..], order)
  {
    NeighborsSeenSkip(adj, visited, queue);
    assert order != [];
    forall x | x in queue[1..]
      ensures x in queue
    {
    }
  }

  /** When the queue is empty the order holds exactly the ids reachable from the start. */
  lemma BfsEnd(adj: Adjacency, start: string, visited: set<string>, order: seq<string>)
    requires BfsLoop(adj, start, visited, [], order)
    ensures |order| >= 1 && order[0] == start
    ensures forall v :: v in order <==> Reachable(adj, start, v)
  {
    forall v | Reachable(adj, start, v)
      ensures v in order
    {
      ClosedHoldsReachable(adj, visited, start, v);
    }
  }

  /**
   * generateBFSOrder: a queue walk from `startNode`. The order starts with
   * `startNode` (a node or not), lists no id twice, holds exactly the ids
   * reachable from it, and every later id is a link target of an earlier one.
   */
  method GenerateBfsOrder(nodes: seq<TreeNode>, links: seq<TreeLink>, startNode: string := "home")
    returns (order: seq<string>)
    ensures |order| >= 1 && order[0] == startNode
    ensures Distinct(order)
    ensures forall v :: v in order <==> Reachable(AdjacencyOf(nodes, links), startNode, v)
    ensures EachFromEarlier(AdjacencyOf(nodes, links), order)
  {
    var adj := BuildAdjacency(nodes, links);
    var visited: set<string> := {};
    var queue := [startNode];
    order := [];
    BfsStart(adj, startNode);
    while |queue| > 0
      invariant BfsLoop(adj, startNode, visited, queue, order)
      decreases |Universe(adj) + {startNode} - visited|, |queue|
    {
      var current := queue[0];
      if current !in visited {
        BfsVisit(adj, startNode, visited, queue, order);
        FewerUnvisited(Universe(adj) + {startNode}, visited, visited + {current}, current);
        visited := visited + {current};
        order := order + [current];
        queue := EnqueueUnvisited(queue[1..], Neighbors(adj, current), visited);
      } else {
        BfsSkip(adj, startNode, visited, queue, order);
        queue := queue[1..];
      }
    }
    BfsEnd(adj, startNode, visited, order);
  }

  // ---------------------------------------------------------------------------
  // generateDFSOrder
  // ---------------------------------------------------------------------------

  /**
   * What holds between the calls of the inner `dfs`: the ids listed so far,
   * where they come from, and that every listed id outside `open` (the
   * calls still running) has all its neighbours listed.
   */
  ghost predicate DfsState(adj: Adjacency, start: string, open: set<string>, visited: set<string>, order: seq<string>) {
    && visited <= Universe(adj) + {start}
    && (forall x :: x in visited <==> x in order)
    && Distinct(order)
    && (order != [] ==> order[0] == start)
    && (forall x :: x in order ==> Reachable(adj, start, x))
    && EachFromEarlier(adj, order)
    && open <= visited
    && ClosedExcept(adj, visited, open)
  }

  /** Listing `nodeId`, which starts a call of its own. */
  lemma DfsEnter(adj: Adjacency, start: string, open: set<string>, visited: set<string>, order: seq<string>, nodeId: string)
    requires DfsState(adj, start, open, visited, order) && nodeId !in visited
    requires nodeId in Universe(adj) + {start}
    requires order == [] ==> nodeId == start
    requires order != [] ==> EdgeFrom(adj, order, nodeId)
    ensures DfsState(adj, start, open + {nodeId}, visited + {nodeId}, order + [nodeId])
  {
    if order == [] {
      ReachableSelf(adj, start);
      assert order + [nodeId] == [nodeId];
    } else {
      var u :| u in order && Edge(adj, u, nodeId);
      ReachableStep(adj, start, u, nodeId);
      EachFromEarlierAppend(adj, order, nodeId);
    }
    DistinctAppend(order, nodeId);
  }

  /** The loop over the neighbours of `nodeId` inside its call, after `k` of them. */
  ghost predicate DfsLoop(adj: Adjacency, start: string, open: set<string>, nodeId: string,
                          visited0: set<string>, order0: seq<string>, k: nat, visited: set<string>, order: seq<string>) {
    && nodeId !in visited0 && open <= visited0
    && DfsState(adj, start, open + {nodeId}, visited, order)
    && visited0 + {nodeId} <= visited
    && order0 + [nodeId] <= order
    && k <= |Neighbors(adj, nodeId)|
    && forall i :: 0 <= i < k ==> Neighbors(adj, nodeId)[i] in visited
  }

  lemma DfsLoopStart(adj: Adjacency, start: string, open: set<string>, nodeId: string, visited0: set<string>, order0: seq<string>)
    requires DfsState(adj, start, open, visited0, order0) && nodeId !in visited0
    requires nodeId in Universe(adj) + {start}
    requires order0 == [] ==> nodeId == start
    requires order0 != [] ==> EdgeFrom(adj, order0, nodeId)
    ensures DfsLoop(adj, start, open, nodeId, visited0, order0, 0, visited0 + {nodeId}, order0 + [nodeId])
  {
    DfsEnter(adj, start, open, visited0, order0, nodeId);
  }

  /** Before the walk from the `k`-th neighbour: the state it needs, and fewer unvisited ids than at the call of `nodeId`. */
  lemma DfsLoopCall(adj: Adjacency, start: string, open: set<string>, nodeId: string,
                    visited0: set<string>, order0: seq<string>, k: nat, visited: set<string>, order: seq<string>)
    requires DfsLoop(adj, start, open, nodeId, visited0, order0, k, visited, order) && k < |Neighbors(adj, nodeId)|
    ensures DfsState(adj, start, open + {nodeId}, visited, order)
    ensures Neighbors(adj, nodeId)[k] in Universe(adj) + {start}
    ensures order != [] && EdgeFrom(adj, order, Neighbors(adj, nodeId)[k])
    ensures |Universe(adj) + {start} - visited| < |Universe(adj) + {start} - visited0|
  {
    var u := Universe(adj) + {start};
    FewerUnvisited(u, visited0, visited, nodeId);
    InUniverse(adj, nodeId, Neighbors(adj, nodeId)[k]);
    assert order[|order0|] == nodeId;
  }

  lemma DfsLoopNext(adj: Adjacency, start: string, open: set<string>, nodeId: string,
                    visited0: set<string>, order0: seq<string>, k: nat, visited: set<string>, order: seq<string>,
                    visited': set<string>, order': seq<string>)
    requires DfsLoop(adj, start, open, nodeId, visited0, order0, k, visited, order) && k < |Neighbors(adj, nodeId)|
    requires DfsState(adj, start, open + {nodeId}, visited', order')
    requires visited <= visited' && order <= order' && Neighbors(adj, nodeId)[k] in visited'
    ensures DfsLoop(adj, start, open, nodeId, visited0, order0, k + 1, visited', order')
  {
  }

  /** Leaving the call of `nodeId` once all its neighbours are listed. */
  lemma DfsLoopEnd(adj: Adjacency, start: string, open: set<string>, nodeId: string,
                   visited0: set<string>, order0: seq<string>, visited: set<string>, order: seq<string>)
    requires DfsLoop(adj, start, open, nodeId, visited0, order0, |Neighbors(adj, nodeId)|, visited, order)
    ensures DfsState(adj, start, open, visited, order)
    ensures visited0 <= visited && nodeId in visited
    ensures order0 <= order && |order| > |order0| && order[|order0|] == nodeId
  {
    assert (order0 + [nodeId])[|order0|] == nodeId;
  }

  /** The inner `dfs`: list `nodeId` if it is new, then walk from each of its neighbours in list order. */
  method Dfs(adj: Adjacency, ghost start: string, ghost open: set<string>, nodeId: string,
             visited: set<string>, order: seq<string>)
    returns (visited': set<string>, order': seq<string>)
    requires DfsState(adj, start, open, visited, order)
    requires nodeId in Universe(adj) + {start}
    requires order == [] ==> nodeId == start
    requires order != [] ==> EdgeFrom(adj, order, nodeId)
    ensures DfsState(adj, start, open, visited', order')
    ensures visited <= visited' && nodeId in visited'
    ensures order <= order'
    ensures nodeId !in visited ==> |order'| > |order| && order'[|order|] == nodeId
    decreases |Universe(adj) + {start} - visited|
  {
    visited', order' := visited, order;
    if nodeId !in visited {
      DfsLoopStart(adj, start, open, nodeId, visited, order);
      visited' := visited' + {nodeId};
      order' := order' + [nodeId];
      var neighbors := Neighbors(adj, nodeId);
      for k := 0 to |neighbors|
        invariant DfsLoop(adj, start, open, nodeId, visited, order, k, visited', order')
      {
        DfsLoopCall(adj, start, open, nodeId, visited, order, k, visited', order');
        ghost var v0, o0 := visited', order';
        visited', order' := Dfs(adj, start, open + {nodeId}, neighbors[k], visited', order');
        DfsLoopNext(adj, start, open, nodeId, visited, order, k, v0, o0, visited', order');
      }
      DfsLoopEnd(adj, start, open, nodeId, visited, order, visited', order');
    }
  }

  /**
   * generateDFSOrder: a recursive walk from `startNode`. The order starts
   * with `startNode` (a node or not), lists no id twice, holds exactly the
   * ids reachable from it, and every later id is a link target of an
   * earlier one.
   */
  method GenerateDfsOrder(nodes: seq<TreeNode>, links: seq<TreeLink>, startNode: string := "home")
    returns (order: seq<string>)
    ensures |order| >= 1 && order[0] == startNode
    ensures Distinct(order)
    ensures forall v :: v in order <==> Reachable(AdjacencyOf(nodes, links), startNode, v)
    ensures EachFromEarlier(AdjacencyOf(nodes, links), order)
  {
    var adj := BuildAdjacency(nodes, links);
    var visited;
    visited, order := Dfs(adj, startNode, {}, startNode, {}, []);
    forall v | Reachable(adj, startNode, v)
      ensures v in order
    {
      ClosedHoldsReachable(adj, visited, startNode, v);
    }
  }

  // ---------------------------------------------------------------------------
  // isTreeAcyclic
  // ---------------------------------------------------------------------------

  /** Every neighbour of a finished id finished before it. */
  ghost predicate Finished(adj: Adjacency, done: seq<string>) {
    forall i, v :: 0 <= i < |done| && Edge(adj, done[i], v) ==> FinishedBefore(done, v, i)
  }

  /** `v` finished before position `i`. */
  ghost predicate FinishedBefore(done: seq<string>, v: string, i: nat) {
    exists j :: 0 <= j < i && j < |done| && done[j] == v
  }

  lemma FinishedAppend(adj: Adjacency, done: seq<string>, x: string)
    requires Finished(adj, done) && forall v :: Edge(adj, x, v) ==> v in done
    ensures Finished(adj, done + [x])
  {
    var d := done + [x];
    forall i, v | 0 <= i < |d| && Edge(adj, d[i], v)
      ensures FinishedBefore(d, v, i)
    {
      if i < |done| {
        assert d[i] == done[i];
        var j :| 0 <= j < i && j < |done| && done[j] == v;
        assert d[j] == v;
      } else {
        var j :| 0 <= j < |done| && done[j] == v;
        assert d[j] == v;
      }
    }
  }

  /** A stack path that meets its own first id again closes a cycle. */
  lemma CycleOnStack(adj: Adjacency, path: seq<string>, v: string)
    requires IsPath(adj, path) && Edge(adj, path[|path| - 1], v) && v in path
    ensures HasCycle(adj)
  {
    var k :| 0 <= k < |path| && path[k] == v;
    var c := path[k..] + [v];
    assert forall i :: 0 <= i < |path| - k ==> c[i] == path[k + i];
    assert IsPath(adj, c);
  }

  /** Along a path out of a finished id, every id finished earlier. */
  lemma {:induction false} PathGoesEarlier(adj: Adjacency, done: seq<string>, p: seq<string>, i: nat)
    requires Finished(adj, done) && IsPath(adj, p) && |p| >= 2
    requires i < |done| && done[i] == p[0]
    ensures FinishedBefore(done, p[|p| - 1], i)
    decreases |p|
  {
    assert Edge(adj, p[0], p[1]);
    var i1 :| 0 <= i1 < i && i1 < |done| && done[i1] == p[1];
    if |p| > 2 {
      var rest := p[1..];
      assert forall k :: 0 <= k < |rest| ==> rest[k] == p[k + 1];
      assert IsPath(adj, rest);
      PathGoesEarlier(adj, done, rest, i1);
      var j :| 0 <= j < i1 && j < |done| && done[j] == rest[|rest| - 1];
    }
  }

  /** When every node id has finished, no cycle is left. */
  lemma NoCycleWhenFinished(adj: Adjacency, done: seq<string>)
    requires Finished(adj, done) && Distinct(done)
    requires forall u :: u in adj ==> u in done
    ensures !HasCycle(adj)
  {
    if HasCycle(adj) {
      var p :| |p| >= 2 && IsPath(adj, p) && p[0] == p[|p| - 1];
      assert Edge(adj, p[0], p[1]);
      var i :| 0 <= i < |done| && done[i] == p[0];
      PathGoesEarlier(adj, done, p, i);
    }
  }

  /**
   * What holds between the calls of the inner `hasCycle` when no cycle has
   * been found: the visited ids are the finished ones and the ones on the
   * recursion stack, the stack is a path of edges, and every neighbour of a
   * finished id finished before it.
   */
  ghost predicate CycleState(adj: Adjacency, visited: set<string>, stack: set<string>,
                             path: seq<string>, done: seq<string>) {
    && visited <= Universe(adj)
    && (forall x :: x in stack <==> x in path)
    && (path == [] || IsPath(adj, path))
    && (forall x :: x in visited <==> x in done || x in stack)
    && (forall x :: x in done ==> x !in stack)
    && Distinct(done)
    && Finished(adj, done)
  }

  /** The loop over the neighbours of `nodeId` inside its call, after `k` of them, no cycle found yet. */
  ghost predicate CycleLoop(adj: Adjacency, nodeId: string, visited0: set<string>, stack0: set<string>,
                            path: seq<string>, done0: seq<string>, k: nat,
                            visited: set<string>, stack: set<string>, done: seq<string>) {
    && nodeId !in visited0 && nodeId !in stack0 && nodeId in Universe(adj)
    && nodeId !in path && (path == [] || IsPath(adj, path))
    && CycleState(adj, visited, stack, path + [nodeId], done)
    && stack == stack0 + {nodeId}
    && visited0 + {nodeId} <= visited
    && k <= |Neighbors(adj, nodeId)|
    && forall i :: 0 <= i < k ==> Neighbors(adj, nodeId)[i] in done
  }

  lemma CycleLoopStart(adj: Adjacency, nodeId: string, visited0: set<string>, stack0: set<string>,
                       path: seq<string>, done0: seq<string>)
    requires CycleState(adj, visited0, stack0, path, done0)
    requires nodeId in Universe(adj) && nodeId !in stack0 && nodeId !in visited0
    requires path != [] ==> Edge(adj, path[|path| - 1], nodeId)
    ensures CycleLoop(adj, nodeId, visited0, stack0, path, done0, 0, visited0 + {nodeId}, stack0 + {nodeId}, done0)
  {
    var path' := path + [nodeId];
    assert forall i :: 0 <= i < |path| ==> path'[i] == path[i];
    assert IsPath(adj, path');
  }

  /** Before the walk from an unvisited `k`-th neighbour: the state it needs, and fewer unvisited ids than at the call of `nodeId`. */
  lemma CycleLoopCall(adj: Adjacency, nodeId: string, visited0: set<string>, stack0: set<string>,
                      path: seq<string>, done0: seq<string>, k: nat,
                      visited: set<string>, stack: set<string>, done: seq<string>)
    requires CycleLoop(adj, nodeId, visited0, stack0, path, done0, k, visited, stack, done)
    requires k < |Neighbors(adj, nodeId)| && Neighbors(adj, nodeId)[k] !in visited
    ensures CycleState(adj, visited, stack, path + [nodeId], done)
    ensures Neighbors(adj, nodeId)[k] in Universe(adj) && Neighbors(adj, nodeId)[k] !in stack
    ensures Edge(adj, (path + [nodeId])[|path + [nodeId]| - 1], Neighbors(adj, nodeId)[k])
    ensures |Universe(adj) - visited| < |Universe(adj) - visited0|
  {
    FewerUnvisited(Universe(adj), visited0, visited, nodeId);
    InUniverse(adj, nodeId, Neighbors(adj, nodeId)[k]);
  }

  /** A neighbour on the recursion stack closes a cycle. */
  lemma CycleLoopFound(adj: Adjacency, nodeId: string, visited0: set<string>, stack0: set<string>,
                       path: seq<string>, done0: seq<string>, k: nat,
                       visited: set<string>, stack: set<string>, done: seq<string>)
    requires CycleLoop(adj, nodeId, visited0, stack0, path, done0, k, visited, stack, done)
    requires k < |Neighbors(adj, nodeId)| && Neighbors(adj, nodeId)[k] in stack
    ensures HasCycle(adj)
  {
    CycleOnStack(adj, path + [nodeId], Neighbors(adj, nodeId)[k]);
  }

  lemma CycleLoopNext(adj: Adjacency, nodeId: string, visited0: set<string>, stack0: set<string>,
                      path: seq<string>, done0: seq<string>, k: nat,
                      visited: set<string>, stack: set<string>, done: seq<string>,
                      visited': set<string>, done': seq<string>)
    requires CycleLoop(adj, nodeId, visited0, stack0, path, done0, k, visited, stack, done)
    requires k < |Neighbors(adj, nodeId)|
    requires CycleState(adj, visited', stack, path + [nodeId], done')
    requires visited <= visited' && Neighbors(adj, nodeId)[k] in visited' && Neighbors(adj, nodeId)[k] !in stack
    ensures CycleLoop(adj, nodeId, visited0, stack0, path, done0, k + 1, visited', stack, done')
  {
  }

  /** Leaving the call of `nodeId` with no cycle found: it finishes and leaves the stack. */
  lemma CycleLoopEnd(adj: Adjacency, nodeId: string, visited0: set<string>, stack0: set<string>,
                     path: seq<string>, done0: seq<string>,
                     visited: set<string>, stack: set<string>, done: seq<string>)
    requires CycleLoop(adj, nodeId, visited0, stack0, path, done0, |Neighbors(adj, nodeId)|, visited, stack, done)
    ensures CycleState(adj, visited, stack - {nodeId}, path, done + [nodeId])
    ensures stack - {nodeId} == stack0 && visited0 <= visited
  {
    FinishedAppend(adj, done, nodeId);
    DistinctAppend(done, nodeId);
  }

  /**
   * The inner `hasCycle` of `isTreeAcyclic`. A new `nodeId` is marked
   * visited and pushed on the recursion stack; each neighbour is walked if
   * unvisited, and a cycle is reported when that walk finds one or the
   * neighbour is on the stack. With no cycle found the id leaves the stack.
   */
  method HasCycleFrom(adj: Adjacency, nodeId: string, visited: set<string>, stack: set<string>,
                      ghost path: seq<string>, ghost done: seq<string>)
    returns (found: bool, visited': set<string>, stack': set<string>, ghost done': seq<string>)
    requires CycleState(adj, visited, stack, path, done)
    requires nodeId in Universe(adj) && nodeId !in stack
    requires path != [] ==> Edge(adj, path[|path| - 1], nodeId)
    ensures found ==> HasCycle(adj)
    ensures !found ==> CycleState(adj, visited', stack', path, done') && stack' == stack
    ensures !found ==> visited <= visited' && nodeId in done'
    decreases |Universe(adj) - visited|
  {
    found, visited', stack', done' := false, visited, stack, done;
    if nodeId !in visited {
      CycleLoopStart(adj, nodeId, visited, stack, path, done);
      visited' := visited' + {nodeId};
      stack' := stack' + {nodeId};
      var neighbors := Neighbors(adj, nodeId);
      var k := 0;
      while k < |neighbors|
        invariant CycleLoop(adj, nodeId, visited, stack, path, done, k, visited', stack', done')
        decreases |neighbors| - k
      {
        var neighbor := neighbors[k];
        var sub := false;
        ghost var v0, d0 := visited', done';
        if neighbor !in visited' {
          CycleLoopCall(adj, nodeId, visited, stack, path, done, k, visited', stack', done');
          sub, visited', stack', done' := HasCycleFrom(adj, neighbor, visited', stack', path + [nodeId], done');
        }
        if sub {
          found := true;
          return;
        } else if neighbor in stack' {
          CycleLoopFound(adj, nodeId, visited, stack, path, done, k, visited', stack', done');
          found := true;
          return;
        }
        CycleLoopNext(adj, nodeId, visited, stack, path, done, k, v0, stack', d0, visited', done');
        k := k + 1;
      }
      CycleLoopEnd(adj, nodeId, visited, stack, path, done, visited', stack', done');
      done' := done' + [nodeId];
    }
    stack' := stack' - {nodeId};
  }

  /** The loop of `isTreeAcyclic` over the nodes, after `i` of them, no cycle found yet. */
  ghost predicate AcyclicLoop(adj: Adjacency, nodes: seq<TreeNode>, i: nat, visited: set<string>, done: seq<string>) {
    && i <= |nodes|
    && CycleState(adj, visited, {}, [], done)
    && forall k :: 0 <= k < i ==> nodes[k].id in done
  }

  lemma AcyclicLoopNext(adj: Adjacency, nodes: seq<TreeNode>, i: nat, visited: set<string>, done: seq<string>,
                        visited': set<string>, done': seq<string>)
    requires AcyclicLoop(adj, nodes, i, visited, done) && i < |nodes|
    requires CycleState(adj, visited', {}, [], done') && visited <= visited' && nodes[i].id in done'
    ensures AcyclicLoop(adj, nodes, i + 1, visited', done')
  {
  }

  lemma AcyclicLoopEnd(nodes: seq<TreeNode>, links: seq<TreeLink>, visited: set<string>, done: seq<string>)
    requires AcyclicLoop(AdjacencyOf(nodes, links), nodes, |nodes|, visited, done)
    ensures !HasCycle(AdjacencyOf(nodes, links))
  {
    var adj := AdjacencyOf(nodes, links);
    forall u | u in adj
      ensures u in done
    {
      assert u in Ids(nodes);
    }
    NoCycleWhenFinished(adj, done);
  }

  /**
   * isTreeAcyclic: true exactly when the links whose source is a node id
   * form no directed cycle.
   */
  method IsTreeAcyclic(nodes: seq<TreeNode>, links: seq<TreeLink>) returns (acyclic: bool)
    ensures acyclic <==> !HasCycle(AdjacencyOf(nodes, links))
  {
    var adj := BuildAdjacency(nodes, links);
    var visited: set<string> := {};
    var stack: set<string> := {};
    ghost var done: seq<string> := [];
    for i := 0 to |nodes|
      invariant AcyclicLoop(adj, nodes, i, visited, done) && stack == {}
    {
      var found;
      ghost var v0, d0 := visited, done;
      found, visited, stack, done := HasCycleFrom(adj, nodes[i].id, visited, stack, [], done);
      if found {
        return false;
      }
      AcyclicLoopNext(adj, nodes, i, v0, d0, visited, done);
    }
    AcyclicLoopEnd(nodes, links, visited, done);
    return true;
  }
}
