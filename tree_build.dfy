/**
 * `parseLinks` after the anchors are extracted: the nodes it collects, one
 * per distinct id, and the parent link it infers for every node other than
 * `home` from the hyphens of its id, and the tree those links form.
 */
module TreeBuild {
  import opened Wrappers
  import opened Seqs
  import opened JsText
  import opened TreeGraph
  import opened TreeParser

  /** One `<a>` element: its `href` attribute, if it has one, and its text content. */
  datatype Anchor = Anchor(href: Option<string>, text: string)

  datatype ParseResult = ParseResult(nodes: seq<TreeNode>, links: seq<TreeLink>, parsedCount: nat)

  /** The node added when no anchor leads to `home`. */
  const HomeNode := TreeNode("home", "首页", "index.html")

  // ---------------------------------------------------------------------------
  // The nodes
  // ---------------------------------------------------------------------------

  /** An anchor is kept when its href is present and non-empty and its trimmed text is non-empty. */
  predicate Accepted(a: Anchor) {
    a.href.Some? && a.href.value != [] && Trim(a.text) != []
  }

  function AcceptedCount(anchors: seq<Anchor>): (n: nat)
    ensures n <= |anchors|
  {
    if anchors == [] then 0
    else AcceptedCount(anchors[..|anchors| - 1]) + (if Accepted(anchors[|anchors| - 1]) then 1 else 0)
  }

  /** Each accepted anchor as the node it stands for: its id, its trimmed text and its href. */
  function Candidates(anchors: seq<Anchor>): (r: seq<TreeNode>)
    ensures |r| == AcceptedCount(anchors)
  {
    if anchors == [] then []
    else
      var a := anchors[|anchors| - 1];
      Candidates(anchors[..|anchors| - 1])
        + (if Accepted(a) then [TreeNode(NodeId(a.href.value), Trim(a.text), a.href.value)] else [])
  }

  function IdList(nodes: seq<TreeNode>): (r: seq<string>)
    ensures |r| == |nodes|
    ensures forall i :: 0 <= i < |nodes| ==> r[i] == nodes[i].id
  {
    seq(|nodes|, i requires 0 <= i < |nodes| => nodes[i].id)
  }

  lemma IdsAreIdList(nodes: seq<TreeNode>, x: string)
    ensures x in Ids(nodes) <==> x in IdList(nodes)
  {
    if x in Ids(nodes) {
      var i :| 0 <= i < |nodes| && nodes[i].id == x;
      assert IdList(nodes)[i] == x;
    }
  }

  function IndexFrom(nodes: seq<TreeNode>, id: string, start: nat): (k: int)
    requires start <= |nodes|
    ensures k == -1 || start <= k < |nodes|
    ensures k >= 0 ==> nodes[k].id == id && forall j :: start <= j < k ==> nodes[j].id != id
    ensures k == -1 ==> forall j :: start <= j < |nodes| ==> nodes[j].id != id
    decreases |nodes| - start
  {
    if start == |nodes| then -1
    else if nodes[start].id == id then start
    else IndexFrom(nodes, id, start + 1)
  }

  /** `findIndex` on the ids: the first position holding `id`, or -1 when no node has it. */
  function IndexOfId(nodes: seq<TreeNode>, id: string): (k: int)
    ensures -1 <= k < |nodes|
    ensures k >= 0 ==> nodes[k].id == id && forall j :: 0 <= j < k ==> nodes[j].id != id
    ensures k == -1 <==> id !in IdList(nodes)
  {
    IndexFrom(nodes, id, 0)
  }

  /** One accepted anchor: a known id takes the anchor's label, a new id is appended with the anchor's href. */
  function AddNode(nodes: seq<TreeNode>, c: TreeNode): seq<TreeNode> {
    var k := IndexOfId(nodes, c.id);
    if k >= 0 then nodes[k := nodes[k].(labelText := c.labelText)] else nodes + [c]
  }

  /** The nodes left after adding the candidates one by one. */
  function Merged(cands: seq<TreeNode>): seq<TreeNode> {
    if cands == [] then [] else AddNode(Merged(cands[..|cands| - 1]), cands[|cands| - 1])
  }

  /** The nodes the anchor loop leaves. */
  function NodesFrom(anchors: seq<Anchor>): seq<TreeNode> {
    Merged(Candidates(anchors))
  }

  /** The nodes with the `home` node appended when none has that id. */
  function WithHome(nodes: seq<TreeNode>): seq<TreeNode> {
    if IndexOfId(nodes, "home") == -1 then nodes + [HomeNode] else nodes
  }

  lemma IdListAppend(nodes: seq<TreeNode>, c: TreeNode)
    ensures IdList(nodes + [c]) == IdList(nodes) + [c.id]
  {
  }

  lemma AddNodeIds(nodes: seq<TreeNode>, c: TreeNode)
    ensures IdList(AddNode(nodes, c)) == if c.id in IdList(nodes) then IdList(nodes) else IdList(nodes) + [c.id]
  {
    var after := AddNode(nodes, c);
    if c.id in IdList(nodes) {
      assert |after| == |nodes|;
      forall i | 0 <= i < |nodes| ensures IdList(after)[i] == IdList(nodes)[i] {
      }
    } else {
      IdListAppend(nodes, c);
    }
  }

  /** The merged ids are the candidate ids, each once, in the order they first appear. */
  lemma {:induction false} MergedIds(cands: seq<TreeNode>)
    ensures IdList(Merged(cands)) == FirstOccurrences(IdList(cands))
  {
    if cands != [] {
      var front := cands[..|cands| - 1];
      var c := cands[|cands| - 1];
      MergedIds(front);
      AddNodeIds(Merged(front), c);
      assert cands == front + [c];
      IdListAppend(front, c);
      FirstOccurrencesAppend(IdList(front), c.id);
    }
  }

  /** There are never more nodes than accepted anchors. */
  lemma NodesAtMostParsed(anchors: seq<Anchor>)
    ensures |NodesFrom(anchors)| <= AcceptedCount(anchors)
  {
    MergedIds(Candidates(anchors));
    FirstOccurrencesShorter(IdList(Candidates(anchors)));
  }

  /** Distinct ids. */
  predicate DistinctIds(nodes: seq<TreeNode>) {
    forall i, j :: 0 <= i < j < |nodes| ==> nodes[i].id != nodes[j].id
  }

  lemma DistinctIdList(nodes: seq<TreeNode>)
    ensures DistinctIds(nodes) <==> Distinct(IdList(nodes))
  {
  }

  /** The nodes have distinct ids, and they are the ids of the accepted anchors. */
  lemma MergedDistinct(cands: seq<TreeNode>)
    ensures DistinctIds(Merged(cands))
    ensures forall x :: x in IdList(Merged(cands)) <==> x in IdList(cands)
  {
    MergedIds(cands);
    DistinctIdList(Merged(cands));
  }

  /** The href of the first candidate whose id is `id`. */
  function FirstHref(cands: seq<TreeNode>, id: string): Option<string> {
    if cands == [] then None
    else
      var first := FirstHref(cands[..|cands| - 1], id);
      var c := cands[|cands| - 1];
      if first.None? && c.id == id then Some(c.href) else first
  }

  /** The label of the last candidate whose id is `id`. */
  function LastLabel(cands: seq<TreeNode>, id: string): Option<string> {
    if cands == [] then None
    else
      var c := cands[|cands| - 1];
      if c.id == id then Some(c.labelText) else LastLabel(cands[..|cands| - 1], id)
  }

  lemma {:induction false} FirstHrefExists(cands: seq<TreeNode>, id: string)
    ensures FirstHref(cands, id).Some? <==> id in IdList(cands)
  {
    if cands != [] {
      var front := cands[..|cands| - 1];
      FirstHrefExists(front, id);
      assert cands == front + [cands[|cands| - 1]];
      IdListAppend(front, cands[|cands| - 1]);
    }
  }

  /** Every node keeps the href of the first candidate with its id and the label of the last. */
  predicate FieldsFrom(cands: seq<TreeNode>, nodes: seq<TreeNode>) {
    forall i :: 0 <= i < |nodes| ==>
      FirstHref(cands, nodes[i].id) == Some(nodes[i].href) && LastLabel(cands, nodes[i].id) == Some(nodes[i].labelText)
  }

  lemma {:induction false} MergedFields(cands: seq<TreeNode>)
    ensures FieldsFrom(cands, Merged(cands))
  {
    if cands != [] {
      var front := cands[..|cands| - 1];
      MergedFields(front);
      MergedDistinct(front);
      FirstHrefExists(front, cands[|cands| - 1].id);
      AddNodeFields(cands, Merged(front));
    }
  }

  lemma AddNodeFields(cands: seq<TreeNode>, nodes: seq<TreeNode>)
    requires cands != []
    requires var front := cands[..|cands| - 1];
      && FieldsFrom(front, nodes) && DistinctIds(nodes)
      && (FirstHref(front, cands[|cands| - 1].id).Some? <==> cands[|cands| - 1].id in IdList(nodes))
    ensures FieldsFrom(cands, AddNode(nodes, cands[|cands| - 1]))
  {
    var front := cands[..|cands| - 1];
    var after := AddNode(nodes, cands[|cands| - 1]);
    forall i | 0 <= i < |after|
      ensures FirstHref(cands, after[i].id) == Some(after[i].href)
      ensures LastLabel(cands, after[i].id) == Some(after[i].labelText)
    {
      if i < |nodes| {
        assert FirstHref(front, nodes[i].id) == Some(nodes[i].href);
      }
    }
  }

  /**
   * What the anchor loop leaves: one node per accepted id, none repeated,
   * each with the href of the first anchor giving its id and the trimmed
   * text of the last.
   */
  lemma NodesFromAnchors(anchors: seq<Anchor>)
    ensures DistinctIds(NodesFrom(anchors))
    ensures forall x :: x in IdList(NodesFrom(anchors)) <==> x in IdList(Candidates(anchors))
    ensures FieldsFrom(Candidates(anchors), NodesFrom(anchors))
  {
    MergedDistinct(Candidates(anchors));
    MergedFields(Candidates(anchors));
  }

  /** Appending `home` when it is missing keeps the ids distinct and makes `home` one of them. */
  lemma WithHomeIds(nodes: seq<TreeNode>)
    requires DistinctIds(nodes)
    ensures DistinctIds(WithHome(nodes))
    ensures "home" in IdList(WithHome(nodes))
    ensures forall x :: x in IdList(WithHome(nodes)) <==> x in IdList(nodes) || x == "home"
  {
    if IndexOfId(nodes, "home") == -1 {
      IdListAppend(nodes, HomeNode);
    }
  }

  // ---------------------------------------------------------------------------
  // The parent of a node
  // ---------------------------------------------------------------------------

  /**
   * The search of the `while` loop: cut `p` at its last hyphen, and again,
   * until the part before the cut is a node id.
   */
  function HyphenParent(p: string, names: set<string>): Option<string>
    decreases |p|
  {
    var k := LastIndexOf(p, '-');
    if k < 0 then None
    else if p[..k] in names then Some(p[..k])
    else HyphenParent(p[..k], names)
  }

  /** Position `j` of `id` is a hyphen and the part before it is a node id. */
  predicate ParentCut(id: string, j: int, names: set<string>) {
    0 <= j < |id| && id[j] == '-' && id[..j] in names
  }

  /** The parent found is the longest part of the id before a hyphen that is a node id; none is found when there is no such part. */
  lemma {:induction false} HyphenParentLongest(id: string, names: set<string>)
    ensures HyphenParent(id, names).None? ==> forall j :: !ParentCut(id, j, names)
    ensures HyphenParent(id, names).Some? ==>
      var q := HyphenParent(id, names).value;
      && |q| < |id| && q == id[..|q|] && ParentCut(id, |q|, names)
      && forall j :: |q| < j ==> !ParentCut(id, j, names)
    decreases |id|
  {
    var k := LastIndexOf(id, '-');
    if k >= 0 && id[..k] !in names {
      var p := id[..k];
      HyphenParentLongest(p, names);
      forall j | 0 <= j < k
        ensures ParentCut(id, j, names) <==> ParentCut(p, j, names)
      {
        assert id[..j] == p[..j];
      }
    }
  }

  /** The source of the link to a node: the parent found, or `home`. */
  function ParentOf(id: string, names: set<string>): string {
    match HyphenParent(id, names)
    case Some(q) => q
    case None => "home"
  }

  /** The `while` loop over the hyphens of `id`, from the last to the first. */
  method FindParent(id: string, names: set<string>) returns (parentId: string, foundParent: bool)
    ensures foundParent <==> HyphenParent(id, names).Some?
    ensures foundParent ==> parentId == HyphenParent(id, names).value
  {
    parentId := id;
    foundParent := false;
    var lastHyphenIndex := LastIndexOf(parentId, '-');
    while lastHyphenIndex != -1
      invariant lastHyphenIndex == LastIndexOf(parentId, '-')
      invariant HyphenParent(parentId, names) == HyphenParent(id, names)
      decreases |parentId|
    {
      parentId := parentId[..lastHyphenIndex];
      if parentId in names {
        foundParent := true;
        break;
      }
      lastHyphenIndex := LastIndexOf(parentId, '-');
    }
  }

  /** The rank that grows along every inferred link: 0 for `home`, one more than the length otherwise. */
  function Depth(id: string): nat {
    if id == "home" then 0 else |id| + 1
  }

  /** The parent of a node other than `home` is a node id or `home`, and lies strictly closer to `home`. */
  lemma ParentOfShape(id: string, names: set<string>)
    requires id != "home"
    ensures ParentOf(id, names) in names || ParentOf(id, names) == "home"
    ensures Depth(ParentOf(id, names)) < Depth(id)
  {
    HyphenParentLongest(id, names);
  }

  // ---------------------------------------------------------------------------
  // The links
  // ---------------------------------------------------------------------------

  /** The links the node loop pushes: one from its parent to every node other than `home`, in node order. */
  function InferredLinks(nodes: seq<TreeNode>, names: set<string>): seq<TreeLink> {
    if nodes == [] then []
    else
      var id := nodes[|nodes| - 1].id;
      InferredLinks(nodes[..|nodes| - 1], names) + (if id == "home" then [] else [TreeLink(ParentOf(id, names), id, 1.0)])
  }

  /** `links.some` on a source and a target. */
  predicate LinkExists(links: seq<TreeLink>, source: string, target: string) {
    exists j :: 0 <= j < |links| && links[j].source == source && links[j].target == target
  }

  /** `links.some` on a target. */
  predicate HasParentLink(links: seq<TreeLink>, target: string) {
    exists j :: 0 <= j < |links| && links[j].target == target
  }

  lemma HasParentLinkAppend(links: seq<TreeLink>, l: TreeLink)
    ensures forall x :: HasParentLink(links, x) ==> HasParentLink(links + [l], x)
    ensures HasParentLink(links + [l], l.target)
  {
    forall x | HasParentLink(links, x) ensures HasParentLink(links + [l], x) {
      var j :| 0 <= j < |links| && links[j].target == x;
      assert (links + [l])[j] == links[j];
    }
    assert (links + [l])[|links|] == l;
  }

  /** A link from the parent of a node other than `home` to that node, with weight 1. */
  predicate ParentLink(l: TreeLink, nodes: seq<TreeNode>, names: set<string>) {
    l.target in IdList(nodes) && l.target != "home" && l.source == ParentOf(l.target, names) && l.weight == 1.0
  }

  predicate AllParentLinks(links: seq<TreeLink>, nodes: seq<TreeNode>, names: set<string>) {
    forall j :: 0 <= j < |links| ==> ParentLink(links[j], nodes, names)
  }

  /** Every inferred link is a parent link, and every node other than `home` is the target of one. */
  lemma {:induction false} InferredLinksShape(nodes: seq<TreeNode>, names: set<string>)
    ensures AllParentLinks(InferredLinks(nodes, names), nodes, names)
    ensures forall x :: x in IdList(nodes) && x != "home" ==> HasParentLink(InferredLinks(nodes, names), x)
  {
    if nodes != [] {
      var front := nodes[..|nodes| - 1];
      var c := nodes[|nodes| - 1];
      InferredLinksShape(front, names);
      assert nodes == front + [c];
      IdListAppend(front, c);
      var links := InferredLinks(nodes, names);
      var before := InferredLinks(front, names);
      forall j | 0 <= j < |links| ensures ParentLink(links[j], nodes, names) {
        if j < |before| {
          assert links[j] == before[j];
        }
      }
      forall x | x in IdList(nodes) && x != "home" ensures HasParentLink(links, x) {
        if x in IdList(front) {
          var j :| 0 <= j < |before| && before[j].target == x;
          assert links[j] == before[j];
        } else {
          assert links[|links| - 1].target == x;
        }
      }
    }
  }

  /** No two links share a target. */
  predicate TargetsDistinct(links: seq<TreeLink>) {
    forall i, j :: 0 <= i < j < |links| ==> links[i].target != links[j].target
  }

  lemma {:induction false} InferredTargetsDistinct(nodes: seq<TreeNode>, names: set<string>)
    requires DistinctIds(nodes)
    ensures TargetsDistinct(InferredLinks(nodes, names))
  {
    if nodes != [] {
      var front := nodes[..|nodes| - 1];
      InferredTargetsDistinct(front, names);
      InferredLinksShape(front, names);
      var c := nodes[|nodes| - 1];
      assert c.id !in IdList(front);
    }
  }

  /** While the node loop runs, the links so far do not reach the node at hand. */
  lemma NoLinkYet(nodes: seq<TreeNode>, i: nat, names: set<string>)
    requires DistinctIds(nodes) && i < |nodes|
    ensures !HasParentLink(InferredLinks(nodes[..i], names), nodes[i].id)
  {
    InferredLinksShape(nodes[..i], names);
  }

  // ---------------------------------------------------------------------------
  // The tree the links form
  // ---------------------------------------------------------------------------

  /** An edge of the walks' adjacency leads from a node's parent to the node, one step away from `home`. */
  lemma EdgeIsParentLink(nodes: seq<TreeNode>, u: string, v: string)
    requires Edge(AdjacencyOf(nodes, InferredLinks(nodes, Ids(nodes))), u, v)
    ensures v != "home" && u == ParentOf(v, Ids(nodes)) && Depth(u) < Depth(v)
  {
    var links := InferredLinks(nodes, Ids(nodes));
    InferredLinksShape(nodes, Ids(nodes));
    var i :| 0 <= i < |links| && links[i].source == u && links[i].target == v;
    assert ParentLink(links[i], nodes, Ids(nodes));
    ParentOfShape(v, Ids(nodes));
  }

  /** Every edge leads one step further from `home`. */
  ghost predicate Deepening(adj: Adjacency) {
    forall u, v :: Edge(adj, u, v) ==> Depth(u) < Depth(v)
  }

  lemma InferredDeepening(nodes: seq<TreeNode>)
    ensures Deepening(AdjacencyOf(nodes, InferredLinks(nodes, Ids(nodes))))
  {
    forall u, v | Edge(AdjacencyOf(nodes, InferredLinks(nodes, Ids(nodes))), u, v)
      ensures Depth(u) < Depth(v)
    {
      EdgeIsParentLink(nodes, u, v);
    }
  }

  lemma {:induction false} PathDeepens(adj: Adjacency, p: seq<string>, k: nat)
    requires Deepening(adj) && IsPath(adj, p) && 1 <= k < |p|
    ensures Depth(p[0]) < Depth(p[k])
  {
    assert Edge(adj, p[k - 1], p[k]);
    if k > 1 {
      PathDeepens(adj, p, k - 1);
    }
  }

  /** A graph whose edges all lead away from `home` has no directed cycle. */
  lemma DeepeningAcyclic(adj: Adjacency)
    requires Deepening(adj)
    ensures !HasCycle(adj)
  {
    if HasCycle(adj) {
      var p :| |p| >= 2 && IsPath(adj, p) && p[0] == p[|p| - 1];
      PathDeepens(adj, p, |p| - 1);
    }
  }

  /** The inferred links contain no directed cycle. */
  lemma InferredAcyclic(nodes: seq<TreeNode>)
    ensures !HasCycle(AdjacencyOf(nodes, InferredLinks(nodes, Ids(nodes))))
  {
    InferredDeepening(nodes);
    DeepeningAcyclic(AdjacencyOf(nodes, InferredLinks(nodes, Ids(nodes))));
  }

  /** Following parent links backwards, every node is reached from `home`. */
  lemma {:induction false} ReachableFromHome(nodes: seq<TreeNode>, v: string)
    requires "home" in Ids(nodes) && v in Ids(nodes)
    ensures Reachable(AdjacencyOf(nodes, InferredLinks(nodes, Ids(nodes))), "home", v)
    decreases Depth(v)
  {
    var names := Ids(nodes);
    var links := InferredLinks(nodes, names);
    var adj := AdjacencyOf(nodes, links);
    if v == "home" {
      ReachableSelf(adj, "home");
    } else {
      InferredLinksShape(nodes, names);
      IdsAreIdList(nodes, v);
      assert HasParentLink(links, v);
      var j :| 0 <= j < |links| && links[j].target == v;
      assert ParentLink(links[j], nodes, names);
      var u := ParentOf(v, names);
      ParentOfShape(v, names);
      ReachableFromHome(nodes, u);
      assert Edge(adj, u, v);
      ReachableStep(adj, "home", u, v);
    }
  }

  /**
   * The shape `parseLinks` promises: node ids distinct and `home` among
   * them; every link goes from a node id to a node other than `home`, with
   * weight 1, from that node's parent; every node other than `home` is the
   * target of exactly one link; there is no cycle; and every node is
   * reachable from `home`.
   */
  ghost predicate IsTree(nodes: seq<TreeNode>, links: seq<TreeLink>) {
    && DistinctIds(nodes)
    && "home" in Ids(nodes)
    && AllParentLinks(links, nodes, Ids(nodes))
    && (forall j :: 0 <= j < |links| ==> links[j].source in Ids(nodes))
    && TargetsDistinct(links)
    && (forall x :: x in Ids(nodes) && x != "home" ==> HasParentLink(links, x))
    && !HasCycle(AdjacencyOf(nodes, links))
    && (forall v :: v in Ids(nodes) ==> Reachable(AdjacencyOf(nodes, links), "home", v))
  }

  lemma InferredTree(nodes: seq<TreeNode>)
    requires DistinctIds(nodes) && "home" in IdList(nodes)
    ensures IsTree(nodes, InferredLinks(nodes, Ids(nodes)))
  {
    var names := Ids(nodes);
    var links := InferredLinks(nodes, names);
    IdsAreIdList(nodes, "home");
    InferredLinksShape(nodes, names);
    InferredTargetsDistinct(nodes, names);
    forall j | 0 <= j < |links| ensures links[j].source in names {
      assert ParentLink(links[j], nodes, names);
      ParentOfShape(links[j].target, names);
    }
    forall x | x in names && x != "home" ensures HasParentLink(links, x) {
      IdsAreIdList(nodes, x);
    }
    InferredAcyclic(nodes);
    forall v | v in names ensures Reachable(AdjacencyOf(nodes, links), "home", v) {
      ReachableFromHome(nodes, v);
    }
  }

  /** In a tree, the ids reached from `home` are exactly the node ids: a walk from `home` visits every node and nothing else. */
  lemma TreeReachesExactlyNodes(nodes: seq<TreeNode>, links: seq<TreeLink>)
    requires IsTree(nodes, links)
    ensures forall v :: Reachable(AdjacencyOf(nodes, links), "home", v) <==> v in Ids(nodes)
  {
    forall v | Reachable(AdjacencyOf(nodes, links), "home", v)
      ensures v in Ids(nodes)
    {
      ReachedIsNode(nodes, links, v);
    }
  }

  lemma ReachedIsNode(nodes: seq<TreeNode>, links: seq<TreeLink>, v: string)
    requires "home" in Ids(nodes) && AllParentLinks(links, nodes, Ids(nodes))
    requires Reachable(AdjacencyOf(nodes, links), "home", v)
    ensures v in Ids(nodes)
  {
    var adj := AdjacencyOf(nodes, links);
    var p :| IsPath(adj, p) && p[0] == "home" && p[|p| - 1] == v;
    if |p| > 1 {
      var u := p[|p| - 2];
      assert Edge(adj, u, v);
      var j :| 0 <= j < |links| && links[j].source == u && links[j].target == v;
      assert ParentLink(links[j], nodes, Ids(nodes));
      IdsAreIdList(nodes, v);
    }
  }

  // ---------------------------------------------------------------------------
  // parseLinks
  // ---------------------------------------------------------------------------

  lemma MergedStep(cands: seq<TreeNode>, c: TreeNode)
    ensures Merged(cands + [c]) == AddNode(Merged(cands), c)
  {
    assert (cands + [c])[..|cands|] == cands;
  }

  lemma CandidatesStep(anchors: seq<Anchor>, i: nat)
    requires i < |anchors|
    ensures var a := anchors[i];
      Candidates(anchors[..i + 1])
        == Candidates(anchors[..i]) + (if Accepted(a) then [TreeNode(NodeId(a.href.value), Trim(a.text), a.href.value)] else [])
    ensures AcceptedCount(anchors[..i + 1]) == AcceptedCount(anchors[..i]) + (if Accepted(anchors[i]) then 1 else 0)
  {
    assert anchors[..i + 1][..i] == anchors[..i];
  }

  /** The anchor loop: count the accepted anchors and merge them into nodes by id. */
  method CollectNodes(anchors: seq<Anchor>) returns (nodes: seq<TreeNode>, parsedCount: nat)
    ensures nodes == NodesFrom(anchors)
    ensures parsedCount == AcceptedCount(anchors)
  {
    nodes := [];
    parsedCount := 0;
    for i := 0 to |anchors|
      invariant nodes == Merged(Candidates(anchors[..i]))
      invariant parsedCount == AcceptedCount(anchors[..i])
    {
      CandidatesStep(anchors, i);
      var href := anchors[i].href;
      var text := Trim(anchors[i].text);
      if href.None? || href.value == [] || text == [] {
        assert Candidates(anchors[..i + 1]) == Candidates(anchors[..i]);
        continue;
      }
      parsedCount := parsedCount + 1;
      var c := TreeNode(NodeId(href.value), text, href.value);
      MergedStep(Candidates(anchors[..i]), c);
      var existingNodeIndex := IndexOfId(nodes, c.id);
      if existingNodeIndex != -1 {
        nodes := nodes[existingNodeIndex := nodes[existingNodeIndex].(labelText := text)];
      } else {
        nodes := nodes + [c];
      }
    }
    assert anchors[..|anchors|] == anchors;
  }

  /**
   * The first node loop: a link from the parent found by the hyphen search,
   * or from `home`, unless that link is already there. The ids are distinct,
   * so on these inputs the duplicate-link test never skips a link
   * (`NoLinkYet`); it is kept because the source has it.
   */
  method LinkParents(nodes: seq<TreeNode>, nodeNames: set<string>) returns (links: seq<TreeLink>)
    requires DistinctIds(nodes)
    ensures links == InferredLinks(nodes, nodeNames)
  {
    links := [];
    for i := 0 to |nodes|
      invariant links == InferredLinks(nodes[..i], nodeNames)
    {
      assert nodes[..i + 1][..i] == nodes[..i];
      var node := nodes[i];
      if node.id == "home" {
        continue;
      }
      NoLinkYet(nodes, i, nodeNames);
      var parentId, foundParent := FindParent(node.id, nodeNames);
      if foundParent {
        if !LinkExists(links, parentId, node.id) {
          links := links + [TreeLink(parentId, node.id, 1.0)];
        }
      }
      if !foundParent {
        if !LinkExists(links, "home", node.id) {
          links := links + [TreeLink("home", node.id, 1.0)];
        }
      }
    }
    assert nodes[..|nodes|] == nodes;
  }

  /**
   * The second node loop: a node no link reaches gets one from `home`. After
   * `LinkParents` every node other than `home` already has its parent link,
   * so on the output of `ParseLinks` this pass adds nothing (its last
   * postcondition); it is kept because the source has it.
   */
  method LinkOrphans(nodes: seq<TreeNode>, links0: seq<TreeLink>) returns (links: seq<TreeLink>)
    ensures |links0| <= |links| && links[..|links0|] == links0
    ensures forall x :: x in IdList(nodes) && x != "home" ==> HasParentLink(links, x)
    ensures (forall x :: x in IdList(nodes) && x != "home" ==> HasParentLink(links0, x)) ==> links == links0
  {
    links := links0;
    for i := 0 to |nodes|
      invariant |links0| <= |links| && links[..|links0|] == links0
      invariant forall j :: 0 <= j < i && nodes[j].id != "home" ==> HasParentLink(links, nodes[j].id)
      invariant (forall x :: x in IdList(nodes) && x != "home" ==> HasParentLink(links0, x)) ==> links == links0
    {
      var id := nodes[i].id;
      if id == "home" {
        continue;
      }
      var hasParent := HasParentLink(links, id);
      if !hasParent {
        HasParentLinkAppend(links, TreeLink("home", id, 1.0));
        links := links + [TreeLink("home", id, 1.0)];
      }
    }
  }

  /**
   * `parseLinks` from the anchors of the page on: count and merge the
   * accepted anchors, add `home` if it is missing, push a parent link for
   * every other node, then give `home` as parent to any node left without
   * one.
   */
  method ParseLinks(anchors: seq<Anchor>) returns (r: ParseResult)
    ensures r.parsedCount == AcceptedCount(anchors)
    ensures r.nodes == WithHome(NodesFrom(anchors))
    ensures r.links == InferredLinks(r.nodes, Ids(r.nodes))
    ensures IsTree(r.nodes, r.links)
  {
    var nodes, parsedCount := CollectNodes(anchors);
    if IndexOfId(nodes, "home") == -1 {
      nodes := nodes + [HomeNode];
    }
    NodesFromAnchors(anchors);
    WithHomeIds(NodesFrom(anchors));
    var nodeNames := Ids(nodes);
    var links := LinkParents(nodes, nodeNames);
    InferredLinksShape(nodes, nodeNames);
    links := LinkOrphans(nodes, links);
    InferredTree(nodes);
    r := ParseResult(nodes, links, parsedCount);
  }
}
