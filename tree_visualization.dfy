/**
 * The parts of the tree page that compute: the tag-balance check of the
 * HTML editor, the child lists of the navigation, the graph data handed to
 * the drawing, and the step-by-step walk through a traversal order.
 */
module TreeVisualization {
  import opened Wrappers
  import opened Seqs
  import opened JsText
  import opened TreeGraph
  import opened TreeBuild
  import opened PageRankProtocol
  import VoteFlow

  // ---------------------------------------------------------------------------
  // checkHtmlSyntax
  // ---------------------------------------------------------------------------

  /**
   * One match of the tag pattern `<\/?([a-zA-Z][a-zA-Z0-9]*)[^>]*>`: the
   * captured name, whether the match starts with `</`, and whether it ends
   * with `/>`.
   */
  datatype Tag = Tag(name: string, closing: bool, selfClosing: bool)

  /** The opening tags that need no closing tag, in lower case. */
  const VoidTags: seq<string> :=
    ["br", "hr", "img", "input", "meta", "link", "area", "base", "col", "embed", "source", "track", "wbr"]

  /** The void-tag test ignores case. */
  predicate IsVoid(name: string) {
    LowerAll(name) in VoidTags
  }

  /** What a tag does to the stack: push its name, pop a matching name, or nothing. */
  datatype Token = Open(name: string) | Close(name: string) | Skip

  /** A tag ending in `/>` and an opening void tag do nothing; other tags open or close by their exact name. */
  function TokenOf(t: Tag): Token {
    if t.selfClosing then Skip
    else if t.closing then Close(t.name)
    else if IsVoid(t.name) then Skip
    else Open(t.name)
  }

  function Tokens(tags: seq<Tag>): (r: seq<Token>)
    ensures |r| == |tags|
    ensures forall i :: 0 <= i < |tags| ==> r[i] == TokenOf(tags[i])
  {
    seq(|tags|, i requires 0 <= i < |tags| => TokenOf(tags[i]))
  }

  /** The stack after the tokens, starting from `stack`, or `None` once a closing tag does not match the top. */
  function Run(ts: seq<Token>, stack: seq<string>): Option<seq<string>>
    decreases |ts|
  {
    if ts == [] then Some(stack)
    else
      match ts[0]
      case Skip => Run(ts[1..], stack)
      case Open(name) => Run(ts[1..], stack + [name])
      case Close(name) =>
        if stack != [] && stack[|stack| - 1] == name then Run(ts[1..], stack[..|stack| - 1]) else None
  }

  /**
   * Properly nested tokens: skipped tags anywhere, and every opening tag
   * followed, after properly nested tokens, by a closing tag of exactly its
   * name.
   */
  ghost predicate Nested(ts: seq<Token>)
    decreases |ts|
  {
    if ts == [] then true
    else if ts[0].Skip? then Nested(ts[1..])
    else ts[0].Open? && exists k :: 1 <= k < |ts| && Matches(ts, k) && Nested(ts[1..k]) && Nested(ts[k + 1..])
  }

  /** The token at `k` closes the one at 0. */
  predicate Matches(ts: seq<Token>, k: int)
    requires 0 < k < |ts|
  {
    ts[0].Open? && ts[k] == Close(ts[0].name)
  }

  /**
   * Tokens that close the whole of `stack`, top first, each after properly
   * nested tokens, and end with properly nested tokens.
   */
  ghost predicate Closes(ts: seq<Token>, stack: seq<string>)
    decreases |stack|
  {
    if stack == [] then Nested(ts)
    else exists k :: 0 <= k < |ts| && ClosesAt(ts, stack, k)
  }

  ghost predicate ClosesAt(ts: seq<Token>, stack: seq<string>, k: int)
    requires stack != [] && 0 <= k < |ts|
    decreases |stack|, 0
  {
    Nested(ts[..k]) && ts[k] == Close(stack[|stack| - 1]) && Closes(ts[k + 1..], stack[..|stack| - 1])
  }

  /** Properly nested tokens leave the stack as they found it. */
  lemma {:induction false} NestedRun(ts: seq<Token>, rest: seq<Token>, stack: seq<string>)
    requires Nested(ts)
    ensures Run(ts + rest, stack) == Run(rest, stack)
    decreases |ts|
  {
    if ts == [] {
      assert ts + rest == rest;
    } else if ts[0].Skip? {
      assert (ts + rest)[1..] == ts[1..] + rest;
      NestedRun(ts[1..], rest, stack);
    } else {
      var k :| 1 <= k < |ts| && Matches(ts, k) && Nested(ts[1..k]) && Nested(ts[k + 1..]);
      NestedPairRun(ts, k, rest, stack);
    }
  }

  lemma {:induction false} NestedPairRun(ts: seq<Token>, k: nat, rest: seq<Token>, stack: seq<string>)
    requires ts != [] && ts[0].Open? && 1 <= k < |ts| && Matches(ts, k) && Nested(ts[1..k]) && Nested(ts[k + 1..])
    ensures Run(ts + rest, stack) == Run(rest, stack)
    decreases |ts|, 0
  {
    var name := ts[0].name;
    var tail := ts[k..] + rest;
    assert (ts + rest)[1..] == ts[1..k] + tail;
    assert Run(ts + rest, stack) == Run(ts[1..k] + tail, stack + [name]);
    NestedRun(ts[1..k], tail, stack + [name]);
    assert tail[1..] == ts[k + 1..] + rest;
    assert (stack + [name])[..|stack|] == stack;
    assert Run(tail, stack + [name]) == Run(ts[k + 1..] + rest, stack);
    NestedRun(ts[k + 1..], rest, stack);
  }

  lemma {:induction false} NestedConcat(x: seq<Token>, y: seq<Token>)
    requires Nested(x) && Nested(y)
    ensures Nested(x + y)
    decreases |x|
  {
    if x == [] {
      assert x + y == y;
    } else if x[0].Skip? {
      assert (x + y)[1..] == x[1..] + y;
      NestedConcat(x[1..], y);
    } else {
      var k :| 1 <= k < |x| && Matches(x, k) && Nested(x[1..k]) && Nested(x[k + 1..]);
      NestedConcat(x[k + 1..], y);
      PairConcat(x, y, k);
    }
  }

  /** An opening token, its nested body and its closing token, followed by nested tokens, are nested. */
  lemma PairConcat(x: seq<Token>, y: seq<Token>, k: nat)
    requires 1 <= k < |x| && Matches(x, k) && Nested(x[1..k]) && Nested(x[k + 1..] + y)
    ensures Nested(x + y)
  {
    var xy := x + y;
    assert xy[1..k] == x[1..k];
    assert xy[k + 1..] == x[k + 1..] + y;
    assert Matches(xy, k);
  }

  lemma PrefixCloses(x: seq<Token>, y: seq<Token>, stack: seq<string>)
    requires Nested(x) && Closes(y, stack)
    ensures Closes(x + y, stack)
  {
    if stack == [] {
      NestedConcat(x, y);
    } else {
      var k :| 0 <= k < |y| && ClosesAt(y, stack, k);
      NestedConcat(x, y[..k]);
      var xy := x + y;
      assert xy[..|x| + k] == x + y[..k];
      assert xy[|x| + k + 1..] == y[k + 1..];
      assert xy[|x| + k] == y[k];
      assert ClosesAt(xy, stack, |x| + k);
    }
  }

  /** Tokens that empty the stack close it, top first, between properly nested tokens. */
  lemma {:induction false} RunCloses(ts: seq<Token>, stack: seq<string>)
    requires Run(ts, stack) == Some([])
    ensures Closes(ts, stack)
    decreases |ts|
  {
    if ts != [] {
      var t := ts[0];
      assert ts == [t] + ts[1..];
      match t
      case Skip =>
        RunCloses(ts[1..], stack);
        assert Nested([t]) by {
          assert [t][1..] == [];
        }
        PrefixCloses([t], ts[1..], stack);
      case Close(name) =>
        RunCloses(ts[1..], stack[..|stack| - 1]);
        assert Nested(ts[..0]);
        assert ts[1..] == ts[0 + 1..];
        assert ClosesAt(ts, stack, 0);
      case Open(name) =>
        OpeningCloses(ts, stack);
    }
  }

  lemma {:induction false} OpeningCloses(ts: seq<Token>, stack: seq<string>)
    requires ts != [] && ts[0].Open? && Run(ts, stack) == Some([])
    ensures Closes(ts, stack)
    decreases |ts|, 0
  {
    var name := ts[0].name;
    var pushed := stack + [name];
    var tail := ts[1..];
    RunCloses(tail, pushed);
    var j :| 0 <= j < |tail| && ClosesAt(tail, pushed, j);
    assert pushed[..|pushed| - 1] == stack;
    var k := j + 1;
    var x := ts[..k + 1];
    assert x[1..k] == tail[..j];
    assert x[k + 1..] == [];
    assert Matches(x, k);
    assert Nested(x);
    assert ts[k + 1..] == tail[j + 1..];
    PrefixCloses(x, ts[k + 1..], stack);
    TakeDrop(ts, k + 1);
  }

  lemma TakeDrop(ts: seq<Token>, n: nat)
    requires n <= |ts|
    ensures ts[..n] + ts[n..] == ts
  {
  }

  /** The check's verdict: the tokens empty the stack exactly when they are properly nested. */
  lemma RunIffNested(ts: seq<Token>)
    ensures Run(ts, []) == Some([]) <==> Nested(ts)
  {
    if Nested(ts) {
      NestedRun(ts, [], []);
      assert ts + [] == ts;
    }
    if Run(ts, []) == Some([]) {
      RunCloses(ts, []);
    }
  }

  /** `checkHtmlSyntax` over the tags the pattern matches, in order. */
  method CheckHtmlSyntax(tags: seq<Tag>) returns (ok: bool)
    ensures ok <==> Run(Tokens(tags), []) == Some([])
    ensures ok <==> Nested(Tokens(tags))
  {
    RunIffNested(Tokens(tags));
    var tagStack: seq<string> := [];
    var i := 0;
    while i < |tags|
      invariant 0 <= i <= |tags|
      invariant Run(Tokens(tags), []) == Run(Tokens(tags)[i..], tagStack)
    {
      var tag := tags[i];
      assert Tokens(tags)[i..][1..] == Tokens(tags)[i + 1..];
      i := i + 1;
      if tag.selfClosing {
        continue;
      }
      if tag.closing {
        var lastTag: Option<string> := None;
        if tagStack != [] {
          lastTag := Some(tagStack[|tagStack| - 1]);
          tagStack := tagStack[..|tagStack| - 1];
        }
        if lastTag != Some(tag.name) {
          return false;
        }
      } else {
        if LowerAll(tag.name) !in VoidTags {
          tagStack := tagStack + [tag.name];
        }
      }
    }
    return tagStack == [];
  }

  /** Skipped tokens never change the outcome, wherever they stand. */
  lemma {:induction false} RunSkip(a: seq<Token>, b: seq<Token>, stack: seq<string>)
    ensures Run(a + [Skip] + b, stack) == Run(a + b, stack)
    decreases |a|
  {
    if a == [] {
      assert a + [Skip] + b == [Skip] + b;
      assert ([Skip] + b)[1..] == b;
      assert a + b == b;
    } else {
      assert (a + [Skip] + b)[1..] == a[1..] + [Skip] + b;
      assert (a + b)[1..] == a[1..] + b;
      assert (a + [Skip] + b)[0] == a[0] == (a + b)[0];
      match a[0]
      case Skip => RunSkip(a[1..], b, stack);
      case Open(name) => RunSkip(a[1..], b, stack + [name]);
      case Close(name) =>
        if stack != [] && stack[|stack| - 1] == name {
          RunSkip(a[1..], b, stack[..|stack| - 1]);
        }
    }
  }

  /** Inserting a self-closing or void tag anywhere never changes the verdict. */
  lemma NeutralIgnored(a: seq<Token>, b: seq<Token>)
    ensures Nested(a + [Skip] + b) <==> Nested(a + b)
  {
    RunSkip(a, b, []);
    RunIffNested(a + [Skip] + b);
    RunIffNested(a + b);
  }

  /** Opening tags minus closing tags. */
  function Balance(ts: seq<Token>): int
    decreases |ts|
  {
    if ts == [] then 0
    else (match ts[0] case Open(_) => 1 case Close(_) => -1 case Skip => 0) + Balance(ts[1..])
  }

  lemma {:induction false} BalanceConcat(x: seq<Token>, y: seq<Token>)
    ensures Balance(x + y) == Balance(x) + Balance(y)
    decreases |x|
  {
    if x == [] {
      assert x + y == y;
    } else {
      assert (x + y)[1..] == x[1..] + y;
      BalanceConcat(x[1..], y);
    }
  }

  lemma {:induction false} NestedBalanced(ts: seq<Token>)
    requires Nested(ts)
    ensures Balance(ts) == 0
    decreases |ts|
  {
    if ts != [] {
      if ts[0].Skip? {
        NestedBalanced(ts[1..]);
      } else {
        var k :| 1 <= k < |ts| && Matches(ts, k) && Nested(ts[1..k]) && Nested(ts[k + 1..]);
        NestedBalanced(ts[1..k]);
        NestedBalanced(ts[k + 1..]);
        PairBalance(ts, k);
      }
    }
  }

  /** An opening token and its closing token around and before balanced tokens are balanced. */
  lemma PairBalance(ts: seq<Token>, k: nat)
    requires 1 <= k < |ts| && Matches(ts, k) && Balance(ts[1..k]) == 0 && Balance(ts[k + 1..]) == 0
    ensures Balance(ts) == 0
  {
    assert ts[1..] == ts[1..k] + [ts[k]] + ts[k + 1..];
    BalanceConcat(ts[1..k] + [ts[k]], ts[k + 1..]);
    BalanceConcat(ts[1..k], [ts[k]]);
    assert [ts[k]][1..] == [];
  }

  /** An unclosed opening tag, or a closing tag too many, fails the check. */
  lemma UnbalancedRejected(tags: seq<Tag>)
    requires Balance(Tokens(tags)) != 0
    ensures !Nested(Tokens(tags))
  {
    if Nested(Tokens(tags)) {
      NestedBalanced(Tokens(tags));
    }
  }

  /** A closing tag before any opening tag fails the check. */
  lemma {:induction false} ClosingFirstRejected(name: string, rest: seq<Token>)
    ensures Run([Close(name)] + rest, []) == None
    ensures !Nested([Close(name)] + rest)
  {
    RunIffNested([Close(name)] + rest);
  }

  /** Closing names match case-sensitively, while the void test ignores case. */
  lemma CaseExamples()
    ensures !Nested(Tokens([Tag("div", false, false), Tag("DIV", true, false)]))
    ensures Nested(Tokens([Tag("BR", false, false)]))
    ensures Nested([])
  {
    var ts := Tokens([Tag("div", false, false), Tag("DIV", true, false)]);
    assert !IsVoid("div") by {
      assert LowerAll("div") == "div";
    }
    assert ts == [Open("div"), Close("DIV")];
    RunIffNested(ts);
    assert Run(ts, []) == None;
    var br := Tokens([Tag("BR", false, false)]);
    assert LowerAll("BR") == "br";
    assert br == [Skip];
    assert br[1..] == [];
  }

  // ---------------------------------------------------------------------------
  // buildChildMap
  // ---------------------------------------------------------------------------

  /** The fixed parent of each third-level page. */
  const ParentMap: map<string, string> :=
    map["calligraphy-intro" := "calligraphy", "opera-intro" := "opera", "tea-intro" := "tea"]

  const HomeChildren: seq<string> := ["calligraphy", "opera", "tea"]

  /** No page has the start page as its fixed parent. */
  predicate HomeIsRoot(parents: map<string, string>) {
    forall id :: id in parents ==> parents[id] != "home"
  }

  /** The keys among `keys` whose parent in `parents` is `p`, in key order, repeats kept. */
  function Children(keys: seq<string>, parents: map<string, string>, p: string): (r: seq<string>)
    ensures forall id :: id in r <==> id in keys && id in parents && parents[id] == p
  {
    if keys == [] then []
    else
      var last := keys[|keys| - 1];
      Children(keys[..|keys| - 1], parents, p) + (if last in parents && parents[last] == p then [last] else [])
  }

  /** Parent `p` has a list exactly when it has children, and the list holds each child once, in first-key order. */
  ghost predicate ListFor(childMap: map<string, seq<string>>, keys: seq<string>, parents: map<string, string>, p: string) {
    && (p in childMap <==> Children(keys, parents, p) != [])
    && (p in childMap ==> childMap[p] == FirstOccurrences(Children(keys, parents, p)))
  }

  /** The child lists in force after the keys seen so far. */
  ghost predicate ChildMapFor(childMap: map<string, seq<string>>, keys: seq<string>, parents: map<string, string>) {
    && "home" in childMap && childMap["home"] == HomeChildren
    && (forall p :: p != "home" ==> ListFor(childMap, keys, parents, p))
  }

  /**
   * `buildChildMap` over the keys of the node metadata, in their key order:
   * `home` keeps its three children, and every other parent lists its known
   * children once each, in the order of their first key.
   */
  method BuildChildMap(metaKeys: seq<string>) returns (childMap: map<string, seq<string>>)
    ensures ChildMapFor(childMap, metaKeys, ParentMap)
  {
    assert HomeIsRoot(ParentMap);
    childMap := map["home" := HomeChildren];
    for i := 0 to |metaKeys|
      invariant ChildMapFor(childMap, metaKeys[..i], ParentMap)
    {
      var id := metaKeys[i];
      assert metaKeys[..i + 1] == metaKeys[..i] + [id];
      if id in ParentMap {
        var p := ParentMap[id];
        var list := if p in childMap then childMap[p] else [];
        if id !in list {
          list := list + [id];
        }
        ChildMapAdd(childMap, metaKeys[..i], ParentMap, id, list);
        childMap := childMap[p := list];
      } else {
        ChildMapSkip(childMap, metaKeys[..i], ParentMap, id);
      }
    }
    assert metaKeys[..|metaKeys|] == metaKeys;
  }

  lemma ChildrenAppend(keys: seq<string>, parents: map<string, string>, id: string, q: string)
    ensures Children(keys + [id], parents, q)
         == Children(keys, parents, q) + (if id in parents && parents[id] == q then [id] else [])
  {
    assert (keys + [id])[..|keys|] == keys;
  }

  /** A key that is not a child of `q` leaves the children of `q` as they were. */
  lemma ChildrenOther(keys: seq<string>, parents: map<string, string>, id: string, q: string)
    requires !(id in parents && parents[id] == q)
    ensures Children(keys + [id], parents, q) == Children(keys, parents, q)
  {
    ChildrenAppend(keys, parents, id, q);
    assert Children(keys, parents, q) + [] == Children(keys, parents, q);
  }

  /** A key without a fixed parent leaves every list as it was. */
  lemma ChildMapSkip(childMap: map<string, seq<string>>, keys: seq<string>, parents: map<string, string>, id: string)
    requires ChildMapFor(childMap, keys, parents) && id !in parents
    ensures ChildMapFor(childMap, keys + [id], parents)
  {
    forall q | q != "home"
      ensures ListFor(childMap, keys + [id], parents, q)
    {
      ChildrenOther(keys, parents, id, q);
      assert ListFor(childMap, keys, parents, q);
    }
  }

  /** A key with a fixed parent is added to that parent's list unless it is there already. */
  lemma ChildMapAdd(childMap: map<string, seq<string>>, keys: seq<string>, parents: map<string, string>, id: string, list: seq<string>)
    requires ChildMapFor(childMap, keys, parents) && HomeIsRoot(parents) && id in parents
    requires var cur := if parents[id] in childMap then childMap[parents[id]] else [];
      list == if id in cur then cur else cur + [id]
    ensures ChildMapFor(childMap[parents[id] := list], keys + [id], parents)
  {
    var p := parents[id];
    var m, keys' := childMap[p := list], keys + [id];
    forall q | q != "home"
      ensures ListFor(m, keys', parents, q)
    {
      if q == p {
        ParentListGrows(childMap, keys, parents, id, list);
      } else {
        OtherListKept(childMap, keys, parents, id, q, list);
      }
    }
  }

  /** The lists of the other parents after the key. */
  lemma OtherListKept(childMap: map<string, seq<string>>, keys: seq<string>, parents: map<string, string>,
                      id: string, q: string, list: seq<string>)
    requires id in parents && q != parents[id] && ListFor(childMap, keys, parents, q)
    ensures ListFor(childMap[parents[id] := list], keys + [id], parents, q)
  {
    ChildrenOther(keys, parents, id, q);
  }

  /** The list of the key's own parent after the key. */
  lemma ParentListGrows(childMap: map<string, seq<string>>, keys: seq<string>, parents: map<string, string>,
                        id: string, list: seq<string>)
    requires id in parents && ListFor(childMap, keys, parents, parents[id])
    requires var cur := if parents[id] in childMap then childMap[parents[id]] else [];
      list == if id in cur then cur else cur + [id]
    ensures ListFor(childMap[parents[id] := list], keys + [id], parents, parents[id])
  {
    var p := parents[id];
    ChildrenAppend(keys, parents, id, p);
    var before := Children(keys, parents, p);
    FirstOccurrencesAppend(before, id);
    if p !in childMap {
      assert before == [];
      assert before + [id] == [id];
    }
  }

  /** Every metadata key with a parent appears exactly once in its parent's list. */
  lemma ChildListedOnce(childMap: map<string, seq<string>>, keys: seq<string>, parents: map<string, string>, id: string)
    requires ChildMapFor(childMap, keys, parents) && HomeIsRoot(parents)
    requires id in keys && id in parents
    ensures parents[id] in childMap
    ensures multiset(childMap[parents[id]])[id] == 1
  {
    var p := parents[id];
    assert ListFor(childMap, keys, parents, p);
    assert id in Children(keys, parents, p);
    DistinctOnce(childMap[p], id);
  }

  /** Only the start page and parents of listed keys get a list, and each list holds only their children. */
  lemma ChildMapShape(childMap: map<string, seq<string>>, keys: seq<string>, parents: map<string, string>)
    requires ChildMapFor(childMap, keys, parents)
    ensures forall p :: p in childMap && p != "home" ==> exists id :: id in keys && id in parents && parents[id] == p
    ensures forall p, c :: p in childMap && p != "home" && c in childMap[p] ==> c in keys && c in parents && parents[c] == p
  {
    forall p | p in childMap && p != "home"
      ensures exists id :: id in keys && id in parents && parents[id] == p
      ensures forall c :: c in childMap[p] ==> c in keys && c in parents && parents[c] == p
    {
      assert ListFor(childMap, keys, parents, p);
      var c := Children(keys, parents, p)[0];
      assert c in Children(keys, parents, p);
    }
  }

  // ---------------------------------------------------------------------------
  // generateGraphData
  // ---------------------------------------------------------------------------

  /**
   * Every node starts with the same share of rank. The source divides by the
   * node count, so no nodes would give Infinity; that case does not arise,
   * since parsing always adds `home`. It is given 0 here.
   */
  function InitialRank(nodes: seq<TreeNode>): real {
    if |nodes| == 0 then 0.0 else 1.0 / |nodes| as real
  }

  /**
   * The graph handed to the drawing: ids, labels, sources, targets and weights
   * copied, every rank 1/|nodes|, every flow 0, the first of three iterations
   * of PageRank with damping 0.85 and threshold 0.0001, and the traversal mode.
   */
  function GenerateGraphData(nodes: seq<TreeNode>, links: seq<TreeLink>, traversalMode: string): (g: GraphData)
    ensures |g.nodes| == |nodes| && |g.links| == |links|
    ensures forall i :: 0 <= i < |nodes| ==>
      g.nodes[i] == Node(nodes[i].id, Some(nodes[i].labelText), Some(InitialRank(nodes)), None, None)
    ensures forall i :: 0 <= i < |links| ==>
      g.links[i] == Link(links[i].source, links[i].target, Some(links[i].weight), Some(0.0))
    ensures g.currentIteration == Some(0) && g.maxIterations == Some(3)
    ensures g.dampingFactor == Some(DEFAULT_DAMPING_FACTOR) && g.threshold == Some(DEFAULT_THRESHOLD)
    ensures g.algo == ALGO_PAGERANK && g.traversalMode == Some(traversalMode)
  {
    var rank := InitialRank(nodes);
    GraphData(
      seq(|nodes|, i requires 0 <= i < |nodes| => Node(nodes[i].id, Some(nodes[i].labelText), Some(rank), None, None)),
      seq(|links|, i requires 0 <= i < |links| => Link(links[i].source, links[i].target, Some(links[i].weight), Some(0.0))),
      Some(0), Some(3), Some(0.85), Some(0.0001), "pagerank", Some(traversalMode))
  }

  /** `n` ranks of `w` each. */
  lemma {:induction false} EqualRanksTotal(ns: seq<Node>, w: real)
    requires forall i :: 0 <= i < |ns| ==> ns[i].rank == Some(w)
    ensures VoteFlow.RankTotal(ns) == |ns| as real * w
  {
    if ns != [] {
      EqualRanksTotal(ns[1..], w);
    }
  }

  /** With at least one node the initial ranks sum to exactly 1. */
  lemma InitialRanksSumToOne(nodes: seq<TreeNode>, links: seq<TreeLink>, traversalMode: string)
    requires nodes != []
    ensures VoteFlow.RankTotal(GenerateGraphData(nodes, links, traversalMode).nodes) == 1.0
  {
    var g := GenerateGraphData(nodes, links, traversalMode);
    EqualRanksTotal(g.nodes, InitialRank(nodes));
    var n := |nodes| as real;
    assert n * (1.0 / n) == 1.0;
  }

  // ---------------------------------------------------------------------------
  // handleStep and handleModeChange
  // ---------------------------------------------------------------------------

  /**
   * The step-by-step walk: how many nodes of the order have been shown, the
   * node highlighted (`None` where the page reads past the end of the order)
   * and the traversal mode.
   */
  datatype StepState = StepState(stepIndex: nat, currentNode: Option<string>, traversalMode: string)

  const InitialStep: StepState := StepState(0, Some("home"), "bfs")

  /** `next`, `prev` and `reset` over a traversal order; any other action does nothing. */
  function Step(s: StepState, action: string, order: seq<string>): (r: StepState)
    ensures r.traversalMode == s.traversalMode
    ensures action == "next" && s.stepIndex < |order| ==> r == s.(stepIndex := s.stepIndex + 1, currentNode := Some(order[s.stepIndex]))
    ensures action == "next" && s.stepIndex >= |order| ==> r == s
    ensures action == "prev" ==> r.stepIndex == (if s.stepIndex <= 1 then 1 else s.stepIndex - 1)
    ensures action == "prev" ==> r.currentNode == if r.stepIndex <= |order| then Some(order[r.stepIndex - 1]) else None
    ensures action == "reset" ==> r == s.(stepIndex := 0, currentNode := Some("home"))
    ensures action != "next" && action != "prev" && action != "reset" ==> r == s
  {
    if action == "next" then
      if s.stepIndex < |order| then s.(stepIndex := s.stepIndex + 1, currentNode := Some(order[s.stepIndex])) else s
    else if action == "prev" then
      var i := if s.stepIndex - 1 > 1 then s.stepIndex - 1 else 1;
      s.(stepIndex := i, currentNode := if i - 1 < |order| then Some(order[i - 1]) else None)
    else if action == "reset" then
      s.(stepIndex := 0, currentNode := Some("home"))
    else s
  }

  /**
   * The walk is in step with the order: at step 0 the start page is shown,
   * at step i > 0 the i-th node of the order.
   */
  predicate InStep(s: StepState, order: seq<string>) {
    && s.stepIndex <= |order|
    && s.currentNode == (if s.stepIndex == 0 then Some("home") else Some(order[s.stepIndex - 1]))
  }

  /** Every action keeps the walk in step with an order that is not empty. */
  lemma StepKeepsInStep(s: StepState, action: string, order: seq<string>)
    requires order != [] && InStep(s, order)
    ensures InStep(Step(s, action, order), order)
  {
  }

  /** `prev` undoes `next` once the walk has started and has not reached the end. */
  lemma PrevUndoesNext(s: StepState, order: seq<string>)
    requires InStep(s, order) && 1 <= s.stepIndex < |order|
    ensures Step(Step(s, "next", order), "prev", order) == s
  {
  }

  /** `next` applied `k` times. */
  function NextTimes(s: StepState, order: seq<string>, k: nat): StepState {
    if k == 0 then s else Step(NextTimes(s, order, k - 1), "next", order)
  }

  /** From a reset, `k` presses of `next` show the k-th node of the order, and stop at its end. */
  lemma {:induction false} NextWalksOrder(s: StepState, order: seq<string>, k: nat)
    requires s.stepIndex == 0
    ensures var m := if k < |order| then k else |order|;
      NextTimes(s, order, k) == s.(stepIndex := m, currentNode := if m == 0 then s.currentNode else Some(order[m - 1]))
  {
    if k > 0 {
      NextWalksOrder(s, order, k - 1);
    }
  }

  /**
   * `handleStep`: the order is rebuilt from the editor's links in the current
   * mode (breadth-first for "bfs", depth-first otherwise) and the action
   * applied to it.
   */
  method HandleStep(s: StepState, action: string, anchors: seq<Anchor>) returns (r: StepState, order: seq<string>)
    ensures |order| >= 1 && order[0] == "home" && Distinct(order)
    ensures forall v :: v in order <==> v in Ids(WithHome(NodesFrom(anchors)))
    ensures var nodes := WithHome(NodesFrom(anchors));
      EachFromEarlier(AdjacencyOf(nodes, InferredLinks(nodes, Ids(nodes))), order)
    ensures r == Step(s, action, order)
  {
    var result := ParseLinks(anchors);
    if s.traversalMode == "bfs" {
      order := GenerateBfsOrder(result.nodes, result.links);
    } else {
      order := GenerateDfsOrder(result.nodes, result.links);
    }
    TreeReachesExactlyNodes(result.nodes, result.links);
    r := Step(s, action, order);
  }

  /**
   * `handleModeChange`: the walk restarts at the start page in the new mode,
   * and the graph is rebuilt from the editor's links. The graph carries the
   * mode read by the page before the change takes effect.
   */
  method HandleModeChange(s: StepState, mode: string, anchors: seq<Anchor>) returns (r: StepState, g: GraphData)
    ensures r == StepState(0, Some("home"), mode)
    ensures g.traversalMode == Some(s.traversalMode)
    ensures var nodes := WithHome(NodesFrom(anchors));
      var links := InferredLinks(nodes, Ids(nodes));
      IsTree(nodes, links) && g == GenerateGraphData(nodes, links, s.traversalMode)
  {
    var result := ParseLinks(anchors);
    r := StepState(0, Some("home"), mode);
    g := GenerateGraphData(result.nodes, result.links, s.traversalMode);
  }
}
