/**
 * The ranking list beside the graph (app/components/ranking-panel.tsx): the
 * nodes sorted by rank, highest first, on a copy, each shown with its place,
 * its name and its rank as votes out of 100 visitors.
 */
module RankingPanel {
  import opened Wrappers

  datatype RankNode = RankNode(id: string, labelText: Option<string>, rank: real)

  /** One line of the list. */
  datatype Row = Row(position: nat, name: string, votes: int)

  const TotalVisitors: real := 100.0

  /** Ranks never increase along `s`. */
  predicate NonIncreasing(s: seq<RankNode>) {
    forall i, j :: 0 <= i < j < |s| ==> s[i].rank >= s[j].rank
  }

  /**
   * `x` placed after every node of `s` whose rank is at least its own, so
   * that nodes of equal rank keep their order (the sort is stable).
   */
  function Insert(x: RankNode, s: seq<RankNode>): (r: seq<RankNode>)
    ensures multiset(r) == multiset(s) + multiset{x}
    ensures |r| == |s| + 1
  {
    if s == [] then [x]
    else if s[0].rank >= x.rank then
      assert s == [s[0]] + s[1..];
      [s[0]] + Insert(x, s[1..])
    else [x] + s
  }

  lemma {:induction false} InsertSorted(x: RankNode, s: seq<RankNode>)
    requires NonIncreasing(s)
    ensures NonIncreasing(Insert(x, s))
  {
    if s != [] && s[0].rank >= x.rank {
      InsertSorted(x, s[1..]);
      var r := Insert(x, s[1..]);
      forall k | 0 <= k < |r|
        ensures s[0].rank >= r[k].rank
      {
        assert r[k] in multiset(r);
        if r[k] != x {
          assert r[k] in s[1..];
        }
      }
    }
  }

  /** `[...nodes].sort((a, b) => b.rank - a.rank)`: a stable sort, highest rank first. */
  function SortByRank(nodes: seq<RankNode>): (r: seq<RankNode>)
    ensures multiset(r) == multiset(nodes)
    ensures |r| == |nodes|
  {
    if nodes == [] then []
    else
      var front := nodes[..|nodes| - 1];
      assert nodes == front + [nodes[|nodes| - 1]];
      Insert(nodes[|nodes| - 1], SortByRank(front))
  }

  /** The sorted list is in non-increasing order of rank. */
  lemma {:induction false} SortByRankSorted(nodes: seq<RankNode>)
    ensures NonIncreasing(SortByRank(nodes))
  {
    if nodes != [] {
      SortByRankSorted(nodes[..|nodes| - 1]);
      InsertSorted(nodes[|nodes| - 1], SortByRank(nodes[..|nodes| - 1]));
    }
  }

  /** The nodes of `s` whose rank is `v`, in their order in `s`. */
  function OfRank(s: seq<RankNode>, v: real): seq<RankNode> {
    if s == [] then [] else KeptIf(s[0], v) + OfRank(s[1..], v)
  }

  /** `[n]` when `n` has rank `v`, otherwise nothing. */
  function KeptIf(n: RankNode, v: real): seq<RankNode> {
    if n.rank == v then [n] else []
  }

  lemma OfRankCons(n: RankNode, s: seq<RankNode>, v: real)
    ensures OfRank([n] + s, v) == KeptIf(n, v) + OfRank(s, v)
  {
    assert ([n] + s)[1..] == s;
  }

  lemma {:induction false} OfRankAppend(a: seq<RankNode>, b: seq<RankNode>, v: real)
    ensures OfRank(a + b, v) == OfRank(a, v) + OfRank(b, v)
  {
    if a == [] {
      assert a + b == b;
    } else {
      var t := a[1..] + b;
      assert a + b == [a[0]] + t;
      calc {
        OfRank(a + b, v);
      == { OfRankCons(a[0], t, v); }
        KeptIf(a[0], v) + OfRank(t, v);
      == { OfRankAppend(a[1..], b, v); }
        KeptIf(a[0], v) + (OfRank(a[1..], v) + OfRank(b, v));
      == { ConcatAssoc(KeptIf(a[0], v), OfRank(a[1..], v), OfRank(b, v)); }
        (KeptIf(a[0], v) + OfRank(a[1..], v)) + OfRank(b, v);
      }
    }
  }

  lemma ConcatAssoc(x: seq<RankNode>, y: seq<RankNode>, z: seq<RankNode>)
    ensures x + (y + z) == (x + y) + z
  {
  }

  lemma {:induction false} OfRankNone(s: seq<RankNode>, v: real)
    requires forall i :: 0 <= i < |s| ==> s[i].rank < v
    ensures OfRank(s, v) == []
  {
    if s != [] {
      OfRankNone(s[1..], v);
    }
  }

  lemma NonIncreasingTail(s: seq<RankNode>)
    requires s != [] && NonIncreasing(s)
    ensures NonIncreasing(s[1..])
    ensures forall i :: 0 <= i < |s| ==> s[i].rank <= s[0].rank
  {
    forall i, j | 0 <= i < j < |s[1..]| ensures s[1..][i].rank >= s[1..][j].rank {
      assert s[1..][i] == s[i + 1] && s[1..][j] == s[j + 1];
    }
  }

  /** Inserting into a sorted list puts `x` after every node of its own rank. */
  lemma {:induction false} InsertOfRank(x: RankNode, s: seq<RankNode>, v: real)
    requires NonIncreasing(s)
    ensures OfRank(Insert(x, s), v) == OfRank(s, v) + KeptIf(x, v)
  {
    if s == [] {
      assert Insert(x, s) == [x] + [];
      OfRankCons(x, [], v);
    } else {
      NonIncreasingTail(s);
      if s[0].rank >= x.rank {
        InsertOfRank(x, s[1..], v);
        InsertAfterHead(x, s, v);
      } else {
        InsertAtHead(x, s, v);
      }
    }
  }

  lemma InsertAfterHead(x: RankNode, s: seq<RankNode>, v: real)
    requires s != [] && s[0].rank >= x.rank
    requires OfRank(Insert(x, s[1..]), v) == OfRank(s[1..], v) + KeptIf(x, v)
    ensures OfRank(Insert(x, s), v) == OfRank(s, v) + KeptIf(x, v)
  {
    var r := Insert(x, s[1..]);
    assert Insert(x, s) == [s[0]] + r;
    calc {
      OfRank(Insert(x, s), v);
    == { OfRankCons(s[0], r, v); }
      KeptIf(s[0], v) + OfRank(r, v);
    ==
      KeptIf(s[0], v) + (OfRank(s[1..], v) + KeptIf(x, v));
    == { ConcatAssoc(KeptIf(s[0], v), OfRank(s[1..], v), KeptIf(x, v)); }
      (KeptIf(s[0], v) + OfRank(s[1..], v)) + KeptIf(x, v);
    }
  }

  lemma InsertAtHead(x: RankNode, s: seq<RankNode>, v: real)
    requires s != [] && s[0].rank < x.rank
    requires forall i :: 0 <= i < |s| ==> s[i].rank <= s[0].rank
    ensures OfRank(Insert(x, s), v) == OfRank(s, v) + KeptIf(x, v)
  {
    assert Insert(x, s) == [x] + s;
    OfRankCons(x, s, v);
    if x.rank == v {
      OfRankNone(s, v);
      assert KeptIf(x, v) + [] == [] + KeptIf(x, v);
    } else {
      assert OfRank(s, v) + [] == OfRank(s, v);
    }
  }

  /** The sort is stable: the nodes of any one rank keep their relative order. */
  lemma {:induction false} SortByRankStable(nodes: seq<RankNode>, v: real)
    ensures OfRank(SortByRank(nodes), v) == OfRank(nodes, v)
  {
    if nodes != [] {
      var front, last := nodes[..|nodes| - 1], nodes[|nodes| - 1];
      SortByRankSorted(front);
      SortByRankStable(front, v);
      InsertOfRank(last, SortByRank(front), v);
      OfRankAppend(front, [last], v);
      assert front + [last] == nodes;
      OfRankCons(last, [], v);
      assert [last] + [] == [last];
    }
  }

  /** `sortedNodes`: no node list gives an empty list; otherwise its nodes, sorted. */
  function SortedNodes(nodes: Option<seq<RankNode>>): (r: seq<RankNode>)
    ensures nodes.None? ==> r == []
    ensures nodes.Some? ==> multiset(r) == multiset(nodes.value) && NonIncreasing(r)
  {
    if nodes.None? then []
    else
      SortByRankSorted(nodes.value);
      SortByRank(nodes.value)
  }

  /** `Math.round`: the nearest integer, halves rounded up. */
  function Round(x: real): (n: int)
    ensures x - 0.5 < n as real <= x + 0.5
  {
    (x + 0.5).Floor
  }

  /** `node.label || node.id`. */
  function DisplayName(n: RankNode): string {
    if n.labelText.Some? && n.labelText.value != [] then n.labelText.value else n.id
  }

  /** The rows of the list: place i + 1, the name, and the rank as rounded votes. */
  function Rows(sorted: seq<RankNode>): (rows: seq<Row>)
    ensures |rows| == |sorted|
    ensures forall i :: 0 <= i < |sorted| ==>
      rows[i] == Row(i + 1, DisplayName(sorted[i]), Round(sorted[i].rank * TotalVisitors))
  {
    seq(|sorted|, i requires 0 <= i < |sorted| => Row(i + 1, DisplayName(sorted[i]), Round(sorted[i].rank * TotalVisitors)))
  }

  /** Votes follow the order of the list: a higher place never shows fewer votes. */
  lemma RowsVotesNonIncreasing(nodes: Option<seq<RankNode>>)
    ensures var rows := Rows(SortedNodes(nodes));
      forall i, j :: 0 <= i < j < |rows| ==> rows[i].votes >= rows[j].votes
  {
    var sorted := SortedNodes(nodes);
    var rows := Rows(sorted);
    forall i, j | 0 <= i < j < |rows|
      ensures rows[i].votes >= rows[j].votes
    {
      assert sorted[i].rank >= sorted[j].rank;
      RoundMonotone(sorted[j].rank * TotalVisitors, sorted[i].rank * TotalVisitors);
    }
  }

  lemma RoundMonotone(x: real, y: real)
    requires x <= y
    ensures Round(x) <= Round(y)
  {
  }

  const SampleA: RankNode := RankNode("A", None, 0.1)
  const SampleB: RankNode := RankNode("B", Some("Bee"), 0.5)
  const SampleC: RankNode := RankNode("C", Some(""), 0.4)

  lemma SortPairExample()
    ensures SortByRank([SampleA, SampleB]) == [SampleB, SampleA]
  {
    assert [SampleA, SampleB][..1] == [SampleA] && [SampleA][..0] == [];
    assert SortByRank([SampleA]) == [SampleA];
  }

  /** A sample: ranks 0.1, 0.5, 0.4 sort to B, C, A. */
  lemma SortExample()
    ensures SortedNodes(Some([SampleA, SampleB, SampleC])) == [SampleB, SampleC, SampleA]
  {
    assert [SampleA, SampleB, SampleC][..2] == [SampleA, SampleB];
    SortPairExample();
    assert [SampleB, SampleA][1..] == [SampleA];
    assert Insert(SampleC, [SampleA]) == [SampleC, SampleA];
  }

  /** The rows of that sample: B (label "Bee") with 50 votes, C (empty label, so its id) with 40, A with 10. */
  lemma RowsExample()
    ensures Rows([SampleB, SampleC, SampleA])
         == [Row(1, "Bee", 50), Row(2, "C", 40), Row(3, "A", 10)]
  {
  }
}
