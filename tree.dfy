/** The search tree of mcts.py as an arena: nodes live in a sequence, a
    child always comes after its parent, and the parent link is an index. */
module Tree {
  import opened Wrappers

  /** One line of accumulated dialogue: who spoke, what, and the state note
      shown with it, if any. */
  datatype Line = Line(speaker: string, text: string, note: Option<string>)

  /** `MCTSNode`: the dialogue so far, the characters who may speak next,
      the parent link, the children in creation order, the speaker and text
      of this node (absent at the root), and the search statistics. */
  datatype Node = Node(
    dialogue: seq<Line>,
    next: seq<string>,
    parent: Option<nat>,
    children: seq<nat>,
    character: Option<string>,
    text: string,
    visits: nat,
    reward: real,
    done: bool)

  /** Every parent comes before its child, and only the root has none. */
  ghost predicate Links(nodes: seq<Node>)
  {
    && |nodes| > 0
    && nodes[0].parent.None?
    && forall i :: 0 < i < |nodes| ==> nodes[i].parent.Some? && nodes[i].parent.value < i
  }

  /** The children lists agree with the parent links: each list is strictly
      increasing, and holds exactly the nodes whose parent is its owner. */
  ghost predicate ChildLists(nodes: seq<Node>)
    requires Links(nodes)
  {
    && (forall i, k :: 0 <= i < |nodes| && 0 <= k < |nodes[i].children| ==>
          i < nodes[i].children[k] < |nodes| && nodes[nodes[i].children[k]].parent == Some(i))
    && (forall i, k1, k2 :: 0 <= i < |nodes| && 0 <= k1 < k2 < |nodes[i].children| ==>
          nodes[i].children[k1] < nodes[i].children[k2])
    && (forall q :: 0 < q < |nodes| ==> q in nodes[nodes[q].parent.value].children)
  }

  /** The root speaks no line; every other node is spoken by a character its
      parent allowed to speak next. */
  ghost predicate Speakers(nodes: seq<Node>)
    requires Links(nodes)
  {
    && nodes[0].character.None? && nodes[0].text == ""
    && forall q :: 0 < q < |nodes| ==>
         nodes[q].character.Some? && nodes[q].character.value in nodes[nodes[q].parent.value].next
  }

  ghost predicate WellFormed(nodes: seq<Node>)
  {
    Links(nodes) && ChildLists(nodes) && Speakers(nodes)
  }

  // ---------------------------------------------------------------------
  // The path from a node to the root
  // ---------------------------------------------------------------------

  /** The nodes on the parent chain from `n` to the root, both included. */
  ghost function Path(nodes: seq<Node>, n: nat): set<nat>
    requires Links(nodes) && n < |nodes|
    decreases n
  {
    {n} + match nodes[n].parent
          case None => {}
          case Some(p) => Path(nodes, p)
  }

  lemma {:induction false} PathBelow(nodes: seq<Node>, n: nat, x: nat)
    requires Links(nodes) && n < |nodes| && x in Path(nodes, n)
    ensures x <= n
    decreases n
  {
    if x != n { PathBelow(nodes, nodes[n].parent.value, x); }
  }

  lemma {:induction false} PathHasRoot(nodes: seq<Node>, n: nat)
    requires Links(nodes) && n < |nodes|
    ensures 0 in Path(nodes, n)
    decreases n
  {
    if n > 0 { PathHasRoot(nodes, nodes[n].parent.value); }
  }

  /** The path is closed under the parent link. */
  lemma {:induction false} PathClosed(nodes: seq<Node>, n: nat, x: nat)
    requires Links(nodes) && n < |nodes| && x < |nodes| && x in Path(nodes, n) && nodes[x].parent.Some?
    ensures nodes[x].parent.value in Path(nodes, n)
    decreases n
  {
    if x != n { PathClosed(nodes, nodes[n].parent.value, x); }
  }

  /** Any two nodes of a path lie on one chain: the smaller is an ancestor of the larger. */
  lemma {:induction false} PathChain(nodes: seq<Node>, n: nat, x: nat, y: nat)
    requires Links(nodes) && n < |nodes| && y < |nodes| && x in Path(nodes, n) && y in Path(nodes, n) && x < y
    ensures x in Path(nodes, y)
    decreases n
  {
    if y != n {
      assert x != n by { PathBelow(nodes, n, y); }
      PathChain(nodes, nodes[n].parent.value, x, y);
    }
  }

  /** A path passes through at most one child of any node. */
  lemma OneChildOnPath(nodes: seq<Node>, n: nat, j1: nat, j2: nat)
    requires Links(nodes) && n < |nodes|
    requires j1 in Path(nodes, n) && j2 in Path(nodes, n)
    requires j1 < |nodes| && j2 < |nodes| && nodes[j1].parent.Some? && nodes[j1].parent == nodes[j2].parent
    ensures j1 == j2
  {
    if j1 < j2 {
      PathChain(nodes, n, j1, j2);
      PathBelow(nodes, nodes[j2].parent.value, j1);
    } else if j2 < j1 {
      PathChain(nodes, n, j2, j1);
      PathBelow(nodes, nodes[j1].parent.value, j2);
    }
  }

  // ---------------------------------------------------------------------
  // Visit sums
  // ---------------------------------------------------------------------

  ghost function SumVisits(nodes: seq<Node>, cs: seq<nat>): nat
    requires forall k :: 0 <= k < |cs| ==> cs[k] < |nodes|
  {
    if |cs| == 0 then 0 else nodes[cs[0]].visits + SumVisits(nodes, cs[1..])
  }

  /** Every node has been visited at least as often as all its children together. */
  ghost predicate VisitsCover(nodes: seq<Node>)
    requires WellFormed(nodes)
  {
    forall i :: 0 <= i < |nodes| ==> nodes[i].visits >= SumVisits(nodes, nodes[i].children)
  }

  ghost function CountIn(cs: seq<nat>, a: set<nat>): nat
  {
    if |cs| == 0 then 0 else (if cs[0] in a then 1 else 0) + CountIn(cs[1..], a)
  }

  lemma {:induction false} SumBumped(before: seq<Node>, after: seq<Node>, cs: seq<nat>, a: set<nat>)
    requires |before| == |after|
    requires forall k :: 0 <= k < |cs| ==> cs[k] < |before|
    requires forall j :: 0 <= j < |before| ==> after[j].visits == before[j].visits + (if j in a then 1 else 0)
    ensures SumVisits(after, cs) == SumVisits(before, cs) + CountIn(cs, a)
  {
    if |cs| > 0 { SumBumped(before, after, cs[1..], a); }
  }

  lemma {:induction false} SumSame(before: seq<Node>, after: seq<Node>, cs: seq<nat>)
    requires forall k :: 0 <= k < |cs| ==> cs[k] < |before| && cs[k] < |after|
    requires forall k :: 0 <= k < |cs| ==> after[cs[k]].visits == before[cs[k]].visits
    ensures SumVisits(after, cs) == SumVisits(before, cs)
  {
    if |cs| > 0 { SumSame(before, after, cs[1..]); }
  }

  lemma {:induction false} SumAppend(nodes: seq<Node>, cs: seq<nat>, ds: seq<nat>)
    requires forall k :: 0 <= k < |cs| ==> cs[k] < |nodes|
    requires forall k :: 0 <= k < |ds| ==> ds[k] < |nodes|
    ensures SumVisits(nodes, cs + ds) == SumVisits(nodes, cs) + SumVisits(nodes, ds)
  {
    if |cs| > 0 {
      assert (cs + ds)[1..] == cs[1..] + ds;
      SumAppend(nodes, cs[1..], ds);
    } else {
      assert cs + ds == ds;
    }
  }

  lemma {:induction false} SumZero(nodes: seq<Node>, ds: seq<nat>)
    requires forall k :: 0 <= k < |ds| ==> ds[k] < |nodes| && nodes[ds[k]].visits == 0
    ensures SumVisits(nodes, ds) == 0
  {
    if |ds| > 0 { SumZero(nodes, ds[1..]); }
  }

  lemma {:induction false} CountAtMostOne(cs: seq<nat>, a: set<nat>)
    requires forall k1, k2 :: 0 <= k1 < k2 < |cs| ==> cs[k1] != cs[k2]
    requires forall k1, k2 :: 0 <= k1 < |cs| && 0 <= k2 < |cs| && cs[k1] in a && cs[k2] in a ==> k1 == k2
    ensures CountIn(cs, a) <= 1
  {
    if |cs| > 0 {
      if cs[0] in a {
        CountNone(cs[1..], a);
      } else {
        CountAtMostOne(cs[1..], a);
      }
    }
  }

  lemma {:induction false} CountNone(cs: seq<nat>, a: set<nat>)
    requires forall k :: 0 <= k < |cs| ==> cs[k] !in a
    ensures CountIn(cs, a) == 0
  {
    if |cs| > 0 { CountNone(cs[1..], a); }
  }

  /** The statistics after a reward is added along the path from `n`. */
  ghost predicate Backpropagated(before: seq<Node>, after: seq<Node>, n: nat, reward: real)
    requires Links(before) && n < |before|
  {
    && |after| == |before|
    && forall j :: 0 <= j < |before| ==>
         after[j] == if j in Path(before, n)
                     then before[j].(visits := before[j].visits + 1, reward := before[j].reward + reward)
                     else before[j]
  }

  /** The tree after a reward is added along the path from `n`. */
  ghost function Backprop(before: seq<Node>, n: nat, reward: real): (after: seq<Node>)
    requires Links(before) && n < |before|
    ensures Backpropagated(before, after, n, reward)
  {
    seq(|before|, j requires 0 <= j < |before| =>
      if j in Path(before, n)
      then before[j].(visits := before[j].visits + 1, reward := before[j].reward + reward)
      else before[j])
  }

  /** Backpropagation has one outcome. */
  lemma BackpropUnique(before: seq<Node>, after: seq<Node>, n: nat, reward: real)
    requires Links(before) && n < |before| && Backpropagated(before, after, n, reward)
    ensures after == Backprop(before, n, reward)
  {
  }

  /** The root gains one visit and the whole reward. */
  lemma BackpropRoot(before: seq<Node>, n: nat, reward: real)
    requires Links(before) && n < |before|
    ensures Backprop(before, n, reward)[0] == before[0].(visits := before[0].visits + 1, reward := before[0].reward + reward)
  {
    PathHasRoot(before, n);
  }

  /** Backpropagation keeps the tree well formed and adds one visit to the root. */
  lemma BackpropagateShape(before: seq<Node>, after: seq<Node>, n: nat, reward: real)
    requires WellFormed(before) && n < |before| && Backpropagated(before, after, n, reward)
    ensures WellFormed(after)
    ensures after[0].visits == before[0].visits + 1
  {
    PathHasRoot(before, n);
    forall j | 0 <= j < |after|
      ensures Shape(after[j]) == Shape(before[j])
    {}
    ShapeKept(before, after);
  }

  /** The parts of a node that make up the tree's shape. */
  function Shape(n: Node): (seq<string>, Option<nat>, seq<nat>, Option<string>, string)
  {
    (n.next, n.parent, n.children, n.character, n.text)
  }

  /** A tree whose nodes change only in their statistics stays well formed. */
  lemma ShapeKept(before: seq<Node>, after: seq<Node>)
    requires WellFormed(before) && |after| == |before|
    requires forall j :: 0 <= j < |before| ==> Shape(after[j]) == Shape(before[j])
    ensures WellFormed(after)
  {
    forall j | 0 <= j < |before|
      ensures after[j].parent == before[j].parent && after[j].children == before[j].children
      ensures after[j].character == before[j].character && after[j].text == before[j].text
      ensures after[j].next == before[j].next
    {
      assert Shape(after[j]) == Shape(before[j]);
    }
    assert Links(after);
    forall i, k | 0 <= i < |after| && 0 <= k < |after[i].children|
      ensures i < after[i].children[k] < |after| && after[after[i].children[k]].parent == Some(i)
    {
      assert after[i].children[k] == before[i].children[k];
    }
    forall i, k1, k2 | 0 <= i < |after| && 0 <= k1 < k2 < |after[i].children|
      ensures after[i].children[k1] < after[i].children[k2]
    {
      assert after[i].children == before[i].children;
    }
    forall q | 0 < q < |after|
      ensures q in after[after[q].parent.value].children
    {
      assert before[q].parent.value < |before|;
      assert q in before[before[q].parent.value].children;
    }
    assert ChildLists(after);
    forall q | 0 < q < |after|
      ensures after[q].character.Some? && after[q].character.value in after[after[q].parent.value].next
    {
      assert before[q].parent.value < |before|;
      assert before[q].character.value in before[before[q].parent.value].next;
    }
    assert Speakers(after);
  }

  /** Along the path, a node gains one visit and its children together gain
      at most one; off the path, neither changes. */
  lemma BackpropagateCoverAt(before: seq<Node>, after: seq<Node>, n: nat, reward: real, i: nat)
    requires WellFormed(before) && n < |before| && Backpropagated(before, after, n, reward)
    requires i < |before| && before[i].visits >= SumVisits(before, before[i].children)
    ensures after[i].visits >= SumVisits(after, before[i].children)
  {
    var a := Path(before, n);
    var cs := before[i].children;
    SumBumped(before, after, cs, a);
    if i in a {
      forall k1, k2 | 0 <= k1 < k2 < |cs| ensures cs[k1] != cs[k2] { assert cs[k1] < cs[k2]; }
      forall k1, k2 | 0 <= k1 < |cs| && 0 <= k2 < |cs| && cs[k1] in a && cs[k2] in a ensures k1 == k2 {
        OneChildOnPath(before, n, cs[k1], cs[k2]);
      }
      CountAtMostOne(cs, a);
    } else {
      forall k | 0 <= k < |cs| ensures cs[k] !in a {
        if cs[k] in a { PathClosed(before, n, cs[k]); }
      }
      CountNone(cs, a);
    }
  }

  /** Backpropagation keeps every node's visits at least its children's. */
  lemma BackpropagateCover(before: seq<Node>, after: seq<Node>, n: nat, reward: real)
    requires WellFormed(before) && n < |before| && Backpropagated(before, after, n, reward)
    requires VisitsCover(before)
    ensures WellFormed(after) && VisitsCover(after)
  {
    BackpropagateShape(before, after, n, reward);
    forall i | 0 <= i < |after| ensures after[i].visits >= SumVisits(after, after[i].children) {
      assert after[i].children == before[i].children;
      BackpropagateCoverAt(before, after, n, reward, i);
    }
  }
}
