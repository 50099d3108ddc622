/** The planner of mcts.py: a fresh search tree per call, grown by oracle
    samples and scored by talking-point matches and rollouts. */
module Planner {
  import opened Wrappers
  import opened Text
  import opened OracleStream
  import opened Tree
  import opened Ranking

  /** The constructor's default budget and branching. */
  const DefaultMaxIterations: nat := 10
  const DefaultNumExpand: nat := 2
  const DefaultPcExpand: nat := 5
  const DefaultRolloutDepth: nat := 2
  const DefaultRolloutWidth: nat := 1

  // ---------------------------------------------------------------------
  // Selection
  // ---------------------------------------------------------------------

  /** A UCB score: `float("inf")` for an unvisited node, a real otherwise. */
  datatype Score = Infinite | Finite(value: real)

  predicate Greater(a: Score, b: Score)
  {
    match a
    case Infinite => b.Finite?
    case Finite(x) => b.Finite? && x > b.value
  }

  /** `ucb` of a child whose parent has `parentVisits` visits. The exploration
      term `2 * x ** 0.5` of the source is the parameter `bonus`, applied to
      `x = 2 * parentVisits / visits`. */
  function Ucb(child: Node, parentVisits: nat, bonus: real -> real): Score
  {
    if child.visits == 0 then Infinite
    else Finite(child.reward / (child.visits as real) + bonus(2.0 * (parentVisits as real) / (child.visits as real)))
  }

  /** `max(xs, key=...)`: the first of the elements with the largest score. */
  function BestIndex(scores: seq<Score>): (k: nat)
    requires |scores| > 0
    ensures k < |scores|
    ensures forall j :: 0 <= j < |scores| ==> !Greater(scores[j], scores[k])
    ensures forall j :: 0 <= j < k ==> Greater(scores[k], scores[j])
  {
    if |scores| == 1 then 0
    else
      var k := BestIndex(scores[..|scores| - 1]);
      assert forall j :: 0 <= j < |scores| - 1 ==> scores[..|scores| - 1][j] == scores[j];
      if Greater(scores[|scores| - 1], scores[k]) then |scores| - 1 else k
  }

  /** The scores of the children of node `i`, in child order. */
  function ChildScores(nodes: seq<Node>, i: nat, bonus: real -> real): (s: seq<Score>)
    requires WellFormed(nodes) && i < |nodes|
    ensures |s| == |nodes[i].children|
    ensures forall k :: 0 <= k < |s| ==> s[k] == Ucb(nodes[nodes[i].children[k]], nodes[i].visits, bonus)
  {
    seq(|nodes[i].children|, k requires 0 <= k < |nodes[i].children| =>
      Ucb(nodes[nodes[i].children[k]], nodes[i].visits, bonus))
  }

  /** The child `select` moves to from node `i`. */
  function BestChild(nodes: seq<Node>, i: nat, bonus: real -> real): (c: nat)
    requires WellFormed(nodes) && i < |nodes| && |nodes[i].children| > 0
    ensures i < c < |nodes| && c in nodes[i].children
  {
    nodes[i].children[BestIndex(ChildScores(nodes, i, bonus))]
  }

  /** UCB prefers an unvisited node to any visited one, and between two
      nodes with the same visits the one with more reward. */
  lemma UcbPrefers(a: Node, b: Node, parentVisits: nat, bonus: real -> real)
    ensures a.visits == 0 ==> !Greater(Ucb(b, parentVisits, bonus), Ucb(a, parentVisits, bonus))
    ensures a.visits == 0 && b.visits > 0 ==> Greater(Ucb(a, parentVisits, bonus), Ucb(b, parentVisits, bonus))
    ensures a.visits == b.visits > 0 && a.reward > b.reward ==>
      Greater(Ucb(a, parentVisits, bonus), Ucb(b, parentVisits, bonus))
  {
    if a.visits == b.visits > 0 && a.reward > b.reward {
      var v := a.visits as real;
      assert a.reward / v > b.reward / v by {
        assert a.reward / v * v == a.reward && b.reward / v * v == b.reward;
      }
    }
  }

  /** `select` moves to a child whose UCB no sibling beats, and every
      sibling before it scores strictly lower. */
  lemma BestChildMaximal(nodes: seq<Node>, i: nat, bonus: real -> real)
    requires WellFormed(nodes) && i < |nodes| && |nodes[i].children| > 0
    ensures forall k :: 0 <= k < |nodes[i].children| ==>
      !Greater(Ucb(nodes[nodes[i].children[k]], nodes[i].visits, bonus), Ucb(nodes[BestChild(nodes, i, bonus)], nodes[i].visits, bonus))
    ensures forall k :: 0 <= k < |nodes[i].children| && nodes[i].children[k] < BestChild(nodes, i, bonus) ==>
      Greater(Ucb(nodes[BestChild(nodes, i, bonus)], nodes[i].visits, bonus), Ucb(nodes[nodes[i].children[k]], nodes[i].visits, bonus))
  {
    var c := nodes[i].children;
    var s := ChildScores(nodes, i, bonus);
    var b := BestIndex(s);
    assert BestChild(nodes, i, bonus) == c[b];
    assert s[b] == Ucb(nodes[c[b]], nodes[i].visits, bonus);
    forall k | 0 <= k < |c|
      ensures !Greater(Ucb(nodes[c[k]], nodes[i].visits, bonus), Ucb(nodes[c[b]], nodes[i].visits, bonus))
    {
      assert s[k] == Ucb(nodes[c[k]], nodes[i].visits, bonus);
    }
    forall k | 0 <= k < |c| && c[k] < c[b]
      ensures Greater(Ucb(nodes[c[b]], nodes[i].visits, bonus), Ucb(nodes[c[k]], nodes[i].visits, bonus))
    {
      AscendingIndex(c, k, b);
      assert s[k] == Ucb(nodes[c[k]], nodes[i].visits, bonus);
    }
  }

  /** In a strictly increasing list, the smaller entry comes first. */
  lemma AscendingIndex(xs: seq<nat>, k: nat, b: nat)
    requires k < |xs| && b < |xs|
    requires forall k1, k2 :: 0 <= k1 < k2 < |xs| ==> xs[k1] < xs[k2]
    ensures xs[k] < xs[b] ==> k < b
  {
    if b < k {
      assert xs[b] < xs[k];
    }
  }

  /** An unvisited child always wins the selection: the child chosen is the
      first unvisited one when there is one. */
  lemma UnvisitedChildFirst(nodes: seq<Node>, i: nat, bonus: real -> real, k: nat)
    requires WellFormed(nodes) && i < |nodes| && k < |nodes[i].children|
    requires nodes[nodes[i].children[k]].visits == 0
    ensures nodes[BestChild(nodes, i, bonus)].visits == 0
    ensures forall j :: 0 <= j < |nodes[i].children| && nodes[i].children[j] < BestChild(nodes, i, bonus)
              ==> nodes[nodes[i].children[j]].visits > 0
  {
    var s := ChildScores(nodes, i, bonus);
    var b := BestIndex(s);
    assert s[k] == Infinite;
    assert !Greater(s[k], s[b]);
    forall j | 0 <= j < |nodes[i].children| && nodes[i].children[j] < nodes[i].children[b]
      ensures nodes[nodes[i].children[j]].visits > 0
    {
      if j < b {
        assert Greater(s[b], s[j]);
      }
    }
  }

  /** The node `select` reaches from node `i`: while the node has children and
      has been visited, move to its best child. */
  function Descend(nodes: seq<Node>, i: nat, bonus: real -> real): (r: nat)
    requires WellFormed(nodes) && i < |nodes|
    ensures r < |nodes| && (|nodes[r].children| == 0 || nodes[r].visits == 0)
    decreases |nodes| - i
  {
    if |nodes[i].children| > 0 && nodes[i].visits > 0 then Descend(nodes, BestChild(nodes, i, bonus), bonus) else i
  }

  // ---------------------------------------------------------------------
  // Expansion
  // ---------------------------------------------------------------------

  /** The dialogue a child of `parent` starts from: the parent's, plus the
      parent's own line when it has a speaker and a text. */
  function ChildDialogue(parent: Node): seq<Line>
  {
    if parent.character.Some? && parent.text != ""
    then parent.dialogue + [Line(parent.character.value, parent.text, None)]
    else parent.dialogue
  }

  /** The text of a sampled child: what follows the last "<actor>:" of the answer, stripped. */
  function SampleText(actor: string, res: string): string
  {
    Strip(Last(Split(res, actor + ":")))
  }

  /** The characters who may speak after `actor`: the non-player characters
      after the player, the player after anyone else. */
  function NextSpeakers(actor: string, pc: string, npcs: seq<string>): seq<string>
  {
    if actor == pc then npcs else [pc]
  }

  /** The child node made from the oracle answer `res` for `actor`. */
  function MakeChild(parent: Node, p: nat, actor: string, res: string, pc: string, npcs: seq<string>): Node
  {
    Node(ChildDialogue(parent), NextSpeakers(actor, pc, npcs), Some(p), [], Some(actor), SampleText(actor, res), 0, 0.0, false)
  }

  /** The `count` children sampled for one actor from the answers at `pos`, `pos + 1`, .... */
  function Samples(parent: Node, p: nat, actor: string, count: nat, stream: nat -> string, pos: nat,
                   pc: string, npcs: seq<string>): (r: seq<Node>)
    ensures |r| == count
  {
    seq(count, i requires 0 <= i < count => MakeChild(parent, p, actor, stream(pos + i), pc, npcs))
  }

  /** Sample `i` is built from the answer at call `pos + i`. */
  lemma SamplesAt(parent: Node, p: nat, actor: string, count: nat, stream: nat -> string, pos: nat,
                  pc: string, npcs: seq<string>)
    ensures forall i :: 0 <= i < count ==>
      Samples(parent, p, actor, count, stream, pos, pc, npcs)[i] == MakeChild(parent, p, actor, stream(pos + i), pc, npcs)
  {}

  lemma SamplesSnoc(parent: Node, p: nat, actor: string, count: nat, stream: nat -> string, pos: nat,
                    pc: string, npcs: seq<string>)
    ensures Samples(parent, p, actor, count + 1, stream, pos, pc, npcs)
         == Samples(parent, p, actor, count, stream, pos, pc, npcs) + [MakeChild(parent, p, actor, stream(pos + count), pc, npcs)]
  {}

  /** All children one expansion creates: per actor in order, `k` samples each. */
  function Fan(parent: Node, p: nat, actors: seq<string>, k: nat, stream: nat -> string, pos: nat,
               pc: string, npcs: seq<string>): seq<Node>
    decreases |actors|
  {
    if |actors| == 0 then []
    else Samples(parent, p, actors[0], k, stream, pos, pc, npcs) + Fan(parent, p, actors[1..], k, stream, pos + k, pc, npcs)
  }

  /** The children for two runs of actors one after the other: those of
      the first run, then those of the second, sampled from the answers
      that follow. */
  lemma {:induction false} FanSplit(parent: Node, p: nat, xs: seq<string>, ys: seq<string>, k: nat,
                                    stream: nat -> string, pos: nat, pc: string, npcs: seq<string>)
    ensures Fan(parent, p, xs + ys, k, stream, pos, pc, npcs) ==
            Fan(parent, p, xs, k, stream, pos, pc, npcs) +
            Fan(parent, p, ys, k, stream, pos + |Fan(parent, p, xs, k, stream, pos, pc, npcs)|, pc, npcs)
    decreases |xs|
  {
    if |xs| == 0 {
      assert xs + ys == ys;
    } else {
      var zs := xs + ys;
      assert zs[1..] == xs[1..] + ys && zs[0] == xs[0];
      var head := Samples(parent, p, xs[0], k, stream, pos, pc, npcs);
      var tail := Fan(parent, p, xs[1..], k, stream, pos + k, pc, npcs);
      FanSplit(parent, p, xs[1..], ys, k, stream, pos + k, pc, npcs);
      var rest := Fan(parent, p, ys, k, stream, pos + k + |tail|, pc, npcs);
      assert Fan(parent, p, zs, k, stream, pos, pc, npcs) == head + (tail + rest);
      assert head + (tail + rest) == (head + tail) + rest;
    }
  }

  lemma FanSnoc(parent: Node, p: nat, actors: seq<string>, y: string, k: nat,
                stream: nat -> string, pos: nat, pc: string, npcs: seq<string>)
    ensures Fan(parent, p, actors + [y], k, stream, pos, pc, npcs) ==
            Fan(parent, p, actors, k, stream, pos, pc, npcs) +
            Samples(parent, p, y, k, stream, pos + |Fan(parent, p, actors, k, stream, pos, pc, npcs)|, pc, npcs)
  {
    FanSplit(parent, p, actors, [y], k, stream, pos, pc, npcs);
    var q := pos + |Fan(parent, p, actors, k, stream, pos, pc, npcs)|;
    assert [y][1..] == [];
    assert Fan(parent, p, [y], k, stream, q, pc, npcs) == Samples(parent, p, y, k, stream, q, pc, npcs) + [];
  }

  /** The children for the first `a + 1` actors: those for the first `a`,
      then the samples for actor `a`. */
  lemma FanPrefix(parent: Node, p: nat, actors: seq<string>, a: nat, k: nat, stream: nat -> string, pos: nat,
                  pc: string, npcs: seq<string>)
    requires a < |actors|
    ensures Fan(parent, p, actors[..a + 1], k, stream, pos, pc, npcs) ==
            Fan(parent, p, actors[..a], k, stream, pos, pc, npcs) +
            Samples(parent, p, actors[a], k, stream, pos + |Fan(parent, p, actors[..a], k, stream, pos, pc, npcs)|, pc, npcs)
  {
    assert actors[..a + 1] == actors[..a] + [actors[a]];
    FanSnoc(parent, p, actors[..a], actors[a], k, stream, pos, pc, npcs);
  }

  /** The children of an expansion are ordered by actor and then by sample:
      child `a * k + i` is the `i`-th sample for `actors[a]`, made from the
      answer to the `(a * k + i)`-th call. */
  lemma FanAt(parent: Node, p: nat, actors: seq<string>, k: nat, stream: nat -> string,
              pos: nat, pc: string, npcs: seq<string>, a: nat, i: nat)
    requires a < |actors| && i < k
    ensures a * k + i < |Fan(parent, p, actors, k, stream, pos, pc, npcs)|
    ensures Fan(parent, p, actors, k, stream, pos, pc, npcs)[a * k + i] ==
            MakeChild(parent, p, actors[a], stream(pos + a * k + i), pc, npcs)
  {
    FanSize(parent, p, actors[..a], k, stream, pos, pc, npcs);
    FanAfter(parent, p, actors, k, stream, pos, pc, npcs, a, i);
  }

  /** Child `i` of actor `a` comes right after the children of the actors before it. */
  lemma FanAfter(parent: Node, p: nat, actors: seq<string>, k: nat, stream: nat -> string,
                 pos: nat, pc: string, npcs: seq<string>, a: nat, i: nat)
    requires a < |actors| && i < k
    ensures |Fan(parent, p, actors[..a], k, stream, pos, pc, npcs)| + i < |Fan(parent, p, actors, k, stream, pos, pc, npcs)|
    ensures
      var before := |Fan(parent, p, actors[..a], k, stream, pos, pc, npcs)|;
      Fan(parent, p, actors, k, stream, pos, pc, npcs)[before + i] ==
      MakeChild(parent, p, actors[a], stream(pos + before + i), pc, npcs)
  {
    var pre := actors[..a];
    var post := actors[a..];
    assert actors == pre + post;
    assert post[0] == actors[a];
    var front := Fan(parent, p, pre, k, stream, pos, pc, npcs);
    var b := |front|;
    var back := Fan(parent, p, post, k, stream, pos + b, pc, npcs);
    FanSplit(parent, p, pre, post, k, stream, pos, pc, npcs);
    assert Fan(parent, p, actors, k, stream, pos, pc, npcs) == front + back;
    FanHead(parent, p, post, k, stream, pos + b, pc, npcs, i);
    assert (front + back)[b + i] == back[i];
  }

  lemma FanHead(parent: Node, p: nat, actors: seq<string>, k: nat, stream: nat -> string,
                pos: nat, pc: string, npcs: seq<string>, i: nat)
    requires 0 < |actors| && i < k
    ensures i < |Fan(parent, p, actors, k, stream, pos, pc, npcs)|
    ensures Fan(parent, p, actors, k, stream, pos, pc, npcs)[i] == MakeChild(parent, p, actors[0], stream(pos + i), pc, npcs)
  {
    var head := Samples(parent, p, actors[0], k, stream, pos, pc, npcs);
    var tail := Fan(parent, p, actors[1..], k, stream, pos + k, pc, npcs);
    assert Fan(parent, p, actors, k, stream, pos, pc, npcs) == head + tail;
    assert (head + tail)[i] == head[i];
  }

  /** An expansion creates `k` children per actor. */
  lemma {:induction false} FanSize(parent: Node, p: nat, actors: seq<string>, k: nat, stream: nat -> string,
                                   pos: nat, pc: string, npcs: seq<string>)
    ensures |Fan(parent, p, actors, k, stream, pos, pc, npcs)| == |actors| * k
    decreases |actors|
  {
    if |actors| > 0 {
      FanSize(parent, p, actors[1..], k, stream, pos + k, pc, npcs);
      assert |actors| * k == (|actors| - 1) * k + k;
    }
  }

  /** Every child of an expansion hangs under `p`, is a leaf without visits,
      and is spoken by one of the actors. */
  lemma {:induction false} FanShape(parent: Node, p: nat, actors: seq<string>, k: nat, stream: nat -> string,
                                    pos: nat, pc: string, npcs: seq<string>)
    ensures forall q :: 0 <= q < |Fan(parent, p, actors, k, stream, pos, pc, npcs)| ==>
      var c := Fan(parent, p, actors, k, stream, pos, pc, npcs)[q];
      c.parent == Some(p) && c.children == [] && c.visits == 0 && c.character.Some? && c.character.value in actors
    decreases |actors|
  {
    if |actors| > 0 {
      FanShape(parent, p, actors[1..], k, stream, pos + k, pc, npcs);
      SamplesAt(parent, p, actors[0], k, stream, pos, pc, npcs);
      var head := Samples(parent, p, actors[0], k, stream, pos, pc, npcs);
      var tail := Fan(parent, p, actors[1..], k, stream, pos + k, pc, npcs);
      var all: seq<Node> := head + tail;
      forall q | 0 <= q < |all|
        ensures all[q].character.Some? && all[q].character.value in actors
      {
        if q >= |head| { assert all[q] == tail[q - |head|]; }
      }
    }
  }

  function Range(lo: nat, hi: nat): (r: seq<nat>)
    requires lo <= hi
    ensures |r| == hi - lo
    ensures forall j :: 0 <= j < hi - lo ==> r[j] == lo + j
  {
    seq(hi - lo, j requires 0 <= j < hi - lo => lo + j)
  }

  /** The arena after the nodes `added` are appended as new children of `p`. */
  function Grow(nodes: seq<Node>, p: nat, added: seq<Node>): (r: seq<Node>)
    requires p < |nodes|
    ensures |r| == |nodes| + |added|
  {
    nodes[p := nodes[p].(children := nodes[p].children + Range(|nodes|, |nodes| + |added|))] + added
  }

  /** One more sampled child appended to an expansion in progress. */
  lemma GrowMore(nodes: seq<Node>, p: nat, built: seq<Node>, added: seq<Node>, c: Node, g: seq<Node>)
    requires p < |nodes| && g == Grow(nodes, p, built + added)
    ensures g[p := g[p].(children := g[p].children + [|g|])] + [c] == Grow(nodes, p, built + (added + [c]))
  {
    GrowSnoc(nodes, p, built + added, c);
    assert (built + added) + [c] == built + (added + [c]);
  }

  lemma GrowSnoc(nodes: seq<Node>, p: nat, added: seq<Node>, c: Node)
    requires p < |nodes|
    ensures Grow(nodes, p, added + [c]) ==
      var g := Grow(nodes, p, added);
      g[p := g[p].(children := g[p].children + [|g|])] + [c]
  {
    var n := |nodes|;
    var g := Grow(nodes, p, added);
    var base := nodes[p := nodes[p].(children := nodes[p].children + Range(n, n + |added|))];
    assert g == base + added;
    assert g[p] == base[p];
    var bumped := g[p].(children := g[p].children + [|g|]);
    assert Range(n, n + |added| + 1) == Range(n, n + |added|) + [|g|];
    assert nodes[p].children + Range(n, n + |added| + 1) == (nodes[p].children + Range(n, n + |added|)) + [|g|];
    var base' := nodes[p := nodes[p].(children := nodes[p].children + Range(n, n + |added| + 1))];
    assert base' == base[p := bumped];
    assert Grow(nodes, p, added + [c]) == base' + (added + [c]);
    assert (base + added)[p := bumped] == base[p := bumped] + added;
  }

  ghost predicate NewLeaves(nodes: seq<Node>, p: nat, added: seq<Node>)
    requires p < |nodes|
  {
    forall q :: 0 <= q < |added| ==>
      added[q].parent == Some(p) && added[q].children == [] && added[q].visits == 0
      && added[q].character.Some? && added[q].character.value in nodes[p].next
  }

  lemma GrowFacts(nodes: seq<Node>, p: nat, added: seq<Node>)
    requires p < |nodes|
    ensures forall j :: 0 <= j < |nodes| && j != p ==> Grow(nodes, p, added)[j] == nodes[j]
    ensures forall j :: 0 <= j < |nodes| ==> Grow(nodes, p, added)[j].visits == nodes[j].visits
    ensures Grow(nodes, p, added)[p] == nodes[p].(children := nodes[p].children + Range(|nodes|, |nodes| + |added|))
    ensures forall q :: |nodes| <= q < |nodes| + |added| ==> Grow(nodes, p, added)[q] == added[q - |nodes|]
  {}

  lemma GrowLinks(nodes: seq<Node>, p: nat, added: seq<Node>)
    requires WellFormed(nodes) && p < |nodes| && NewLeaves(nodes, p, added)
    ensures Links(Grow(nodes, p, added)) && Speakers(Grow(nodes, p, added))
  {
    GrowFacts(nodes, p, added);
  }

  lemma GrowChildBounds(nodes: seq<Node>, p: nat, added: seq<Node>)
    requires WellFormed(nodes) && p < |nodes| && NewLeaves(nodes, p, added)
    ensures var g := Grow(nodes, p, added);
      forall i, k :: 0 <= i < |g| && 0 <= k < |g[i].children| ==>
        i < g[i].children[k] < |g| && g[g[i].children[k]].parent == Some(i)
  {
    GrowFacts(nodes, p, added);
    var g := Grow(nodes, p, added);
    var n := |nodes|;
    var cs := nodes[p].children;
    var ids := Range(n, n + |added|);
    forall i, k | 0 <= i < |g| && 0 <= k < |g[i].children|
      ensures i < g[i].children[k] < |g| && g[g[i].children[k]].parent == Some(i)
    {
      if i == p {
        if k < |cs| {
          assert g[i].children[k] == cs[k];
        } else {
          assert g[i].children[k] == ids[k - |cs|];
        }
      }
    }
  }

  lemma GrowChildOrder(nodes: seq<Node>, p: nat, added: seq<Node>)
    requires WellFormed(nodes) && p < |nodes| && NewLeaves(nodes, p, added)
    ensures var g := Grow(nodes, p, added);
      forall i, k1, k2 :: 0 <= i < |g| && 0 <= k1 < k2 < |g[i].children| ==>
        g[i].children[k1] < g[i].children[k2]
  {
    GrowFacts(nodes, p, added);
    var g := Grow(nodes, p, added);
    var n := |nodes|;
    var cs := nodes[p].children;
    var ids := Range(n, n + |added|);
    forall i, k1, k2 | 0 <= i < |g| && 0 <= k1 < k2 < |g[i].children|
      ensures g[i].children[k1] < g[i].children[k2]
    {
      if i == p {
        if k2 < |cs| {
          assert g[i].children[k1] == cs[k1] && g[i].children[k2] == cs[k2];
        } else if k1 < |cs| {
          assert g[i].children[k1] == cs[k1] && g[i].children[k2] == ids[k2 - |cs|];
        } else {
          assert g[i].children[k1] == ids[k1 - |cs|] && g[i].children[k2] == ids[k2 - |cs|];
        }
      }
    }
  }

  lemma GrowParents(nodes: seq<Node>, p: nat, added: seq<Node>)
    requires WellFormed(nodes) && p < |nodes| && NewLeaves(nodes, p, added)
    ensures Links(Grow(nodes, p, added))
    ensures var g := Grow(nodes, p, added);
      forall q :: 0 < q < |g| ==> q in g[g[q].parent.value].children
  {
    GrowLinks(nodes, p, added);
    GrowFacts(nodes, p, added);
    var g := Grow(nodes, p, added);
    var n := |nodes|;
    var cs := nodes[p].children;
    forall q | 0 < q < |g| ensures q in g[g[q].parent.value].children {
      if q >= n {
        assert g[p].children[|cs| + (q - n)] == q;
      } else if g[q].parent.value == p {
        assert q in cs;
      }
    }
  }

  lemma GrowCoverAt(nodes: seq<Node>, p: nat, added: seq<Node>, i: nat)
    requires WellFormed(nodes) && p < |nodes| && NewLeaves(nodes, p, added)
    requires i < |nodes| ==> nodes[i].visits >= SumVisits(nodes, nodes[i].children)
    requires WellFormed(Grow(nodes, p, added)) && i < |Grow(nodes, p, added)|
    ensures Grow(nodes, p, added)[i].visits >= SumVisits(Grow(nodes, p, added), Grow(nodes, p, added)[i].children)
  {
    GrowFacts(nodes, p, added);
    var g := Grow(nodes, p, added);
    var n := |nodes|;
    if i >= n {
      assert g[i].children == [];
    } else if i != p {
      SumSame(nodes, g, nodes[i].children);
    } else {
      var ids := Range(n, n + |added|);
      SumSame(nodes, g, nodes[p].children);
      SumAppend(g, nodes[p].children, ids);
      SumZero(g, ids);
    }
  }

  lemma GrowCover(nodes: seq<Node>, p: nat, added: seq<Node>)
    requires WellFormed(nodes) && VisitsCover(nodes) && p < |nodes| && NewLeaves(nodes, p, added)
    requires WellFormed(Grow(nodes, p, added))
    ensures VisitsCover(Grow(nodes, p, added))
  {
    var g := Grow(nodes, p, added);
    forall i | 0 <= i < |g| ensures g[i].visits >= SumVisits(g, g[i].children) {
      GrowCoverAt(nodes, p, added, i);
    }
  }

  /** Appending new leaves under `p` keeps the tree well formed and keeps
      every node's visits at least its children's. */
  lemma GrowKeeps(nodes: seq<Node>, p: nat, added: seq<Node>)
    requires WellFormed(nodes) && p < |nodes| && NewLeaves(nodes, p, added)
    ensures WellFormed(Grow(nodes, p, added))
    ensures VisitsCover(nodes) ==> VisitsCover(Grow(nodes, p, added))
  {
    GrowLinks(nodes, p, added);
    GrowChildBounds(nodes, p, added);
    GrowChildOrder(nodes, p, added);
    GrowParents(nodes, p, added);
    if VisitsCover(nodes) {
      GrowCover(nodes, p, added);
    }
  }

  // ---------------------------------------------------------------------
  // Talking-point matching
  // ---------------------------------------------------------------------

  predicate SaysYes(res: string)
  {
    Contains(Lower(res), "yes")
  }

  /** The answers to the `count` calls from call `pos` on. */
  function Window(stream: nat -> string, pos: nat, count: nat): (w: seq<string>)
    ensures |w| == count
    ensures forall t :: 0 <= t < count ==> w[t] == stream(pos + t)
  {
    seq(count, t requires 0 <= t < count => stream(pos + t))
  }

  /** The first answer that passes the test `ok`. */
  function FirstWhere(answers: seq<string>, ok: string -> bool): (r: Option<nat>)
    ensures r.Some? ==> r.value < |answers| && ok(answers[r.value])
    ensures r.Some? ==> forall t :: 0 <= t < r.value ==> !ok(answers[t])
    ensures r.None? ==> forall t :: 0 <= t < |answers| ==> !ok(answers[t])
  {
    if |answers| == 0 then None
    else if ok(answers[0]) then Some(0)
    else match FirstWhere(answers[1..], ok)
      case None => None
      case Some(t) => Some(t + 1)
  }

  /** The parse of a matched target "name: text": the non-player character
      named before the first colon, and the rest, stripped. */
  function ParseTarget(tp: string, npcs: seq<string>): (r: Result<(string, string)>)
    ensures r.Ok? ==> r.value.0 in npcs
    ensures r.Err? ==> r.error == NoSuchCharacter
  {
    var parts := Split(tp, ":");
    var name := Strip(parts[0]);
    if name in npcs then Ok((name, Strip(Join(parts[1..], ":")))) else Err(NoSuchCharacter)
  }

  /** A talking-point target as `MCTS.__init__` formats it: "<name>: <text>". */
  function TargetLine(name: string, text: string): string
  {
    name + ": " + text
  }

  /** A target formatted as "<name>: <text>" parses back into the name and
      the text, when the name has no colon and neither has surrounding
      whitespace. */
  lemma ParseFormatted(name: string, text: string, npcs: seq<string>)
    requires ':' !in name && Clean(name) && Clean(text) && name in npcs
    ensures ParseTarget(TargetLine(name, text), npcs) == Ok((name, text))
  {
    var tp := TargetLine(name, text);
    var rest := [' '] + text;
    assert tp == name + [':'] + rest;
    SplitAtFirst(name, ':', rest);
    var parts := Split(tp, ":");
    assert parts == [name] + Split(rest, ":");
    assert parts[1..] == Split(rest, ":");
    JoinSplit(rest, ":");
    StripClean(name);
    StripAfterSpace(text);
  }

  /** The outcome of an oracle-driven step, and the call count after it. */
  datatype Run<T> = Run(result: T, end: nat)

  /** `check_talking_points` against the answers from `pos` on. */
  function CheckRun(stream: nat -> string, pos: nat, tps: seq<string>, npcs: seq<string>): Run<Result<Option<(string, string)>>>
  {
    match FirstWhere(Window(stream, pos, |tps|), SaysYes)
    case None => Run(Ok(None), pos + |tps|)
    case Some(t) =>
      match ParseTarget(tps[t], npcs)
      case Ok(pair) => Run(Ok(Some(pair)), pos + t + 1)
      case Err(e) => Run(Err(e), pos + t + 1)
  }

  // ---------------------------------------------------------------------
  // Rollout
  // ---------------------------------------------------------------------

  predicate Favorable(res: string)
  {
    Contains(Lower(res), "equal") || Contains(Lower(res), "better")
  }

  /** `0.9 ** n`: the discount on a favourable verdict found in round `n`. */
  function Decay(n: nat): real
  {
    if n == 0 then 1.0 else 0.9 * Decay(n - 1)
  }

  /** Rollout rounds `i`, `i + 1`, ... below `depth`, the round starting at call
      `pos`: `width` samples, then one comparison per talking point; the first
      favourable comparison ends the rollout with `0.9 ** i`; otherwise one
      more call continues the dialogue for the player. */
  function Rounds(stream: nat -> string, pos: nat, i: nat, depth: nat, width: nat, count: nat, ok: string -> bool): Run<Result<real>>
    decreases depth - i
  {
    if i >= depth then Run(Ok(0.0), pos)
    else match FirstWhere(Window(stream, pos + width, count), ok)
      case Some(t) => Run(Ok(Decay(i)), pos + width + t + 1)
      case None =>
        if width == 0 then Run(Err(EmptyRollout), pos + count)
        else Rounds(stream, pos + width + count + 1, i + 1, depth, width, count, ok)
  }

  /** The call at which round `d` (counted from the first) starts, each
      round taking `step` calls. */
  function RoundPos(pos: nat, d: nat, step: nat): nat
  {
    if d == 0 then pos else RoundPos(pos, d - 1, step) + step
  }

  lemma {:induction false} RoundPosClosed(pos: nat, d: nat, step: nat)
    ensures RoundPos(pos, d, step) == pos + d * step
  {
    if d > 0 {
      RoundPosClosed(pos, d - 1, step);
      assert d * step == (d - 1) * step + step;
    }
  }

  lemma {:induction false} RoundPosShift(pos: nat, d: nat, step: nat)
    ensures RoundPos(pos, d + 1, step) == RoundPos(pos + step, d, step)
  {
    if d > 0 { RoundPosShift(pos, d - 1, step); }
  }

  /** Round `d` of a rollout starting at call `pos` gets an "equal" or
      "better" verdict. */
  predicate RoundFavorable(stream: nat -> string, pos: nat, d: nat, width: nat, count: nat, ok: string -> bool)
  {
    FirstWhere(Window(stream, RoundPos(pos, d, width + count + 1) + width, count), ok).Some?
  }

  lemma RoundShift(stream: nat -> string, pos: nat, d: nat, width: nat, count: nat, ok: string -> bool)
    ensures RoundFavorable(stream, pos, d + 1, width, count, ok) ==
            RoundFavorable(stream, pos + width + count + 1, d, width, count, ok)
  {
    RoundPosShift(pos, d, width + count + 1);
  }

  lemma RoundFirst(stream: nat -> string, pos: nat, width: nat, count: nat, ok: string -> bool)
    ensures RoundFavorable(stream, pos, 0, width, count, ok) == FirstWhere(Window(stream, pos + width, count), ok).Some?
  {}

  /** A round without a favourable verdict hands over to the next round. */
  lemma RoundsStep(stream: nat -> string, pos: nat, i: nat, depth: nat, width: nat, count: nat, ok: string -> bool)
    requires width > 0 && i < depth && !RoundFavorable(stream, pos, 0, width, count, ok)
    ensures Rounds(stream, pos, i, depth, width, count, ok) == Rounds(stream, pos + width + count + 1, i + 1, depth, width, count, ok)
  {
    RoundFirst(stream, pos, width, count, ok);
  }

  /** A round with a favourable verdict ends the rollout with `0.9 ** i`. */
  lemma RoundsStop(stream: nat -> string, pos: nat, i: nat, depth: nat, width: nat, count: nat, ok: string -> bool)
    requires i < depth && RoundFavorable(stream, pos, 0, width, count, ok)
    ensures Rounds(stream, pos, i, depth, width, count, ok).result == Ok(Decay(i))
  {
    RoundFirst(stream, pos, width, count, ok);
  }

  /** A rollout in which no round below `depth` gets a favourable verdict
      is worth 0. */
  lemma {:induction false} RolloutNoVerdict(stream: nat -> string, pos: nat, i: nat, depth: nat, width: nat, count: nat, ok: string -> bool)
    requires width > 0
    requires forall d :: 0 <= d && i + d < depth ==> !RoundFavorable(stream, pos, d, width, count, ok)
    ensures Rounds(stream, pos, i, depth, width, count, ok).result == Ok(0.0)
    decreases depth - i
  {
    if i < depth {
      var next := pos + width + count + 1;
      assert !RoundFavorable(stream, pos, 0, width, count, ok);
      RoundsStep(stream, pos, i, depth, width, count, ok);
      forall d | 0 <= d && i + 1 + d < depth
        ensures !RoundFavorable(stream, next, d, width, count, ok)
      {
        RoundShift(stream, pos, d, width, count, ok);
      }
      RolloutNoVerdict(stream, next, i + 1, depth, width, count, ok);
    }
  }

  lemma ShiftFavorable(stream: nat -> string, pos: nat, next: nat, d: nat, width: nat, count: nat, ok: string -> bool)
    requires d > 0 && next == pos + width + count + 1
    requires RoundFavorable(stream, pos, d, width, count, ok)
    ensures RoundFavorable(stream, next, d - 1, width, count, ok)
  {
    var step := width + count + 1;
    RoundPosShift(pos, d - 1, step);
    assert RoundPos(pos, d, step) == RoundPos(next, d - 1, step);
  }

  lemma ShiftUnfavorable(stream: nat -> string, pos: nat, next: nat, d: nat, width: nat, count: nat, ok: string -> bool)
    requires d > 0 && next == pos + width + count + 1
    requires forall e :: 0 <= e < d ==> !RoundFavorable(stream, pos, e, width, count, ok)
    ensures forall e :: 0 <= e < d - 1 ==> !RoundFavorable(stream, next, e, width, count, ok)
  {
    forall e | 0 <= e < d - 1
      ensures !RoundFavorable(stream, next, e, width, count, ok)
    {
      RoundShift(stream, pos, e, width, count, ok);
    }
  }

  /** A first favourable verdict in round `d > 0` is, from the next round
      on, a first favourable verdict in round `d - 1`. */
  lemma ShiftVerdict(stream: nat -> string, pos: nat, next: nat, d: nat, width: nat, count: nat, ok: string -> bool)
    requires d > 0 && next == pos + width + count + 1
    requires RoundFavorable(stream, pos, d, width, count, ok)
    requires forall e :: 0 <= e < d ==> !RoundFavorable(stream, pos, e, width, count, ok)
    ensures !RoundFavorable(stream, pos, 0, width, count, ok)
    ensures RoundFavorable(stream, next, d - 1, width, count, ok)
    ensures forall e :: 0 <= e < d - 1 ==> !RoundFavorable(stream, next, e, width, count, ok)
  {
    ShiftFavorable(stream, pos, next, d, width, count, ok);
    ShiftUnfavorable(stream, pos, next, d, width, count, ok);
  }

  /** A rollout whose first favourable verdict comes in round `d` (counted
      from round `i`) is worth `0.9 ** (i + d)`. */
  lemma RolloutFirstVerdict(stream: nat -> string, pos: nat, i: nat, depth: nat, width: nat, count: nat, ok: string -> bool, d: nat)
    requires width > 0 && i + d < depth
    requires RoundFavorable(stream, pos, d, width, count, ok)
    requires forall e :: 0 <= e < d ==> !RoundFavorable(stream, pos, e, width, count, ok)
    ensures Rounds(stream, pos, i, depth, width, count, ok).result == Ok(Decay(i + d))
  {
    RolloutVerdictAt(stream, pos, i, depth, width, count, ok, d, i + d);
  }

  /** `RolloutFirstVerdict` with the exponent `n = i + d` named, so that the
      induction keeps it fixed. */
  lemma {:induction false} RolloutVerdictAt(stream: nat -> string, pos: nat, i: nat, depth: nat, width: nat, count: nat,
                                            ok: string -> bool, d: nat, n: nat)
    requires width > 0 && n == i + d && n < depth
    requires RoundFavorable(stream, pos, d, width, count, ok)
    requires forall e :: 0 <= e < d ==> !RoundFavorable(stream, pos, e, width, count, ok)
    ensures Rounds(stream, pos, i, depth, width, count, ok).result == Ok(Decay(n))
    decreases d
  {
    if d == 0 {
      RoundsStop(stream, pos, i, depth, width, count, ok);
    } else {
      var next := pos + width + count + 1;
      ShiftVerdict(stream, pos, next, d, width, count, ok);
      RoundsStep(stream, pos, i, depth, width, count, ok);
      RolloutVerdictAt(stream, next, i + 1, depth, width, count, ok, d - 1, n);
    }
  }

  /** Without samples, a rollout whose first round gets no favourable
      verdict fails: there is no first output to continue the dialogue with. */
  lemma RolloutNoSamples(stream: nat -> string, pos: nat, i: nat, depth: nat, count: nat, ok: string -> bool)
    requires i < depth && !RoundFavorable(stream, pos, 0, 0, count, ok)
    ensures Rounds(stream, pos, i, depth, 0, count, ok).result == Err(EmptyRollout)
  {}

  /** A discounted reward is positive and at most 1. */
  lemma {:induction false} DecayUnit(n: nat)
    ensures 0.0 < Decay(n) <= 1.0
  {
    if n > 0 { DecayUnit(n - 1); }
  }

  /** A rollout reward lies in [0, 1]. */
  lemma {:induction false} RolloutInUnit(stream: nat -> string, pos: nat, i: nat, depth: nat, width: nat, count: nat, ok: string -> bool)
    ensures Rounds(stream, pos, i, depth, width, count, ok).result.Ok? ==>
      0.0 <= Rounds(stream, pos, i, depth, width, count, ok).result.value <= 1.0
    ensures Rounds(stream, pos, i, depth, width, count, ok).result.Err? ==>
      Rounds(stream, pos, i, depth, width, count, ok).result.error == EmptyRollout
    decreases depth - i
  {
    if i < depth {
      DecayUnit(i);
      RolloutInUnit(stream, pos + width + count + 1, i + 1, depth, width, count, ok);
    }
  }

  /** `count` oracle calls in a row, their answers collected. */
  method AskEach(oracle: Oracle, count: nat) returns (answers: seq<string>)
    modifies oracle
    ensures answers == Window(oracle.stream, old(oracle.calls), count)
    ensures oracle.calls == old(oracle.calls) + count
  {
    answers := [];
    while |answers| < count
      invariant |answers| <= count
      invariant oracle.calls == old(oracle.calls) + |answers|
      invariant answers == Window(oracle.stream, old(oracle.calls), |answers|)
    {
      var res := oracle.Ask();
      answers := answers + [res];
    }
  }

  /** Up to `count` oracle calls, stopping at the first answer that passes `ok`. */
  method AskUntil(oracle: Oracle, count: nat, ok: string -> bool) returns (found: Option<nat>)
    modifies oracle
    ensures found == FirstWhere(Window(oracle.stream, old(oracle.calls), count), ok)
    ensures oracle.calls == old(oracle.calls) + if found.Some? then found.value + 1 else count
  {
    ghost var w := Window(oracle.stream, oracle.calls, count);
    var t := 0;
    while t < count
      invariant t <= count
      invariant oracle.calls == old(oracle.calls) + t
      invariant forall u :: 0 <= u < t ==> !ok(w[u])
    {
      var res := oracle.Ask();
      if ok(res) {
        assert w[t] == res;
        found := Some(t);
        return;
      }
      t := t + 1;
    }
    found := None;
  }

  /** The rounds of `rollout`, the verdict test `ok` left as a parameter. */
  method RolloutRounds(oracle: Oracle, depth: nat, width: nat, count: nat, ok: string -> bool) returns (r: Result<real>)
    modifies oracle
    ensures r == Rounds(oracle.stream, old(oracle.calls), 0, depth, width, count, ok).result
    ensures oracle.calls == Rounds(oracle.stream, old(oracle.calls), 0, depth, width, count, ok).end
    ensures r.Err? ==> r.error == EmptyRollout
  {
    var i := 0;
    while i < depth
      invariant Rounds(oracle.stream, oracle.calls, i, depth, width, count, ok)
                == Rounds(oracle.stream, old(oracle.calls), 0, depth, width, count, ok)
      decreases depth - i
    {
      var outputs := AskEach(oracle, width);
      var verdict := AskUntil(oracle, count, ok);
      if verdict.Some? {
        r := Ok(Decay(i));
        return;
      }
      if |outputs| == 0 {
        r := Err(EmptyRollout);
        return;
      }
      var _ := oracle.Ask();
      i := i + 1;
    }
    r := Ok(0.0);
  }

  /** The inner loop of `expand`: `k` samples for one actor, each answer
      appended at once as the next child of `p`. */
  method SampleActor(before: seq<Node>, p: nat, ns: seq<Node>, ghost built: seq<Node>, actor: string, k: nat,
                     oracle: Oracle, pc: string, npcs: seq<string>) returns (grown: seq<Node>)
    requires p < |before| && ns == Grow(before, p, built)
    modifies oracle
    ensures grown == Grow(before, p, built + Samples(before[p], p, actor, k, oracle.stream, old(oracle.calls), pc, npcs))
    ensures oracle.calls == old(oracle.calls) + k
  {
    grown := ns;
    ghost var c0 := oracle.calls;
    ghost var added: seq<Node> := [];
    var parent := before[p];
    var i := 0;
    while i < k
      invariant 0 <= i <= k
      invariant added == Samples(before[p], p, actor, i, oracle.stream, c0, pc, npcs)
      invariant grown == Grow(before, p, built + added)
      invariant oracle.calls == c0 + i
    {
      var res := oracle.Ask();
      var child := MakeChild(parent, p, actor, res, pc, npcs);
      assert res == oracle.stream(c0 + i);
      GrowMore(before, p, built, added, child, grown);
      grown := grown[p := grown[p].(children := grown[p].children + [|grown|])] + [child];
      SamplesSnoc(before[p], p, actor, i, oracle.stream, c0, pc, npcs);
      added := added + [child];
      i := i + 1;
    }
  }

  /** The loops of `expand`: for every actor in turn, `k` samples. */
  method Sprout(before: seq<Node>, p: nat, k: nat, oracle: Oracle, pc: string, npcs: seq<string>) returns (ns: seq<Node>)
    requires p < |before|
    modifies oracle
    ensures ns == Grow(before, p, Fan(before[p], p, before[p].next, k, oracle.stream, old(oracle.calls), pc, npcs))
    ensures oracle.calls == old(oracle.calls) + |Fan(before[p], p, before[p].next, k, oracle.stream, old(oracle.calls), pc, npcs)|
  {
    ns := before;
    ghost var c0 := oracle.calls;
    var actors := before[p].next;
    ghost var built: seq<Node> := [];
    assert Range(|before|, |before|) == [];
    assert before[p].children + [] == before[p].children;
    assert Grow(before, p, built) == before;
    var a := 0;
    while a < |actors|
      invariant 0 <= a <= |actors|
      invariant built == Fan(before[p], p, actors[..a], k, oracle.stream, c0, pc, npcs)
      invariant ns == Grow(before, p, built)
      invariant oracle.calls == c0 + |built|
    {
      var actor := actors[a];
      ghost var more := Samples(before[p], p, actor, k, oracle.stream, oracle.calls, pc, npcs);
      ns := SampleActor(before, p, ns, built, actor, k, oracle, pc, npcs);
      FanPrefix(before[p], p, actors, a, k, oracle.stream, c0, pc, npcs);
      built := built + more;
      a := a + 1;
    }
    assert actors[..|actors|] == actors;
  }

  /** A node spoken by a non-player character: the rollout from it first
      lets the player answer. */
  predicate NpcSpoke(node: Node, npcs: seq<string>)
  {
    node.character.Some? && node.character.value in npcs
  }

  /** `rollout` from `node` against the answers from call `pos` on. */
  function RolloutRun(stream: nat -> string, pos: nat, node: Node, npcs: seq<string>,
                      depth: nat, width: nat, count: nat): Run<Result<real>>
  {
    Rounds(stream, pos + (if NpcSpoke(node, npcs) then 1 else 0), 0, depth, width, count, Favorable)
  }

  // ---------------------------------------------------------------------
  // The result of a search
  // ---------------------------------------------------------------------

  function RewardKey(nodes: seq<Node>): nat -> real
  {
    (c: nat) => if c < |nodes| then nodes[c].reward else 0.0
  }

  /** The root's children, best reward first; ties keep their creation order. */
  function RankOrder(nodes: seq<Node>): (order: seq<nat>)
    requires WellFormed(nodes)
    ensures forall k :: 0 <= k < |order| ==> 0 < order[k] < |nodes|
    ensures forall k :: 0 <= k < |order| ==> order[k] in nodes[0].children
  {
    var order := SortDesc(nodes[0].children, RewardKey(nodes));
    SortDescSorted(nodes[0].children, RewardKey(nodes));
    assert forall k :: 0 <= k < |order| ==> order[k] in multiset(nodes[0].children);
    order
  }

  /** Each node of `order` as the pair of its speaker and its text. */
  function Pairs(nodes: seq<Node>, order: seq<nat>): (r: seq<(string, string)>)
    requires WellFormed(nodes)
    requires forall k :: 0 <= k < |order| ==> 0 < order[k] < |nodes|
    ensures |r| == |order|
    ensures forall k :: 0 <= k < |order| ==> r[k] == (nodes[order[k]].character.value, nodes[order[k]].text)
  {
    seq(|order|, k requires 0 <= k < |order| => (nodes[order[k]].character.value, nodes[order[k]].text))
  }

  /** What a full search returns: `sorted(root.children, key=reward, reverse=True)`
      as (speaker, text) pairs. */
  function Ranked(nodes: seq<Node>): seq<(string, string)>
    requires WellFormed(nodes)
  {
    Pairs(nodes, RankOrder(nodes))
  }

  /** The ranking lists every child of the root once, best reward first,
      keeping creation order among equal rewards; every speaker is one the
      root allowed to speak. */
  lemma RankingFacts(nodes: seq<Node>)
    requires WellFormed(nodes)
    ensures multiset(RankOrder(nodes)) == multiset(nodes[0].children)
    ensures forall j, k :: 0 <= j < k < |RankOrder(nodes)| ==>
              nodes[RankOrder(nodes)[j]].reward >= nodes[RankOrder(nodes)[k]].reward
    ensures forall v: real :: WithKey(RankOrder(nodes), RewardKey(nodes), v) == WithKey(nodes[0].children, RewardKey(nodes), v)
    ensures |Ranked(nodes)| == |nodes[0].children|
    ensures forall k :: 0 <= k < |Ranked(nodes)| ==> Ranked(nodes)[k].0 in nodes[0].next
  {
    var key := RewardKey(nodes);
    var order := RankOrder(nodes);
    SortDescSorted(nodes[0].children, key);
    forall v: real ensures WithKey(order, key, v) == WithKey(nodes[0].children, key, v) {
      SortDescStable(nodes[0].children, key, v);
    }
    forall j, k | 0 <= j < k < |order| ensures nodes[order[j]].reward >= nodes[order[k]].reward {
      assert key(order[j]) >= key(order[k]);
    }
    RankedNames(nodes);
  }

  /** Every speaker in the ranking is one the root allowed to speak. */
  lemma RankedNames(nodes: seq<Node>)
    requires WellFormed(nodes)
    ensures forall k :: 0 <= k < |Ranked(nodes)| ==> Ranked(nodes)[k].0 in nodes[0].next
  {
    var order := RankOrder(nodes);
    SortDescSorted(nodes[0].children, RewardKey(nodes));
    forall k | 0 <= k < |order| ensures nodes[order[k]].parent == Some(0) {
      assert order[k] in multiset(nodes[0].children);
    }
  }

  /** The first `n` ranked children are at least as good as every other
      child of the root. */
  ghost predicate TopRanked(nodes: seq<Node>, n: nat)
    requires WellFormed(nodes)
  {
    var order := RankOrder(nodes);
    forall j, d :: 0 <= j < n && j < |order| && d in nodes[0].children && d !in order[..j] ==>
      nodes[d].reward <= nodes[order[j]].reward
  }

  /** `sorted(..., reverse=True)[:n]` keeps the best: each ranked child is a
      child of the root whose reward no child outside the ranking before it
      beats. */
  lemma RankedTop(nodes: seq<Node>, n: nat)
    requires WellFormed(nodes)
    ensures forall j :: 0 <= j < |RankOrder(nodes)| ==> RankOrder(nodes)[j] in nodes[0].children
    ensures TopRanked(nodes, n)
  {
    var order := RankOrder(nodes);
    RankingFacts(nodes);
    forall j | 0 <= j < |order| ensures order[j] in nodes[0].children {
      assert order[j] in multiset(order);
    }
    forall j, d | 0 <= j < n && j < |order| && d in nodes[0].children && d !in order[..j]
      ensures nodes[d].reward <= nodes[order[j]].reward
    {
      SortedTop(nodes, order, nodes[0].children, j, d);
    }
  }

  /** In a list sorted by descending reward, the entry at `j` is at least
      as good as every entry not listed before it. */
  lemma SortedTop(nodes: seq<Node>, order: seq<nat>, all: seq<nat>, j: nat, d: nat)
    requires forall k :: 0 <= k < |order| ==> order[k] < |nodes|
    requires multiset(order) == multiset(all) && d < |nodes|
    requires forall a, b :: 0 <= a < b < |order| ==> nodes[order[a]].reward >= nodes[order[b]].reward
    requires j < |order| && d in all && d !in order[..j]
    ensures nodes[d].reward <= nodes[order[j]].reward
  {
    assert d in multiset(all);
    assert d in order;
    var i :| 0 <= i < |order| && order[i] == d;
    if j < i {
      assert nodes[order[j]].reward >= nodes[order[i]].reward;
    }
  }

  /** A matched target: the parse of one of the talking-point targets. */
  predicate IsTarget(pair: (string, string), tps: seq<string>, npcs: seq<string>)
  {
    exists k :: 0 <= k < |tps| && ParseTarget(tps[k], npcs) == Ok(pair)
  }

  /** A matched target belongs to one of the non-player characters. */
  lemma TargetNamed(pair: (string, string), tps: seq<string>, npcs: seq<string>)
    requires IsTarget(pair, tps, npcs)
    ensures pair.0 in npcs
  {
    var k :| 0 <= k < |tps| && ParseTarget(tps[k], npcs) == Ok(pair);
  }

  /** A talking-point check that reports a match reports the parse of the
      first target the oracle said "yes" to. */
  lemma CheckRunFound(stream: nat -> string, pos: nat, tps: seq<string>, npcs: seq<string>)
    ensures CheckRun(stream, pos, tps, npcs).result.Ok? && CheckRun(stream, pos, tps, npcs).result.value.Some? ==>
      var t := FirstWhere(Window(stream, pos, |tps|), SaysYes).value;
      && ParseTarget(tps[t], npcs) == Ok(CheckRun(stream, pos, tps, npcs).result.value.value)
      && IsTarget(CheckRun(stream, pos, tps, npcs).result.value.value, tps, npcs)
    ensures CheckRun(stream, pos, tps, npcs).result == Ok(None) <==>
      forall t :: 0 <= t < |tps| ==> !SaysYes(Window(stream, pos, |tps|)[t])
  {}

  /** The failures a search can end in: an expansion that added nothing,
      a matched target naming no non-player character, a rollout round
      without samples. */
  predicate SearchError(e: Error)
  {
    e == EmptyExpansion || e == NoSuchCharacter || e == EmptyRollout
  }

  /** Only the root speaks no line. */
  lemma SpokenHasParent(nodes: seq<Node>, n: nat)
    requires WellFormed(nodes) && n < |nodes| && nodes[n].text != ""
    ensures nodes[n].parent.Some? && nodes[n].parent.value < n
  {}

  /** Marking a node as done keeps the tree and its statistics intact. */
  lemma MarkDoneKeeps(nodes: seq<Node>, n: nat)
    requires WellFormed(nodes) && VisitsCover(nodes) && n < |nodes|
    ensures WellFormed(nodes[n := nodes[n].(done := true)])
    ensures VisitsCover(nodes[n := nodes[n].(done := true)])
  {
    var after := nodes[n := nodes[n].(done := true)];
    forall j | 0 <= j < |after|
      ensures Shape(after[j]) == Shape(nodes[j]) && after[j].visits == nodes[j].visits
    {}
    ShapeKept(nodes, after);
    SameVisitsCover(nodes, after);
  }

  /** Visit sums depend only on visits and children lists. */
  lemma SameVisitsCover(before: seq<Node>, after: seq<Node>)
    requires WellFormed(before) && WellFormed(after) && VisitsCover(before) && |after| == |before|
    requires forall j :: 0 <= j < |after| ==> after[j].visits == before[j].visits && after[j].children == before[j].children
    ensures VisitsCover(after)
  {
    forall i | 0 <= i < |after| ensures after[i].visits >= SumVisits(after, after[i].children) {
      SumSame(before, after, before[i].children);
    }
  }

  // ---------------------------------------------------------------------
  // Backpropagation, step by step
  // ---------------------------------------------------------------------

  /** The nodes of `seen` carry one more visit and the reward; the others are unchanged. */
  ghost predicate Bumped(before: seq<Node>, after: seq<Node>, seen: set<nat>, reward: real)
  {
    && |after| == |before|
    && forall j :: 0 <= j < |before| ==>
         after[j] == if j in seen then before[j].(visits := before[j].visits + 1, reward := before[j].reward + reward)
                     else before[j]
  }

  /** Moving from node `i` to its parent leaves the rest of the path to walk. */
  lemma PathStep(before: seq<Node>, n: nat, seen: set<nat>, i: nat)
    requires Links(before) && n < |before| && i < |before|
    requires Path(before, n) == seen + Path(before, i) && seen !! Path(before, i)
    ensures before[i].parent.Some? ==>
      var q := before[i].parent.value;
      q < |before| && Path(before, n) == (seen + {i}) + Path(before, q) && (seen + {i}) !! Path(before, q)
    ensures before[i].parent.None? ==> seen + {i} == Path(before, n)
  {
    if before[i].parent.Some? {
      var q := before[i].parent.value;
      forall x | x in Path(before, q) ensures x < i {
        PathBelow(before, q, x);
      }
    }
  }

  /** Bumping one more node of the path. */
  lemma BumpedStep(before: seq<Node>, after: seq<Node>, seen: set<nat>, reward: real, i: nat)
    requires Bumped(before, after, seen, reward) && i < |before| && i !in seen
    ensures Bumped(before, after[i := after[i].(visits := after[i].visits + 1, reward := after[i].reward + reward)], seen + {i}, reward)
  {}

  // ---------------------------------------------------------------------
  // One iteration and the whole search, on values
  // ---------------------------------------------------------------------

  /** The characters, targets and budget of one planner. */
  datatype Config = Config(pc: string, npcs: seq<string>, talkingPoints: seq<string>, isPc: bool,
                           maxIterations: nat, numExpand: nat, pcExpand: nat, rolloutDepth: nat, rolloutWidth: nat)

  /** `search` expands the selected node when it is not done and it is the
      root or has been visited before. */
  predicate Expands(node: Node)
  {
    !node.done && (node.parent.None? || node.visits > 0)
  }

  /** Samples per speaker: `pc_exand` at the root of a player search, `num_expand` elsewhere. */
  function Branching(cfg: Config, node: Node): nat
  {
    if cfg.isPc && node.parent.None? then cfg.pcExpand else cfg.numExpand
  }

  /** The oracle calls of an expansion: `k` per possible speaker. */
  function ExpandCalls(speakers: nat, k: nat): nat
  {
    speakers * k
  }

  /** Selection and expansion from the answers at `pos` on: the tree
      afterwards and the node to evaluate, the first new child when the
      selected node is expanded. */
  function LeafRun(cfg: Config, nodes: seq<Node>, stream: nat -> string, pos: nat, bonus: real -> real): Run<(seq<Node>, Result<nat>)>
    requires WellFormed(nodes)
  {
    var s := Descend(nodes, 0, bonus);
    if Expands(nodes[s]) then
      var k := Branching(cfg, nodes[s]);
      var g := Grow(nodes, s, Fan(nodes[s], s, nodes[s].next, k, stream, pos, cfg.pc, cfg.npcs));
      Run((g, if |g[s].children| > 0 then Ok(g[s].children[0]) else Err(EmptyExpansion)), pos + ExpandCalls(|nodes[s].next|, k))
    else Run((nodes, Ok(s)), pos)
  }

  /** Selection and expansion keep the tree well formed and leave the root's statistics alone. */
  lemma LeafRunKeeps(cfg: Config, nodes: seq<Node>, stream: nat -> string, pos: nat, bonus: real -> real)
    requires WellFormed(nodes)
    ensures var l := LeafRun(cfg, nodes, stream, pos, bonus).result;
      && WellFormed(l.0)
      && (VisitsCover(nodes) ==> VisitsCover(l.0))
      && (l.1.Ok? ==> l.1.value < |l.0|)
      && (l.1.Err? ==> l.1.error == EmptyExpansion)
      && l.0[0].visits == nodes[0].visits && l.0[0].reward == nodes[0].reward && l.0[0].next == nodes[0].next
  {
    var s := Descend(nodes, 0, bonus);
    var l := LeafRun(cfg, nodes, stream, pos, bonus).result;
    if Expands(nodes[s]) {
      var k := Branching(cfg, nodes[s]);
      var f := Fan(nodes[s], s, nodes[s].next, k, stream, pos, cfg.pc, cfg.npcs);
      var g := Grow(nodes, s, f);
      assert l == (g, if |g[s].children| > 0 then Ok(g[s].children[0]) else Err(EmptyExpansion));
      FanShape(nodes[s], s, nodes[s].next, k, stream, pos, cfg.pc, cfg.npcs);
      GrowFacts(nodes, s, f);
      GrowKeeps(nodes, s, f);
    } else {
      assert l == (nodes, Ok(s));
    }
  }

  /** `node.parent.parent is None`. */
  predicate ParentIsRoot(nodes: seq<Node>, n: nat)
    requires n < |nodes|
  {
    nodes[n].parent.Some? && nodes[n].parent.value < |nodes| && nodes[nodes[n].parent.value].parent.None?
  }

  /** A node whose grandparent is missing is a child of the root. */
  lemma ParentIsRootChild(nodes: seq<Node>, n: nat)
    requires WellFormed(nodes) && n < |nodes|
    ensures ParentIsRoot(nodes, n) <==> nodes[n].parent == Some(0)
  {
    if nodes[n].parent.Some? {
      var q := nodes[n].parent.value;
      assert q < |nodes|;
      assert q > 0 ==> nodes[q].parent.Some?;
    }
  }

  /** Marking a node as done keeps it a tree. */
  lemma MarkedWellFormed(nodes: seq<Node>, n: nat)
    requires WellFormed(nodes) && n < |nodes|
    ensures WellFormed(nodes[n := nodes[n].(done := true)])
  {
    ShapeKept(nodes, nodes[n := nodes[n].(done := true)]);
  }

  /** The evaluation of node `n`, from the answers at `pos` on: the tree
      afterwards and the search's result when the iteration ends it. A
      node spoken by a non-player character is checked against the
      targets; a match one step below the root ends the search, a deeper
      match marks the node done and is worth 1; otherwise the rollout
      gives the reward. */
  ghost function Evaluate(cfg: Config, mid: seq<Node>, n: nat, stream: nat -> string, pos: nat)
    : Run<(seq<Node>, Option<Result<seq<(string, string)>>>)>
    requires WellFormed(mid) && n < |mid|
  {
    var checked := mid[n].text != "" && NpcSpoke(mid[n], cfg.npcs);
    var c := CheckRun(stream, pos, cfg.talkingPoints, cfg.npcs);
    if checked && c.result.Err? then Run((mid, Some(Err(c.result.error))), c.end)
    else if checked && c.result.value.Some? && ParentIsRoot(mid, n) then Run((mid, Some(Ok([c.result.value.value]))), c.end)
    else if checked && c.result.value.Some? then
      MarkedWellFormed(mid, n);
      Run((Backprop(mid[n := mid[n].(done := true)], n, 1.0), None), c.end)
    else
      var ro := RolloutRun(stream, if checked then c.end else pos, mid[n], cfg.npcs, cfg.rolloutDepth, cfg.rolloutWidth, |cfg.talkingPoints|);
      if ro.result.Err? then Run((mid, Some(Err(ro.result.error))), ro.end)
      else Run((Backprop(mid, n, ro.result.value), None), ro.end)
  }

  lemma EvaluateKeeps(cfg: Config, mid: seq<Node>, n: nat, stream: nat -> string, pos: nat)
    requires WellFormed(mid) && n < |mid|
    ensures WellFormed(Evaluate(cfg, mid, n, stream, pos).result.0)
    ensures VisitsCover(mid) ==> VisitsCover(Evaluate(cfg, mid, n, stream, pos).result.0)
  {
    var checked := mid[n].text != "" && NpcSpoke(mid[n], cfg.npcs);
    var c := CheckRun(stream, pos, cfg.talkingPoints, cfg.npcs);
    var e := Evaluate(cfg, mid, n, stream, pos).result.0;
    if checked && c.result.Err? {
      assert e == mid;
    } else if checked && c.result.value.Some? && ParentIsRoot(mid, n) {
      assert e == mid;
    } else if checked && c.result.value.Some? {
      var marked := mid[n := mid[n].(done := true)];
      MarkedWellFormed(mid, n);
      assert e == Backprop(marked, n, 1.0);
      BackpropagateShape(marked, e, n, 1.0);
      if VisitsCover(mid) {
        MarkDoneKeeps(mid, n);
        BackpropagateCover(marked, e, n, 1.0);
      }
    } else {
      var ro := RolloutRun(stream, if checked then c.end else pos, mid[n], cfg.npcs, cfg.rolloutDepth, cfg.rolloutWidth, |cfg.talkingPoints|);
      if ro.result.Ok? {
        assert e == Backprop(mid, n, ro.result.value);
        BackpropagateShape(mid, e, n, ro.result.value);
        if VisitsCover(mid) {
          BackpropagateCover(mid, e, n, ro.result.value);
        }
      } else {
        assert e == mid;
      }
    }
  }

  /** A rollout's reward lies in [0, 1], and a rollout can only fail for
      want of samples. */
  lemma RolloutRunFacts(stream: nat -> string, pos: nat, node: Node, npcs: seq<string>, depth: nat, width: nat, count: nat)
    ensures var r := RolloutRun(stream, pos, node, npcs, depth, width, count).result;
      && (r.Ok? ==> 0.0 <= r.value <= 1.0)
      && (r.Err? ==> r.error == EmptyRollout)
  {
    RolloutInUnit(stream, pos + (if NpcSpoke(node, npcs) then 1 else 0), 0, depth, width, count, Favorable);
  }

  /** An evaluation that lets the search go on adds one visit to the root;
      no evaluation changes the root's allowed speakers. */
  lemma EvaluateRoot(cfg: Config, mid: seq<Node>, n: nat, stream: nat -> string, pos: nat)
    requires WellFormed(mid) && n < |mid|
    ensures var e := Evaluate(cfg, mid, n, stream, pos).result;
      && |e.0| > 0 && e.0[0].next == mid[0].next
      && (e.1.None? ==> e.0[0].visits == mid[0].visits + 1)
  {
    var checked := mid[n].text != "" && NpcSpoke(mid[n], cfg.npcs);
    var c := CheckRun(stream, pos, cfg.talkingPoints, cfg.npcs);
    var e := Evaluate(cfg, mid, n, stream, pos);
    if checked && c.result.Err? {
    } else if checked && c.result.value.Some? && ParentIsRoot(mid, n) {
    } else if checked && c.result.value.Some? {
      var marked := mid[n := mid[n].(done := true)];
      MarkedWellFormed(mid, n);
      assert e.result.0 == Backprop(marked, n, 1.0);
      BackpropRoot(marked, n, 1.0);
    } else {
      var p := if checked then c.end else pos;
      var ro := RolloutRun(stream, p, mid[n], cfg.npcs, cfg.rolloutDepth, cfg.rolloutWidth, |cfg.talkingPoints|);
      if ro.result.Ok? {
        assert e.result.0 == Backprop(mid, n, ro.result.value);
        BackpropRoot(mid, n, ro.result.value);
      }
    }
  }

  /** An evaluation ends the search, leaving the tree as it was, only with
      a target matched by a child of the root or with a search error. */
  lemma EvaluateStop(cfg: Config, mid: seq<Node>, n: nat, stream: nat -> string, pos: nat)
    requires WellFormed(mid) && n < |mid|
    ensures var e := Evaluate(cfg, mid, n, stream, pos).result;
      && (e.1.Some? && e.1.value.Ok? ==>
            && e.0 == mid && mid[n].parent == Some(0)
            && |e.1.value.value| == 1 && IsTarget(e.1.value.value[0], cfg.talkingPoints, cfg.npcs))
      && (e.1.Some? && e.1.value.Err? ==> e.0 == mid && SearchError(e.1.value.error))
  {
    var checked := mid[n].text != "" && NpcSpoke(mid[n], cfg.npcs);
    var c := CheckRun(stream, pos, cfg.talkingPoints, cfg.npcs);
    var e := Evaluate(cfg, mid, n, stream, pos);
    if checked && c.result.Err? {
      assert e == Run((mid, Some(Err(c.result.error))), c.end);
      assert FirstWhere(Window(stream, pos, |cfg.talkingPoints|), SaysYes).Some?;
    } else if checked && c.result.value.Some? && ParentIsRoot(mid, n) {
      assert e == Run((mid, Some(Ok([c.result.value.value]))), c.end);
      CheckRunFound(stream, pos, cfg.talkingPoints, cfg.npcs);
      ParentIsRootChild(mid, n);
    } else if checked && c.result.value.Some? {
      assert e.result.1.None?;
    } else {
      var p := if checked then c.end else pos;
      RolloutRunFacts(stream, p, mid[n], cfg.npcs, cfg.rolloutDepth, cfg.rolloutWidth, |cfg.talkingPoints|);
    }
  }

  /** A target matched deeper in the tree marks the node as done and adds 1
      to its reward. */
  lemma EvaluateDeepMatch(cfg: Config, mid: seq<Node>, n: nat, stream: nat -> string, pos: nat)
    requires WellFormed(mid) && n < |mid| && mid[n].text != "" && NpcSpoke(mid[n], cfg.npcs)
    requires CheckRun(stream, pos, cfg.talkingPoints, cfg.npcs).result.Ok?
    requires CheckRun(stream, pos, cfg.talkingPoints, cfg.npcs).result.value.Some? && mid[n].parent != Some(0)
    ensures var e := Evaluate(cfg, mid, n, stream, pos).result;
      e.1.None? && e.0[n].done && e.0[n].visits == mid[n].visits + 1 && e.0[n].reward == mid[n].reward + 1.0
  {
    ParentIsRootChild(mid, n);
    MarkedWellFormed(mid, n);
    assert n in Path(mid[n := mid[n].(done := true)], n);
  }

  /** One iteration of `search` from the answers at `pos` on. */
  ghost function IterateRun(cfg: Config, nodes: seq<Node>, stream: nat -> string, pos: nat, bonus: real -> real)
    : Run<(seq<Node>, Option<Result<seq<(string, string)>>>)>
    requires WellFormed(nodes)
  {
    var l := LeafRun(cfg, nodes, stream, pos, bonus);
    LeafRunKeeps(cfg, nodes, stream, pos, bonus);
    if l.result.1.Err? then Run((l.result.0, Some(Err(l.result.1.error))), l.end)
    else Evaluate(cfg, l.result.0, l.result.1.value, stream, l.end)
  }

  /** An iteration keeps the tree well formed, and every node's visits at
      least those of its children. */
  lemma IterateRunKeeps(cfg: Config, nodes: seq<Node>, stream: nat -> string, pos: nat, bonus: real -> real)
    requires WellFormed(nodes)
    ensures WellFormed(IterateRun(cfg, nodes, stream, pos, bonus).result.0)
    ensures VisitsCover(nodes) ==> VisitsCover(IterateRun(cfg, nodes, stream, pos, bonus).result.0)
  {
    var l := LeafRun(cfg, nodes, stream, pos, bonus);
    LeafRunKeeps(cfg, nodes, stream, pos, bonus);
    if l.result.1.Ok? {
      EvaluateKeeps(cfg, l.result.0, l.result.1.value, stream, l.end);
    }
  }

  /** What one iteration can end in: one more visit to the root; a single
      target matched by a child of the root; or a search error. */
  lemma IterateOutcome(cfg: Config, nodes: seq<Node>, stream: nat -> string, pos: nat, bonus: real -> real)
    requires WellFormed(nodes)
    ensures var st := IterateRun(cfg, nodes, stream, pos, bonus).result;
      && WellFormed(st.0)
      && st.0[0].next == nodes[0].next
      && (st.1.None? ==> st.0[0].visits == nodes[0].visits + 1)
      && (st.1.Some? && st.1.value.Ok? ==> |st.1.value.value| == 1 && IsTarget(st.1.value.value[0], cfg.talkingPoints, cfg.npcs))
      && (st.1.Some? && st.1.value.Err? ==> SearchError(st.1.value.error))
  {
    var l := LeafRun(cfg, nodes, stream, pos, bonus);
    LeafRunKeeps(cfg, nodes, stream, pos, bonus);
    IterateRunKeeps(cfg, nodes, stream, pos, bonus);
    if l.result.1.Ok? {
      EvaluateRoot(cfg, l.result.0, l.result.1.value, stream, l.end);
      EvaluateStop(cfg, l.result.0, l.result.1.value, stream, l.end);
    }
  }

  /** One iteration of the search, as a function of the tree and of the
      position in the answer stream. */
  type Iteration = (seq<Node>, nat) --> Run<(seq<Node>, Option<Result<seq<(string, string)>>>)>

  /** An iteration that applies to every well-formed tree and keeps it well formed. */
  ghost predicate KeepsTree(step: Iteration)
  {
    forall t: seq<Node>, p: nat :: WellFormed(t) ==> step.requires(t, p) && WellFormed(step(t, p).result.0)
  }

  /** What an iteration may do: keep the root's allowed speakers; add a
      visit to the root when the search goes on; end the search with one
      matched target or with a search error. */
  ghost predicate Outcome(npcs: seq<string>, tps: seq<string>, t: seq<Node>,
                          st: (seq<Node>, Option<Result<seq<(string, string)>>>))
  {
    && |t| > 0 && |st.0| > 0
    && st.0[0].next == t[0].next
    && (st.1.None? ==> st.0[0].visits == t[0].visits + 1)
    && (st.1.Some? && st.1.value.Ok? ==> |st.1.value.value| == 1 && IsTarget(st.1.value.value[0], tps, npcs))
    && (st.1.Some? && st.1.value.Err? ==> SearchError(st.1.value.error))
  }

  ghost predicate Ends(step: Iteration, npcs: seq<string>, tps: seq<string>)
  {
    forall t: seq<Node>, p: nat :: WellFormed(t) && step.requires(t, p) ==> Outcome(npcs, tps, t, step(t, p).result)
  }

  /** The iterations of one planner. */
  ghost function Iterations(cfg: Config, stream: nat -> string, bonus: real -> real): Iteration
  {
    (t: seq<Node>, p: nat) requires WellFormed(t) => IterateRun(cfg, t, stream, p, bonus)
  }

  /** The planner's iterations keep the tree and end as `IterateOutcome` says. */
  lemma IterationsEnd(cfg: Config, stream: nat -> string, bonus: real -> real)
    ensures KeepsTree(Iterations(cfg, stream, bonus))
    ensures Ends(Iterations(cfg, stream, bonus), cfg.npcs, cfg.talkingPoints)
  {
    var step := Iterations(cfg, stream, bonus);
    forall t: seq<Node>, p: nat | WellFormed(t)
      ensures step.requires(t, p) && WellFormed(step(t, p).result.0)
      ensures Outcome(cfg.npcs, cfg.talkingPoints, t, step(t, p).result)
    {
      assert step(t, p) == IterateRun(cfg, t, stream, p, bonus);
      IterateOutcome(cfg, t, stream, p, bonus);
    }
  }

  /** `search` with `left` iterations to go, from the answers at `pos` on:
      the final tree and the result. */
  ghost function SearchFrom(step: Iteration, nodes: seq<Node>, pos: nat, left: nat)
    : (r: Run<(seq<Node>, Result<seq<(string, string)>>)>)
    requires KeepsTree(step) && WellFormed(nodes)
    ensures WellFormed(r.result.0)
    decreases left
  {
    if left == 0 then Run((nodes, Ok(Ranked(nodes))), pos)
    else
      var st := step(nodes, pos);
      if st.result.1.Some? then Run((st.result.0, st.result.1.value), st.end)
      else SearchFrom(step, st.result.0, st.end, left - 1)
  }

  /** The first iteration of a search, with a known outcome, either ends
      it or leaves the rest of the search to run. */
  lemma SearchAdvance(step: Iteration, nodes: seq<Node>, pos: nat, left: nat, rest: nat,
                      after: seq<Node>, end: nat, stop: Option<Result<seq<(string, string)>>>)
    requires KeepsTree(step) && WellFormed(nodes) && left == rest + 1
    requires (after, stop) == step(nodes, pos).result && end == step(nodes, pos).end
    ensures stop.Some? ==> SearchFrom(step, nodes, pos, left) == Run((after, stop.value), end)
    ensures stop.None? ==> WellFormed(after) && SearchFrom(step, nodes, pos, left) == SearchFrom(step, after, end, rest)
  {}

  /** What a search ends in: a search error; a single target matched by a
      child of the root; or the ranking of the final tree, whose root got
      one visit per iteration. The root's allowed speakers never change. */
  lemma {:induction false} SearchFromOutcome(step: Iteration, npcs: seq<string>, tps: seq<string>,
                                             nodes: seq<Node>, pos: nat, left: nat)
    requires KeepsTree(step) && Ends(step, npcs, tps) && WellFormed(nodes)
    ensures var s := SearchFrom(step, nodes, pos, left).result;
      && s.0[0].next == nodes[0].next
      && (s.1.Err? ==> SearchError(s.1.error))
      && (s.1.Ok? ==>
            || (|s.1.value| == 1 && IsTarget(s.1.value[0], tps, npcs))
            || (s.1.value == Ranked(s.0) && s.0[0].visits == nodes[0].visits + left))
    decreases left
  {
    if left > 0 {
      var st := step(nodes, pos);
      assert Outcome(npcs, tps, nodes, st.result);
      if st.result.1.None? {
        SearchFromOutcome(step, npcs, tps, st.result.0, st.end, left - 1);
      }
    }
  }

  /** Every character a search returns is a non-player character or one
      the root allowed to speak. */
  lemma SearchFromNames(step: Iteration, npcs: seq<string>, tps: seq<string>, nodes: seq<Node>, pos: nat, left: nat)
    requires KeepsTree(step) && Ends(step, npcs, tps) && WellFormed(nodes)
    ensures var s := SearchFrom(step, nodes, pos, left).result;
      s.1.Ok? ==> forall k :: 0 <= k < |s.1.value| ==> s.1.value[k].0 in npcs || s.1.value[k].0 in nodes[0].next
  {
    var s := SearchFrom(step, nodes, pos, left).result;
    SearchFromOutcome(step, npcs, tps, nodes, pos, left);
    if s.1.Ok? {
      if |s.1.value| == 1 && IsTarget(s.1.value[0], tps, npcs) {
        var pair := s.1.value[0];
        TargetNamed(pair, tps, npcs);
        assert s.1.value == [pair];
      } else {
        RankedNames(s.0);
      }
    }
  }

  // ---------------------------------------------------------------------
  // The search object
  // ---------------------------------------------------------------------

  /** The root of a fresh tree: the dialogue so far, and the characters who may speak next. */
  function Root(history: seq<Line>, next: seq<string>): Node
  {
    Node(history, next, None, [], None, "", 0, 0.0, false)
  }

  /** A whole `search` of the planner `cfg` from the tree `nodes`. */
  ghost function SearchRun(cfg: Config, nodes: seq<Node>, stream: nat -> string, pos: nat, bonus: real -> real)
    : Run<(seq<Node>, Result<seq<(string, string)>>)>
    requires WellFormed(nodes)
  {
    IterationsEnd(cfg, stream, bonus);
    SearchFrom(Iterations(cfg, stream, bonus), nodes, pos, cfg.maxIterations)
  }

  /** What a whole search of a planner ends in, as `SearchFromOutcome` says. */
  lemma SearchRunOutcome(cfg: Config, nodes: seq<Node>, stream: nat -> string, pos: nat, bonus: real -> real)
    requires WellFormed(nodes)
    ensures var s := SearchRun(cfg, nodes, stream, pos, bonus).result;
      && WellFormed(s.0) && s.0[0].next == nodes[0].next
      && (s.1.Err? ==> SearchError(s.1.error))
      && (s.1.Ok? ==>
            || (|s.1.value| == 1 && IsTarget(s.1.value[0], cfg.talkingPoints, cfg.npcs))
            || (s.1.value == Ranked(s.0) && s.0[0].visits == nodes[0].visits + cfg.maxIterations))
  {
    IterationsEnd(cfg, stream, bonus);
    SearchFromOutcome(Iterations(cfg, stream, bonus), cfg.npcs, cfg.talkingPoints, nodes, pos, cfg.maxIterations);
  }

  /** Every character a whole search returns is a non-player character or
      one the root allowed to speak. */
  lemma SearchRunNames(cfg: Config, nodes: seq<Node>, stream: nat -> string, pos: nat, bonus: real -> real)
    requires WellFormed(nodes)
    ensures var s := SearchRun(cfg, nodes, stream, pos, bonus).result;
      s.1.Ok? ==> forall k :: 0 <= k < |s.1.value| ==> s.1.value[k].0 in cfg.npcs || s.1.value[k].0 in nodes[0].next
  {
    IterationsEnd(cfg, stream, bonus);
    SearchFromNames(Iterations(cfg, stream, bonus), cfg.npcs, cfg.talkingPoints, nodes, pos, cfg.maxIterations);
  }

  /** A fresh tree, a lone unvisited root, is well formed and covered. */
  lemma RootAlone(history: seq<Line>, next: seq<string>)
    ensures WellFormed([Root(history, next)]) && VisitsCover([Root(history, next)])
  {
    var nodes := [Root(history, next)];
    assert SumVisits(nodes, nodes[0].children) == 0;
  }

  class Mcts {
    const isPc: bool
    const maxIterations: nat
    const numExpand: nat
    const pcExpand: nat
    const rolloutDepth: nat
    const rolloutWidth: nat
    const pc: string
    const npcs: seq<string>
    /** The targets of the next talking points, as "<owner>: <text>". */
    const talkingPoints: seq<string>
    /** The tree, as an arena: node 0 is the root. */
    var nodes: seq<Node>

    ghost predicate Valid()
      reads this
    {
      WellFormed(nodes) && VisitsCover(nodes)
    }

    /** The planner's characters, targets and budget as a value. */
    function Cfg(): Config
    {
      Config(pc, npcs, talkingPoints, isPc, maxIterations, numExpand, pcExpand, rolloutDepth, rolloutWidth)
    }

    constructor (history: seq<Line>, pc: string, npcs: seq<string>, talkingPoints: seq<string>, isPc: bool,
                 maxIterations: nat, numExpand: nat, pcExpand: nat, rolloutDepth: nat, rolloutWidth: nat)
      ensures Valid()
      ensures nodes == [Root(history, if isPc then [pc] else npcs)]
      ensures this.pc == pc && this.npcs == npcs && this.talkingPoints == talkingPoints && this.isPc == isPc
      ensures this.maxIterations == maxIterations && this.numExpand == numExpand && this.pcExpand == pcExpand
      ensures this.rolloutDepth == rolloutDepth && this.rolloutWidth == rolloutWidth
    {
      this.isPc := isPc;
      this.maxIterations := maxIterations;
      this.numExpand := numExpand;
      this.pcExpand := pcExpand;
      this.rolloutDepth := rolloutDepth;
      this.rolloutWidth := rolloutWidth;
      this.pc := pc;
      this.npcs := npcs;
      this.talkingPoints := talkingPoints;
      nodes := [Root(history, if isPc then [pc] else npcs)];
      new;
      assert SumVisits(nodes, nodes[0].children) == 0;
    }

    /** `select`: descend from the root to a leaf or an unvisited node. */
    method Select(bonus: real -> real) returns (n: nat)
      requires Valid()
      ensures n == Descend(nodes, 0, bonus)
      ensures n < |nodes| && (|nodes[n].children| == 0 || nodes[n].visits == 0)
    {
      n := 0;
      while |nodes[n].children| > 0 && nodes[n].visits > 0
        invariant n < |nodes|
        invariant Descend(nodes, n, bonus) == Descend(nodes, 0, bonus)
        decreases |nodes| - n
      {
        n := BestChild(nodes, n, bonus);
      }
    }

    /** `expand`: for every character who may speak after node `p`, `k`
        sampled continuations become new children of `p`, in that order. */
    method Expand(p: nat, k: nat, oracle: Oracle) returns (r: Result<nat>)
      requires Valid() && p < |nodes|
      modifies this, oracle
      ensures Valid()
      ensures nodes == Grow(old(nodes), p, Fan(old(nodes[p]), p, old(nodes[p]).next, k, oracle.stream, old(oracle.calls), pc, npcs))
      ensures oracle.calls == old(oracle.calls) + ExpandCalls(|old(nodes[p]).next|, k)
      ensures r == if |nodes[p].children| > 0 then Ok(nodes[p].children[0]) else Err(EmptyExpansion)
      ensures forall j :: 0 <= j < |old(nodes)| ==> nodes[j].visits == old(nodes[j].visits) && nodes[j].next == old(nodes[j].next)
    {
      var ns := Sprout(nodes, p, k, oracle, pc, npcs);
      GrowFacts(nodes, p, Fan(nodes[p], p, nodes[p].next, k, oracle.stream, old(oracle.calls), pc, npcs));
      FanShape(nodes[p], p, nodes[p].next, k, oracle.stream, old(oracle.calls), pc, npcs);
      FanSize(nodes[p], p, nodes[p].next, k, oracle.stream, old(oracle.calls), pc, npcs);
      GrowKeeps(nodes, p, Fan(nodes[p], p, nodes[p].next, k, oracle.stream, old(oracle.calls), pc, npcs));
      nodes := ns;
      if |ns[p].children| > 0 {
        r := Ok(ns[p].children[0]);
      } else {
        r := Err(EmptyExpansion);
      }
    }

    /** `backpropagate`: one more visit and the reward for `n` and each of its ancestors. */
    method Backpropagate(n: nat, reward: real)
      requires Valid() && n < |nodes|
      modifies this
      ensures Backpropagated(old(nodes), nodes, n, reward)
      ensures nodes == Backprop(old(nodes), n, reward)
      ensures Valid()
      ensures nodes[0].visits == old(nodes[0].visits) + 1
      ensures nodes[0].next == old(nodes[0].next)
    {
      var ns := nodes;
      ghost var before := ns;
      ghost var seen: set<nat> := {};
      var cur: Option<nat> := Some(n);
      while cur.Some?
        invariant cur.Some? ==> cur.value < |before| && Path(before, n) == seen + Path(before, cur.value)
                                && seen !! Path(before, cur.value)
        invariant cur.None? ==> seen == Path(before, n)
        invariant Bumped(before, ns, seen, reward)
        decreases if cur.Some? then cur.value + 1 else 0
      {
        var i := cur.value;
        PathStep(before, n, seen, i);
        BumpedStep(before, ns, seen, reward, i);
        ns := ns[i := ns[i].(visits := ns[i].visits + 1, reward := ns[i].reward + reward)];
        seen := seen + {i};
        cur := ns[i].parent;
      }
      nodes := ns;
      BackpropagateShape(before, nodes, n, reward);
      BackpropagateCover(before, nodes, n, reward);
      BackpropUnique(before, nodes, n, reward);
    }
    /** `check_talking_points`: one question per target, in order, until
        the first "yes"; that target is parsed into its owner and text. */
    method CheckTalkingPoints(oracle: Oracle) returns (r: Result<Option<(string, string)>>)
      modifies oracle
      ensures r == CheckRun(oracle.stream, old(oracle.calls), talkingPoints, npcs).result
      ensures oracle.calls == CheckRun(oracle.stream, old(oracle.calls), talkingPoints, npcs).end
      ensures r.Ok? && r.value.Some? ==> IsTarget(r.value.value, talkingPoints, npcs)
      ensures r.Err? ==> r.error == NoSuchCharacter
    {
      CheckRunFound(oracle.stream, oracle.calls, talkingPoints, npcs);
      var found := AskUntil(oracle, |talkingPoints|, SaysYes);
      match found {
        case None =>
          r := Ok(None);
        case Some(t) =>
          match ParseTarget(talkingPoints[t], npcs) {
            case Ok(pair) => r := Ok(Some(pair));
            case Err(e) => r := Err(e);
          }
      }
    }

    /** `rollout`: simulated rounds below `rolloutDepth`, each sampling
        `rolloutWidth` continuations and then comparing every talking point
        against them; the first "equal" or "better" is worth `0.9 ** i`. */
    method Rollout(n: nat, oracle: Oracle) returns (r: Result<real>)
      requires n < |nodes|
      modifies oracle
      ensures r == RolloutRun(oracle.stream, old(oracle.calls), nodes[n], npcs, rolloutDepth, rolloutWidth, |talkingPoints|).result
      ensures oracle.calls == RolloutRun(oracle.stream, old(oracle.calls), nodes[n], npcs, rolloutDepth, rolloutWidth, |talkingPoints|).end
      ensures r.Err? ==> r.error == EmptyRollout
    {
      if NpcSpoke(nodes[n], npcs) {
        var _ := oracle.Ask();
      }
      r := RolloutRounds(oracle, rolloutDepth, rolloutWidth, |talkingPoints|, Favorable);
    }

    /** The node an iteration of `search` evaluates: the selected node,
        or the first child it gets when it may be expanded (it is not done,
        and it is the root or has been visited before). */
    method Leaf(oracle: Oracle, bonus: real -> real) returns (r: Result<nat>)
      requires Valid()
      modifies this, oracle
      ensures Valid()
      ensures (nodes, r) == LeafRun(Cfg(), old(nodes), oracle.stream, old(oracle.calls), bonus).result
      ensures oracle.calls == LeafRun(Cfg(), old(nodes), oracle.stream, old(oracle.calls), bonus).end
      ensures r.Ok? ==> r.value < |nodes|
      ensures r.Err? ==> r.error == EmptyExpansion
      ensures nodes[0].visits == old(nodes[0].visits) && nodes[0].next == old(nodes[0].next)
    {
      ghost var run := LeafRun(Cfg(), nodes, oracle.stream, oracle.calls, bonus);
      var node := Select(bonus);
      if Expands(nodes[node]) {
        var k := Branching(Cfg(), nodes[node]);
        assert run.result.0 == Grow(nodes, node, Fan(nodes[node], node, nodes[node].next, k, oracle.stream, oracle.calls, pc, npcs));
        assert run.end == oracle.calls + ExpandCalls(|nodes[node].next|, k);
        r := Expand(node, k, oracle);
      } else {
        r := Ok(node);
        assert run == Run((nodes, Ok(node)), oracle.calls);
      }
    }

    /** `node.done = True`. */
    method MarkDone(n: nat)
      requires Valid() && n < |nodes|
      modifies this
      ensures Valid()
      ensures nodes == old(nodes)[n := old(nodes)[n].(done := true)]
      ensures |nodes| == |old(nodes)| && nodes[0].visits == old(nodes[0].visits) && nodes[0].next == old(nodes[0].next)
    {
      MarkDoneKeeps(nodes, n);
      nodes := nodes[n := nodes[n].(done := true)];
    }

    /** One iteration of `search`: select, expand when allowed, evaluate
        and backpropagate. `stop` is the search's result when the iteration
        ends it: a talking point matched one step below the root, or an error. */
    method Iterate(oracle: Oracle, bonus: real -> real) returns (stop: Option<Result<seq<(string, string)>>>)
      requires Valid()
      modifies this, oracle
      ensures Valid()
      ensures (nodes, stop) == IterateRun(Cfg(), old(nodes), oracle.stream, old(oracle.calls), bonus).result
      ensures oracle.calls == IterateRun(Cfg(), old(nodes), oracle.stream, old(oracle.calls), bonus).end
      ensures stop.None? ==> nodes[0].visits == old(nodes[0].visits) + 1
      ensures nodes[0].next == old(nodes[0].next)
      ensures stop.Some? && stop.value.Ok? ==> |stop.value.value| == 1 && IsTarget(stop.value.value[0], talkingPoints, npcs)
      ensures stop.Some? && stop.value.Err? ==> SearchError(stop.value.error)
    {
      ghost var before, pos := nodes, oracle.calls;
      var leaf := Leaf(oracle, bonus);
      if leaf.Err? {
        return Some(Err(leaf.error));
      }
      var node := leaf.value;
      ghost var mid, pos1 := nodes, oracle.calls;
      assert IterateRun(Cfg(), before, oracle.stream, pos, bonus) == Evaluate(Cfg(), mid, node, oracle.stream, pos1);
      var reward: Option<real> := None;
      if nodes[node].text != "" && NpcSpoke(nodes[node], npcs) {
        var tp := CheckTalkingPoints(oracle);
        if tp.Err? {
          return Some(Err(tp.error));
        }
        if tp.value.Some? {
          SpokenHasParent(nodes, node);
          if nodes[nodes[node].parent.value].parent.None? {
            return Some(Ok([tp.value.value]));
          }
          MarkDone(node);
          reward := Some(1.0);
        }
      }
      if reward.None? {
        var rr := Rollout(node, oracle);
        if rr.Err? {
          return Some(Err(rr.error));
        }
        reward := Some(rr.value);
      }
      Backpropagate(node, reward.value);
      stop := None;
    }

    /** `search`: `maxIterations` iterations; a talking point matched one
        step below the root ends the search with that match, otherwise the
        root's children are returned best reward first. */
    method Search(oracle: Oracle, bonus: real -> real) returns (r: Result<seq<(string, string)>>)
      requires Valid()
      modifies this, oracle
      ensures Valid()
      ensures KeepsTree(Iterations(Cfg(), oracle.stream, bonus))
      ensures (nodes, r) == SearchFrom(Iterations(Cfg(), oracle.stream, bonus), old(nodes), old(oracle.calls), maxIterations).result
      ensures oracle.calls == SearchFrom(Iterations(Cfg(), oracle.stream, bonus), old(nodes), old(oracle.calls), maxIterations).end
      ensures r.Ok? ==>
        || (|r.value| == 1 && IsTarget(r.value[0], talkingPoints, npcs))
        || (r.value == Ranked(nodes) && nodes[0].visits == old(nodes[0].visits) + maxIterations)
      ensures r.Err? ==> SearchError(r.error)
      ensures r.Ok? ==> forall k :: 0 <= k < |r.value| ==> r.value[k].0 in npcs || r.value[k].0 in old(nodes[0].next)
    {
      ghost var step := Iterations(Cfg(), oracle.stream, bonus);
      IterationsEnd(Cfg(), oracle.stream, bonus);
      ghost var whole := SearchFrom(step, nodes, oracle.calls, maxIterations);
      SearchFromOutcome(step, npcs, talkingPoints, nodes, oracle.calls, maxIterations);
      SearchFromNames(step, npcs, talkingPoints, nodes, oracle.calls, maxIterations);
      var it := 0;
      ghost var left: nat := maxIterations;
      while it < maxIterations
        invariant Valid()
        invariant it <= maxIterations && left == maxIterations - it
        invariant SearchFrom(step, nodes, oracle.calls, left) == whole
      {
        ghost var here, pos := nodes, oracle.calls;
        var stop := Iterate(oracle, bonus);
        assert step(here, pos) == IterateRun(Cfg(), here, oracle.stream, pos, bonus);
        ghost var rest := left - 1;
        SearchAdvance(step, here, pos, left, rest, nodes, oracle.calls, stop);
        if stop.Some? {
          r := stop.value;
          return;
        }
        it := it + 1;
        left := rest;
      }
      r := Ok(Ranked(nodes));
    }
  }

  /** `MCTS(...).search()` on a fresh planner whose root holds `history`:
      exactly the search `SearchRun` describes. */
  method SearchFresh(cfg: Config, history: seq<Line>, oracle: Oracle, bonus: real -> real)
    returns (r: Result<seq<(string, string)>>, ghost tree: seq<Node>)
    modifies oracle
    ensures WellFormed([Root(history, if cfg.isPc then [cfg.pc] else cfg.npcs)])
    ensures (tree, r) == SearchRun(cfg, [Root(history, if cfg.isPc then [cfg.pc] else cfg.npcs)], oracle.stream, old(oracle.calls), bonus).result
    ensures oracle.calls == SearchRun(cfg, [Root(history, if cfg.isPc then [cfg.pc] else cfg.npcs)], oracle.stream, old(oracle.calls), bonus).end
  {
    var planner := new Mcts(history, cfg.pc, cfg.npcs, cfg.talkingPoints, cfg.isPc,
                            cfg.maxIterations, cfg.numExpand, cfg.pcExpand, cfg.rolloutDepth, cfg.rolloutWidth);
    assert planner.Cfg() == cfg;
    r := planner.Search(oracle, bonus);
    tree := planner.nodes;
  }
}
