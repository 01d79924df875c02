/** Writing every alias of a YAML node graph out in full, in place (core/profile_base.go). */
module YamlAliases {

  datatype Kind = Document | Sequence | Mapping | Scalar | Alias

  class YamlNode {
    const kind: Kind
    const value: string
    const alias: YamlNode?
    var anchor: string
    var content: seq<YamlNode>

    constructor (kind: Kind, value: string, alias: YamlNode?, anchor: string, content: seq<YamlNode>)
      ensures this.kind == kind && this.value == value && this.alias == alias && this.anchor == anchor
          && this.content == content
    {
      this.kind, this.value, this.alias, this.anchor, this.content := kind, value, alias, anchor, content;
    }
  }

  /** What a node stands for: an alias stands for its target. */
  function Target(n: YamlNode): YamlNode {
    if n.kind == Alias && n.alias != null then n.alias else n
  }

  /** An alias has a target, and the target is not an alias itself (section 7.1 of YAML 1.2.2 gives it an anchor). */
  predicate Targeted(n: YamlNode) { n.kind == Alias ==> n.alias != null && n.alias.kind != Alias }

  /** The i-th node of a chain leads to the next one, and the last one leads nowhere: it is no alias, or has
      no target. */
  ghost predicate Leads(chain: seq<YamlNode>, i: nat)
    requires i < |chain|
  {
    if i == |chain| - 1 then chain[i].kind != Alias || chain[i].alias == null
    else chain[i].kind == Alias && chain[i].alias == chain[i + 1]
  }

  /** Any finite chain of aliases is followed to its end. */
  method ResolveAlias(start: YamlNode, ghost chain: seq<YamlNode>) returns (node: YamlNode)
    requires chain != [] && chain[0] == start && forall i: nat | i < |chain| :: Leads(chain, i)
    ensures node == chain[|chain| - 1]
  {
    node := start;
    ghost var i: nat := 0;
    assert Leads(chain, 0);
    while node.kind == Alias && node.alias != null
      invariant i < |chain| && node == chain[i] && Leads(chain, i)
      decreases |chain| - i
    {
      node := node.alias;
      i := i + 1;
      assert Leads(chain, i);
    }
  }

  /** The chain of a node whose alias, if it is one, leads straight to a target. */
  ghost function ChainOf(n: YamlNode): seq<YamlNode> { if n.kind == Alias then [n, Target(n)] else [n] }

  lemma ChainLeads(n: YamlNode)
    requires Targeted(n)
    ensures var chain := ChainOf(n);
      && chain != [] && chain[0] == n && chain[|chain| - 1] == Target(n) && Target(n).kind != Alias
      && forall i: nat | i < |chain| :: Leads(chain, i)
  {
  }

  // ----- The graph while it is walked -----

  /** The node still has its anchor, or has been visited and lost it. */
  ghost predicate Marked(n: YamlNode, visited: set<YamlNode>)
    reads n`anchor
  {
    n.anchor != "" || n in visited
  }

  /** An alias leads to a marked node, and any other child is marked or lower than its parent in the original tree. */
  ghost predicate ChildOk(c: YamlNode, parent: YamlNode, nodes: set<YamlNode>, rank: YamlNode -> nat,
                          visited: set<YamlNode>)
    reads nodes`anchor
  {
    && c in nodes && Targeted(c) && Target(c) in nodes
    && (Marked(Target(c), visited) || (c.kind != Alias && rank(c) < rank(parent)))
  }

  ghost predicate Sound(nodes: set<YamlNode>, rank: YamlNode -> nat, visited: set<YamlNode>)
    reads nodes
  {
    && visited <= nodes && (forall v | v in visited :: v.anchor == "")
    && forall n | n in nodes :: forall i | 0 <= i < |n.content| :: ChildOk(n.content[i], n, nodes, rank, visited)
  }

  ghost function Anchored(nodes: set<YamlNode>): set<YamlNode>
    reads nodes`anchor
  {
    set n | n in nodes && n.anchor != ""
  }

  /** Nothing below this node is an alias, and everything right below it has been started. */
  ghost predicate Clean(n: YamlNode, started: set<YamlNode>)
    reads n
  {
    n.anchor == "" && forall i | 0 <= i < |n.content| :: n.content[i].kind != Alias && n.content[i] in started
  }

  ghost predicate AllClean(finished: set<YamlNode>, started: set<YamlNode>)
    reads finished
  {
    forall n | n in finished :: Clean(n, started)
  }

  ghost function Graph(nodes: set<YamlNode>): map<YamlNode, seq<YamlNode>>
    reads nodes`content
  {
    map n | n in nodes :: n.content
  }

  /** One child list turned into another by putting what some children stand for in their place. */
  ghost predicate Resolves(before: seq<YamlNode>, after: seq<YamlNode>) {
    |after| == |before| && forall i | 0 <= i < |after| :: after[i] == before[i] || after[i] == Target(before[i])
  }

  ghost predicate OnlyResolves(before: map<YamlNode, seq<YamlNode>>, after: map<YamlNode, seq<YamlNode>>) {
    after.Keys == before.Keys && forall n | n in after :: Resolves(before[n], after[n])
  }

  ghost predicate AllTargeted(graph: map<YamlNode, seq<YamlNode>>) {
    forall n | n in graph :: forall c | c in graph[n] :: Targeted(c)
  }

  lemma ResolvesTwice(a: map<YamlNode, seq<YamlNode>>, b: map<YamlNode, seq<YamlNode>>, c: map<YamlNode, seq<YamlNode>>)
    requires AllTargeted(a) && OnlyResolves(a, b) && OnlyResolves(b, c)
    ensures OnlyResolves(a, c)
  {
    forall n | n in c ensures Resolves(a[n], c[n]) {
      assert Resolves(a[n], b[n]) && Resolves(b[n], c[n]);
      forall i | 0 <= i < |c[n]| ensures c[n][i] == a[n][i] || c[n][i] == Target(a[n][i]) {
        assert a[n][i] in a[n];
        assert Targeted(a[n][i]);
      }
    }
  }

  lemma SoundIsTargeted(nodes: set<YamlNode>, rank: YamlNode -> nat, visited: set<YamlNode>)
    requires Sound(nodes, rank, visited)
    ensures AllTargeted(Graph(nodes))
  {
    forall n, c | n in nodes && c in n.content ensures Targeted(c) {
      var i :| 0 <= i < |n.content| && n.content[i] == c;
      assert ChildOk(n.content[i], n, nodes, rank, visited);
    }
  }

  /** Going down to a child leaves fewer anchors to meet, or as many and a lower node. */
  lemma MeasureDrops(before: set<YamlNode>, now: set<YamlNode>, node: YamlNode, child: YamlNode)
    requires now <= before - {node}
    ensures |now - {child}| <= |before - {node}| && (child in now ==> |now - {child}| < |before - {node}|)
  {
    Smaller(now, before - {node});
    Smaller(now - {child}, now);
    if child in now { assert |now - {child}| == |now| - 1; }
  }

  lemma {:induction false} Smaller(a: set<YamlNode>, b: set<YamlNode>)
    requires a <= b
    ensures |a| <= |b|
  {
    if a != {} {
      var x :| x in a;
      Smaller(a - {x}, b - {x});
    }
  }

  /** What the children of the part's nodes stand for is in the part, too. */
  ghost predicate Closed(part: set<YamlNode>, graph: map<YamlNode, seq<YamlNode>>) {
    forall n | n in part :: n in graph && forall i | 0 <= i < |graph[n]| :: Target(graph[n][i]) in part
  }

  lemma ChildMayResolve(c: YamlNode, parent: YamlNode, nodes: set<YamlNode>, rank: YamlNode -> nat,
                        visited: set<YamlNode>)
    requires ChildOk(c, parent, nodes, rank, visited)
    ensures Targeted(c) && ChildOk(Target(c), parent, nodes, rank, visited) && Target(c) in nodes
    ensures rank(Target(c)) < rank(parent) || Target(c) in visited || Target(c) in Anchored(nodes)
  {
  }

  lemma OneResolves(before: map<YamlNode, seq<YamlNode>>, n: YamlNode, i: nat, child: YamlNode)
    requires n in before && i < |before[n]| && child == Target(before[n][i])
    ensures OnlyResolves(before, before[n := before[n][i := child]])
  {
  }

  lemma StandsWithin(part: set<YamlNode>, graph: map<YamlNode, seq<YamlNode>>, n: YamlNode, i: nat)
    requires Closed(part, graph) && n in part && n in graph && i < |graph[n]|
    ensures Target(graph[n][i]) in part
  {
  }

  lemma ClosedStays(part: set<YamlNode>, before: map<YamlNode, seq<YamlNode>>, after: map<YamlNode, seq<YamlNode>>)
    requires Closed(part, before) && AllTargeted(before) && OnlyResolves(before, after)
    ensures Closed(part, after)
  {
    forall n, i | n in part && 0 <= i < |after[n]| ensures Target(after[n][i]) in part {
      assert Resolves(before[n], after[n]);
      assert before[n][i] in before[n];
    }
  }

  class Inliner {
    var visited: set<YamlNode>
    ghost var started: set<YamlNode>
    /** Any part of the graph that the walk cannot leave. */
    ghost const within: set<YamlNode>

    constructor (ghost within: set<YamlNode>)
      ensures visited == {} && started == {} && this.within == within
    {
      visited, started := {}, {};
      this.within := within;
    }

    /** Between any two calls: the graph is sound, and every node that was started and is not still open is clean. */
    ghost predicate Walking(nodes: set<YamlNode>, rank: YamlNode -> nat, open: set<YamlNode>)
      reads this, nodes
    {
      && Sound(nodes, rank, visited) && visited <= started <= nodes && AllClean(started - open, started)
      && within <= nodes && started <= within && Closed(within, Graph(nodes))
    }

    /** Starting a node: an anchored one is remembered and loses its anchor. */
    method Enter(node: YamlNode, ghost nodes: set<YamlNode>, ghost rank: YamlNode -> nat, ghost open: set<YamlNode>)
      requires node in nodes && node in within && node !in visited && Walking(nodes, rank, open)
      modifies this, node`anchor
      ensures Walking(nodes, rank, open + {node}) && node.anchor == ""
      ensures started == old(started) + {node}
          && visited == old(visited) + if old(node.anchor) != "" then {node} else {}
      ensures Anchored(nodes) == old(Anchored(nodes)) - {node} && Graph(nodes) == old(Graph(nodes))
    {
      hide Closed;
      started := started + {node};
      assert Graph(nodes) == old(Graph(nodes));
      forall n | n in started - (open + {node}) ensures Clean(n, started) { assert Clean(n, old(started)); }
      if node.anchor != "" {
        visited := visited + {node};
        node.anchor := "";
        forall n, i | n in nodes && 0 <= i < |n.content| ensures ChildOk(n.content[i], n, nodes, rank, visited) {
          assert old(ChildOk(n.content[i], n, nodes, rank, visited));
        }
        assert Graph(nodes) == old(Graph(nodes));
        forall n | n in started - (open + {node}) ensures Clean(n, started) { assert old(Clean(n, started)); }
      }
    }

    /** Putting what a child stands for in its place. */
    method Resolve(node: YamlNode, i: nat, ghost nodes: set<YamlNode>, ghost rank: YamlNode -> nat,
                   ghost open: set<YamlNode>)
      returns (child: YamlNode)
      requires node in nodes && node in within && i < |node.content| && node in open && Walking(nodes, rank, open)
      modifies node`content
      ensures Walking(nodes, rank, open)
      ensures node.content == old(node.content)[i := child] && child == Target(old(node.content[i]))
          && child.kind != Alias
      ensures child in nodes && child in within
          && (rank(child) < rank(node) || child in visited || child in Anchored(nodes))
      ensures Anchored(nodes) == old(Anchored(nodes)) && OnlyResolves(old(Graph(nodes)), Graph(nodes))
    {
      hide Clean, Closed, AllTargeted, OnlyResolves, Leads, ChainOf;
      ChildMayResolve(node.content[i], node, nodes, rank, visited);
      StandsWithin(within, Graph(nodes), node, i);
      ghost var before := Graph(nodes);
      SoundIsTargeted(nodes, rank, visited);
      ChainLeads(node.content[i]);
      child := ResolveAlias(node.content[i], ChainOf(node.content[i]));
      node.content := node.content[i := child];
      assert Graph(nodes) == before[node := before[node][i := child]];
      OneResolves(before, node, i, child);
      ClosedStays(within, before, Graph(nodes));
    }

    /** One turn of the loop over a node's children. */
    method WalkChild(node: YamlNode, i: nat, ghost nodes: set<YamlNode>, ghost rank: YamlNode -> nat,
                     ghost open: set<YamlNode>, ghost before: set<YamlNode>)
      requires node in nodes && node in within && i < |node.content| && node in open && Walking(nodes, rank, open)
      requires ChildrenDone(node.content, i, started)
      requires Anchored(nodes) <= before - {node}
      modifies this, nodes
      ensures Walking(nodes, rank, open) && old(visited) <= visited && old(started) <= started
      ensures Anchored(nodes) <= before - {node} && OnlyResolves(old(Graph(nodes)), Graph(nodes))
      ensures |node.content| == |old(node.content)| && ChildrenDone(node.content, i + 1, started)
      decreases |before - {node}|, rank(node) + 1, 0
    {
      hide Walking, OnlyResolves, Anchored, AllTargeted, ChildrenDone;
      ghost var g0 := Graph(nodes);
      AllAreTargeted(nodes, rank, open);
      var child := Resolve(node, i, nodes, rank, open);
      ghost var g1 := Graph(nodes);
      MeasureDrops(before, Anchored(nodes), node, child);
      Walk(child, nodes, rank, open);
      ResolvesTwice(g0, g1, Graph(nodes));
      ChildStays(g0, g1, Graph(nodes), node, i, old(started), started);
    }

    ghost method AllAreTargeted(nodes: set<YamlNode>, rank: YamlNode -> nat, open: set<YamlNode>)
      requires Walking(nodes, rank, open)
      ensures AllTargeted(Graph(nodes))
    {
      SoundIsTargeted(nodes, rank, visited);
    }

    method Walk(node: YamlNode, ghost nodes: set<YamlNode>, ghost rank: YamlNode -> nat, ghost open: set<YamlNode>)
      requires node in nodes && node in within && node.kind != Alias && Walking(nodes, rank, open)
      modifies this, nodes
      ensures Walking(nodes, rank, open) && old(visited) <= visited && old(started) + {node} <= started
      ensures Anchored(nodes) <= old(Anchored(nodes)) && OnlyResolves(old(Graph(nodes)), Graph(nodes))
      decreases |Anchored(nodes) - {node}|, if node in visited then 0 else rank(node) + 1, 1
    {
      hide Walking, OnlyResolves, Anchored, AllTargeted, ChildrenDone;
      ghost var g0, anchored := Graph(nodes), Anchored(nodes);
      AllAreTargeted(nodes, rank, open);
      NothingResolved(g0);
      if node in visited {
        VisitedIsStarted(nodes, rank, open);
        return;
      }
      Enter(node, nodes, rank, open);
      NoneDone(node.content, started);
      for i := 0 to |node.content|
        invariant |node.content| == |old(node.content)|
        invariant Walking(nodes, rank, open + {node}) && old(visited) <= visited && old(started) + {node} <= started
        invariant ChildrenDone(node.content, i, started)
        invariant OnlyResolves(g0, Graph(nodes)) && Anchored(nodes) <= anchored - {node}
      {
        ghost var g1 := Graph(nodes);
        WalkChild(node, i, nodes, rank, open + {node}, anchored);
        ResolvesTwice(g0, g1, Graph(nodes));
      }
      Leave(node, nodes, rank, open);
    }

    ghost method VisitedIsStarted(nodes: set<YamlNode>, rank: YamlNode -> nat, open: set<YamlNode>)
      requires Walking(nodes, rank, open)
      ensures visited <= started
    {
    }

    /** Leaving a node whose children are all done: it is clean. */
    ghost method Leave(node: YamlNode, nodes: set<YamlNode>, rank: YamlNode -> nat, open: set<YamlNode>)
      requires node in nodes && node !in Anchored(nodes)
      requires Walking(nodes, rank, open + {node}) && ChildrenDone(node.content, |node.content|, started)
      ensures Walking(nodes, rank, open)
    {
      hide Sound;
    }
  }

  /** The first i children are no aliases, and have been started. */
  ghost predicate ChildrenDone(content: seq<YamlNode>, i: nat, started: set<YamlNode>) {
    i <= |content| && forall k | 0 <= k < i :: content[k].kind != Alias && content[k] in started
  }

  lemma NoneDone(content: seq<YamlNode>, started: set<YamlNode>)
    ensures ChildrenDone(content, 0, started)
  {
  }

  lemma NothingResolved(graph: map<YamlNode, seq<YamlNode>>)
    ensures OnlyResolves(graph, graph)
  {
  }

  lemma ChildStays(g0: map<YamlNode, seq<YamlNode>>, g1: map<YamlNode, seq<YamlNode>>, g2: map<YamlNode, seq<YamlNode>>,
                   n: YamlNode, i: nat, before: set<YamlNode>, started: set<YamlNode>)
    requires OnlyResolves(g1, g2) && n in g0 && n in g1 && |g1[n]| == |g0[n]| && ChildrenDone(g0[n], i, before)
        && before <= started
    requires i < |g0[n]| && g1[n] == g0[n][i := g1[n][i]] && g1[n][i].kind != Alias && g1[n][i] in started
    ensures |g2[n]| == |g0[n]| && ChildrenDone(g2[n], i + 1, started)
  {
    assert Resolves(g1[n], g2[n]);
  }

  // ----- The whole document -----

  /** What the parser guarantees: children form no circle, and what an alias names is an anchored node that is
      no alias. */
  ghost predicate Parsed(nodes: set<YamlNode>, rank: YamlNode -> nat)
    reads nodes
  {
    forall n | n in nodes :: forall i | 0 <= i < |n.content| ::
      var c := n.content[i];
      && c in nodes && rank(c) < rank(n)
      && (c.kind == Alias ==> c.alias != null && c.alias in nodes && c.alias.kind != Alias && c.alias.anchor != "")
  }

  /** Whatever can be reached from the root ends up in reached, which holds no alias and no anchor; nothing else does:
      reached stays within any part that holds the root and that following children and aliases never leaves. */
  method InlineAliases(root: YamlNode, ghost nodes: set<YamlNode>, ghost rank: YamlNode -> nat,
                       ghost within: set<YamlNode>)
    returns (ghost reached: set<YamlNode>)
    requires root in nodes && root.kind != Alias && Parsed(nodes, rank)
    requires root in within && within <= nodes && Closed(within, Graph(nodes))
    modifies nodes
    ensures root in reached && reached <= within && AllClean(reached, reached)
    ensures AllTargeted(old(Graph(nodes))) && OnlyResolves(old(Graph(nodes)), Graph(nodes))
  {
    forall n, i | n in nodes && 0 <= i < |n.content| ensures ChildOk(n.content[i], n, nodes, rank, {}) {
    }
    SoundIsTargeted(nodes, rank, {});
    var inliner := new Inliner(within);
    inliner.Walk(root, nodes, rank, {});
    reached := inliner.started;
    assert reached - {} == reached;
  }

  /** A document read in full. */
  datatype Tree = Tree(kind: Kind, value: string, children: seq<Tree>)

  /** Following children, aliases read as their targets, leads down. */
  ghost predicate TargetsDescend(part: set<YamlNode>, graph: map<YamlNode, seq<YamlNode>>, depth: YamlNode -> nat)
    requires Closed(part, graph)
  {
    forall n | n in part :: forall i | 0 <= i < |graph[n]| :: depth(Target(graph[n][i])) < depth(n)
  }

  /** The document a node stands for, every alias read as its target. */
  ghost function Unfold(n: YamlNode, graph: map<YamlNode, seq<YamlNode>>, part: set<YamlNode>, depth: YamlNode -> nat)
    : Tree
    requires n in part && Closed(part, graph) && TargetsDescend(part, graph, depth)
    decreases depth(n)
  {
    Tree(n.kind, n.value,
        seq(|graph[n]|, i requires 0 <= i < |graph[n]| => Unfold(Target(graph[n][i]), graph, part, depth)))
  }

  /** A set of nodes that can be written out as it is: its nodes have only plain children, which it holds too. */
  ghost predicate Plain(reached: set<YamlNode>, graph: map<YamlNode, seq<YamlNode>>) {
    forall n | n in reached ::
        n in graph && forall i | 0 <= i < |graph[n]| :: graph[n][i].kind != Alias && graph[n][i] in reached
  }

  ghost predicate Descends(reached: set<YamlNode>, graph: map<YamlNode, seq<YamlNode>>, depth: YamlNode -> nat)
    requires Plain(reached, graph)
  {
    forall n | n in reached :: forall i | 0 <= i < |graph[n]| :: depth(graph[n][i]) < depth(n)
  }

  /** The document as it is written out, children taken as they are. */
  ghost function Written(n: YamlNode, graph: map<YamlNode, seq<YamlNode>>, reached: set<YamlNode>,
                         depth: YamlNode -> nat): Tree
    requires Plain(reached, graph) && Descends(reached, graph, depth) && n in reached
    decreases depth(n)
  {
    Tree(n.kind, n.value,
        seq(|graph[n]|, i requires 0 <= i < |graph[n]| => Written(graph[n][i], graph, reached, depth)))
  }

  lemma ChildIsTarget(before: map<YamlNode, seq<YamlNode>>, after: map<YamlNode, seq<YamlNode>>, reached: set<YamlNode>,
                      n: YamlNode, i: nat)
    requires AllTargeted(before) && OnlyResolves(before, after) && Plain(reached, after)
    requires n in reached && i < |after[n]|
    ensures i < |before[n]| && after[n][i] == Target(before[n][i])
  {
    assert Resolves(before[n], after[n]);
    assert before[n][i] in before[n];
  }

  lemma PlainIsClosed(before: map<YamlNode, seq<YamlNode>>, after: map<YamlNode, seq<YamlNode>>, reached: set<YamlNode>)
    requires AllTargeted(before) && OnlyResolves(before, after) && Plain(reached, after)
    ensures Closed(reached, before)
  {
    forall n, i | n in reached && 0 <= i < |before[n]| ensures Target(before[n][i]) in reached {
      assert Resolves(before[n], after[n]);
      ChildIsTarget(before, after, reached, n, i);
    }
  }

  /** The inlined document has a written form exactly when, before, following aliases led down on the part that was
      reached. */
  lemma {:induction false} WrittenExactly(before: map<YamlNode, seq<YamlNode>>, after: map<YamlNode, seq<YamlNode>>,
                                          reached: set<YamlNode>, depth: YamlNode -> nat)
    requires AllTargeted(before) && OnlyResolves(before, after) && Plain(reached, after)
    ensures Closed(reached, before) && (Descends(reached, after, depth) <==> TargetsDescend(reached, before, depth))
  {
    PlainIsClosed(before, after, reached);
    forall n, i | n in reached && 0 <= i < |before[n]|
      ensures i < |after[n]| && after[n][i] == Target(before[n][i])
    {
      assert Resolves(before[n], after[n]);
      ChildIsTarget(before, after, reached, n, i);
    }
    forall n | n in reached ensures |after[n]| == |before[n]| { assert Resolves(before[n], after[n]); }
  }

  /** Written out as it is, the document is the one its aliases stood for. */
  lemma {:induction false} WrittenInFull(before: map<YamlNode, seq<YamlNode>>, after: map<YamlNode, seq<YamlNode>>,
                                         reached: set<YamlNode>, n: YamlNode, depth: YamlNode -> nat)
    requires AllTargeted(before) && OnlyResolves(before, after) && Closed(reached, before)
    requires Plain(reached, after) && Descends(reached, after, depth) && TargetsDescend(reached, before, depth)
        && n in reached
    ensures Written(n, after, reached, depth) == Unfold(n, before, reached, depth)
    decreases depth(n)
  {
    hide AllTargeted, OnlyResolves, Plain, Closed, Descends, TargetsDescend;
    ChildListsMatch(before, after, reached, n, depth);
    forall i | 0 <= i < |after[n]|
      ensures Written(after[n][i], after, reached, depth) == Unfold(Target(before[n][i]), before, reached, depth)
    {
      WrittenInFull(before, after, reached, after[n][i], depth);
    }
    assert Written(n, after, reached, depth).children == Unfold(n, before, reached, depth).children;
  }

  lemma ChildListsMatch(before: map<YamlNode, seq<YamlNode>>, after: map<YamlNode, seq<YamlNode>>,
                        reached: set<YamlNode>, n: YamlNode, depth: YamlNode -> nat)
    requires AllTargeted(before) && OnlyResolves(before, after)
    requires Plain(reached, after) && Descends(reached, after, depth) && n in reached
    ensures n in before && n in after && |after[n]| == |before[n]|
    ensures forall i | 0 <= i < |after[n]| ::
      after[n][i] == Target(before[n][i]) && after[n][i] in reached && depth(after[n][i]) < depth(n)
  {
    assert Resolves(before[n], after[n]);
    forall i | 0 <= i < |after[n]|
      ensures after[n][i] == Target(before[n][i])
    {
      ChildIsTarget(before, after, reached, n, i);
    }
  }

  /** Writing a document: on the part that was reached the inlined graph leads down exactly when following the aliases
      did, and what is written then is what the aliases stood for. */
  method InlineKeepsMeaning(root: YamlNode, ghost nodes: set<YamlNode>, ghost rank: YamlNode -> nat,
                            ghost within: set<YamlNode>, ghost depth: YamlNode -> nat)
    returns (ghost reached: set<YamlNode>)
    requires root in nodes && root.kind != Alias && Parsed(nodes, rank)
    requires root in within && within <= nodes && Closed(within, Graph(nodes))
    modifies nodes
    ensures root in reached && reached <= within && AllClean(reached, reached)
    ensures Plain(reached, Graph(nodes)) && Closed(reached, old(Graph(nodes)))
    ensures Descends(reached, Graph(nodes), depth) <==> TargetsDescend(reached, old(Graph(nodes)), depth)
    ensures Descends(reached, Graph(nodes), depth) ==>
      Written(root, Graph(nodes), reached, depth) == Unfold(root, old(Graph(nodes)), reached, depth)
    ensures TargetsDescend(within, old(Graph(nodes)), depth) ==> Descends(reached, Graph(nodes), depth)
  {
    ghost var before := Graph(nodes);
    reached := InlineAliases(root, nodes, rank, within);
    assert Plain(reached, Graph(nodes)) by {
      forall n | n in reached
        ensures forall i | 0 <= i < |n.content| :: n.content[i].kind != Alias && n.content[i] in reached {
        assert Clean(n, reached);
      }
    }
    WrittenExactly(before, Graph(nodes), reached, depth);
    if Descends(reached, Graph(nodes), depth) { WrittenInFull(before, Graph(nodes), reached, root, depth); }
  }

  // ----- Circles -----

  /** Nodes each of which stands above another of them, aliases followed. */
  ghost predicate Circular(circle: set<YamlNode>, graph: map<YamlNode, seq<YamlNode>>) {
    circle != {} && forall n | n in circle ::
        n in graph && exists i :: 0 <= i < |graph[n]| && Target(graph[n][i]) in circle
  }

  lemma StepsDown(part: set<YamlNode>, graph: map<YamlNode, seq<YamlNode>>, depth: YamlNode -> nat, n: YamlNode, i: nat)
    requires Closed(part, graph) && TargetsDescend(part, graph, depth) && n in part && i < |graph[n]|
    ensures depth(Target(graph[n][i])) < depth(n)
  {
  }

  /** A circle in a part leaves it without a depth, and so without a written form. */
  lemma {:induction false} CircleNeverDescends(circle: set<YamlNode>, part: set<YamlNode>,
                                               graph: map<YamlNode, seq<YamlNode>>, depth: YamlNode -> nat)
    requires circle <= part && Closed(part, graph) && Circular(circle, graph)
    ensures !TargetsDescend(part, graph, depth)
  {
    hide Closed;
    var low := Lowest(circle, depth);
    assert low in circle && low in part;
    var i: nat :| i < |graph[low]| && Target(graph[low][i]) in circle;
    if TargetsDescend(part, graph, depth) { StepsDown(part, graph, depth, low, i); }
  }

  lemma {:induction false} Lowest(nodes: set<YamlNode>, depth: YamlNode -> nat) returns (low: YamlNode)
    requires nodes != {}
    ensures low in nodes && forall n | n in nodes :: depth(low) <= depth(n)
    decreases |nodes|
  {
    low :| low in nodes;
    if nodes != {low} {
      var other := Lowest(nodes - {low}, depth);
      if depth(other) < depth(low) { low := other; }
    }
  }

  /** Nodes in an order in which what a node stands above comes before it. */
  ghost predicate Ordered(order: seq<YamlNode>, graph: map<YamlNode, seq<YamlNode>>) {
    && (forall k | 0 <= k < |order| :: order[k] in graph)
    && (forall k, i | 0 <= k < |order| && 0 <= i < |graph[order[k]]| :: Target(graph[order[k]][i]) in order[..k])
  }

  lemma {:induction false} OrderRest(order: seq<YamlNode>, rest: set<YamlNode>, part: set<YamlNode>,
                                     graph: map<YamlNode, seq<YamlNode>>)
    returns (all: seq<YamlNode>)
    requires Closed(part, graph) && Ordered(order, graph) && rest <= part
        && forall n | n in part :: n in rest || n in order
    requires forall circle: set<YamlNode> | circle <= part :: !Circular(circle, graph)
    ensures Ordered(all, graph) && forall n | n in part :: n in all
    decreases |rest|
  {
    if rest == {} {
      all := order;
    } else {
      var n :| n in rest && forall i | 0 <= i < |graph[n]| :: Target(graph[n][i]) !in rest;
      var longer := order + [n];
      forall k, i | 0 <= k < |longer| && 0 <= i < |graph[longer[k]]|
        ensures Target(graph[longer[k]][i]) in longer[..k] {
        if k < |order| { assert longer[..k] == order[..k] && longer[k] == order[k]; }
            else { assert longer[..k] == order; }
      }
      all := OrderRest(longer, rest - {n}, part, graph);
    }
  }

  function Position(order: seq<YamlNode>, n: YamlNode): nat
    ensures Position(order, n) <= |order|
    ensures n in order ==> Position(order, n) < |order| && order[Position(order, n)] == n
    ensures forall k | 0 <= k < |order| && n in order[..k] :: Position(order, n) < k
  {
    if order == [] then 0
    else if order[0] == n then 0
    else
      assert forall k | 1 <= k <= |order| :: order[..k] == [order[0]] + order[1..][..k - 1];
      1 + Position(order[1..], n)
  }

  /** Without a circle the part leads down: conversely to the above, it has a depth. */
  lemma {:induction false} NoCircleDescends(part: set<YamlNode>, graph: map<YamlNode, seq<YamlNode>>)
    returns (depth: YamlNode -> nat)
    requires Closed(part, graph) && forall circle: set<YamlNode> | circle <= part :: !Circular(circle, graph)
    ensures TargetsDescend(part, graph, depth)
  {
    var order := OrderRest([], part, part, graph);
    depth := n => Position(order, n);
    forall n, i | n in part && 0 <= i < |graph[n]| ensures depth(Target(graph[n][i])) < depth(n) {
      var k := Position(order, n);
      assert order[k] == n && Target(graph[order[k]][i]) in order[..k];
    }
  }

  /** Every node a path of children leads to is among the reached ones: no alias is left to find. */
  lemma {:induction false} PathsStayReached(path: seq<YamlNode>, graph: map<YamlNode, seq<YamlNode>>,
                                            reached: set<YamlNode>)
    requires Plain(reached, graph) && path != [] && path[0] in reached && path[0].kind != Alias
    requires forall i | 0 <= i < |path| - 1 :: path[i] in graph && path[i + 1] in graph[path[i]]
    ensures path[|path| - 1] in reached && path[|path| - 1].kind != Alias
  {
    if |path| > 1 {
      var shorter := path[..|path| - 1];
      PathsStayReached(shorter, graph, reached);
      var last := shorter[|shorter| - 1];
      assert path[|path| - 2] == last && path[|path| - 2 + 1] in graph[last];
      var i :| 0 <= i < |graph[last]| && graph[last][i] == path[|path| - 1];
    }
  }

  /** A node whose only child is an alias of itself: inlining ends and makes the node its own child, so that nothing
      written out would ever end. */
  method InlineSelfAlias(root: YamlNode, alias: YamlNode, ghost depth: YamlNode -> nat)
    returns (ghost reached: set<YamlNode>)
    requires root.kind != Alias && root.anchor != "" && root.content == [alias]
    requires alias.kind == Alias && alias.alias == root && alias.content == []
    modifies root, alias
    ensures OnlyResolves(old(Graph({root, alias})), Graph({root, alias}))
    ensures root in reached && Plain(reached, Graph({root, alias})) && root.content == [root]
    ensures !Descends(reached, Graph({root, alias}), depth)
  {
    ghost var nodes := {root, alias};
    ghost var rank: YamlNode -> nat := n => if n == root then 1 else 0;
    ghost var before := Graph(nodes);
    assert before[root] == [alias];
    reached := InlineAliases(root, nodes, rank, nodes);
    forall n | n in reached
      ensures forall i | 0 <= i < |n.content| :: n.content[i].kind != Alias && n.content[i] in reached {
      assert Clean(n, reached);
    }
    assert Resolves(before[root], Graph(nodes)[root]);
    assert root.content == [root];
    assert Graph(nodes)[root][0] == root;
  }
}
