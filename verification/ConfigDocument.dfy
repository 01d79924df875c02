/** Writing a parsed document to a file: inlining its aliases, then encoding its mapping (core/profile_base.go). */
module ConfigDocument {
  import opened Bytes
  import opened ConfigEncoder
  import Yaml = YamlAliases

  type Graph = map<Yaml.YamlNode, seq<Yaml.YamlNode>>

  // ----- The inlined graph as the encoder's store -----

  /** Different nodes have different numbers. */
  ghost predicate Numbered(reached: set<Yaml.YamlNode>, number: Yaml.YamlNode -> Id) {
    forall a, b | a in reached && b in reached && number(a) == number(b) :: a == b
  }

  ghost function Refs(children: seq<Yaml.YamlNode>, number: Yaml.YamlNode -> Id): (refs: seq<Option<Id>>)
    ensures |refs| == |children| && forall i | 0 <= i < |refs| :: refs[i] == Some(number(children[i]))
  {
    seq(|children|, i requires 0 <= i < |children| => Some(number(children[i])))
  }

  ghost function StoreOf(reached: set<Yaml.YamlNode>, graph: Graph, number: Yaml.YamlNode -> Id): (store: Store)
    requires Yaml.Plain(reached, graph) && Numbered(reached, number)
    ensures forall n | n in reached ::
      number(n) in store && store[number(n)] == Node(n.kind, n.value, Refs(graph[n], number))
    ensures forall id | id in store :: exists n :: n in reached && number(n) == id
  {
    map n | n in reached :: number(n) := Node(n.kind, n.value, Refs(graph[n], number))
  }

  ghost predicate SameDepth(reached: set<Yaml.YamlNode>, number: Yaml.YamlNode -> Id, depth: Yaml.YamlNode -> nat,
                            levels: Id -> nat) {
    forall n | n in reached :: levels(number(n)) == depth(n)
  }

  lemma {:induction false} StoreIsSound(reached: set<Yaml.YamlNode>, graph: Graph, number: Yaml.YamlNode -> Id,
                                        depth: Yaml.YamlNode -> nat, levels: Id -> nat)
    requires Yaml.Plain(reached, graph) && Numbered(reached, number) && SameDepth(reached, number, depth, levels)
    requires Yaml.Descends(reached, graph, depth)
    ensures Acyclic(StoreOf(reached, graph, number), levels) && Complete(StoreOf(reached, graph, number))
    ensures forall n | n in reached :: Filled(StoreOf(reached, graph, number), Refs(graph[n], number))
  {
    var store := StoreOf(reached, graph, number);
    forall id, i | id in store && 0 <= i < |store[id].content|
      ensures store[id].content[i].Some? && store[id].content[i].value in store
          && levels(store[id].content[i].value) < levels(id)
    {
      var n :| n in reached && number(n) == id;
      assert store[id].content[i] == Some(number(graph[n][i]));
    }
  }

  /** A tree of the document as the encoder sees it. */
  ghost function Seen(t: Yaml.Tree): Tree {
    Tree(t.kind, if t.kind == Yaml.Sequence then "" else t.value,
         seq(|t.children|, i requires 0 <= i < |t.children| => Seen(t.children[i])))
  }

  lemma {:induction false} StoreReadsWritten(reached: set<Yaml.YamlNode>, graph: Graph, number: Yaml.YamlNode -> Id,
                                             depth: Yaml.YamlNode -> nat, levels: Id -> nat, n: Yaml.YamlNode)
    requires Yaml.Plain(reached, graph) && Numbered(reached, number) && SameDepth(reached, number, depth, levels)
    requires Yaml.Descends(reached, graph, depth) && n in reached
    ensures var store := StoreOf(reached, graph, number);
      Acyclic(store, levels) && TreeOf(store, number(n), levels) == Seen(Yaml.Written(n, graph, reached, depth))
    decreases depth(n)
  {
    hide Yaml.Plain, Numbered, SameDepth, Yaml.Descends, Acyclic;
    StoreIsSound(reached, graph, number, depth, levels);
    ChildrenDescend(reached, graph, depth, n);
    var store := StoreOf(reached, graph, number);
    forall i | 0 <= i < |graph[n]|
      ensures TreeOf(store, number(graph[n][i]), levels) == Seen(Yaml.Written(graph[n][i], graph, reached, depth))
    {
      StoreReadsWritten(reached, graph, number, depth, levels, graph[n][i]);
    }
    assert Children(store, number(n), levels) == Seen(Yaml.Written(n, graph, reached, depth)).children;
  }

  lemma ChildrenDescend(reached: set<Yaml.YamlNode>, graph: Graph, depth: Yaml.YamlNode -> nat, n: Yaml.YamlNode)
    requires Yaml.Plain(reached, graph) && Yaml.Descends(reached, graph, depth) && n in reached
    ensures n in graph && forall i | 0 <= i < |graph[n]| :: graph[n][i] in reached && depth(graph[n][i]) < depth(n)
  {
  }

  // ----- The document as it was parsed -----

  /** Neither the node nor anything below it, aliases followed, is one of the lists. */
  ghost predicate Free(n: Yaml.YamlNode, before: Graph, part: set<Yaml.YamlNode>, lists: set<Yaml.YamlNode>,
                       depth: Yaml.YamlNode -> nat)
    requires n in part && Yaml.Closed(part, before) && Yaml.TargetsDescend(part, before, depth)
    decreases depth(n)
  {
    n !in lists && forall i | 0 <= i < |before[n]| :: Free(Yaml.Target(before[n][i]), before, part, lists, depth)
  }

  ghost predicate LongList(n: Yaml.YamlNode, before: Graph) {
    n in before && n.kind == Yaml.Sequence && |before[n]| > SLICE_LENGTH
  }

  /** The long lists that the first j keys of the mapping have for a value, outright or by an alias. */
  ghost function ListsBefore(mapping: Yaml.YamlNode, before: Graph, j: nat): set<Yaml.YamlNode>
    requires mapping in before && 2 * j <= |before[mapping]|
  {
    if j == 0 then {}
    else
      var value := Yaml.Target(before[mapping][2 * j - 1]);
      ListsBefore(mapping, before, j - 1) + if LongList(value, before) then {value} else {}
  }

  /** The key and the value of a pair, aliases read as their targets, are free of every earlier key's long list. */
  ghost predicate PairFree(mapping: Yaml.YamlNode, before: Graph, part: set<Yaml.YamlNode>, j: nat,
                           depth: Yaml.YamlNode -> nat)
    requires mapping in part && Yaml.Closed(part, before) && Yaml.TargetsDescend(part, before, depth)
    requires 2 * j + 1 < |before[mapping]|
  {
    var lists := ListsBefore(mapping, before, j);
    && Free(Yaml.Target(before[mapping][2 * j]), before, part, lists, depth)
    && Free(Yaml.Target(before[mapping][2 * j + 1]), before, part, lists, depth)
  }

  ghost function Meant(mapping: Yaml.YamlNode, before: Graph, part: set<Yaml.YamlNode>, depth: Yaml.YamlNode -> nat)
    : (pairs: seq<(Tree, Tree)>)
    requires mapping in part && Yaml.Closed(part, before) && Yaml.TargetsDescend(part, before, depth)
  {
    seq(|before[mapping]| / 2, j requires 0 <= j < |before[mapping]| / 2 =>
      (Seen(Yaml.Unfold(Yaml.Target(before[mapping][2 * j]), before, part, depth)),
       Seen(Yaml.Unfold(Yaml.Target(before[mapping][2 * j + 1]), before, part, depth))))
  }

  /** What the two steps share: a parsed graph, what inlining left of it, and the numbers the encoder knows nodes by. */
  ghost predicate Inlined(before: Graph, after: Graph, reached: set<Yaml.YamlNode>, number: Yaml.YamlNode -> Id,
                          depth: Yaml.YamlNode -> nat, levels: Id -> nat)
  {
    && Yaml.AllTargeted(before) && Yaml.OnlyResolves(before, after) && Yaml.Plain(reached, after)
        && Yaml.Closed(reached, before)
    && Yaml.TargetsDescend(reached, before, depth) && Yaml.Descends(reached, after, depth)
    && Numbered(reached, number) && SameDepth(reached, number, depth, levels)
  }

  lemma InlinedChildren(before: Graph, after: Graph, reached: set<Yaml.YamlNode>, n: Yaml.YamlNode)
    requires Yaml.AllTargeted(before) && Yaml.OnlyResolves(before, after) && Yaml.Plain(reached, after) && n in reached
    ensures n in before && n in after && |after[n]| == |before[n]|
        && forall i | 0 <= i < |after[n]| :: after[n][i] == Yaml.Target(before[n][i])
  {
    assert Yaml.Resolves(before[n], after[n]);
    forall i | 0 <= i < |after[n]|
      ensures after[n][i] == Yaml.Target(before[n][i])
    {
      Yaml.ChildIsTarget(before, after, reached, n, i);
    }
  }

  ghost function Numbers(nodes: set<Yaml.YamlNode>, number: Yaml.YamlNode -> Id): set<Id> {
    set n | n in nodes :: number(n)
  }

  /** Avoiding lists in the store is being free of them in the parsed document. */
  lemma {:induction false} AvoidsWhenFree(before: Graph, after: Graph, reached: set<Yaml.YamlNode>,
                                          number: Yaml.YamlNode -> Id, depth: Yaml.YamlNode -> nat, levels: Id -> nat,
                                          n: Yaml.YamlNode, lists: set<Yaml.YamlNode>)
    requires Inlined(before, after, reached, number, depth, levels) && n in reached && lists <= reached
    ensures var store := StoreOf(reached, after, number);
      Acyclic(store, levels)
          && (Avoids(store, number(n), Numbers(lists, number), levels) <==> Free(n, before, reached, lists, depth))
    decreases depth(n)
  {
    hide Yaml.Plain, Yaml.AllTargeted, Yaml.OnlyResolves, Yaml.Closed, Yaml.TargetsDescend, Yaml.Descends, SameDepth,
        Acyclic;
    StoreIsSound(reached, after, number, depth, levels);
    ChildrenDescend(reached, after, depth, n);
    InlinedChildren(before, after, reached, n);
    var store := StoreOf(reached, after, number);
    assert number(n) in Numbers(lists, number) <==> n in lists;
    forall i | 0 <= i < |after[n]|
      ensures Avoids(store, number(after[n][i]), Numbers(lists, number), levels)
         <==> Free(Yaml.Target(before[n][i]), before, reached, lists, depth)
    {
      AvoidsWhenFree(before, after, reached, number, depth, levels, after[n][i], lists);
    }
  }

  lemma LongStays(before: Graph, after: Graph, reached: set<Yaml.YamlNode>, number: Yaml.YamlNode -> Id,
                  n: Yaml.YamlNode)
    requires Yaml.AllTargeted(before) && Yaml.OnlyResolves(before, after) && Yaml.Plain(reached, after)
        && Numbered(reached, number)
    requires n in reached
    ensures var store := StoreOf(reached, after, number);
      number(n) in store && (Long(store, number(n)) <==> LongList(n, before))
  {
    hide Yaml.AllTargeted, Yaml.OnlyResolves, Numbered;
    InlinedChildren(before, after, reached, n);
  }

  lemma NumbersGrow(lists: set<Yaml.YamlNode>, n: Yaml.YamlNode, number: Yaml.YamlNode -> Id)
    ensures Numbers(lists + {n}, number) == Numbers(lists, number) + {number(n)}
  {
  }

  lemma ValueIsReached(before: Graph, reached: set<Yaml.YamlNode>, mapping: Yaml.YamlNode, i: nat)
    requires Yaml.Closed(reached, before) && mapping in reached && i < |before[mapping]|
    ensures Yaml.Target(before[mapping][i]) in reached
  {
  }

  lemma {:induction false} SameLongLists(before: Graph, after: Graph, reached: set<Yaml.YamlNode>,
                                         number: Yaml.YamlNode -> Id, depth: Yaml.YamlNode -> nat, levels: Id -> nat,
                                         mapping: Yaml.YamlNode, j: nat)
    requires Inlined(before, after, reached, number, depth, levels) && mapping in reached && 2 * j <= |before[mapping]|
    ensures mapping in after && |after[mapping]| == |before[mapping]| && ListsBefore(mapping, before, j) <= reached
    ensures var store, content := StoreOf(reached, after, number), Refs(after[mapping], number);
      Filled(store, content) && LongBefore(store, content, j) == Numbers(ListsBefore(mapping, before, j), number)
  {
    hide Yaml.AllTargeted, Yaml.OnlyResolves, Yaml.Closed, Yaml.Plain, Yaml.TargetsDescend, Yaml.Descends, SameDepth,
        Acyclic, Complete,
         Numbered, StoreOf, Long, LongList, Numbers;
    StoreIsSound(reached, after, number, depth, levels);
    InlinedChildren(before, after, reached, mapping);
    if j == 0 {
      NoNumbers(number);
    } else {
      SameLongLists(before, after, reached, number, depth, levels, mapping, j - 1);
      var value := Yaml.Target(before[mapping][2 * j - 1]);
      ValueIsReached(before, reached, mapping, 2 * j - 1);
      LongStays(before, after, reached, number, value);
      var store, content, lists := StoreOf(reached, after, number), Refs(after[mapping], number),
          ListsBefore(mapping, before, j - 1);
      assert content[2 * j - 1] == Some(number(value));
      if LongList(value, before) {
        NumbersGrow(lists, value, number);
        assert ListsBefore(mapping, before, j) == lists + {value};
      } else {
        assert ListsBefore(mapping, before, j) == lists;
        assert LongBefore(store, content, j) == LongBefore(store, content, j - 1);
      }
    }
  }

  lemma NoNumbers(number: Yaml.YamlNode -> Id)
    ensures Numbers({}, number) == {}
  {
  }

  lemma {:induction false} PairFares(before: Graph, after: Graph, reached: set<Yaml.YamlNode>,
                                     number: Yaml.YamlNode -> Id, depth: Yaml.YamlNode -> nat, levels: Id -> nat,
                                     mapping: Yaml.YamlNode, j: nat)
    requires Inlined(before, after, reached, number, depth, levels) && mapping in reached
        && 2 * j + 1 < |before[mapping]|
    ensures mapping in after && |after[mapping]| == |before[mapping]|
    ensures var store, content := StoreOf(reached, after, number), Refs(after[mapping], number);
      && Acyclic(store, levels) && Filled(store, content)
      && (PairAvoids(store, content, j, levels) <==> PairFree(mapping, before, reached, j, depth))
      && PairOf(store, content, j, levels) == Meant(mapping, before, reached, depth)[j]
  {
    hide Yaml.AllTargeted, Yaml.OnlyResolves, Yaml.Closed, Yaml.Plain, Yaml.TargetsDescend, Yaml.Descends, SameDepth,
        Acyclic, Complete,
         Numbered, StoreOf, Free, Avoids, TreeOf, Seen, Numbers, Yaml.Unfold, Yaml.Written, LongBefore, ListsBefore;
    StoreIsSound(reached, after, number, depth, levels);
    InlinedChildren(before, after, reached, mapping);
    SameLongLists(before, after, reached, number, depth, levels, mapping, j);
    var lists := ListsBefore(mapping, before, j);
    NodeFares(before, after, reached, number, depth, levels, mapping, 2 * j, lists);
    NodeFares(before, after, reached, number, depth, levels, mapping, 2 * j + 1, lists);
  }

  lemma {:induction false} NodeFares(before: Graph, after: Graph, reached: set<Yaml.YamlNode>,
                                     number: Yaml.YamlNode -> Id, depth: Yaml.YamlNode -> nat, levels: Id -> nat,
                                     mapping: Yaml.YamlNode, i: nat, lists: set<Yaml.YamlNode>)
    requires Inlined(before, after, reached, number, depth, levels) && mapping in reached && i < |before[mapping]|
        && lists <= reached
    ensures var store, c := StoreOf(reached, after, number), Yaml.Target(before[mapping][i]);
      && c in reached && number(c) in store && Acyclic(store, levels)
      && (Avoids(store, number(c), Numbers(lists, number), levels) <==> Free(c, before, reached, lists, depth))
      && TreeOf(store, number(c), levels) == Seen(Yaml.Unfold(c, before, reached, depth))
  {
    hide Yaml.AllTargeted, Yaml.OnlyResolves, Yaml.Closed, Yaml.Plain, Yaml.TargetsDescend, Yaml.Descends, SameDepth,
        Acyclic, Complete,
         Numbered, StoreOf, Free, Avoids, TreeOf, Seen, Numbers, Yaml.Unfold, Yaml.Written;
    InlinedChildren(before, after, reached, mapping);
    ValueIsReached(before, reached, mapping, i);
    var c := Yaml.Target(before[mapping][i]);
    AvoidsWhenFree(before, after, reached, number, depth, levels, c, lists);
    StoreReadsWritten(reached, after, number, depth, levels, c);
    Yaml.WrittenInFull(before, after, reached, c, depth);
  }

  /** The written file is the parsed document, aliases read as what they stand for, if and only if no long top-level
      list is, or is contained in, a later key or value, aliases followed. */
  lemma {:induction false} FileIsTheDocument(before: Graph, after: Graph, reached: set<Yaml.YamlNode>,
                                             number: Yaml.YamlNode -> Id, depth: Yaml.YamlNode -> nat,
                                             levels: Id -> nat, mapping: Yaml.YamlNode)
    requires Inlined(before, after, reached, number, depth, levels) && mapping in reached
    ensures mapping in before && mapping in after && |after[mapping]| == |before[mapping]|
    ensures var store, content := StoreOf(reached, after, number), Refs(after[mapping], number);
      && Acyclic(store, levels) && Filled(store, content)
      && (Emitted(store, content, |content| / 2, levels) == Meant(mapping, before, reached, depth)
          <==> forall j: nat | 2 * j + 1 < |before[mapping]| :: PairFree(mapping, before, reached, j, depth))
  {
    hide Yaml.Plain, Yaml.Closed, Yaml.AllTargeted, Yaml.OnlyResolves, Yaml.TargetsDescend, Yaml.Descends, SameDepth,
        Acyclic, Numbered,
         PairFree, PairAvoids, PairOf, Emitted, Meant, Complete;
    StoreIsSound(reached, after, number, depth, levels);
    InlinedChildren(before, after, reached, mapping);
    var store, content := StoreOf(reached, after, number), Refs(after[mapping], number);
    WrittenWhole(store, content, levels);
    MeantCount(mapping, before, reached, depth);
    forall j: nat | 2 * j + 1 < |before[mapping]|
      ensures PairAvoids(store, content, j, levels) <==> PairFree(mapping, before, reached, j, depth)
      ensures Original(store, content, levels)[j] == Meant(mapping, before, reached, depth)[j]
    {
      PairFares(before, after, reached, number, depth, levels, mapping, j);
    }
    assert Original(store, content, levels) == Meant(mapping, before, reached, depth);
  }

  lemma MeantCount(mapping: Yaml.YamlNode, before: Graph, part: set<Yaml.YamlNode>, depth: Yaml.YamlNode -> nat)
    requires mapping in part && Yaml.Closed(part, before) && Yaml.TargetsDescend(part, before, depth)
    ensures |Meant(mapping, before, part, depth)| == |before[mapping]| / 2
  {
  }
}
