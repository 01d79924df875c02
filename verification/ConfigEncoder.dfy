/** Writing a config mapping piece by piece while draining it (core/profile_base.go). */
module ConfigEncoder {
  import opened Bytes
  import Yaml = YamlAliases

  type Id = nat

  /** A node of the store; a child that has been drained is None. */
  datatype Node = Node(kind: Yaml.Kind, text: string, content: seq<Option<Id>>)

  type Store = map<Id, Node>

  /** A node read in full; a sequence has no text of its own. */
  datatype Tree = Missing | Tree(kind: Yaml.Kind, text: string, children: seq<Tree>)

  const SLICE_LENGTH: nat := 4096

  ghost predicate Acyclic(store: Store, depth: Id -> nat) {
    forall n | n in store :: forall i | 0 <= i < |store[n].content| ::
      store[n].content[i].Some? ==> store[n].content[i].value in store && depth(store[n].content[i].value) < depth(n)
  }

  ghost predicate Complete(store: Store) {
    forall n | n in store :: forall i | 0 <= i < |store[n].content| :: store[n].content[i].Some?
  }

  function TreeOf(store: Store, n: Id, ghost depth: Id -> nat): Tree
    requires n in store && Acyclic(store, depth)
    decreases depth(n), 1
  {
    Tree(store[n].kind, if store[n].kind == Yaml.Sequence then "" else store[n].text, Children(store, n, depth))
  }

  function Children(store: Store, n: Id, ghost depth: Id -> nat): seq<Tree>
    requires n in store && Acyclic(store, depth)
    decreases depth(n), 0
  {
    var content := store[n].content;
    seq(|content|, i requires 0 <= i < |content| => if content[i].None? then Missing
        else TreeOf(store, content[i].value, depth))
  }

  predicate Long(store: Store, n: Id)
    requires n in store
  {
    store[n].kind == Yaml.Sequence && |store[n].content| > SLICE_LENGTH
  }

  lemma LongMeans(store: Store, n: Id)
    requires n in store
    ensures Long(store, n) <==> store[n].kind == Yaml.Sequence && |store[n].content| >= 4097
  {
  }

  function Nothing(n: nat): seq<Option<Id>> { seq(n, _ => None) }

  /** A node with the first k of its children drained. */
  function Drain(node: Node, k: nat): Node
    requires k <= |node.content|
  {
    node.(content := Nothing(k) + node.content[k..])
  }

  /** Nothing below the node, itself included, is in the set. */
  ghost predicate Avoids(store: Store, n: Id, drained: set<Id>, depth: Id -> nat)
    requires n in store && Acyclic(store, depth)
    decreases depth(n)
  {
    n !in drained && forall i | 0 <= i < |store[n].content| ::
      store[n].content[i].None? || Avoids(store, store[n].content[i].value, drained, depth)
  }

  ghost predicate SameOutside(store: Store, now: Store, drained: set<Id>) {
    now.Keys == store.Keys && forall n | n in store && n !in drained :: now[n] == store[n]
  }

  lemma {:induction false} TreeKept(store: Store, now: Store, n: Id, drained: set<Id>, depth: Id -> nat)
    requires Acyclic(store, depth) && Acyclic(now, depth) && SameOutside(store, now, drained)
    requires n in store && Avoids(store, n, drained, depth)
    ensures TreeOf(now, n, depth) == TreeOf(store, n, depth)
    decreases depth(n)
  {
    var content := store[n].content;
    forall i | 0 <= i < |content| && content[i].Some?
      ensures TreeOf(now, content[i].value, depth) == TreeOf(store, content[i].value, depth)
    {
      TreeKept(store, now, content[i].value, drained, depth);
    }
    assert Children(now, n, depth) == Children(store, n, depth);
  }

  lemma {:induction false} LowerAvoids(store: Store, n: Id, list: Id, depth: Id -> nat)
    requires Acyclic(store, depth) && n in store && depth(n) < depth(list)
    ensures Avoids(store, n, {list}, depth)
    decreases depth(n)
  {
    forall i | 0 <= i < |store[n].content| && store[n].content[i].Some? {
      LowerAvoids(store, store[n].content[i].value, list, depth);
    }
  }

  // ----- What has been written -----

  datatype Piece = Pair(key: Tree, value: Tree) | Opening(key: Tree) | Items(trees: seq<Tree>)

  /** The mapping the pieces read back as, one after another: items continue the list opened last. */
  function Meaning(out: seq<Piece>): seq<(Tree, Tree)> {
    if out == [] then []
    else
      var before := Meaning(out[..|out| - 1]);
      match out[|out| - 1]
      case Pair(key, value) => before + [(key, value)]
      case Opening(key) => before + [(key, Tree(Yaml.Sequence, "", []))]
      case Items(trees) =>
        if before == [] || before[|before| - 1].1.Missing? then before
        else
          var open := before[|before| - 1];
          before[|before| - 1 := (open.0, open.1.(children := open.1.children + trees))]
  }

  lemma DrainIsAcyclic(store: Store, list: Id, k: nat, depth: Id -> nat)
    requires Acyclic(store, depth) && list in store && k <= |store[list].content|
    ensures Acyclic(store[list := Drain(store[list], k)], depth)
    ensures SameOutside(store, store[list := Drain(store[list], k)], {list})
  {
    var drained := Drain(store[list], k);
    forall i | 0 <= i < |drained.content| && drained.content[i].Some?
      ensures drained.content[i] == store[list].content[i] {
    }
  }

  /** The items of a list that is being drained still read as they did. */
  lemma ItemsKept(store: Store, list: Id, k: nat, i: nat, depth: Id -> nat)
    requires Acyclic(store, depth) && list in store && k <= i < |store[list].content|
    ensures var now := store[list := Drain(store[list], k)];
      && now[list].content[i] == store[list].content[i] && Acyclic(now, depth)
      && (store[list].content[i].Some? ==>
            store[list].content[i].value in now
                && TreeOf(now, store[list].content[i].value, depth) == Children(store, list, depth)[i])
  {
    DrainIsAcyclic(store, list, k, depth);
    if store[list].content[i].Some? {
      var item := store[list].content[i].value;
      LowerAvoids(store, item, list, depth);
      TreeKept(store, store[list := Drain(store[list], k)], item, {list}, depth);
    }
  }

  /** The store once the first pairs of the mapping have been written. */
  ghost function StoreBefore(store: Store, content: seq<Option<Id>>, j: nat, depth: Id -> nat): (s: Store)
    requires Acyclic(store, depth) && Filled(store, content) && 2 * j <= |content|
    ensures Acyclic(s, depth) && s.Keys == store.Keys
  {
    if j == 0 then store
    else
      var s := StoreBefore(store, content, j - 1, depth);
      var value := content[2 * j - 1].value;
      if Long(s, value) then
        DrainIsAcyclic(s, value, |s[value].content|, depth);
        s[value := Drain(s[value], |s[value].content|)]
      else s
  }

  predicate Filled(store: Store, content: seq<Option<Id>>) {
    forall i | 0 <= i < |content| :: content[i].Some? && content[i].value in store
  }

  /** A pair of the mapping as a store reads it. */
  ghost function PairOf(store: Store, content: seq<Option<Id>>, j: nat, depth: Id -> nat): (Tree, Tree)
    requires Acyclic(store, depth) && Filled(store, content) && 2 * j + 1 < |content|
  {
    (TreeOf(store, content[2 * j].value, depth), TreeOf(store, content[2 * j + 1].value, depth))
  }

  /** What writing the first n pairs puts out: each as the store then reads it. */
  ghost function Emitted(store: Store, content: seq<Option<Id>>, n: nat, depth: Id -> nat): (pairs: seq<(Tree, Tree)>)
    requires Acyclic(store, depth) && Filled(store, content) && 2 * n <= |content|
    ensures |pairs| == n
  {
    if n == 0 then []
    else
      Emitted(store, content, n - 1, depth)
      + [PairOf(StoreBefore(store, content, n - 1, depth), content, n - 1, depth)]
  }

  lemma {:induction false} EmittedAt(store: Store, content: seq<Option<Id>>, n: nat, j: nat, depth: Id -> nat)
    requires Acyclic(store, depth) && Filled(store, content) && 2 * n <= |content| && j < n
    ensures Emitted(store, content, n, depth)[j] == PairOf(StoreBefore(store, content, j, depth), content, j, depth)
  {
    hide TreeOf, StoreBefore, Acyclic;
    if j < n - 1 { EmittedAt(store, content, n - 1, j, depth); }
  }

  lemma PairWritten(store: Store, content: seq<Option<Id>>, n: nat, depth: Id -> nat)
    requires Acyclic(store, depth) && Filled(store, content) && 2 * n + 1 < |content|
    ensures var s, key, value := StoreBefore(store, content, n, depth), content[2 * n].value, content[2 * n + 1].value;
      && Emitted(store, content, n + 1, depth)
          == Emitted(store, content, n, depth) + [(TreeOf(s, key, depth), TreeOf(s, value, depth))]
      && StoreBefore(store, content, n + 1, depth) ==
         if Long(s, value) then s[value := Drain(s[value], |s[value].content|)] else s
  {
    hide TreeOf, Acyclic, Drain;
  }

  lemma NothingWritten(store: Store, content: seq<Option<Id>>, depth: Id -> nat)
    requires Acyclic(store, depth) && Filled(store, content)
    ensures StoreBefore(store, content, 0, depth) == store && Emitted(store, content, 0, depth) == []
  {
  }

  class Encoder {
    var store: Store
    var content: seq<Option<Id>>
    var out: seq<Piece>

    constructor (store: Store, content: seq<Option<Id>>)
      ensures this.store == store && this.content == content && out == []
    {
      this.store, this.content, out := store, content, [];
    }

    /** One slice of a list goes out, and is cleared. */
    method WriteSlice(list: Id, start: nat, end: nat, ghost whole: Store, ghost depth: Id -> nat)
      requires Acyclic(whole, depth) && list in whole && start <= end <= |whole[list].content|
      requires store == whole[list := Drain(whole[list], start)]
      modifies this`store, this`out
      ensures store == whole[list := Drain(whole[list], end)]
      ensures out == old(out) + [Items(Children(whole, list, depth)[start..end])]
    {
      hide TreeOf, Avoids;
      ghost var items := Children(whole, list, depth);
      forall i | start <= i < end
        ensures var item := store[list].content[i];
          Acyclic(store, depth) && (item.Some? ==> item.value in store)
          && items[i] == if item.None? then Missing else TreeOf(store, item.value, depth)
      {
        ItemsKept(whole, list, start, i, depth);
      }
      DrainIsAcyclic(whole, list, start, depth);
      var current, content := store, store[list].content;
      var slice := seq(end - start, i requires 0 <= i < end - start =>
        if content[start + i].None? then Missing else TreeOf(current, content[start + i].value, depth));
      assert slice == items[start..end];
      out := out + [Items(slice)];
      DrainAgain(whole[list], start, end);
      store := store[list := Drain(store[list], end)];
    }

    /** A long list goes out in slices. */
    method EncodeList(list: Id, ghost before: seq<Piece>, ghost key: Tree, ghost depth: Id -> nat)
      requires Acyclic(store, depth) && list in store && out == before + [Opening(key)]
      modifies this`store, this`out
      ensures store == old(store)[list := Drain(old(store)[list], |old(store)[list].content|)]
      ensures Meaning(out) == Meaning(before) + [(key, Tree(Yaml.Sequence, "", Children(old(store), list, depth)))]
      ensures old(out) <= out && forall i | |before| < i < |out| :: out[i].Items? && 1 <= |out[i].trees| <= 4096
      ensures forall i | |before| < i < |out| - 1 :: |out[i].trees| == 4096
    {
      hide Meaning, Children, Drain, Acyclic;
      ghost var whole, items := store, Children(store, list, depth);
      ChildrenCount(whole, list, depth);
      var length := |store[list].content|;
      var start := 0;
      OpeningMeans(before, key);
      DrainAgain(whole[list], 0, 0);
      while start < length
        invariant 0 <= start <= length == |whole[list].content|
        invariant store == whole[list := Drain(whole[list], start)]
        invariant Meaning(out) == Meaning(before) + [(key, Tree(Yaml.Sequence, "", items[..start]))]
        invariant old(out) <= out
            && forall i | |before| < i < |out| :: out[i].Items? && 1 <= |out[i].trees| <= SLICE_LENGTH
        invariant forall i | |before| < i < |out| - (if start < length then 0 else 1) :: |out[i].trees| == SLICE_LENGTH
      {
        var end := if start + SLICE_LENGTH < length then start + SLICE_LENGTH else length;
        ItemsMean(out, Meaning(before), key, items[..start], items[start..end]);
        assert items[..start] + items[start..end] == items[..end];
        WriteSlice(list, start, end, whole, depth);
        start := end;
      }
      assert items[..length] == items;
    }

    method EncodePair(key: Id, value: Id, ghost depth: Id -> nat)
      requires Acyclic(store, depth) && key in store && value in store
      modifies this`store, this`out
      ensures store == if Long(old(store), value)
          then old(store)[value := Drain(old(store)[value], |old(store)[value].content|)] else old(store)
      ensures Meaning(out) == Meaning(old(out)) + [(TreeOf(old(store), key, depth), TreeOf(old(store), value, depth))]
      ensures !Long(old(store), value) ==>
                out == old(out) + [Pair(TreeOf(old(store), key, depth), TreeOf(old(store), value, depth))]
    {
      hide Meaning, Children, Drain, Acyclic;
      ghost var before := out;
      if !Long(store, value) {
        PairMeans(out, TreeOf(store, key, depth), TreeOf(store, value, depth));
        out := out + [Pair(TreeOf(store, key, depth), TreeOf(store, value, depth))];
      } else {
        out := out + [Opening(TreeOf(store, key, depth))];
        EncodeList(value, before, TreeOf(old(store), key, depth), depth);
      }
    }

    /** Every pair is written as the draining store reads it, key by key. */
    method EncodeMapping(ghost depth: Id -> nat)
      requires Acyclic(store, depth) && Filled(store, content) && out == []
      modifies this
      ensures Meaning(out) == Emitted(old(store), old(content), |old(content)| / 2, depth)
      ensures store == StoreBefore(old(store), old(content), |old(content)| / 2, depth)
      ensures |content| == |old(content)| && forall k | 0 <= k < |content| ::
        content[k] == if k % 2 == 1 then None else old(content)[k]
    {
      hide Meaning, Acyclic, Drain, TreeOf, Long, Emitted, StoreBefore;
      ghost var s0, content0 := store, content;
      NothingMeans();
      NothingWritten(store, content, depth);
      var i := 0;
      ghost var n: nat := 0;
      while i + 1 < |content|
        invariant i == 2 * n <= |content| == |content0|
        invariant forall k | 0 <= k < |content| :: content[k] == if k < i && k % 2 == 1 then None else content0[k]
        invariant store == StoreBefore(s0, content0, n, depth)
        invariant Meaning(out) == Emitted(s0, content0, n, depth)
      {
        var key, value := content[i].value, content[i + 1].value;
        content := content[i + 1 := None];
        EncodePair(key, value, depth);
        PairWritten(s0, content0, n, depth);
        i := i + 2;
        n := n + 1;
      }
    }
  }

  lemma DrainAgain(node: Node, k: nat, l: nat)
    requires k <= l <= |node.content|
    ensures Drain(node, 0) == node && |Drain(node, k).content| == |node.content|
        && Drain(Drain(node, k), l) == Drain(node, l)
  {
    assert Nothing(0) + node.content[0..] == node.content;
    assert (Nothing(k) + node.content[k..])[l..] == node.content[l..];
  }

  lemma ChildrenCount(store: Store, n: Id, depth: Id -> nat)
    requires n in store && Acyclic(store, depth)
    ensures |Children(store, n, depth)| == |store[n].content|
  {
  }

  lemma NothingMeans()
    ensures Meaning([]) == []
  {
  }

  lemma PairMeans(out: seq<Piece>, key: Tree, value: Tree)
    ensures Meaning(out + [Pair(key, value)]) == Meaning(out) + [(key, value)]
  {
    assert (out + [Pair(key, value)])[..|out|] == out;
  }

  lemma OpeningMeans(out: seq<Piece>, key: Tree)
    ensures Meaning(out + [Opening(key)]) == Meaning(out) + [(key, Tree(Yaml.Sequence, "", []))]
  {
    assert (out + [Opening(key)])[..|out|] == out;
  }

  lemma ItemsMean(out: seq<Piece>, before: seq<(Tree, Tree)>, key: Tree, items: seq<Tree>, more: seq<Tree>)
    requires Meaning(out) == before + [(key, Tree(Yaml.Sequence, "", items))]
    ensures Meaning(out + [Items(more)]) == before + [(key, Tree(Yaml.Sequence, "", items + more))]
  {
    assert (out + [Items(more)])[..|out|] == out;
    var last := (key, Tree(Yaml.Sequence, "", items + more));
    assert (before + [(key, Tree(Yaml.Sequence, "", items))])[|before| := last] == before + [last];
  }

  // ----- When everything comes out whole -----

  /** The long lists among the first j values: the ones that are empty shells by then. */
  ghost function LongBefore(store: Store, content: seq<Option<Id>>, j: nat): set<Id>
    requires Filled(store, content) && 2 * j <= |content|
  {
    if j == 0 then {}
    else
      var value := content[2 * j - 1].value;
      LongBefore(store, content, j - 1) + if Long(store, value) then {value} else {}
  }

  /** The store with exactly these lists drained. */
  ghost predicate Drained(store: Store, now: Store, lists: set<Id>) {
    && SameOutside(store, now, lists)
    && forall n | n in lists :: n in store && Long(store, n) && now[n] == Drain(store[n], |store[n].content|)
  }

  lemma DrainOnce(store: Store, now: Store, lists: set<Id>, list: Id)
    requires Drained(store, now, lists) && list in store && Long(store, list)
    ensures Drained(store, now[list := Drain(now[list], |now[list].content|)], lists + {list})
  {
    DrainAgain(store[list], 0, |store[list].content|);
    DrainAgain(store[list], |store[list].content|, |store[list].content|);
  }

  lemma {:induction false} LongListsAreDrained(store: Store, content: seq<Option<Id>>, j: nat, depth: Id -> nat)
    requires Acyclic(store, depth) && Filled(store, content) && 2 * j <= |content|
    ensures Drained(store, StoreBefore(store, content, j, depth), LongBefore(store, content, j))
  {
    hide Acyclic, Drain;
    if j > 0 {
      LongListsAreDrained(store, content, j - 1, depth);
      var s, value := StoreBefore(store, content, j - 1, depth), content[2 * j - 1].value;
      DrainedLength(store, s, LongBefore(store, content, j - 1), value);
      if Long(store, value) { DrainOnce(store, s, LongBefore(store, content, j - 1), value); }
    }
  }

  lemma DrainedLength(store: Store, now: Store, lists: set<Id>, n: Id)
    requires Drained(store, now, lists) && n in store
    ensures n in now && (Long(now, n) <==> Long(store, n))
  {
  }

  /** A node reads as it did exactly when no drained list is below it. */
  lemma {:induction false} ReadsTheSame(store: Store, now: Store, n: Id, lists: set<Id>, depth: Id -> nat)
    requires Acyclic(store, depth) && Acyclic(now, depth) && Complete(store) && Drained(store, now, lists) && n in store
    ensures TreeOf(now, n, depth) == TreeOf(store, n, depth) <==> Avoids(store, n, lists, depth)
    decreases depth(n)
  {
    if Avoids(store, n, lists, depth) {
      TreeKept(store, now, n, lists, depth);
    } else if n in lists {
      assert Children(now, n, depth)[0] == Missing && Children(store, n, depth)[0] != Missing;
    } else {
      var i :| 0 <= i < |store[n].content| && store[n].content[i].Some?
          && !Avoids(store, store[n].content[i].value, lists, depth);
      ReadsTheSame(store, now, store[n].content[i].value, lists, depth);
      assert Children(now, n, depth)[i] != Children(store, n, depth)[i];
    }
  }

  /** No long list of the mapping is shared with a key or value that comes later. */
  ghost predicate Unshared(store: Store, content: seq<Option<Id>>, depth: Id -> nat)
    requires Acyclic(store, depth) && Filled(store, content)
  {
    forall j: nat | 2 * j + 1 < |content| :: PairAvoids(store, content, j, depth)
  }

  ghost predicate PairAvoids(store: Store, content: seq<Option<Id>>, j: nat, depth: Id -> nat)
    requires Acyclic(store, depth) && Filled(store, content) && 2 * j + 1 < |content|
  {
    var lists := LongBefore(store, content, j);
    Avoids(store, content[2 * j].value, lists, depth) && Avoids(store, content[2 * j + 1].value, lists, depth)
  }

  /** The mapping as it was before anything was written. */
  ghost function Original(store: Store, content: seq<Option<Id>>, depth: Id -> nat): seq<(Tree, Tree)>
    requires Acyclic(store, depth) && Filled(store, content)
  {
    seq(|content| / 2, j requires 0 <= j < |content| / 2 => PairOf(store, content, j, depth))
  }

  /** Every key is written once, with its whole value, exactly when no long list is shared with a later pair. */
  lemma {:induction false} WrittenWhole(store: Store, content: seq<Option<Id>>, depth: Id -> nat)
    requires Acyclic(store, depth) && Filled(store, content) && Complete(store)
    ensures Emitted(store, content, |content| / 2, depth) == Original(store, content, depth)
        <==> Unshared(store, content, depth)
  {
    hide Acyclic, Complete, TreeOf, Emitted, StoreBefore, PairAvoids, PairOf;
    var n := |content| / 2;
    var emitted, original := Emitted(store, content, n, depth), Original(store, content, depth);
    forall j: nat | j < n ensures emitted[j] == original[j] <==> PairAvoids(store, content, j, depth) {
      EmittedAt(store, content, n, j, depth);
      PairSurvives(store, content, j, depth);
    }
  }

  lemma {:induction false} PairSurvives(store: Store, content: seq<Option<Id>>, j: nat, depth: Id -> nat)
    requires Acyclic(store, depth) && Filled(store, content) && Complete(store) && 2 * j + 1 < |content|
    ensures PairOf(StoreBefore(store, content, j, depth), content, j, depth) == PairOf(store, content, j, depth)
      <==> PairAvoids(store, content, j, depth)
  {
    hide Acyclic, Complete, TreeOf, StoreBefore, Drained;
    LongListsAreDrained(store, content, j, depth);
    var now, lists := StoreBefore(store, content, j, depth), LongBefore(store, content, j);
    ReadsTheSame(store, now, content[2 * j].value, lists, depth);
    ReadsTheSame(store, now, content[2 * j + 1].value, lists, depth);
  }

  // ----- Meeting a drained item -----

  /** Somewhere in the tree an item is missing: the encoder, which takes items as they are, fails there. */
  predicate HasMissing(t: Tree) {
    t.Missing? || exists i | 0 <= i < |t.children| :: HasMissing(t.children[i])
  }

  /** A node has lost an item exactly when a drained list is it or is below it. */
  lemma {:induction false} MissesItemsExactly(store: Store, now: Store, n: Id, lists: set<Id>, depth: Id -> nat)
    requires Acyclic(store, depth) && Acyclic(now, depth) && Complete(store) && Drained(store, now, lists) && n in store
    ensures HasMissing(TreeOf(now, n, depth)) <==> !Avoids(store, n, lists, depth)
    decreases depth(n)
  {
    hide Complete, Drain;
    var content := store[n].content;
    if n in lists {
      DrainedFirst(store, now, n, lists, depth);
      assert HasMissing(TreeOf(now, n, depth).children[0]);
    } else {
      assert now[n] == store[n];
      ChildrenCount(now, n, depth);
      assert |TreeOf(now, n, depth).children| == |content|;
      forall i | 0 <= i < |content|
        ensures content[i].Some?
        ensures HasMissing(TreeOf(now, n, depth).children[i]) <==> !Avoids(store, content[i].value, lists, depth)
      {
        ItemIsThere(store, n, i);
        MissesItemsExactly(store, now, content[i].value, lists, depth);
      }
    }
  }

  lemma ItemIsThere(store: Store, n: Id, i: nat)
    requires Complete(store) && n in store && i < |store[n].content|
    ensures store[n].content[i].Some?
  {
  }

  lemma DrainedFirst(store: Store, now: Store, n: Id, lists: set<Id>, depth: Id -> nat)
    requires Acyclic(now, depth) && Drained(store, now, lists) && n in lists
    ensures n in now && |TreeOf(now, n, depth).children| > 0 && TreeOf(now, n, depth).children[0] == Missing
  {
  }

  /** Writing the mapping meets no drained item, and so comes to its end, if and only if no long list is shared with a
      later pair. */
  lemma {:induction false} WritesToTheEndExactly(store: Store, content: seq<Option<Id>>, depth: Id -> nat)
    requires Acyclic(store, depth) && Filled(store, content) && Complete(store)
    ensures NothingMissing(Emitted(store, content, |content| / 2, depth)) <==> Unshared(store, content, depth)
  {
    hide Acyclic, Complete, TreeOf, StoreBefore, PairAvoids, Drained, HasMissing, Emitted;
    forall j: nat | 2 * j + 1 < |content|
      ensures PairIsThere(Emitted(store, content, |content| / 2, depth), j) <==> PairAvoids(store, content, j, depth)
    {
      EmittedAt(store, content, |content| / 2, j, depth);
      PairLosesNothing(store, content, j, depth);
    }
    var emitted := Emitted(store, content, |content| / 2, depth);
    if Unshared(store, content, depth) {
      forall j: nat | j < |emitted| ensures PairIsThere(emitted, j) { assert PairAvoids(store, content, j, depth); }
    }
    if NothingMissing(emitted) {
      forall j: nat | 2 * j + 1 < |content|
        ensures PairAvoids(store, content, j, depth)
      {
        assert PairIsThere(emitted, j);
      }
    }
  }

  ghost predicate NothingMissing(emitted: seq<(Tree, Tree)>) {
    forall j: nat | j < |emitted| :: PairIsThere(emitted, j)
  }

  ghost predicate PairIsThere(emitted: seq<(Tree, Tree)>, j: nat) {
    j < |emitted| && !HasMissing(emitted[j].0) && !HasMissing(emitted[j].1)
  }

  lemma PairLosesNothing(store: Store, content: seq<Option<Id>>, j: nat, depth: Id -> nat)
    requires Acyclic(store, depth) && Filled(store, content) && Complete(store) && 2 * j + 1 < |content|
    ensures var pair := PairOf(StoreBefore(store, content, j, depth), content, j, depth);
      !HasMissing(pair.0) && !HasMissing(pair.1) <==> PairAvoids(store, content, j, depth)
  {
    hide Acyclic, Complete, TreeOf, StoreBefore, Drained, HasMissing;
    LongListsAreDrained(store, content, j, depth);
    var now, lists := StoreBefore(store, content, j, depth), LongBefore(store, content, j);
    MissesItemsExactly(store, now, content[2 * j].value, lists, depth);
    MissesItemsExactly(store, now, content[2 * j + 1].value, lists, depth);
  }

  // ----- A list used twice -----

  lemma {:induction false} LongStaysLong(store: Store, content: seq<Option<Id>>, i: nat, j: nat)
    requires Filled(store, content) && i < j && 2 * j <= |content| && Long(store, content[2 * i + 1].value)
    ensures content[2 * i + 1].value in LongBefore(store, content, j)
  {
    if i + 1 < j { LongStaysLong(store, content, i, j - 1); }
  }

  /** Whenever two keys have the same long list for a value, the later one comes out without its items. */
  lemma {:induction false} SharedListIsLost(store: Store, content: seq<Option<Id>>, i: nat, j: nat, depth: Id -> nat)
    requires Acyclic(store, depth) && Filled(store, content) && Complete(store)
    requires i < j && 2 * j + 1 < |content| && content[2 * j + 1] == content[2 * i + 1]
        && Long(store, content[2 * i + 1].value)
    ensures !Unshared(store, content, depth)
    ensures Emitted(store, content, |content| / 2, depth) != Original(store, content, depth)
    ensures Emitted(store, content, |content| / 2, depth)[j] != Original(store, content, depth)[j]
  {
    hide Acyclic, Complete, Emitted, StoreBefore, PairOf, TreeOf, LongBefore;
    LongStaysLong(store, content, i, j);
    assert !PairAvoids(store, content, j, depth);
    WrittenWhole(store, content, depth);
    EmittedAt(store, content, |content| / 2, j, depth);
    PairSurvives(store, content, j, depth);
  }

  /** Two keys over one list of 4097 times the same scalar: what an anchored list and an alias of it become once
      inlined. */
  function TwiceUsed(): (Store, seq<Option<Id>>) {
    (map[0 := Node(Yaml.Scalar, "x", []), 1 := Node(Yaml.Sequence, "", seq(4097, _ => Some(0))),
         2 := Node(Yaml.Scalar, "a", []), 3 := Node(Yaml.Scalar, "b", [])],
     [Some(2), Some(1), Some(3), Some(1)])
  }

  lemma {:induction false} TwiceUsedIsLost(depth: Id -> nat)
    requires depth(0) < depth(1)
    ensures var (store, content) := TwiceUsed();
      && Acyclic(store, depth) && Filled(store, content) && Complete(store) && !Unshared(store, content, depth)
      && Emitted(store, content, 2, depth) != Original(store, content, depth)
  {
    hide Emitted, Original, Unshared;
    var (store, content) := TwiceUsed();
    assert Acyclic(store, depth) && Filled(store, content) && Complete(store);
    SharedListIsLost(store, content, 0, 1, depth);
  }
}
