/** Reference chains told from the selected values alone: what a resource id leads to on one device
    (tool/check_android_release_contract.py). */
module ResourceChains {
  import opened Bytes
  import opened ResourceSelection
  import opened ResourceGraph

  ghost predicate Picks(entries: Entries, x: Context, id: nat, v: Value) {
    id in entries && Select(entries[id], x) == Chosen(v)
  }

  /** On the device the value of a is a reference to b, which is not a resource of the platform's own package. */
  ghost predicate Refers(entries: Entries, x: Context, a: nat, b: nat) {
    exists v :: Picks(entries, x, a, v) && v.Scalar? && (v.kind == 1 || v.kind == 7) && v.data == b && b != 0
                && b / 0x100_0000 != 1
  }

  /** The value of the id is there and usable, and leads no further: a bag, a reference into the platform's package, or
      a scalar that is neither null nor a zero attribute. */
  ghost predicate EndsWell(entries: Entries, x: Context, id: nat) {
    exists v :: Picks(entries, x, id, v)
                && (|| v.Bag?
                    || (v.Scalar? && (v.kind == 1 || v.kind == 7) && v.data / 0x100_0000 == 1)
                    || (v.Scalar? && (v.kind == 2 || v.kind == 8) && v.data != 0)
                    || (v.Scalar? && v.kind !in {0, 1, 2, 7, 8}))
  }

  /** The id is unknown, has no value on the device, or has one that is unreadable, null, or a zero reference. */
  ghost predicate EndsBadly(entries: Entries, x: Context, id: nat) {
    || id !in entries
    || Select(entries[id], x) == Nothing
    || exists v :: Picks(entries, x, id, v)
                   && (v.Unreadable? || (v.Scalar? && (v.kind == 0 || (v.data == 0 && v.kind in {1, 2, 7, 8}))))
  }

  ghost predicate EndsUnknown(entries: Entries, x: Context, id: nat) {
    id in entries && Select(entries[id], x) == Uncertain
  }

  /** Each id refers to the next. */
  ghost predicate Path(entries: Entries, x: Context, ids: seq<nat>) {
    ids != [] && forall i, j :: 0 <= i && j == i + 1 < |ids| ==> Refers(entries, x, ids[i], ids[j])
  }

  ghost predicate GoodChain(entries: Entries, x: Context, conflicts: set<nat>, ids: seq<nat>) {
    Path(entries, x, ids) && EndsWell(entries, x, ids[|ids| - 1]) && forall i :: 0 <= i < |ids| ==> ids[i] !in conflicts
  }

  ghost predicate BadChain(entries: Entries, x: Context, conflicts: set<nat>, ids: seq<nat>) {
    Path(entries, x, ids) && (ids[|ids| - 1] in conflicts || EndsBadly(entries, x, ids[|ids| - 1]))
  }

  ghost predicate From(ids: seq<nat>, id: nat) { ids != [] && ids[0] == id }

  /** The id leads, over finitely many references and past no conflict, to a usable value. */
  ghost predicate Works(entries: Entries, x: Context, conflicts: set<nat>, id: nat) {
    exists ids :: GoodChain(entries, x, conflicts, ids) && From(ids, id)
  }

  /** It leads to a conflict or a bad end, or refers on for ever. */
  ghost predicate Breaks(entries: Entries, x: Context, conflicts: set<nat>, id: nat) {
    || (exists ids :: BadChain(entries, x, conflicts, ids) && From(ids, id))
    || forall n: nat :: LongPath(entries, x, id, n)
  }

  ghost predicate LongPath(entries: Entries, x: Context, id: nat, n: nat) {
    exists ids :: Path(entries, x, ids) && From(ids, id) && |ids| > n
  }

  ghost predicate LeavesOpen(entries: Entries, x: Context, id: nat) {
    exists ids :: Path(entries, x, ids) && From(ids, id) && EndsUnknown(entries, x, ids[|ids| - 1])
  }

  // ----- One id -----

  lemma NodeMeans(entries: Entries, x: Context, id: nat)
    ensures forall t :: NodeOf(entries, x, id) == To(t) <==> Refers(entries, x, id, t)
    ensures NodeOf(entries, x, id).Terminal? <==> EndsWell(entries, x, id)
    ensures NodeOf(entries, x, id).Bad? <==> EndsBadly(entries, x, id)
    ensures NodeOf(entries, x, id).Unmodelled? <==> EndsUnknown(entries, x, id)
  {
    hide Select;
    if id in entries && Select(entries[id], x).Chosen? {
      var v := Select(entries[id], x).value;
      assert forall w :: Picks(entries, x, id, w) <==> w == v;
    }
  }

  // ----- Chains -----

  /** The hops of an id spell out a path, and every path from it is spelt out by its hops. */
  lemma {:induction false} HopsSpell(entries: Entries, x: Context, id: nat, k: nat) returns (ids: seq<nat>)
    requires Hop(entries, x, id, k).Some?
    ensures Path(entries, x, ids) && |ids| == k + 1 && ids[0] == id && ids[k] == Hop(entries, x, id, k).value
    decreases k
  {
    hide Refers, NodeOf;
    ids := [id];
    if k > 0 {
      NodeMeans(entries, x, id);
      var rest := HopsSpell(entries, x, NodeOf(entries, x, id).target, k - 1);
      ids := [id] + rest;
      PathGrows(entries, x, id, rest);
    }
  }

  lemma PathGrows(entries: Entries, x: Context, id: nat, rest: seq<nat>)
    requires rest != []
    ensures Path(entries, x, [id] + rest) <==> Refers(entries, x, id, rest[0]) && Path(entries, x, rest)
  {
    hide Refers;
    var all := [id] + rest;
    assert all[0] == id && all[1] == rest[0] && forall i :: 0 <= i < |rest| ==> all[i + 1] == rest[i];
    if Path(entries, x, all) {
      forall i, j | 0 <= i && j == i + 1 < |rest| ensures Refers(entries, x, rest[i], rest[j]) {
        var m := j + 1;
        assert Refers(entries, x, all[j], all[m]);
      }
    }
    if Refers(entries, x, id, rest[0]) && Path(entries, x, rest) {
      forall i, j | 0 <= i && j == i + 1 < |all| ensures Refers(entries, x, all[i], all[j]) {
        if i > 0 {
          var h := i - 1;
          assert Refers(entries, x, rest[h], rest[i]);
        }
      }
    }
  }

  lemma {:induction false} PathsHop(entries: Entries, x: Context, ids: seq<nat>)
    requires Path(entries, x, ids)
    ensures Hop(entries, x, ids[0], |ids| - 1) == Some(ids[|ids| - 1])
    decreases |ids|
  {
    hide Refers, NodeOf;
    if |ids| > 1 {
      var rest := ids[1..];
      assert ids == [ids[0]] + rest;
      PathGrows(entries, x, ids[0], rest);
      NodeMeans(entries, x, ids[0]);
      PathsHop(entries, x, rest);
    }
  }

  /** An id is rejected exactly when it leads to a conflict or a bad end, or nowhere. */
  lemma {:induction false} RejectedMeans(entries: Entries, x: Context, conflicts: set<nat>, id: nat)
    ensures Rejected(entries, x, conflicts, id) <==> Breaks(entries, x, conflicts, id)
  {
    hide NodeOf, EndsBadly, Path, Hop;
    forall k: nat | Faulty(entries, x, conflicts, id, k) ensures Breaks(entries, x, conflicts, id) {
      var ids := HopsSpell(entries, x, id, k);
      NodeMeans(entries, x, ids[k]);
      assert BadChain(entries, x, conflicts, ids);
    }
    if Endless(entries, x, id) {
      forall n: nat ensures LongPath(entries, x, id, n) {
        assert Hop(entries, x, id, n).Some?;
        var ids := HopsSpell(entries, x, id, n);
      }
    }
    forall ids | BadChain(entries, x, conflicts, ids) && From(ids, id) ensures Rejected(entries, x, conflicts, id) {
      PathsHop(entries, x, ids);
      NodeMeans(entries, x, ids[|ids| - 1]);
      assert Faulty(entries, x, conflicts, id, |ids| - 1);
    }
    if forall n: nat :: LongPath(entries, x, id, n) {
      forall k: nat ensures Hop(entries, x, id, k).Some? {
        assert LongPath(entries, x, id, k);
        var ids :| Path(entries, x, ids) && From(ids, id) && |ids| > k;
        PathPrefix(entries, x, ids, k + 1);
        PathsHop(entries, x, ids[..k + 1]);
      }
    }
  }

  lemma PathPrefix(entries: Entries, x: Context, ids: seq<nat>, n: nat)
    requires Path(entries, x, ids) && 0 < n <= |ids|
    ensures Path(entries, x, ids[..n])
  {
    hide Refers;
    forall i, j | 0 <= i && j == i + 1 < n ensures Refers(entries, x, ids[..n][i], ids[..n][j]) {
      assert Refers(entries, x, ids[i], ids[j]);
    }
  }

  /** An id is doubtful exactly when it leads to a value whose selection is not modelled. */
  lemma {:induction false} DoubtfulMeans(entries: Entries, x: Context, id: nat)
    ensures Doubtful(entries, x, id) <==> LeavesOpen(entries, x, id)
  {
    hide NodeOf, EndsUnknown, Path, Hop;
    forall k: nat | EndsUnmodelled(entries, x, id, k) ensures LeavesOpen(entries, x, id) {
      var ids := HopsSpell(entries, x, id, k);
      NodeMeans(entries, x, ids[k]);
    }
    forall ids | Path(entries, x, ids) && From(ids, id) && EndsUnknown(entries, x, ids[|ids| - 1])
      ensures Doubtful(entries, x, id)
    {
      PathsHop(entries, x, ids);
      NodeMeans(entries, x, ids[|ids| - 1]);
      assert EndsUnmodelled(entries, x, id, |ids| - 1);
    }
  }

  /** Every id works, breaks or is left open: it works exactly when it does neither of the others. */
  lemma {:induction false} WorksOtherwise(entries: Entries, x: Context, conflicts: set<nat>, id: nat)
    ensures Works(entries, x, conflicts, id)
        <==> !Breaks(entries, x, conflicts, id) && !LeavesOpen(entries, x, id)
  {
    hide NodeOf, Hop, Works, Breaks, LeavesOpen, Rejected, Doubtful;
    RejectedMeans(entries, x, conflicts, id);
    DoubtfulMeans(entries, x, id);
    if Works(entries, x, conflicts, id) { WorkingIsAccepted(entries, x, conflicts, id); }
    if !Rejected(entries, x, conflicts, id) && !Doubtful(entries, x, id) {
      AcceptedWorks(entries, x, conflicts, id);
    }
  }

  lemma {:induction false} ChainIsAccepted(entries: Entries, x: Context, conflicts: set<nat>, ids: seq<nat>)
    requires GoodChain(entries, x, conflicts, ids)
    ensures !Rejected(entries, x, conflicts, ids[0]) && !Doubtful(entries, x, ids[0])
    decreases |ids|
  {
    hide NodeOf, Rejected, Doubtful, EndsWell, Refers;
    NodeMeans(entries, x, ids[0]);
    RejectedStep(entries, x, conflicts, ids[0]);
    DoubtfulStep(entries, x, ids[0]);
    if |ids| > 1 {
      var rest := ids[1..];
      assert ids == [ids[0]] + rest;
      PathGrows(entries, x, ids[0], rest);
      ChainIsAccepted(entries, x, conflicts, rest);
    }
  }

  lemma WorkingIsAccepted(entries: Entries, x: Context, conflicts: set<nat>, id: nat)
    requires Works(entries, x, conflicts, id)
    ensures !Rejected(entries, x, conflicts, id) && !Doubtful(entries, x, id)
  {
    hide GoodChain, Rejected, Doubtful;
    var ids :| GoodChain(entries, x, conflicts, ids) && From(ids, id);
    ChainIsAccepted(entries, x, conflicts, ids);
  }

  lemma AcceptedWorks(entries: Entries, x: Context, conflicts: set<nat>, id: nat)
    requires !Rejected(entries, x, conflicts, id) && !Doubtful(entries, x, id)
    ensures Works(entries, x, conflicts, id)
  {
    hide NodeOf, EndsWell;
    var n: nat :| Hop(entries, x, id, n).None?;
    var k := LastHop(entries, x, id, n);
    var ids := HopsSpell(entries, x, id, k);
    NodeMeans(entries, x, ids[k]);
    assert !Faulty(entries, x, conflicts, id, k) && !EndsUnmodelled(entries, x, id, k);
    forall i | 0 <= i < |ids| ensures ids[i] !in conflicts {
      PathPrefix(entries, x, ids, i + 1);
      PathsHop(entries, x, ids[..i + 1]);
      assert ids[..i + 1][0] == id && ids[..i + 1][i] == ids[i];
      assert !Faulty(entries, x, conflicts, id, i);
    }
    assert GoodChain(entries, x, conflicts, ids) && From(ids, id);
  }

  /** A chain that ends has a last id, which refers to nothing. */
  lemma {:induction false} LastHop(entries: Entries, x: Context, id: nat, n: nat) returns (k: nat)
    requires Hop(entries, x, id, n).None?
    ensures Hop(entries, x, id, k).Some? && !NodeOf(entries, x, Hop(entries, x, id, k).value).To?
    decreases n
  {
    hide NodeOf;
    var node := NodeOf(entries, x, id);
    if node.To? {
      k := LastHop(entries, x, node.target, n - 1);
      k := k + 1;
    } else {
      k := 0;
    }
  }
}
