/** Reference chains for one device, and the peel that classifies them. */
module ResourceGraph {
  import opened Bytes
  import opened ResourceSelection

  datatype Node = Bad | Unmodelled | Terminal | To(target: nat)

  /** What one resource id leads to on the device. */
  function NodeOf(entries: Entries, x: Context, id: nat): Node {
    if id !in entries then Bad
    else
      match Select(entries[id], x)
      case Uncertain => Unmodelled
      case Nothing => Bad
      case Chosen(v) =>
        if !Usable(v) then Bad
        else
          match FlowOf(v)
          case Reference(t) => if t / 0x100_0000 == 1 then Terminal else To(t)
          case _ => Terminal
  }

  /** The id reached after k references, if the chain is that long. */
  function Hop(entries: Entries, x: Context, id: nat, k: nat): Option<nat>
    decreases k
  {
    if k == 0 then Some(id)
    else
      var n := NodeOf(entries, x, id);
      if n.To? then Hop(entries, x, n.target, k - 1) else None
  }

  ghost predicate Faulty(entries: Entries, x: Context, conflicts: set<nat>, id: nat, k: nat) {
    Hop(entries, x, id, k).Some?
    && (Hop(entries, x, id, k).value in conflicts || NodeOf(entries, x, Hop(entries, x, id, k).value).Bad?)
  }

  ghost predicate Endless(entries: Entries, x: Context, id: nat) {
    forall k: nat :: Hop(entries, x, id, k).Some?
  }

  /** The chain meets a bad or conflicting id, or never ends. */
  ghost predicate Rejected(entries: Entries, x: Context, conflicts: set<nat>, id: nat) {
    (exists k: nat :: Faulty(entries, x, conflicts, id, k)) || Endless(entries, x, id)
  }

  ghost predicate EndsUnmodelled(entries: Entries, x: Context, id: nat, k: nat) {
    Hop(entries, x, id, k).Some? && NodeOf(entries, x, Hop(entries, x, id, k).value).Unmodelled?
  }

  /** The chain ends at an id whose selection is not modelled. */
  ghost predicate Doubtful(entries: Entries, x: Context, id: nat) {
    exists k: nat :: EndsUnmodelled(entries, x, id, k)
  }

  // ----- One step along a chain -----

  lemma RejectedStep(entries: Entries, x: Context, conflicts: set<nat>, id: nat)
    ensures var n := NodeOf(entries, x, id);
      Rejected(entries, x, conflicts, id)
      <==> (id in conflicts || n.Bad? || (n.To? && Rejected(entries, x, conflicts, n.target)))
  {
    var n := NodeOf(entries, x, id);
    hide NodeOf;
    if id in conflicts || n.Bad? { assert Faulty(entries, x, conflicts, id, 0); }
    if n.To? {
      if k: nat :| Faulty(entries, x, conflicts, n.target, k) { assert Faulty(entries, x, conflicts, id, k + 1); }
      if k: nat :| Faulty(entries, x, conflicts, id, k) {
        if k > 0 { assert Faulty(entries, x, conflicts, n.target, k - 1); }
      }
      forall k: nat ensures Hop(entries, x, id, k + 1) == Hop(entries, x, n.target, k) {}
      if Endless(entries, x, n.target) {
        forall k: nat ensures Hop(entries, x, id, k).Some? {
          if k > 0 { assert Hop(entries, x, n.target, k - 1).Some?; }
        }
      }
      if Endless(entries, x, id) {
        forall k: nat ensures Hop(entries, x, n.target, k).Some? {
          assert Hop(entries, x, id, k + 1).Some?;
        }
      }
    } else {
      assert Hop(entries, x, id, 1).None?;
      if k: nat :| Faulty(entries, x, conflicts, id, k) { assert k == 0; }
    }
  }

  lemma DoubtfulStep(entries: Entries, x: Context, id: nat)
    ensures var n := NodeOf(entries, x, id);
      Doubtful(entries, x, id) <==> n.Unmodelled? || (n.To? && Doubtful(entries, x, n.target))
  {
    var n := NodeOf(entries, x, id);
    hide NodeOf;
    if n.Unmodelled? { assert EndsUnmodelled(entries, x, id, 0); }
    if n.To? {
      if k: nat :| EndsUnmodelled(entries, x, n.target, k) { assert EndsUnmodelled(entries, x, id, k + 1); }
      if k: nat :| EndsUnmodelled(entries, x, id, k) {
        if k > 0 { assert EndsUnmodelled(entries, x, n.target, k - 1); }
      }
    } else if k: nat :| EndsUnmodelled(entries, x, id, k) {
      assert k == 0;
    }
  }

  /** A set in which every id leads to another of the set holds only endless chains. */
  lemma {:induction false} ClosedIsEndless(entries: Entries, x: Context, s: set<nat>, id: nat, k: nat)
    requires id in s
    requires forall i | i in s :: NodeOf(entries, x, i).To? && NodeOf(entries, x, i).target in s
    ensures Hop(entries, x, id, k).Some? && Hop(entries, x, id, k).value in s
    decreases k
  {
    hide NodeOf;
    if k > 0 {
      ClosedIsEndless(entries, x, s, NodeOf(entries, x, id).target, k - 1);
    }
  }

  lemma {:induction false} ClosedMarks(entries: Entries, x: Context, conflicts: set<nat>, s: set<nat>, id: nat)
    requires id in s
    requires forall i | i in s :: NodeOf(entries, x, i).To? && NodeOf(entries, x, i).target in s
    ensures Rejected(entries, x, conflicts, id) && !Doubtful(entries, x, id)
  {
    hide NodeOf;
    forall k: nat ensures Hop(entries, x, id, k).Some? && !EndsUnmodelled(entries, x, id, k) {
      ClosedIsEndless(entries, x, s, id, k);
    }
  }

  // ----- The worklist -----

  /** Every id a value in the dump can refer to. */
  function Targets(entries: Entries): set<nat> {
    set id, i | id in entries && 0 <= i < |entries[id]|
        && FlowOf(entries[id][i].1).Reference? :: FlowOf(entries[id][i].1).target
  }

  lemma {:induction false} FirstIsListed(values: Values, version: nat)
    requires AllDensities(values)
    ensures FirstAvailable(values, version).Chosen?
        ==> exists i :: 0 <= i < |values| && values[i].1 == FirstAvailable(values, version).value
  {
    hide DensityLevel;
    if values != [] {
      assert forall i :: 0 <= i < |values[1..]| ==> values[1..][i] == values[i + 1];
      FirstIsListed(values[1..], version);
      assert values[0].1 == values[0].1;
    }
  }

  lemma {:induction false} LookupIsListed(values: Values, key: Label)
    ensures Lookup(values, key).Some? ==> exists i :: 0 <= i < |values| && values[i].1 == Lookup(values, key).value
  {
    if values != [] {
      assert forall i :: 0 <= i < |values[1..]| ==> values[1..][i] == values[i + 1];
      LookupIsListed(values[1..], key);
      assert values[0].1 == values[0].1;
    }
  }

  lemma SelectedIsListed(values: Values, x: Context)
    ensures Select(values, x).Chosen? ==> exists i :: 0 <= i < |values| && values[i].1 == Select(values, x).value
  {
    hide SelectQualified, FlowOf, DensityLevel, Wins, Parse, Outranks, Admits;
    LookupIsListed(values, DefaultLabel);
    if AllDensities(values) { FirstIsListed(values, x.version); }
    SelectsTheBest(values, x);
    if SelectQualified(values, x).Chosen? {
      var j: nat, c :| Wins(values, x, j, c) && c.1 == SelectQualified(values, x).value;
      WinnerIsListed(values, x, j, c);
    }
  }

  lemma WinnerIsListed(values: Values, x: Context, j: nat, c: (Config, Value))
    requires Wins(values, x, j, c)
    ensures j < |values| && values[j].1 == c.1
  {
  }

  lemma TargetIsKnown(entries: Entries, x: Context, id: nat)
    ensures NodeOf(entries, x, id).To? ==> NodeOf(entries, x, id).target in Targets(entries)
  {
    hide Select;
    if id in entries { SelectedIsListed(entries[id], x); }
  }

  datatype Reached = Reached(dependencies: map<nat, set<nat>>, parents: map<nat, set<nat>>, invalid: set<nat>,
      unknown: set<nat>)

  function Dependencies(entries: Entries, x: Context, id: nat): set<nat> {
    var n := NodeOf(entries, x, id);
    if n.To? then {n.target} else {}
  }

  /** What the worklist has recorded about the ids visited so far. */
  ghost predicate Recorded(entries: Entries, x: Context, conflicts: set<nat>, r: Reached) {
    var visited := r.dependencies.Keys;
    && (forall id | id in visited :: r.dependencies[id] == Dependencies(entries, x, id))
    && (forall id | id in visited && NodeOf(entries, x, id).To? ::
          NodeOf(entries, x, id).target in r.parents && id in r.parents[NodeOf(entries, x, id).target])
    && (forall t, id | t in r.parents && id in r.parents[t] :: id in visited && NodeOf(entries, x, id) == To(t))
    && (forall id :: id in r.invalid <==> id in conflicts || (id in visited && NodeOf(entries, x, id).Bad?))
    && (forall id :: id in r.unknown <==> id in visited && NodeOf(entries, x, id).Unmodelled?)
  }

  method Explore(entries: Entries, x: Context, conflicts: set<nat>, roots: seq<nat>) returns (r: Reached)
    ensures Recorded(entries, x, conflicts, r)
    ensures forall id | id in roots :: id in r.dependencies
    ensures forall id | id in r.dependencies
        && NodeOf(entries, x, id).To? :: NodeOf(entries, x, id).target in r.dependencies
  {
    hide NodeOf, Targets;
    ghost var universe := (set id | id in roots) + Targets(entries);
    var pending := roots;
    r := Reached(map[], map[], conflicts, {});
    while pending != []
      invariant Recorded(entries, x, conflicts, r)
      invariant forall id | id in roots :: id in r.dependencies || id in pending
      invariant forall id | id in r.dependencies && NodeOf(entries, x, id).To? ::
                  NodeOf(entries, x, id).target in r.dependencies || NodeOf(entries, x, id).target in pending
      invariant r.dependencies.Keys <= universe && forall id | id in pending :: id in universe
      decreases universe - r.dependencies.Keys, |pending|
    {
      var id := pending[|pending| - 1];
      var rest := pending[..|pending| - 1];
      assert pending == rest + [id];
      if id in r.dependencies {
        pending := rest;
      } else {
        TargetIsKnown(entries, x, id);
        var n := NodeOf(entries, x, id);
        ghost var before := r;
        r := Visit(r, id, n);
        VisitRecords(entries, x, conflicts, before, id);
        pending := if n.To? then rest + [n.target] else rest;
      }
    }
  }

  /** Records one freshly visited id. */
  function Visit(r: Reached, id: nat, n: Node): Reached {
    match n
    case Bad => r.(dependencies := r.dependencies[id := {}], invalid := r.invalid + {id})
    case Unmodelled => r.(dependencies := r.dependencies[id := {}], unknown := r.unknown + {id})
    case Terminal => r.(dependencies := r.dependencies[id := {}])
    case To(t) => r.(dependencies := r.dependencies[id := {t}],
                     parents := r.parents[t := (if t in r.parents then r.parents[t] else {}) + {id}])
  }

  lemma {:induction false} VisitRecords(entries: Entries, x: Context, conflicts: set<nat>, r: Reached, id: nat)
    requires Recorded(entries, x, conflicts, r) && id !in r.dependencies
    ensures Recorded(entries, x, conflicts, Visit(r, id, NodeOf(entries, x, id)))
    ensures Visit(r, id, NodeOf(entries, x, id)).dependencies.Keys == r.dependencies.Keys + {id}
  {
    hide NodeOf;
    var n := NodeOf(entries, x, id);
    if n.To? { ReferenceRecorded(entries, x, conflicts, r, id); } else { EndRecorded(entries, x, conflicts, r, id); }
  }

  lemma EndRecorded(entries: Entries, x: Context, conflicts: set<nat>, r: Reached, id: nat)
    requires Recorded(entries, x, conflicts, r) && id !in r.dependencies && !NodeOf(entries, x, id).To?
    ensures var after := Visit(r, id, NodeOf(entries, x, id));
      Recorded(entries, x, conflicts, after) && after.dependencies.Keys == r.dependencies.Keys + {id}
  {
    hide NodeOf;
    var after := Visit(r, id, NodeOf(entries, x, id));
    assert after.dependencies == r.dependencies[id := {}] && after.parents == r.parents;
    assert after.dependencies.Keys == r.dependencies.Keys + {id};
  }

  lemma ReferenceRecorded(entries: Entries, x: Context, conflicts: set<nat>, r: Reached, id: nat)
    requires Recorded(entries, x, conflicts, r) && id !in r.dependencies && NodeOf(entries, x, id).To?
    ensures var after := Visit(r, id, NodeOf(entries, x, id));
      Recorded(entries, x, conflicts, after) && after.dependencies.Keys == r.dependencies.Keys + {id}
  {
    hide NodeOf;
    var t := NodeOf(entries, x, id).target;
    var after := Visit(r, id, NodeOf(entries, x, id));
    assert after.dependencies == r.dependencies[id := {t}] && after.invalid == r.invalid && after.unknown == r.unknown;
    assert after.dependencies.Keys == r.dependencies.Keys + {id};
    forall s, p | s in after.parents && p in after.parents[s]
      ensures p in after.dependencies && NodeOf(entries, x, p) == To(s) {
      if s != t { assert s in r.parents && after.parents[s] == r.parents[s]; }
    }
  }

  // ----- The peel -----

  /** The links of a finished exploration. */
  ghost predicate Linked(entries: Entries, x: Context, dependencies: map<nat, set<nat>>, parents: map<nat, set<nat>>) {
    && (forall id | id in dependencies :: dependencies[id] == Dependencies(entries, x, id))
    && (forall id | id in dependencies && NodeOf(entries, x, id).To? ::
          NodeOf(entries, x, id).target in dependencies
          && NodeOf(entries, x, id).target in parents && id in parents[NodeOf(entries, x, id).target])
    && (forall t, id | t in parents && id in parents[t] :: id in dependencies && NodeOf(entries, x, id) == To(t))
  }

  datatype Marks = Marks(invalid: set<nat>, unknown: set<nat>)

  ghost predicate ExactMarks(entries: Entries, x: Context, conflicts: set<nat>, m: Marks, id: nat) {
    && (id in m.invalid <==> Rejected(entries, x, conflicts, id))
    && (id in m.unknown <==> Doubtful(entries, x, id))
  }

  /** Nothing has been propagated to the id yet. */
  ghost predicate FreshMarks(conflicts: set<nat>, m: Marks, id: nat) {
    (id in m.invalid <==> id in conflicts) && id !in m.unknown
  }

  /** Of the visited ids, those reached carry exact marks; the others still wait for one reference. */
  ghost predicate Peeling(entries: Entries, x: Context, conflicts: set<nat>, visited: set<nat>, m: Marks,
                          remaining: map<nat, nat>, ready: seq<nat>, resolved: set<nat>, reached: set<nat>) {
    && remaining.Keys == visited && resolved <= reached <= visited
    && (forall id | id in ready :: id in reached && id !in resolved)
    && (forall i, j :: 0 <= i < j < |ready| ==> ready[i] != ready[j])
    && (forall id | id in reached :: id in resolved || id in ready)
    && (forall id | id in reached :: remaining[id] == 0 && ExactMarks(entries, x, conflicts, m, id))
    && (forall id | id in visited && id !in reached ::
          remaining[id] == 1 && NodeOf(entries, x, id).To? && FreshMarks(conflicts, m, id))
  }

  function Mark(m: Marks, from: nat, to: nat): Marks {
    Marks(if from in m.invalid then m.invalid + {to} else m.invalid, if from in m.unknown then m.unknown + {to}
        else m.unknown)
  }

  /** Propagating to a waiting parent makes its marks exact and readies it. */
  lemma ParentReached(entries: Entries, x: Context, conflicts: set<nat>, visited: set<nat>, m: Marks,
                      remaining: map<nat, nat>, ready: seq<nat>, resolved: set<nat>, reached: set<nat>, from: nat,
                      to: nat)
    requires Peeling(entries, x, conflicts, visited, m, remaining, ready, resolved, reached)
    requires from in reached && to in visited && to !in reached && NodeOf(entries, x, to) == To(from)
    ensures Peeling(entries, x, conflicts, visited, Mark(m, from, to), remaining[to := 0], ready + [to], resolved,
        reached + {to})
  {
    hide NodeOf, Rejected, Doubtful;
    RejectedStep(entries, x, conflicts, to);
    DoubtfulStep(entries, x, to);
    assert to !in ready;
  }

  method Terminals(remaining: map<nat, nat>) returns (ready: seq<nat>)
    ensures forall id :: id in ready <==> id in remaining && remaining[id] == 0
    ensures forall i, j :: 0 <= i < j < |ready| ==> ready[i] != ready[j]
  {
    ready := [];
    var left := remaining.Keys;
    while left != {}
      invariant left <= remaining.Keys
      invariant forall id :: id in ready <==> id in remaining && id !in left && remaining[id] == 0
      invariant forall i, j :: 0 <= i < j < |ready| ==> ready[i] != ready[j]
      decreases left
    {
      var id :| id in left;
      left := left - {id};
      if remaining[id] == 0 { ready := ready + [id]; }
    }
  }

  lemma PeelStarts(entries: Entries, x: Context, conflicts: set<nat>, r: Reached, remaining: map<nat, nat>,
                   ready: seq<nat>)
    requires Recorded(entries, x, conflicts, r)
    requires remaining.Keys == r.dependencies.Keys
        && forall id | id in remaining :: remaining[id] == |r.dependencies[id]|
    requires forall id :: id in ready <==> id in remaining && remaining[id] == 0
    requires forall i, j :: 0 <= i < j < |ready| ==> ready[i] != ready[j]
    ensures Peeling(entries, x, conflicts, r.dependencies.Keys, Marks(r.invalid, r.unknown), remaining, ready, {},
                    set id | id in ready)
    ensures forall id | id in r.dependencies && NodeOf(entries, x, id).To? :: id !in ready
  {
    hide NodeOf, Rejected, Doubtful;
    forall id | id in r.dependencies
      ensures if NodeOf(entries, x, id).To?
          then remaining[id] == 1 && FreshMarks(conflicts, Marks(r.invalid, r.unknown), id)
              else remaining[id] == 0 && ExactMarks(entries, x, conflicts, Marks(r.invalid, r.unknown), id)
    {
      RejectedStep(entries, x, conflicts, id);
      DoubtfulStep(entries, x, id);
      if NodeOf(entries, x, id).To? { assert |{NodeOf(entries, x, id).target}| == 1; }
    }
  }

  /** What is left when nothing is ready refers only to itself. */
  lemma {:induction false} LeftoverIsEndless(entries: Entries, x: Context, conflicts: set<nat>,
                                             dependencies: map<nat, set<nat>>, parents: map<nat, set<nat>>,
                                             resolved: set<nat>, id: nat)
    requires Linked(entries, x, dependencies, parents) && id in dependencies && id !in resolved
    requires forall i | i in dependencies
        && i !in resolved :: NodeOf(entries, x, i).To? && NodeOf(entries, x, i).target !in resolved
    ensures Rejected(entries, x, conflicts, id) && !Doubtful(entries, x, id)
  {
    hide NodeOf, Rejected, Doubtful;
    ClosedMarks(entries, x, conflicts, dependencies.Keys - resolved, id);
  }

  lemma PopReady(entries: Entries, x: Context, conflicts: set<nat>, visited: set<nat>, m: Marks,
                 remaining: map<nat, nat>, ready: seq<nat>, resolved: set<nat>, reached: set<nat>)
    requires ready != [] && Peeling(entries, x, conflicts, visited, m, remaining, ready, resolved, reached)
    ensures var id := ready[|ready| - 1];
      id in reached && id !in resolved
      && Peeling(entries, x, conflicts, visited, m, remaining, ready[..|ready| - 1], resolved + {id}, reached)
  {
    hide NodeOf, ExactMarks, FreshMarks;
    var rest := ready[..|ready| - 1];
    assert ready == rest + [ready[|ready| - 1]];
  }

  /** The inner loop: passes the marks of a resolved id on to everything that refers to it. */
  method Propagate(entries: Entries, x: Context, conflicts: set<nat>, visited: set<nat>, from: nat, referrers: set<nat>,
                   m0: Marks, remaining0: map<nat, nat>, ready0: seq<nat>, ghost resolved: set<nat>,
                   ghost reached0: set<nat>)
    returns (m: Marks, remaining: map<nat, nat>, ready: seq<nat>)
    requires Peeling(entries, x, conflicts, visited, m0, remaining0, ready0, resolved, reached0) && from in reached0
    requires referrers <= visited && referrers !! reached0
        && forall p | p in referrers :: NodeOf(entries, x, p) == To(from)
    ensures Peeling(entries, x, conflicts, visited, m, remaining, ready, resolved, reached0 + referrers)
  {
    hide NodeOf, Mark, Peeling;
    m, remaining, ready := m0, remaining0, ready0;
    var left := referrers;
    ghost var reached := reached0;
    while left != {}
      invariant left <= referrers && left !! reached && reached + left == reached0 + referrers && from in reached
      invariant Peeling(entries, x, conflicts, visited, m, remaining, ready, resolved, reached)
      decreases left
    {
      var p :| p in left;
      left := left - {p};
      ParentReached(entries, x, conflicts, visited, m, remaining, ready, resolved, reached, from, p);
      PeelFacts(entries, x, conflicts, visited, m, remaining, ready, resolved, reached);
      m := Mark(m, from, p);
      remaining := remaining[p := remaining[p] - 1];
      if remaining[p] == 0 { ready := ready + [p]; }
      reached := reached + {p};
    }
    assert reached == reached0 + referrers;
  }

  lemma PeelFacts(entries: Entries, x: Context, conflicts: set<nat>, visited: set<nat>, m: Marks,
                  remaining: map<nat, nat>, ready: seq<nat>, resolved: set<nat>, reached: set<nat>)
    requires Peeling(entries, x, conflicts, visited, m, remaining, ready, resolved, reached)
    ensures forall id | id in visited
        && id !in reached :: id in remaining && remaining[id] == 1 && NodeOf(entries, x, id).To?
    ensures ready == [] ==> reached <= resolved
    ensures resolved <= reached <= visited
    ensures forall i | i in reached :: ExactMarks(entries, x, conflicts, m, i)
    ensures forall i | i in visited && i !in reached :: FreshMarks(conflicts, m, i)
  {
  }

  function Referrers(parents: map<nat, set<nat>>, id: nat): set<nat> {
    if id in parents then parents[id] else {}
  }

  lemma ReferrersAre(entries: Entries, x: Context, dependencies: map<nat, set<nat>>, parents: map<nat, set<nat>>,
                     id: nat)
    requires Linked(entries, x, dependencies, parents)
    ensures forall p :: p in Referrers(parents, id) <==> (p in dependencies && NodeOf(entries, x, p) == To(id))
  {
    hide NodeOf;
  }

  lemma {:induction false} PeelEnds(entries: Entries, x: Context, conflicts: set<nat>, dependencies: map<nat, set<nat>>,
                                    parents: map<nat, set<nat>>, m: Marks, remaining: map<nat, nat>, resolved: set<nat>,
                                    reached: set<nat>)
    requires Linked(entries, x, dependencies, parents)
    requires Peeling(entries, x, conflicts, dependencies.Keys, m, remaining, [], resolved, reached)
    requires forall id | id in dependencies
        && NodeOf(entries, x, id).To? :: id in reached <==> NodeOf(entries, x, id).target in resolved
    ensures forall id | id in dependencies ::
              ExactMarks(entries, x, conflicts, m.(invalid := m.invalid + (dependencies.Keys - resolved)), id)
  {
    hide NodeOf, Rejected, Doubtful, Peeling, Linked;
    PeelFacts(entries, x, conflicts, dependencies.Keys, m, remaining, [], resolved, reached);
    forall id | id in dependencies
      ensures ExactMarks(entries, x, conflicts, m.(invalid := m.invalid + (dependencies.Keys - resolved)), id)
    {
      if id in resolved {
        assert ExactMarks(entries, x, conflicts, m, id);
      } else {
        LeftoverIsEndless(entries, x, conflicts, dependencies, parents, resolved, id);
        assert FreshMarks(conflicts, m, id);
      }
    }
  }

  /** Marks every visited id exactly: invalid iff its chain is rejected, unknown iff it ends unmodelled. */
  method Peel(entries: Entries, x: Context, conflicts: set<nat>, r: Reached) returns (m: Marks)
    requires Recorded(entries, x, conflicts, r) && Linked(entries, x, r.dependencies, r.parents)
    ensures forall id | id in r.dependencies :: ExactMarks(entries, x, conflicts, m, id)
  {
    hide NodeOf, Rejected, Doubtful, Peeling, Recorded, Linked, Referrers, ExactMarks, FreshMarks;
    var visited := r.dependencies.Keys;
    var remaining: map<nat, nat> := map id | id in r.dependencies :: |r.dependencies[id]|;
    var ready := Terminals(remaining);
    m := Marks(r.invalid, r.unknown);
    PeelStarts(entries, x, conflicts, r, remaining, ready);
    ghost var reached := set id | id in ready;
    var resolved: set<nat> := {};
    while ready != []
      invariant Peeling(entries, x, conflicts, visited, m, remaining, ready, resolved, reached) && resolved <= visited
      invariant forall id | id in visited
          && NodeOf(entries, x, id).To? :: id in reached <==> NodeOf(entries, x, id).target in resolved
      decreases visited - resolved
    {
      var id := ready[|ready| - 1];
      PopReady(entries, x, conflicts, visited, m, remaining, ready, resolved, reached);
      PeelFacts(entries, x, conflicts, visited, m, remaining, ready, resolved, reached);
      var referrers := Referrers(r.parents, id);
      ReferrersAre(entries, x, r.dependencies, r.parents, id);
      m, remaining, ready := Propagate(entries, x, conflicts, visited, id, referrers, m, remaining,
          ready[..|ready| - 1],
                                       resolved + {id}, reached);
      resolved := resolved + {id};
      reached := reached + referrers;
    }
    PeelEnds(entries, x, conflicts, r.dependencies, r.parents, m, remaining, resolved, reached);
    m := m.(invalid := m.invalid + (visited - resolved));
  }
}
