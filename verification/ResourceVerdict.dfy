/** The APK resource verdict: from dump lines to a decision about every supported device. */
module ResourceVerdict {
  import opened Bytes
  import opened ResourceSelection
  import opened ResourceGraph
  import opened ResourceChains

  /** kind/name, the way a resource is looked up at run time. */
  datatype Resource = Resource(kind: string, name: string)

  datatype Line =
    | ConfigHeader(config: Label)
    | Entry(id: nat, owner: string, resource: Resource, value: Value)
    | Noise

  datatype Dump = Dump(config: Label, entries: Entries, names: map<nat, Resource>, roots: map<Resource, set<nat>>,
      conflicts: set<nat>)

  const EMPTY_DUMP := Dump(DefaultLabel, map[], map[], map[], {})

  function Put(values: Values, key: Label, value: Value): Values {
    if values == [] then [(key, value)]
    else if values[0].0 == key then [(key, value)] + values[1..]
    else [values[0]] + Put(values[1..], key, value)
  }

  /** The lines that count: entries of the package with a real id. */
  predicate Counts(line: Line, package: string) {
    line.Entry? && line.id != 0 && line.owner == package
  }

  function AbsorbEntry(d: Dump, line: Line, expected: set<Resource>): Dump
    requires line.Entry?
  {
    var values := if line.id in d.entries then d.entries[line.id] else [];
    var renamed := line.id in d.names && d.names[line.id] != line.resource;
    var revalued := Lookup(values, d.config).Some? && Lookup(values, d.config).value != line.value;
    Dump(d.config,
         d.entries[line.id := Put(values, d.config, line.value)],
         d.names[line.id := line.resource],
         if line.resource in expected
         then d.roots[line.resource := (if line.resource in d.roots then d.roots[line.resource] else {}) + {line.id}]
         else d.roots,
         if renamed || revalued then d.conflicts + {line.id} else d.conflicts)
  }

  function Absorb(d: Dump, line: Line, package: string, expected: set<Resource>): Dump {
    if line.ConfigHeader? then d.(config := line.config)
    else if Counts(line, package) then AbsorbEntry(d, line, expected)
    else d
  }

  /** The dump after the first n lines. */
  function DumpOf(lines: seq<Line>, package: string, expected: set<Resource>, n: nat): Dump
    requires n <= |lines|
  {
    if n == 0 then EMPTY_DUMP else Absorb(DumpOf(lines, package, expected, n - 1), lines[n - 1], package, expected)
  }

  // ----- What the dump means -----

  /** The configuration in force before line n. */
  function ConfigAt(lines: seq<Line>, n: nat): Label
    requires n <= |lines|
  {
    if n == 0 then DefaultLabel
    else if lines[n - 1].ConfigHeader? then lines[n - 1].config
    else ConfigAt(lines, n - 1)
  }

  ghost predicate Mentions(lines: seq<Line>, package: string, n: nat, i: nat, id: nat) {
    i < n <= |lines| && lines[i].Entry? && lines[i].owner == package && lines[i].id == id && id != 0
  }

  ghost predicate HeadsAt(lines: seq<Line>, n: nat, i: nat) {
    i < n <= |lines| && lines[i].ConfigHeader? && forall j :: i < j < n ==> !lines[j].ConfigHeader?
  }

  /** The configuration in force is that of the last header, or the default before any. */
  lemma {:induction false} ConfigAtMeans(lines: seq<Line>, n: nat)
    requires n <= |lines|
    ensures forall i: nat | HeadsAt(lines, n, i) :: ConfigAt(lines, n) == lines[i].config
    ensures (forall i :: 0 <= i < n ==> !lines[i].ConfigHeader?) ==> ConfigAt(lines, n) == DefaultLabel
  {
    if n > 0 {
      ConfigAtMeans(lines, n - 1);
      forall i: nat | HeadsAt(lines, n, i) && i < n - 1 ensures HeadsAt(lines, n - 1, i) {}
    }
  }

  /** Two of the first n lines give the id two names, or two values under one configuration. */
  ghost predicate Clash(lines: seq<Line>, package: string, n: nat, i: nat, j: nat, id: nat) {
    && Mentions(lines, package, n, i, id) && Mentions(lines, package, n, j, id)
    && (lines[i].resource != lines[j].resource
        || (ConfigAt(lines, i) == ConfigAt(lines, j) && lines[i].value != lines[j].value))
  }

  ghost predicate Conflicting(lines: seq<Line>, package: string, n: nat, id: nat) {
    exists i: nat, j: nat :: Clash(lines, package, n, i, j, id)
  }

  ghost predicate Known(lines: seq<Line>, package: string, n: nat, id: nat) {
    exists i: nat :: Mentions(lines, package, n, i, id)
  }

  /** The first n lines list the resource under the id. */
  ghost predicate ListsAs(lines: seq<Line>, package: string, n: nat, id: nat, resource: Resource) {
    exists i: nat :: Mentions(lines, package, n, i, id) && lines[i].resource == resource
  }

  /** One of the first n lines gives the id this value under this configuration. */
  ghost predicate Gives(lines: seq<Line>, package: string, n: nat, id: nat, c: Label, value: Value) {
    exists i: nat :: Mentions(lines, package, n, i, id) && ConfigAt(lines, i) == c && lines[i].value == value
  }

  lemma {:induction false} PutLooksUp(values: Values, key: Label, value: Value, other: Label)
    ensures Lookup(Put(values, key, value), other) == if other == key then Some(value) else Lookup(values, other)
  {
    if values != [] && values[0].0 != key {
      PutLooksUp(values[1..], key, value, other);
    }
  }

  function Keys(values: Values): seq<Label> {
    seq(|values|, i requires 0 <= i < |values| => values[i].0)
  }

  /** Labels are kept in the order in which they were first met, each once. */
  lemma {:induction false} PutKeepsOrder(values: Values, key: Label, value: Value)
    ensures Keys(Put(values, key, value)) == if key in Keys(values) then Keys(values) else Keys(values) + [key]
  {
    if values != [] && values[0].0 != key {
      var rest := values[1..];
      PutKeepsOrder(rest, key, value);
      assert Keys(values) == [values[0].0] + Keys(rest);
      assert Keys(Put(values, key, value)) == [values[0].0] + Keys(Put(rest, key, value));
    } else if values != [] {
      assert Keys(values)[0] == key;
    }
  }

  predicate IsRoot(d: Dump, r: Resource, id: nat) {
    r in d.roots && id in d.roots[r]
  }

  ghost predicate ReadsNames(lines: seq<Line>, package: string, expected: set<Resource>, n: nat, d: Dump) {
    && (forall id :: id in d.names <==> Known(lines, package, n, id))
    && (forall id :: id in d.entries <==> Known(lines, package, n, id))
    && (forall id | id in d.names :: ListsAs(lines, package, n, id, d.names[id]))
    && (forall r, id :: IsRoot(d, r, id) <==> (r in expected && ListsAs(lines, package, n, id, r)))
    && (forall r | r in d.roots :: r in expected && d.roots[r] != {})
  }

  /** Each id keeps, per configuration it was given a value under, a value it was given. */
  ghost predicate ReadsValues(lines: seq<Line>, package: string, n: nat, d: Dump) {
    && n <= |lines| && d.config == ConfigAt(lines, n)
    && (forall id, c, v | Gives(lines, package, n, id, c, v) :: id in d.entries && Lookup(d.entries[id], c).Some?)
    && (forall id, c | id in d.entries
        && Lookup(d.entries[id], c).Some? :: Gives(lines, package, n, id, c, Lookup(d.entries[id], c).value))
  }

  /** The state of the reading loop, in terms of the lines read. */
  ghost predicate Reads(lines: seq<Line>, package: string, expected: set<Resource>, n: nat, d: Dump) {
    && ReadsNames(lines, package, expected, n, d) && ReadsValues(lines, package, n, d)
    && forall id :: id in d.conflicts <==> Conflicting(lines, package, n, id)
  }

  lemma MentionsStep(lines: seq<Line>, package: string, n: nat, id: nat)
    requires n < |lines|
    ensures forall i: nat ::
      Mentions(lines, package, n + 1, i, id)
      <==> (Mentions(lines, package, n, i, id) || (i == n && New(lines, package, n, id)))
  {
    forall i: nat
      ensures Mentions(lines, package, n + 1, i, id)
          <==> (Mentions(lines, package, n, i, id) || (i == n && New(lines, package, n, id)))
    {
      if i == n { assert New(lines, package, n, id) <==> Counts(lines[n], package) && lines[n].id == id; }
    }
  }

  /** Line n is a line of the id. */
  ghost predicate New(lines: seq<Line>, package: string, n: nat, id: nat) {
    n < |lines| && Counts(lines[n], package) && lines[n].id == id
  }

  lemma KnownStep(lines: seq<Line>, package: string, n: nat, id: nat)
    requires n < |lines|
    ensures Known(lines, package, n + 1, id) <==> (Known(lines, package, n, id) || New(lines, package, n, id))
  {
    MentionsStep(lines, package, n, id);
    if New(lines, package, n, id) { assert Mentions(lines, package, n + 1, n, id); }
    var m := n + 1;
    if i: nat :| Mentions(lines, package, m, i, id) && i < n { assert Mentions(lines, package, n, i, id); }
    if i: nat :| Mentions(lines, package, n, i, id) { assert Mentions(lines, package, m, i, id); }
  }

  lemma ListsStep(lines: seq<Line>, package: string, n: nat, id: nat, r: Resource)
    requires n < |lines|
    ensures ListsAs(lines, package, n + 1, id, r)
      <==> (ListsAs(lines, package, n, id, r) || (New(lines, package, n, id) && lines[n].resource == r))
  {
    MentionsStep(lines, package, n, id);
  }

  lemma GivesStep(lines: seq<Line>, package: string, n: nat, id: nat, c: Label, v: Value)
    requires n < |lines|
    ensures Gives(lines, package, n + 1, id, c, v)
      <==> (Gives(lines, package, n, id, c, v)
          || (New(lines, package, n, id) && ConfigAt(lines, n) == c && lines[n].value == v))
  {
    MentionsStep(lines, package, n, id);
  }

  /** A new clash is one between line n and an earlier line of the id. */
  lemma ClashStep(lines: seq<Line>, package: string, n: nat, id: nat)
    requires n < |lines|
    ensures Conflicting(lines, package, n + 1, id) <==>
      (Conflicting(lines, package, n, id)
       || (New(lines, package, n, id)
           && ((exists r :: ListsAs(lines, package, n, id, r) && r != lines[n].resource)
               || GivesAnother(lines, package, n, id, ConfigAt(lines, n), lines[n].value))))
  {
    hide ConfigAt;
    MentionsStep(lines, package, n, id);
    if i: nat, j: nat :| Clash(lines, package, n, i, j, id) { assert Clash(lines, package, n + 1, i, j, id); }
    if New(lines, package, n, id) {
      if i: nat :| Mentions(lines, package, n, i, id) && lines[i].resource != lines[n].resource {
        assert Clash(lines, package, n + 1, i, n, id);
      }
      if i: nat :|
        && Mentions(lines, package, n, i, id) && ConfigAt(lines, i) == ConfigAt(lines, n)
        && lines[i].value != lines[n].value
      {
        assert Clash(lines, package, n + 1, i, n, id);
      }
    }
    var m := n + 1;
    if i: nat, j: nat :| Clash(lines, package, m, i, j, id) {
      if i < n && j < n {
        assert Clash(lines, package, n, i, j, id);
      } else {
        var k := if i == n then j else i;
        assert New(lines, package, n, id) && Mentions(lines, package, n, k, id);
        if lines[k].resource != lines[n].resource {
          assert ListsAs(lines, package, n, id, lines[k].resource);
        } else {
          assert ConfigAt(lines, k) == ConfigAt(lines, n) && lines[k].value != lines[n].value;
          assert Gives(lines, package, n, id, ConfigAt(lines, n), lines[k].value);
          assert GivesAnother(lines, package, n, id, ConfigAt(lines, n), lines[n].value);
        }
        assert Conflicting(lines, package, m, id);
      }
    }
  }

  lemma TwoNamesClash(lines: seq<Line>, package: string, n: nat, id: nat, a: Resource, b: Resource)
    requires ListsAs(lines, package, n, id, a) && ListsAs(lines, package, n, id, b) && a != b
    ensures Conflicting(lines, package, n, id)
  {
    var i: nat :| Mentions(lines, package, n, i, id) && lines[i].resource == a;
    var j: nat :| Mentions(lines, package, n, j, id) && lines[j].resource == b;
    assert Clash(lines, package, n, i, j, id);
  }

  lemma TwoValuesClash(lines: seq<Line>, package: string, n: nat, id: nat, c: Label, a: Value, b: Value)
    requires Gives(lines, package, n, id, c, a) && Gives(lines, package, n, id, c, b) && a != b
    ensures Conflicting(lines, package, n, id)
  {
    var i: nat :| Mentions(lines, package, n, i, id) && ConfigAt(lines, i) == c && lines[i].value == a;
    var j: nat :| Mentions(lines, package, n, j, id) && ConfigAt(lines, j) == c && lines[j].value == b;
    assert Clash(lines, package, n, i, j, id);
  }

  lemma ListedIsKnown(lines: seq<Line>, package: string, n: nat, id: nat, r: Resource)
    requires ListsAs(lines, package, n, id, r)
    ensures Known(lines, package, n, id)
  {
  }

  /** Comparing with the last name alone finds a clash of names, unless the id clashed before. */
  lemma LastNameSuffices(lines: seq<Line>, package: string, expected: set<Resource>, n: nat, d: Dump, id: nat,
                         name: Resource)
    requires Reads(lines, package, expected, n, d)
    ensures (id in d.names && d.names[id] != name) || Conflicting(lines, package, n, id)
       <==> (exists r :: ListsAs(lines, package, n, id, r) && r != name) || Conflicting(lines, package, n, id)
  {
    hide Conflicting, ListsAs, Known, ReadsValues;
    if id in d.names { assert ListsAs(lines, package, n, id, d.names[id]); }
    if r :| ListsAs(lines, package, n, id, r) && r != name {
      ListedIsKnown(lines, package, n, id, r);
      assert id in d.names;
      if d.names[id] == name { TwoNamesClash(lines, package, n, id, r, d.names[id]); }
    }
  }

  function Stored(d: Dump, id: nat): Option<Value> { Lookup(if id in d.entries then d.entries[id] else [], d.config) }

  /** Some line gives the id another value under the configuration. */
  ghost predicate GivesAnother(lines: seq<Line>, package: string, n: nat, id: nat, c: Label, value: Value) {
    exists v :: Gives(lines, package, n, id, c, v) && v != value
  }

  lemma StoredIsGiven(lines: seq<Line>, package: string, n: nat, d: Dump, id: nat)
    requires n <= |lines| && ReadsValues(lines, package, n, d)
    ensures Stored(d, id).Some? ==> Gives(lines, package, n, id, ConfigAt(lines, n), Stored(d, id).value)
    ensures forall v :: Gives(lines, package, n, id, ConfigAt(lines, n), v) ==> Stored(d, id).Some?
  {
    hide Gives, Lookup, ConfigAt;
    NothingListed(d.config);
  }

  /** Comparing with the stored value alone finds a clash of values under the current configuration. */
  lemma StoredValueSuffices(lines: seq<Line>, package: string, n: nat, d: Dump, id: nat, value: Value)
    requires n <= |lines| && ReadsValues(lines, package, n, d)
    ensures (Stored(d, id).Some? && Stored(d, id).value != value) || Conflicting(lines, package, n, id)
       <==> GivesAnother(lines, package, n, id, ConfigAt(lines, n), value) || Conflicting(lines, package, n, id)
  {
    hide ConfigAt, Conflicting, Gives, Stored, ReadsValues;
    StoredIsGiven(lines, package, n, d, id);
    var c := ConfigAt(lines, n);
    if v :| Gives(lines, package, n, id, c, v) && v != value {
      if Stored(d, id).value == value { TwoValuesClash(lines, package, n, id, c, v, value); }
    }
  }

  /** Comparing with the last name and the stored value finds every clash. */
  lemma ConflictStep(lines: seq<Line>, package: string, expected: set<Resource>, n: nat, d: Dump, id: nat)
    requires n < |lines| && Reads(lines, package, expected, n, d)
    ensures id in Absorb(d, lines[n], package, expected).conflicts <==> Conflicting(lines, package, n + 1, id)
  {
    hide ConfigAt, Conflicting, ListsAs, GivesAnother, Known, Lookup, Put, ReadsNames;
    ClashStep(lines, package, n, id);
    if New(lines, package, n, id) {
      LastNameSuffices(lines, package, expected, n, d, id, lines[n].resource);
      StoredValueSuffices(lines, package, n, d, id, lines[n].value);
    }
  }

  lemma NothingListed(c: Label)
    ensures Lookup([], c).None?
  {
  }

  lemma NamesStep(lines: seq<Line>, package: string, expected: set<Resource>, n: nat, d: Dump)
    requires n < |lines| && ReadsNames(lines, package, expected, n, d)
    ensures ReadsNames(lines, package, expected, n + 1, Absorb(d, lines[n], package, expected))
  {
    hide ListsAs, Known, Lookup, Put;
    var line, e := lines[n], Absorb(d, lines[n], package, expected);
    forall id
      ensures (id in e.names <==> Known(lines, package, n + 1, id))
          && (id in e.entries <==> Known(lines, package, n + 1, id)) {
      KnownStep(lines, package, n, id);
    }
    forall id | id in e.names ensures ListsAs(lines, package, n + 1, id, e.names[id]) {
      ListsStep(lines, package, n, id, e.names[id]);
    }
    forall r | r in e.roots ensures r in expected && e.roots[r] != {} {
      if line.Entry? { assert line.id in {line.id}; }
    }
    forall r, id ensures IsRoot(e, r, id) <==> (r in expected && ListsAs(lines, package, n + 1, id, r)) {
      ListsStep(lines, package, n, id, r);
    }
  }

  lemma ValuesStep(lines: seq<Line>, package: string, expected: set<Resource>, n: nat, d: Dump)
    requires n < |lines| && ReadsValues(lines, package, n, d)
    ensures ReadsValues(lines, package, n + 1, Absorb(d, lines[n], package, expected))
  {
    hide Gives, Lookup, Put;
    var line, e := lines[n], Absorb(d, lines[n], package, expected);
    var m := n + 1;
    forall id, c, v | Gives(lines, package, m, id, c, v) ensures id in e.entries && Lookup(e.entries[id], c).Some? {
      GivesStep(lines, package, n, id, c, v);
      if New(lines, package, n, id) {
        PutLooksUp(if id in d.entries then d.entries[id] else [], d.config, line.value, c);
      }
    }
    forall id, c | id in e.entries && Lookup(e.entries[id], c).Some?
      ensures Gives(lines, package, n + 1, id, c, Lookup(e.entries[id], c).value)
    {
      GivesStep(lines, package, n, id, c, Lookup(e.entries[id], c).value);
      NothingListed(c);
      if New(lines, package, n, id) {
        PutLooksUp(if id in d.entries then d.entries[id] else [], d.config, line.value, c);
      }
    }
  }

  /** The reading loop ends with exactly what the lines say. */
  lemma {:induction false} DumpReads(lines: seq<Line>, package: string, expected: set<Resource>, n: nat)
    requires n <= |lines|
    ensures Reads(lines, package, expected, n, DumpOf(lines, package, expected, n))
  {
    hide Absorb;
    if n == 0 {
      forall id, i: nat ensures !Mentions(lines, package, 0, i, id) {}
    } else {
      DumpReads(lines, package, expected, n - 1);
      var d := DumpOf(lines, package, expected, n - 1);
      NamesStep(lines, package, expected, n - 1, d);
      ValuesStep(lines, package, expected, n - 1, d);
      forall id ensures id in DumpOf(lines, package, expected, n).conflicts <==> Conflicting(lines, package, n, id) {
        ConflictStep(lines, package, expected, n - 1, d, id);
      }
    }
  }

  method ReadDump(lines: seq<Line>, package: string, expected: set<Resource>) returns (d: Dump)
    ensures d == DumpOf(lines, package, expected, |lines|)
  {
    d := EMPTY_DUMP;
    var n: nat := 0;
    while n < |lines|
      invariant n <= |lines| && d == DumpOf(lines, package, expected, n)
    {
      d := Absorb(d, lines[n], package, expected);
      n := n + 1;
    }
  }

  // ----- The decision -----

  datatype Verdict = Verified(count: nat) | Unusable(resources: set<Resource>) | NeedsReview(resources: set<Resource>)

  function IdsOf(d: Dump, r: Resource): set<nat> {
    if r in d.roots then d.roots[r] else {}
  }

  /** On this device some id of the resource breaks. */
  ghost predicate BrokenOn(d: Dump, x: Context, r: Resource) {
    exists id :: id in IdsOf(d, r) && Breaks(d.entries, x, d.conflicts, id)
  }

  ghost predicate UnclearOn(d: Dump, x: Context, r: Resource) {
    exists id :: id in IdsOf(d, r) && LeavesOpen(d.entries, x, id)
  }

  /** The lines list the resource under this id and no other. */
  ghost predicate OnlyId(lines: seq<Line>, package: string, r: Resource, id: nat) {
    ListsAs(lines, package, |lines|, id, r) && forall other | ListsAs(lines, package, |lines|, other, r) :: other == id
  }

  /** No single id, or a device at min_sdk or above on which it breaks. */
  ghost predicate Missing(lines: seq<Line>, package: string, d: Dump, minSdk: nat, r: Resource) {
    || (forall id :: !OnlyId(lines, package, r, id))
    || exists x: Context, id :: x.version >= minSdk && ListsAs(lines, package, |lines|, id, r)
                                && Breaks(d.entries, x, d.conflicts, id)
  }

  /** A device at min_sdk or above on which an id of the resource is left open. */
  ghost predicate Unclear(lines: seq<Line>, package: string, d: Dump, minSdk: nat, r: Resource) {
    exists x: Context, id :: x.version >= minSdk && ListsAs(lines, package, |lines|, id, r)
                             && LeavesOpen(d.entries, x, id)
  }

  /** The resource has one id, and that id works on every device at min_sdk or above. */
  ghost predicate WorksEverywhere(lines: seq<Line>, package: string, d: Dump, minSdk: nat, r: Resource) {
    exists id :: OnlyId(lines, package, r, id)
                 && forall x: Context :: x.version >= minSdk ==> Works(d.entries, x, d.conflicts, id)
  }

  lemma WorksEverywhereMeans(lines: seq<Line>, package: string, d: Dump, minSdk: nat, r: Resource)
    ensures WorksEverywhere(lines, package, d, minSdk, r)
        <==> !Missing(lines, package, d, minSdk, r) && !Unclear(lines, package, d, minSdk, r)
  {
    hide Works, Breaks, LeavesOpen, ListsAs;
    forall x: Context, id
      ensures Works(d.entries, x, d.conflicts, id)
          <==> !Breaks(d.entries, x, d.conflicts, id) && !LeavesOpen(d.entries, x, id)
    {
      WorksOtherwise(d.entries, x, d.conflicts, id);
    }
  }

  /** The set of ids collected for an expected resource tells the same as its lines. */
  lemma RootsMean(lines: seq<Line>, package: string, expected: set<Resource>, d: Dump, minSdk: nat, r: Resource)
    requires ReadsNames(lines, package, expected, |lines|, d) && r in expected
    ensures Missing(lines, package, d, minSdk, r)
        <==> |IdsOf(d, r)| != 1 || exists x: Context :: x.version >= minSdk && BrokenOn(d, x, r)
    ensures Unclear(lines, package, d, minSdk, r)
        <==> exists x: Context :: x.version >= minSdk && UnclearOn(d, x, r)
  {
    hide Breaks, LeavesOpen, ListsAs, Known;
    assert forall id :: id in IdsOf(d, r) <==> ListsAs(lines, package, |lines|, id, r) by {
      assert forall id :: id in IdsOf(d, r) <==> IsRoot(d, r, id);
    }
    OneId(lines, package, d, r);
    forall x: Context, id | ListsAs(lines, package, |lines|, id, r) && Breaks(d.entries, x, d.conflicts, id)
      ensures BrokenOn(d, x, r) {}
    forall x: Context, id | ListsAs(lines, package, |lines|, id, r) && LeavesOpen(d.entries, x, id)
      ensures UnclearOn(d, x, r) {}
  }

  lemma OneId(lines: seq<Line>, package: string, d: Dump, r: Resource)
    requires forall id :: id in IdsOf(d, r) <==> ListsAs(lines, package, |lines|, id, r)
    ensures |IdsOf(d, r)| == 1 <==> exists id :: OnlyId(lines, package, r, id)
  {
    hide ListsAs, IdsOf;
    var ids := IdsOf(d, r);
    if |ids| == 1 {
      var id :| id in ids;
      forall other | other in ids ensures other == id { OneElement(ids, id, other); }
      assert OnlyId(lines, package, r, id);
    }
    forall id: nat | OnlyId(lines, package, r, id) ensures |ids| == 1 { assert ids == {id}; }
  }

  lemma OneElement(ids: set<nat>, a: nat, b: nat)
    requires |ids| == 1 && a in ids && b in ids
    ensures a == b
  {
    assert |ids - {a}| == 0;
  }

  lemma SameNode(entries: Entries, x: Context, y: Context, id: nat)
    requires forall i | i in entries :: Select(entries[i], x) == Select(entries[i], y)
    ensures NodeOf(entries, x, id) == NodeOf(entries, y, id)
  {
    hide Select, FlowOf, Usable;
  }

  lemma {:induction false} SameHop(entries: Entries, x: Context, y: Context, id: nat, k: nat)
    requires forall i | i in entries :: Select(entries[i], x) == Select(entries[i], y)
    ensures Hop(entries, x, id, k) == Hop(entries, y, id, k)
    decreases k
  {
    hide Select, NodeOf;
    if k > 0 {
      SameNode(entries, x, y, id);
      var n := NodeOf(entries, x, id);
      if n.To? { SameHop(entries, x, y, n.target, k - 1); }
    }
  }

  /** Devices that select alike classify alike. */
  lemma SameClass(entries: Entries, x: Context, y: Context, conflicts: set<nat>, id: nat)
    requires forall i | i in entries :: Select(entries[i], x) == Select(entries[i], y)
    ensures Rejected(entries, x, conflicts, id) <==> Rejected(entries, y, conflicts, id)
    ensures Doubtful(entries, x, id) <==> Doubtful(entries, y, id)
  {
    hide Select, NodeOf, Hop;
    forall k: nat
      ensures Hop(entries, x, id, k) == Hop(entries, y, id, k)
      ensures Faulty(entries, x, conflicts, id, k) <==> Faulty(entries, y, conflicts, id, k)
      ensures EndsUnmodelled(entries, x, id, k) <==> EndsUnmodelled(entries, y, id, k)
    {
      SameHop(entries, x, y, id, k);
      if Hop(entries, x, id, k).Some? { SameNode(entries, x, y, Hop(entries, x, id, k).value); }
    }
  }

  /** Devices that select alike break and leave open the same ids. */
  lemma SameOutcome(entries: Entries, x: Context, y: Context, conflicts: set<nat>, id: nat)
    requires forall i | i in entries :: Select(entries[i], x) == Select(entries[i], y)
    ensures Breaks(entries, x, conflicts, id) <==> Breaks(entries, y, conflicts, id)
    ensures LeavesOpen(entries, x, id) <==> LeavesOpen(entries, y, id)
  {
    hide Select, Rejected, Doubtful, Breaks, LeavesOpen;
    SameClass(entries, x, y, conflicts, id);
    RejectedMeans(entries, x, conflicts, id);
    RejectedMeans(entries, y, conflicts, id);
    DoubtfulMeans(entries, x, id);
    DoubtfulMeans(entries, y, id);
  }

  /** Trying the sampled devices is trying them all. */
  lemma SampleDecides(d: Dump, minSdk: nat, r: Resource)
    ensures (exists x: Context :: x.version >= minSdk && BrokenOn(d, x, r))
       <==> (exists x :: x in Sample(d.entries, minSdk) && BrokenOn(d, x, r))
    ensures (exists x: Context :: x.version >= minSdk && UnclearOn(d, x, r))
       <==> exists x :: x in Sample(d.entries, minSdk) && UnclearOn(d, x, r)
  {
    hide Sample, Select, Breaks, LeavesOpen;
    forall x | x in Sample(d.entries, minSdk) ensures x.version >= minSdk { SampleIsReal(d.entries, minSdk, x); }
    if x: Context :| x.version >= minSdk && BrokenOn(d, x, r) {
      var y := SampleSpeaks(d.entries, minSdk, x);
      var id :| id in IdsOf(d, r) && Breaks(d.entries, x, d.conflicts, id);
      SameOutcome(d.entries, x, y, d.conflicts, id);
      assert BrokenOn(d, y, r);
    }
    if x: Context :| x.version >= minSdk && UnclearOn(d, x, r) {
      var y := SampleSpeaks(d.entries, minSdk, x);
      var id :| id in IdsOf(d, r) && LeavesOpen(d.entries, x, id);
      SameOutcome(d.entries, x, y, d.conflicts, id);
      assert UnclearOn(d, y, r);
    }
  }

  function Expected(contract: map<Resource, string>): set<Resource> {
    set k | k in contract :: Resource(k.kind, contract[k])
  }

  method Listing(s: set<nat>) returns (r: seq<nat>)
    ensures forall id :: id in r <==> id in s
  {
    r := [];
    var left := s;
    while left != {}
      invariant left <= s && forall id :: id in r <==> id in s && id !in left
      decreases left
    {
      var id :| id in left;
      r, left := r + [id], left - {id};
    }
  }

  /** One sampled device: which resources are broken on it and which unclear. */
  method TryDevice(d: Dump, x: Context) returns (broken: set<Resource>, unclear: set<Resource>)
    ensures forall r :: r in broken <==> BrokenOn(d, x, r)
    ensures forall r :: r in unclear <==> UnclearOn(d, x, r)
  {
    hide Rejected, Doubtful, NodeOf, Breaks, LeavesOpen;
    var pending := Listing(set r, id | r in d.roots && id in d.roots[r] :: id);
    var reached := Explore(d.entries, x, d.conflicts, pending);
    assert Linked(d.entries, x, reached.dependencies, reached.parents);
    var m := Peel(d.entries, x, d.conflicts, reached);
    broken := set r | r in d.roots && d.roots[r] * m.invalid != {};
    unclear := set r | r in d.roots && d.roots[r] * m.unknown != {};
    forall r ensures (r in broken <==> BrokenOn(d, x, r)) && (r in unclear <==> UnclearOn(d, x, r)) {
      forall id | id in IdsOf(d, r)
        ensures id in m.invalid <==> Breaks(d.entries, x, d.conflicts, id)
        ensures id in m.unknown <==> LeavesOpen(d.entries, x, id)
      {
        assert id in pending && ExactMarks(d.entries, x, d.conflicts, m, id);
        RejectedMeans(d.entries, x, d.conflicts, id);
        DoubtfulMeans(d.entries, x, id);
      }
      if r in d.roots {
        if id :| id in d.roots[r] * m.invalid { assert id in IdsOf(d, r) && Breaks(d.entries, x, d.conflicts, id); }
        if id :| id in IdsOf(d, r) && Breaks(d.entries, x, d.conflicts, id) { assert id in d.roots[r] * m.invalid; }
        if id :| id in d.roots[r] * m.unknown { assert id in IdsOf(d, r) && LeavesOpen(d.entries, x, id); }
        if id :| id in IdsOf(d, r) && LeavesOpen(d.entries, x, id) { assert id in d.roots[r] * m.unknown; }
      }
    }
  }

  /** Accepts exactly the dumps in which every expected resource works on every supported device. */
  method VerifyCrispResources(lines: seq<Line>, package: string, contract: map<Resource, string>, minSdk: nat)
    returns (v: Verdict)
    ensures var d := DumpOf(lines, package, Expected(contract), |lines|);
      && Reads(lines, package, Expected(contract), |lines|, d)
      && (v.Verified? <==>
            forall k | k in contract :: WorksEverywhere(lines, package, d, minSdk, Resource(k.kind, contract[k])))
      && (v.Unusable? <==>
            exists k :: k in contract && Missing(lines, package, d, minSdk, Resource(k.kind, contract[k])))
      && (v.Unusable? ==> forall r :: r in v.resources <==>
            (exists k :: k in contract && r == Resource(k.kind, contract[k])) && Missing(lines, package, d, minSdk, r))
      && (v.NeedsReview? ==> forall r :: r in v.resources <==>
            (exists k :: k in contract && r == Resource(k.kind, contract[k])) && Unclear(lines, package, d, minSdk, r))
      && (v.Verified? ==> v.count == |contract|)
  {
    hide DumpOf, Sample, BrokenOn, UnclearOn, Expected, Reads, ReadsNames, WorksEverywhere, Missing, Unclear, ListsAs;
    ExpectedMeans(contract);
    var expected := Expected(contract);
    var d := ReadDump(lines, package, expected);
    RootsAreExpected(lines, package, expected);
    DumpReads(lines, package, expected, |lines|);
    var missing := set r | r in expected && |IdsOf(d, r)| != 1;
    var uncertain: set<Resource> := {};
    var sample := Sample(d.entries, minSdk);
    var left := sample;
    while left != {}
      invariant left <= sample
      invariant forall r ::
        r in missing <==> (r in expected
            && (|IdsOf(d, r)| != 1 || exists x :: x in sample && x !in left && BrokenOn(d, x, r)))
      invariant forall r ::
        r in uncertain <==> (r in expected && exists x :: x in sample && x !in left && UnclearOn(d, x, r))
      decreases left
    {
      var x :| x in left;
      left := left - {x};
      var broken, unclear := TryDevice(d, x);
      forall r ensures (r in broken ==> r in expected) && (r in unclear ==> r in expected) { OnlyRootsBreak(d, x, r); }
      missing, uncertain := missing + broken, uncertain + unclear;
    }
    forall r | r in expected
      ensures r in missing <==> Missing(lines, package, d, minSdk, r)
      ensures r in uncertain <==> Unclear(lines, package, d, minSdk, r)
      ensures WorksEverywhere(lines, package, d, minSdk, r) <==> r !in missing && r !in uncertain
    {
      NamesRead(lines, package, expected, d);
      SampleDecides(d, minSdk, r);
      RootsMean(lines, package, expected, d, minSdk, r);
      WorksEverywhereMeans(lines, package, d, minSdk, r);
    }
    if missing != {} {
      var r :| r in missing;
      return Unusable(missing);
    }
    if uncertain != {} {
      var r :| r in uncertain;
      return NeedsReview(uncertain);
    }
    return Verified(|contract|);
  }

  lemma ExpectedMeans(contract: map<Resource, string>)
    ensures forall r :: r in Expected(contract) <==> exists k :: k in contract && r == Resource(k.kind, contract[k])
    ensures forall k | k in contract :: Resource(k.kind, contract[k]) in Expected(contract)
  {
  }

  lemma NamesRead(lines: seq<Line>, package: string, expected: set<Resource>, d: Dump)
    requires Reads(lines, package, expected, |lines|, d)
    ensures ReadsNames(lines, package, expected, |lines|, d)
  {
  }

  lemma RootsAreExpected(lines: seq<Line>, package: string, expected: set<Resource>)
    ensures forall r | r in DumpOf(lines, package, expected, |lines|).roots :: r in expected
  {
    hide DumpOf, ReadsValues, Conflicting, ListsAs, Known;
    DumpReads(lines, package, expected, |lines|);
  }

  lemma OnlyRootsBreak(d: Dump, x: Context, r: Resource)
    ensures BrokenOn(d, x, r) || UnclearOn(d, x, r) ==> r in d.roots
  {
    hide Breaks, LeavesOpen;
  }
}
