/** How tool/check_android_release_contract.py picks one value of a resource for one device. */
module ResourceSelection {
  import opened Bytes

  datatype Direction = Ltr | Rtl

  datatype Orientation = Port | Land

  /** One dash-separated piece of a configuration label. */
  datatype Token =
    | Layout(direction: Direction)
    | Screen(orientation: Orientation)
    | Night(night: bool)
    | Api(level: nat, spelling: string)
    | Density(name: string)
    | Other(text: string)

  datatype Label = DefaultLabel | Qualified(tokens: seq<Token>)

  /** A label whose effect on selection is modelled. */
  datatype Config = Config(version: nat, direction: Option<Direction>, orientation: Option<Orientation>,
      night: Option<bool>)

  datatype Context = Context(direction: Direction, orientation: Orientation, night: bool, version: nat)

  /** A dumped value; the text is kept because conflicting lines are told apart by it. */
  datatype Value = Bag(text: string) | Scalar(text: string, kind: nat, data: nat) | Unreadable(text: string)

  datatype Flow = Invalid | Leaf | Reference(target: nat)

  datatype Selection = Uncertain | Nothing | Chosen(value: Value)

  type Values = seq<(Label, Value)>

  const ANY_DEVICE := Config(0, None, None, None)

  // ----- Labels -----

  function WithToken(c: Config, t: Token): Option<Config> {
    match t
    case Layout(d) => if c.direction.Some? then None else Some(c.(direction := Some(d)))
    case Screen(o) => if c.orientation.Some? then None else Some(c.(orientation := Some(o)))
    case Night(n) => if c.night.Some? then None else Some(c.(night := Some(n)))
    case Api(level, _) => Some(c.(version := level))
    case Density(_) => None
    case Other(_) => None
  }

  function ParseTokens(tokens: seq<Token>, c: Config): Option<Config> {
    if tokens == [] then Some(c)
    else
      var next := WithToken(c, tokens[0]);
      if next.None? then None else ParseTokens(tokens[1..], next.value)
  }

  function Parse(key: Label): Option<Config> {
    if key.DefaultLabel? then Some(ANY_DEVICE) else ParseTokens(key.tokens, ANY_DEVICE)
  }

  method ParseResourceConfiguration(key: Label) returns (r: Option<Config>)
    ensures r == Parse(key)
  {
    var c := ANY_DEVICE;
    if key.DefaultLabel? { return Some(c); }
    var i: nat := 0;
    while i < |key.tokens|
      invariant i <= |key.tokens|
      invariant Parse(key) == ParseTokens(key.tokens[i..], c)
    {
      var next := WithToken(c, key.tokens[i]);
      if next.None? { return None; }
      c, i := next.value, i + 1;
    }
    return Some(c);
  }

  /** The API level a density label requires, for labels that are a density with at most an API level after it. */
  function DensityLevel(key: Label): Option<nat> {
    if key.DefaultLabel? then None
    else if |key.tokens| == 1 && key.tokens[0].Density? then Some(0)
    else if |key.tokens| == 2 && key.tokens[0].Density? && key.tokens[1].Api? then Some(key.tokens[1].level)
    else None
  }

  /** The API level a label ends in, whether or not the rest of it is modelled. */
  function TrailingLevel(key: Label): Option<nat> {
    if key.Qualified? && key.tokens != [] && key.tokens[|key.tokens| - 1].Api?
    then Some(key.tokens[|key.tokens| - 1].level)
    else None
  }

  // ----- Values -----

  predicate Usable(v: Value) {
    v.Bag? || (v.Scalar? && v.kind != 0 && !(v.kind in {1, 2, 7, 8} && v.data == 0))
  }

  function FlowOf(v: Value): Flow {
    if !Usable(v) then Invalid
    else if v.Scalar? && v.kind in {1, 7} then Reference(v.data)
    else Leaf
  }

  predicate SameFlow(values: Values) {
    forall i, j | 0 <= i < |values| && 0 <= j < |values| :: FlowOf(values[i].1) == FlowOf(values[j].1)
  }

  function Lookup(values: Values, key: Label): Option<Value> {
    if values == [] then None
    else if values[0].0 == key then Some(values[0].1)
    else Lookup(values[1..], key)
  }

  predicate AllDensities(values: Values) {
    forall i | 0 <= i < |values| :: DensityLevel(values[i].0).Some?
  }

  /** The first value whose density label the API level admits. */
  function FirstAvailable(values: Values, version: nat): Selection
    requires AllDensities(values)
  {
    if values == [] then Nothing
    else if DensityLevel(values[0].0).value <= version then Chosen(values[0].1)
    else
      assert forall i | 0 <= i < |values[1..]| :: values[1..][i] == values[i + 1];
      FirstAvailable(values[1..], version)
  }

  // ----- Qualified selection -----

  predicate Admits(c: Config, x: Context) {
    && c.version <= x.version
    && (c.direction.Some? ==> c.direction.value == x.direction)
    && (c.orientation.Some? ==> c.orientation.value == x.orientation)
    && (c.night.Some? ==> c.night.value == x.night)
  }

  /** Layout direction outranks orientation, orientation outranks night, and the API level comes last. */
  predicate Outranks(a: Config, b: Config) {
    || (a.direction.Some? && b.direction.None?)
    || (a.direction.Some? == b.direction.Some?
        && (|| (a.orientation.Some? && b.orientation.None?)
            || (a.orientation.Some? == b.orientation.Some?
                && (|| (a.night.Some? && b.night.None?)
                    || (a.night.Some? == b.night.Some? && a.version > b.version)))))
  }

  predicate SameRank(a: Config, b: Config) { !Outranks(a, b) && !Outranks(b, a) }

  type Candidates = seq<(Config, Value)>

  function CandidatesFor(values: Values, x: Context): Option<Candidates> {
    if values == [] then Some([])
    else
      var config := Parse(values[0].0);
      if config.None? then None
      else
        var rest := CandidatesFor(values[1..], x);
        if rest.None? then None
        else Some((if Admits(config.value, x) then [(config.value, values[0].1)] else []) + rest.value)
  }

  function Best(candidates: Candidates): Config
    requires candidates != []
  {
    if |candidates| == 1 then candidates[0].0
    else
      var rest := Best(candidates[1..]);
      if Outranks(rest, candidates[0].0) then rest else candidates[0].0
  }

  function Winners(candidates: Candidates, best: Config): seq<Value> {
    if candidates == [] then []
    else (if SameRank(candidates[0].0, best) then [candidates[0].1] else []) + Winners(candidates[1..], best)
  }

  predicate OneFlow(values: seq<Value>) {
    values != [] && forall i | 0 <= i < |values| :: FlowOf(values[i]) == FlowOf(values[0])
  }

  function SelectQualified(values: Values, x: Context): Selection {
    var candidates := CandidatesFor(values, x);
    if candidates.None? then Uncertain
    else if candidates.value == [] then Nothing
    else
      var winners := Winners(candidates.value, Best(candidates.value));
      if !OneFlow(winners) then Uncertain else Chosen(winners[0])
  }

  function Select(values: Values, x: Context): Selection {
    if values != [] && SameFlow(values) && FlowOf(values[0].1) != Invalid && Lookup(values, DefaultLabel).Some?
    then Chosen(Lookup(values, DefaultLabel).value)
    else if values != [] && SameFlow(values) && FlowOf(values[0].1) != Invalid && AllDensities(values)
    then FirstAvailable(values, x.version)
    else SelectQualified(values, x)
  }

  lemma {:induction false} BestIsUnbeaten(candidates: Candidates)
    requires candidates != []
    ensures exists i :: 0 <= i < |candidates| && candidates[i].0 == Best(candidates)
    ensures forall i :: 0 <= i < |candidates| ==> !Outranks(candidates[i].0, Best(candidates))
  {
    if |candidates| > 1 {
      BestIsUnbeaten(candidates[1..]);
      var i :| 0 <= i < |candidates[1..]| && candidates[1..][i].0 == Best(candidates[1..]);
      assert candidates[i + 1].0 == Best(candidates[1..]);
      assert candidates[0].0 == candidates[0].0;
      forall k | 0 <= k < |candidates| ensures !Outranks(candidates[k].0, Best(candidates)) {
        if k > 0 { assert candidates[1..][k - 1] == candidates[k]; }
      }
    } else {
      assert candidates[0].0 == Best(candidates);
    }
  }

  /** The j-th label applies to the device, giving this candidate. */
  ghost predicate Offers(values: Values, x: Context, j: nat, c: (Config, Value)) {
    j < |values| && Parse(values[j].0) == Some(c.0) && Admits(c.0, x) && values[j].1 == c.1
  }

  lemma OffersShift(values: Values, x: Context, j: nat, c: (Config, Value))
    requires values != []
    ensures Offers(values, x, j + 1, c) <==> Offers(values[1..], x, j, c)
  {
  }

  /** The candidates are the admitted labels with their values. */
  lemma {:induction false} CandidatesAre(values: Values, x: Context)
    ensures CandidatesFor(values, x).Some? <==> forall j :: 0 <= j < |values| ==> Parse(values[j].0).Some?
    ensures CandidatesFor(values, x).Some? ==> forall c ::
              c in CandidatesFor(values, x).value <==> exists j: nat :: Offers(values, x, j, c)
  {
    hide Parse, Admits;
    if values != [] {
      var rest := values[1..];
      CandidatesAre(rest, x);
      assert forall j :: 0 <= j < |rest| ==> rest[j] == values[j + 1];
      if CandidatesFor(values, x).Some? {
        forall c ensures c in CandidatesFor(values, x).value <==> exists j: nat :: Offers(values, x, j, c) {
          if c in CandidatesFor(rest, x).value {
            var j: nat :| Offers(rest, x, j, c);
            OffersShift(values, x, j, c);
          } else if c in CandidatesFor(values, x).value {
            assert Offers(values, x, 0, c);
          }
          if j: nat :| Offers(values, x, j, c) && j > 0 {
            OffersShift(values, x, j - 1, c);
          }
        }
      }
    }
  }

  lemma {:induction false} WinnersAre(candidates: Candidates, best: Config)
    ensures forall v | v in Winners(candidates, best) ::
              exists k :: 0 <= k < |candidates| && SameRank(candidates[k].0, best) && candidates[k].1 == v
    ensures forall k ::
      0 <= k < |candidates| && SameRank(candidates[k].0, best) ==> candidates[k].1 in Winners(candidates, best)
  {
    hide SameRank;
    if candidates != [] {
      WinnersAre(candidates[1..], best);
      assert forall k :: 0 <= k < |candidates[1..]| ==> candidates[1..][k] == candidates[k + 1];
      forall v | v in Winners(candidates, best)
        ensures exists k :: 0 <= k < |candidates| && SameRank(candidates[k].0, best) && candidates[k].1 == v
      {
        if v in Winners(candidates[1..], best) {
          var k :| 0 <= k < |candidates[1..]| && SameRank(candidates[1..][k].0, best) && candidates[1..][k].1 == v;
          assert candidates[k + 1].1 == v;
        } else {
          assert candidates[0].1 == v;
        }
      }
    }
  }

  /** What applies to the device and is outranked by nothing that applies. */
  ghost predicate Wins(values: Values, x: Context, j: nat, c: (Config, Value)) {
    Offers(values, x, j, c) && forall i: nat, d :: Offers(values, x, i, d) ==> !Outranks(d.0, c.0)
  }

  /** Qualified selection is Android's: the best-ranked labels decide, and they must agree on where the value leads. */
  lemma SelectsTheBest(values: Values, x: Context)
    ensures var s := SelectQualified(values, x);
      && (s.Chosen? ==> exists j: nat, c :: Wins(values, x, j, c) && c.1 == s.value)
      && (s.Chosen? ==> forall j: nat, c :: Wins(values, x, j, c) ==> FlowOf(c.1) == FlowOf(s.value))
      && (s.Nothing? <==> (forall j :: 0 <= j < |values| ==> Parse(values[j].0).Some?)
                          && !exists j: nat, c :: Offers(values, x, j, c))
      && (s.Uncertain? <==>
            || (exists j :: 0 <= j < |values| && Parse(values[j].0).None?)
            || exists i: nat, c, j: nat, d ::
                Wins(values, x, i, c) && Wins(values, x, j, d) && FlowOf(c.1) != FlowOf(d.1))
  {
    hide Parse, Admits, Outranks, FlowOf;
    CandidatesAre(values, x);
    var candidates := CandidatesFor(values, x);
    if candidates.Some? && candidates.value != [] {
      var best := Best(candidates.value);
      BestIsUnbeaten(candidates.value);
      WinnersAre(candidates.value, best);
      var winners := Winners(candidates.value, best);
      var b :| 0 <= b < |candidates.value| && candidates.value[b].0 == best;
      forall v | v in winners ensures exists j: nat, c :: Wins(values, x, j, c) && c.1 == v {
        var k :| 0 <= k < |candidates.value| && SameRank(candidates.value[k].0, best) && candidates.value[k].1 == v;
        WinnerWins(values, x, candidates.value, best, k);
      }
      forall j: nat, c | Wins(values, x, j, c) ensures c.1 in winners {
        assert c in candidates.value;
        var k :| 0 <= k < |candidates.value| && candidates.value[k] == c;
        assert !Outranks(c.0, best);
        assert candidates.value[b] in candidates.value;
        assert !Outranks(best, c.0);
      }
      assert candidates.value[b].1 in winners;
      FlowsDiffer(values, x, winners);
      assert winners[0] in winners && forall v | v in winners :: OneFlow(winners) ==> FlowOf(v) == FlowOf(winners[0]);
      assert candidates.value[b] in candidates.value;
      var i: nat :| Offers(values, x, i, candidates.value[b]);
    } else if candidates.Some? {
      forall j: nat, c ensures !Offers(values, x, j, c) && !Wins(values, x, j, c) {
        assert c !in candidates.value;
      }
    }
  }

  lemma WinnerWins(values: Values, x: Context, candidates: Candidates, best: Config, k: nat)
    requires CandidatesFor(values, x) == Some(candidates) && k < |candidates| && SameRank(candidates[k].0, best)
    requires forall i :: 0 <= i < |candidates| ==> !Outranks(candidates[i].0, best)
    ensures exists j: nat, c :: Wins(values, x, j, c) && c.1 == candidates[k].1
  {
    hide Parse, Admits;
    CandidatesAre(values, x);
    var c := candidates[k];
    assert c in candidates;
    var j: nat :| Offers(values, x, j, c);
    forall i: nat, d | Offers(values, x, i, d) ensures !Outranks(d.0, c.0) {
      assert d in candidates;
    }
    assert Wins(values, x, j, c);
  }

  lemma FlowsDiffer(values: Values, x: Context, winners: seq<Value>)
    requires winners != []
    requires forall v | v in winners :: exists j: nat, c :: Wins(values, x, j, c) && c.1 == v
    requires forall j: nat, c | Wins(values, x, j, c) :: c.1 in winners
    ensures !OneFlow(winners) <==>
      exists i: nat, c, j: nat, d :: Wins(values, x, i, c) && Wins(values, x, j, d) && FlowOf(c.1) != FlowOf(d.1)
  {
    hide Wins, FlowOf;
    if !OneFlow(winners) {
      var k :| 0 <= k < |winners| && FlowOf(winners[k]) != FlowOf(winners[0]);
      assert winners[k] in winners && winners[0] in winners;
      var i: nat, c :| Wins(values, x, i, c) && c.1 == winners[k];
      var j: nat, d :| Wins(values, x, j, d) && d.1 == winners[0];
      assert Wins(values, x, i, c) && Wins(values, x, j, d) && FlowOf(c.1) != FlowOf(d.1);
    }
  }

  // ----- A finite sample of devices -----

  type Entries = map<nat, Values>

  /** The label is one of those in the dump. */
  predicate Listed(entries: Entries, id: nat, i: nat) {
    id in entries && i < |entries[id]|
  }

  /** min_sdk and every higher API level that a label names. */
  function Levels(entries: Entries, minSdk: nat): set<nat> {
    {minSdk}
    + (set id, i | id in entries && 0 <= i < |entries[id]| && TrailingLevel(entries[id][i].0).Some?
                   && TrailingLevel(entries[id][i].0).value >= minSdk :: TrailingLevel(entries[id][i].0).value)
    + (set id, i | id in entries && 0 <= i < |entries[id]| && Parse(entries[id][i].0).Some?
                   && Parse(entries[id][i].0).value.version >= minSdk :: Parse(entries[id][i].0).value.version)
  }

  predicate SplitsDirection(entries: Entries) {
    exists id, i | id in entries && 0 <= i < |entries[id]| ::
      Parse(entries[id][i].0).Some? && Parse(entries[id][i].0).value.direction.Some?
  }

  predicate SplitsOrientation(entries: Entries) {
    exists id, i | id in entries && 0 <= i < |entries[id]| ::
      Parse(entries[id][i].0).Some? && Parse(entries[id][i].0).value.orientation.Some?
  }

  predicate SplitsNight(entries: Entries) {
    exists id, i | id in entries && 0 <= i < |entries[id]| ::
      Parse(entries[id][i].0).Some? && Parse(entries[id][i].0).value.night.Some?
  }

  /** The devices that are actually tried. */
  function Sample(entries: Entries, minSdk: nat): set<Context> {
    set d, o, n, v | d in (if SplitsDirection(entries) then {Ltr, Rtl} else {Ltr})
                  && o in (if SplitsOrientation(entries) then {Port, Land} else {Port})
                  && n in (if SplitsNight(entries) then {false, true} else {false})
                  && v in Levels(entries, minSdk)
      :: Context(d, o, n, v)
  }

  lemma {:induction false} GreatestBelow(s: set<nat>, bound: nat, floor: nat) returns (m: nat)
    requires floor in s && floor <= bound
    ensures m in s && m <= bound && forall v | v in s && v <= bound :: v <= m
    decreases |s|
  {
    if v :| v in s && floor < v <= bound {
      m := GreatestBelow(s - {floor}, bound, v);
      assert v in s - {floor} && floor < v <= m;
      forall w | w in s && w <= bound ensures w <= m {
        assert w == floor || w in s - {floor};
      }
    } else {
      m := floor;
    }
  }

  /** No label in the dump can tell the two devices apart. */
  ghost predicate Indistinct(values: Values, x: Context, y: Context) {
    forall i :: 0 <= i < |values| ==>
      && (Parse(values[i].0).Some? ==> (Admits(Parse(values[i].0).value, x) <==> Admits(Parse(values[i].0).value, y)))
      && (DensityLevel(values[i].0).Some?
          ==> (DensityLevel(values[i].0).value <= x.version <==> DensityLevel(values[i].0).value <= y.version))
  }

  lemma {:induction false} SameCandidates(values: Values, x: Context, y: Context)
    requires Indistinct(values, x, y)
    ensures CandidatesFor(values, x) == CandidatesFor(values, y)
  {
    hide Parse, Admits, DensityLevel;
    if values != [] {
      assert forall i :: 0 <= i < |values[1..]| ==> values[1..][i] == values[i + 1];
      SameCandidates(values[1..], x, y);
    }
  }

  lemma {:induction false} SameAvailable(values: Values, x: Context, y: Context)
    requires Indistinct(values, x, y) && AllDensities(values)
    ensures FirstAvailable(values, x.version) == FirstAvailable(values, y.version)
  {
    hide Parse, Admits, DensityLevel;
    if values != [] {
      assert forall i :: 0 <= i < |values[1..]| ==> values[1..][i] == values[i + 1];
      SameAvailable(values[1..], x, y);
    }
  }

  lemma SameSelection(values: Values, x: Context, y: Context)
    requires Indistinct(values, x, y)
    ensures Select(values, x) == Select(values, y)
  {
    hide Parse, Admits, DensityLevel, FlowOf, Best, Winners;
    SameCandidates(values, x, y);
    if AllDensities(values) { SameAvailable(values, x, y); }
  }

  /** Levels between two sampled ones admit the same labels. */
  lemma LevelAgrees(levels: set<nat>, minSdk: nat, version: nat, m: nat, required: nat)
    requires minSdk <= version && m in levels && m <= version && minSdk in levels
    requires forall v | v in levels && v <= version :: v <= m
    requires required >= minSdk ==> required in levels
    ensures required <= version <==> required <= m
  {
  }

  lemma LabelAgrees(entries: Entries, minSdk: nat, x: Context, y: Context, id: nat, i: nat)
    requires Listed(entries, id, i) && x.version >= minSdk
    requires SplitsDirection(entries) ==> y.direction == x.direction
    requires SplitsOrientation(entries) ==> y.orientation == x.orientation
    requires SplitsNight(entries) ==> y.night == x.night
    requires y.version in Levels(entries, minSdk) && y.version <= x.version
    requires forall v | v in Levels(entries, minSdk) && v <= x.version :: v <= y.version
    ensures var l := entries[id][i].0;
      && (Parse(l).Some? ==> (Admits(Parse(l).value, x) <==> Admits(Parse(l).value, y)))
      && (DensityLevel(l).Some? ==> (DensityLevel(l).value <= x.version <==> DensityLevel(l).value <= y.version))
  {
    hide Parse;
    var l, levels := entries[id][i].0, Levels(entries, minSdk);
    if Parse(l).Some? {
      var c := Parse(l).value;
      assert c.version >= minSdk ==> c.version in levels;
      LevelAgrees(levels, minSdk, x.version, y.version, c.version);
    }
    if DensityLevel(l).Some? {
      var required := DensityLevel(l).value;
      assert required > 0 ==> TrailingLevel(l) == Some(required);
      assert required >= minSdk && required > 0 ==> required in levels;
      if required > 0 { LevelAgrees(levels, minSdk, x.version, y.version, required); }
    }
  }

  /** The sample speaks for every device: some sampled device selects the same value of every resource. */
  lemma SampleSpeaks(entries: Entries, minSdk: nat, x: Context) returns (y: Context)
    requires x.version >= minSdk
    ensures y in Sample(entries, minSdk)
    ensures forall id | id in entries :: Select(entries[id], x) == Select(entries[id], y)
  {
    hide Select, Parse, Levels, SplitsDirection, SplitsOrientation, SplitsNight, Admits, DensityLevel;
    MinimumIsSampled(entries, minSdk);
    var m := GreatestBelow(Levels(entries, minSdk), x.version, minSdk);
    y := Context(if SplitsDirection(entries) then x.direction else Ltr,
                 if SplitsOrientation(entries) then x.orientation else Port,
                 if SplitsNight(entries) then x.night else false, m);
    InSample(entries, minSdk, y);
    forall id | id in entries ensures Select(entries[id], x) == Select(entries[id], y) {
      forall i: nat | i < |entries[id]|
        ensures var l := entries[id][i].0;
          && (Parse(l).Some? ==> (Admits(Parse(l).value, x) <==> Admits(Parse(l).value, y)))
          && (DensityLevel(l).Some? ==> (DensityLevel(l).value <= x.version <==> DensityLevel(l).value <= y.version))
      {
        LabelAgrees(entries, minSdk, x, y, id, i);
      }
      SameSelection(entries[id], x, y);
    }
  }

  lemma MinimumIsSampled(entries: Entries, minSdk: nat)
    ensures minSdk in Levels(entries, minSdk)
  {
  }

  lemma InSample(entries: Entries, minSdk: nat, y: Context)
    requires y.direction == Ltr || SplitsDirection(entries)
    requires y.orientation == Port || SplitsOrientation(entries)
    requires !y.night || SplitsNight(entries)
    requires y.version in Levels(entries, minSdk)
    ensures y in Sample(entries, minSdk)
  {
    hide SplitsDirection, SplitsOrientation, SplitsNight, Levels;
    assert y == Context(y.direction, y.orientation, y.night, y.version);
  }

  lemma SampleIsReal(entries: Entries, minSdk: nat, y: Context)
    requires y in Sample(entries, minSdk)
    ensures y.version >= minSdk
  {
  }

  // ----- The loop of the selection -----

  method SelectResourceValue(values: Values, x: Context) returns (s: Selection)
    ensures s == Select(values, x)
  {
    hide Admits, FlowOf, DensityLevel, Best, Winners;
    if values != [] && SameFlow(values) && FlowOf(values[0].1) != Invalid {
      if Lookup(values, DefaultLabel).Some? { return Chosen(Lookup(values, DefaultLabel).value); }
      if AllDensities(values) { return FirstAvailable(values, x.version); }
    }
    var candidates: Candidates, i: nat := [], 0;
    assert values[0..] == values;
    OntoNothing(CandidatesFor(values, x));
    while i < |values|
      invariant i <= |values|
      invariant CandidatesFor(values, x) == Onto(candidates, CandidatesFor(values[i..], x))
    {
      assert values[i..][1..] == values[i + 1..];
      var config := ParseResourceConfiguration(values[i].0);
      if config.None? { return Uncertain; }
      OntoNothing(CandidatesFor(values[i + 1..], x));
      if Admits(config.value, x) {
        OntoStep(candidates, (config.value, values[i].1), CandidatesFor(values[i + 1..], x));
        candidates := candidates + [(config.value, values[i].1)];
      }
      i := i + 1;
    }
    assert candidates + [] == candidates;
    if candidates == [] { return Nothing; }
    var winners := Winners(candidates, Best(candidates));
    return if OneFlow(winners) then Chosen(winners[0]) else Uncertain;
  }

  ghost function Onto(done: Candidates, rest: Option<Candidates>): Option<Candidates> {
    if rest.None? then None else Some(done + rest.value)
  }

  lemma OntoNothing(rest: Option<Candidates>)
    ensures Onto([], rest) == rest
  {
    if rest.Some? { assert [] + rest.value == rest.value; }
  }

  lemma OntoStep(done: Candidates, c: (Config, Value), rest: Option<Candidates>)
    ensures rest.Some? ==> Onto(done, Some([c] + rest.value)) == Onto(done + [c], rest)
  {
    if rest.Some? { assert done + ([c] + rest.value) == done + [c] + rest.value; }
  }
}
