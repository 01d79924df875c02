/** What a configuration label means, and that the shortcuts of the selection never contradict it
    (tool/check_android_release_contract.py). */
module ResourceMeaning {
  import opened Bytes
  import opened ResourceSelection

  predicate Modelled(t: Token) { !t.Density? && !t.Other? }

  /** Two tokens set the same device axis; the API level is no axis. */
  predicate SameAxis(a: Token, b: Token) {
    (a.Layout? && b.Layout?) || (a.Screen? && b.Screen?) || (a.Night? && b.Night?)
  }

  /** The token sets an axis the configuration has set already. */
  predicate Taken(c: Config, t: Token) {
    (t.Layout? && c.direction.Some?) || (t.Screen? && c.orientation.Some?) || (t.Night? && c.night.Some?)
  }

  ghost predicate Parseable(tokens: seq<Token>, c: Config) {
    && (forall i | 0 <= i < |tokens| :: Modelled(tokens[i]) && !Taken(c, tokens[i]))
    && (forall i, j :: 0 <= i < j < |tokens| ==> !SameAxis(tokens[i], tokens[j]))
  }

  /** The API level: the last one named, or the one before any token. */
  function LastLevel(tokens: seq<Token>, before: nat): nat {
    if tokens == [] then before else LastLevel(tokens[1..], if tokens[0].Api? then tokens[0].level else before)
  }

  /** The configuration that a token list on top of another one stands for. */
  ghost predicate Stands(tokens: seq<Token>, c: Config, r: Config) {
    && r.version == LastLevel(tokens, c.version)
    && (forall d :: r.direction == Some(d) <==> c.direction == Some(d) || Layout(d) in tokens)
    && (forall o :: r.orientation == Some(o) <==> c.orientation == Some(o) || Screen(o) in tokens)
    && (forall n :: r.night == Some(n) <==> c.night == Some(n) || Night(n) in tokens)
  }

  lemma {:induction false} TokensMean(tokens: seq<Token>, c: Config)
    ensures ParseTokens(tokens, c).Some? <==> Parseable(tokens, c)
    ensures ParseTokens(tokens, c).Some? ==> Stands(tokens, c, ParseTokens(tokens, c).value)
  {
    if tokens != [] {
      var next, rest := WithToken(c, tokens[0]), tokens[1..];
      ParseableStep(tokens, c);
      if next.Some? {
        TokensMean(rest, next.value);
        assert tokens == [tokens[0]] + rest;
      }
    }
  }

  lemma ParseableStep(tokens: seq<Token>, c: Config)
    requires tokens != []
    ensures Parseable(tokens, c)
        <==> WithToken(c, tokens[0]).Some? && Parseable(tokens[1..], WithToken(c, tokens[0]).value)
  {
    var rest := tokens[1..];
    var next := WithToken(c, tokens[0]);
    assert next.Some? <==> Modelled(tokens[0]) && !Taken(c, tokens[0]);
    if next.Some? {
      forall i | 0 <= i < |rest|
        ensures Taken(next.value, rest[i]) <==> Taken(c, rest[i]) || SameAxis(tokens[0], rest[i]) {
      }
      if Parseable(tokens, c) {
        forall i | 0 <= i < |rest|
          ensures Modelled(rest[i]) && !Taken(next.value, rest[i])
        {
          assert rest[i] == tokens[i + 1];
        }
        forall i, j | 0 <= i < j < |rest|
          ensures !SameAxis(rest[i], rest[j])
        {
          assert rest[i] == tokens[i + 1] && rest[j] == tokens[j + 1];
        }
      }
      if Parseable(rest, next.value) {
        forall i | 0 <= i < |tokens| ensures Modelled(tokens[i]) && !Taken(c, tokens[i]) {
          if i > 0 { assert tokens[i] == rest[i - 1]; }
        }
        forall i, j | 0 <= i < j < |tokens| ensures !SameAxis(tokens[i], tokens[j]) {
          assert tokens[j] == rest[j - 1];
          if i > 0 { assert tokens[i] == rest[i - 1]; }
        }
      }
    }
  }

  /** A label is modelled exactly when it names only known tokens and no axis twice; it then stands for those tokens. */
  lemma {:induction false} LabelMeans(tokens: seq<Token>)
    ensures Parse(Qualified(tokens)).Some? <==> Parseable(tokens, ANY_DEVICE)
    ensures Parse(Qualified(tokens)).Some? ==> Stands(tokens, ANY_DEVICE, Parse(Qualified(tokens)).value)
  {
    hide Parseable, Stands, ParseTokens;
    TokensMean(tokens, ANY_DEVICE);
  }

  /** A device is admitted when it has the API level and every named axis the way the label names it. */
  lemma AdmitsMeans(tokens: seq<Token>, x: Context)
    requires Parse(Qualified(tokens)).Some?
    ensures Admits(Parse(Qualified(tokens)).value, x)
        <==> LastLevel(tokens, 0) <= x.version
             && (forall d | Layout(d) in tokens :: d == x.direction)
             && (forall o | Screen(o) in tokens :: o == x.orientation)
             && (forall n | Night(n) in tokens :: n == x.night)
  {
    hide Parse, LastLevel;
    LabelMeans(tokens);
    var c := Parse(Qualified(tokens)).value;
    assert c.direction.Some? ==> Layout(c.direction.value) in tokens;
    assert c.orientation.Some? ==> Screen(c.orientation.value) in tokens;
    assert c.night.Some? ==> Night(c.night.value) in tokens;
  }

  /** The axes a label names, weighed so that no lower ones make up for a higher one. */
  function Weight(c: Config): nat {
    (if c.direction.Some? then 4 else 0) + (if c.orientation.Some? then 2 else 0) + (if c.night.Some? then 1 else 0)
  }

  /** Labels rank by the axes they name, and by the API level only among labels that name the same axes. */
  lemma OutranksMeans(a: Config, b: Config)
    ensures Outranks(a, b) <==> Weight(a) > Weight(b) || (Weight(a) == Weight(b) && a.version > b.version)
    ensures SameRank(a, b) <==> Weight(a) == Weight(b) && a.version == b.version
  {
    hide Outranks;
    WeighedAlike(a, b);
    WeighedAlike(b, a);
  }

  lemma WeighedAlike(a: Config, b: Config)
    ensures Outranks(a, b) <==> Weight(a) > Weight(b) || (Weight(a) == Weight(b) && a.version > b.version)
  {
  }

  /** Null, zero references and unreadable text lead nowhere; references lead to the id they name; the rest
      ends here. */
  lemma FlowMeans(v: Value)
    ensures forall t :: FlowOf(v) == Reference(t) <==> v.Scalar? && v.kind in {1, 7} && v.data == t && t != 0
    ensures FlowOf(v) == Invalid
        <==> v.Unreadable? || (v.Scalar? && (v.kind == 0 || (v.kind in {1, 2, 7, 8} && v.data == 0)))
    ensures Usable(v) <==> FlowOf(v) != Invalid
  {
  }

  // ----- The shortcuts -----

  /** The label is a density, with at most an API level after it. */
  predicate IsDensity(key: Label) {
    key.Qualified? && 1 <= |key.tokens| <= 2 && key.tokens[0].Density? && (|key.tokens| == 2 ==> key.tokens[1].Api?)
  }

  function RequiredLevel(key: Label): nat {
    if key.Qualified? && |key.tokens| == 2 && key.tokens[1].Api? then key.tokens[1].level else 0
  }

  lemma DensityMeans(key: Label)
    ensures DensityLevel(key) == if IsDensity(key) then Some(RequiredLevel(key)) else None
  {
  }

  ghost predicate AreDensities(values: Values) {
    forall i :: 0 <= i < |values| ==> IsDensity(values[i].0)
  }

  ghost predicate FirstAdmitted(values: Values, version: nat, i: nat) {
    i < |values| && RequiredLevel(values[i].0) <= version
        && forall j :: 0 <= j < i ==> RequiredLevel(values[j].0) > version
  }

  /** Density labels give the first value the API level admits, or nothing when it admits none. */
  lemma {:induction false} DensitiesMean(values: Values, version: nat)
    ensures AllDensities(values) <==> AreDensities(values)
    ensures AllDensities(values) ==>
      && (FirstAvailable(values, version).Nothing?
          <==> forall i :: 0 <= i < |values| ==> RequiredLevel(values[i].0) > version)
      && (forall i: nat | FirstAdmitted(values, version, i) :: FirstAvailable(values, version) == Chosen(values[i].1))
      && !FirstAvailable(values, version).Uncertain?
  {
    hide DensityLevel, RequiredLevel, IsDensity;
    forall i | 0 <= i < |values|
      ensures DensityLevel(values[i].0) == if IsDensity(values[i].0) then Some(RequiredLevel(values[i].0)) else None {
      DensityMeans(values[i].0);
    }
    if values != [] && AllDensities(values) && RequiredLevel(values[0].0) > version {
      var rest := values[1..];
      assert forall i :: 0 <= i < |rest| ==> rest[i] == values[i + 1];
      DensitiesMean(rest, version);
      forall i: nat | FirstAdmitted(values, version, i) ensures FirstAvailable(values, version) == Chosen(values[i].1) {
        assert i > 0;
        assert FirstAdmitted(rest, version, i - 1);
      }
    }
  }

  /** All values lead to the same place, and the first one is usable. */
  ghost predicate LeadAlike(values: Values) {
    && values != [] && FlowOf(values[0].1) != Invalid
    && forall i :: 0 <= i < |values| ==> FlowOf(values[i].1) == FlowOf(values[0].1)
  }

  ghost predicate FirstUnder(values: Values, key: Label, i: nat) {
    i < |values| && values[i].0 == key && forall j :: 0 <= j < i ==> values[j].0 != key
  }

  lemma {:induction false} LookupMeans(values: Values, key: Label)
    ensures forall i: nat | FirstUnder(values, key, i) :: Lookup(values, key) == Some(values[i].1)
    ensures Lookup(values, key).None? <==> forall i :: 0 <= i < |values| ==> values[i].0 != key
  {
    if values != [] && values[0].0 != key {
      var rest := values[1..];
      assert forall i :: 0 <= i < |rest| ==> rest[i] == values[i + 1];
      assert forall i :: 1 <= i < |values| ==> values[i] == rest[i - 1];
      LookupMeans(rest, key);
      forall i: nat | FirstUnder(values, key, i) ensures Lookup(values, key) == Some(values[i].1) {
        assert FirstUnder(rest, key, i - 1);
      }
    }
  }

  /** When all values lead to the same place the default one is taken, or among densities the first admitted one; every
      other choice goes by the ranking. */
  lemma {:induction false} SelectMeans(values: Values, x: Context)
    ensures LeadAlike(values) ==>
      forall i: nat | FirstUnder(values, DefaultLabel, i) :: Select(values, x) == Chosen(values[i].1)
    ensures LeadAlike(values) && AreDensities(values) ==>
      && (forall i: nat | FirstAdmitted(values, x.version, i) :: Select(values, x) == Chosen(values[i].1))
      && ((forall i :: 0 <= i < |values| ==> RequiredLevel(values[i].0) > x.version) ==> Select(values, x) == Nothing)
    ensures !LeadAlike(values) || (!AreDensities(values)
                                   && forall i :: 0 <= i < |values| ==> values[i].0 != DefaultLabel)
        ==> Select(values, x) == SelectQualified(values, x)
  {
    hide SelectQualified, FlowOf, FirstAvailable, DensityLevel, RequiredLevel, Lookup;
    DensitiesMean(values, x.version);
    LookupMeans(values, DefaultLabel);
    LeadAlikeMeans(values);
  }

  lemma LeadAlikeMeans(values: Values)
    ensures LeadAlike(values) <==> values != [] && SameFlow(values) && FlowOf(values[0].1) != Invalid
  {
    hide FlowOf;
  }

  lemma DensityIsNotModelled(key: Label)
    requires DensityLevel(key).Some?
    ensures Parse(key).None?
  {
  }

  lemma {:induction false} LookupIsAmong(values: Values, key: Label)
    requires Lookup(values, key).Some?
    ensures exists i :: 0 <= i < |values| && values[i].1 == Lookup(values, key).value
  {
    if values[0].0 != key {
      LookupIsAmong(values[1..], key);
      var i :| 0 <= i < |values[1..]| && values[1..][i].1 == Lookup(values[1..], key).value;
      assert values[i + 1].1 == Lookup(values, key).value;
    } else {
      assert values[0].1 == Lookup(values, key).value;
    }
  }

  /** Whenever qualified selection decides, the selection with its shortcuts decides alike: the value leads to the same
      place. */
  lemma {:induction false} ShortcutsAgree(values: Values, x: Context)
    requires SelectQualified(values, x).Chosen?
    ensures Select(values, x).Chosen? && FlowOf(Select(values, x).value) == FlowOf(SelectQualified(values, x).value)
  {
    hide SelectQualified, FlowOf, DensityLevel, Parse, FirstAvailable;
    SelectsTheBest(values, x);
    var v := SelectQualified(values, x).value;
    var j: nat, c :| Wins(values, x, j, c) && c.1 == v;
    assert Offers(values, x, j, c);
    if Lookup(values, DefaultLabel).Some? {
      LookupIsAmong(values, DefaultLabel);
      var i :| 0 <= i < |values| && values[i].1 == Lookup(values, DefaultLabel).value;
      assert SameFlow(values) ==> FlowOf(values[i].1) == FlowOf(values[j].1);
    }
    assert !AllDensities(values) by {
      if AllDensities(values) { DensityIsNotModelled(values[j].0); }
    }
  }

  // ----- Which of several winners -----

  ghost predicate Ties(values: Values, x: Context, best: Config, j: nat, c: (Config, Value)) {
    Offers(values, x, j, c) && SameRank(c.0, best)
  }

  /** The winners are listed in the order of their labels. */
  lemma {:induction false} WinnersInOrder(values: Values, x: Context, best: Config)
    requires CandidatesFor(values, x).Some? && Winners(CandidatesFor(values, x).value, best) != []
    ensures exists j: nat, c ::
              Ties(values, x, best, j, c) && c.1 == Winners(CandidatesFor(values, x).value, best)[0]
              && forall i: nat, d | i < j :: !Ties(values, x, best, i, d)
  {
    hide Parse, Admits, SameRank;
    var rest := values[1..];
    var later := CandidatesFor(rest, x).value;
    var first := if Admits(Parse(values[0].0).value, x) then [(Parse(values[0].0).value, values[0].1)] else [];
    assert CandidatesFor(values, x).value == first + later;
    assert first == [] ==> first + later == later;
    assert first != [] ==> (first + later)[0] == first[0] && (first + later)[1..] == later;
    if first != [] && SameRank(first[0].0, best) {
      assert Ties(values, x, best, 0, first[0]);
    } else {
      WinnersInOrder(rest, x, best);
      var j: nat, c :| Ties(rest, x, best, j, c) && c.1 == Winners(later, best)[0]
                       && forall i: nat, d | i < j :: !Ties(rest, x, best, i, d);
      assert Ties(values, x, best, j + 1, c) by { OffersShift(values, x, j, c); }
      forall i: nat, d | i < j + 1 ensures !Ties(values, x, best, i, d) {
        if i > 0 {
          OffersShift(values, x, i - 1, d);
          assert !Ties(rest, x, best, i - 1, d);
        }
      }
    }
  }

  /** Of the values that win, the one whose label comes first is taken. */
  lemma {:induction false} FirstWinnerIsTaken(values: Values, x: Context)
    requires SelectQualified(values, x).Chosen?
    ensures exists j: nat, c :: Wins(values, x, j, c) && c.1 == SelectQualified(values, x).value
                                && forall i: nat, d | i < j :: !Wins(values, x, i, d)
  {
    hide Parse, Admits, FlowOf, Outranks;
    var candidates := CandidatesFor(values, x).value;
    var best := Best(candidates);
    BestIsUnbeaten(candidates);
    CandidatesAre(values, x);
    WinnersInOrder(values, x, best);
    var j: nat, c :| Ties(values, x, best, j, c) && c.1 == Winners(candidates, best)[0]
                     && forall i: nat, d | i < j :: !Ties(values, x, best, i, d);
    forall i: nat, d ensures Wins(values, x, i, d) <==> Ties(values, x, best, i, d) {
      WinningIsTying(values, x, candidates, i, d);
    }
    assert Wins(values, x, j, c);
  }

  lemma WinningIsTying(values: Values, x: Context, candidates: Candidates, i: nat, d: (Config, Value))
    requires CandidatesFor(values, x) == Some(candidates) && candidates != []
    ensures Wins(values, x, i, d) <==> Ties(values, x, Best(candidates), i, d)
  {
    hide Parse, Admits;
    var best := Best(candidates);
    BestIsUnbeaten(candidates);
    CandidatesAre(values, x);
    var b :| 0 <= b < |candidates| && candidates[b].0 == best;
    assert candidates[b] in candidates;
    var k: nat :| Offers(values, x, k, candidates[b]);
    if Ties(values, x, best, i, d) {
      forall m: nat, e | Offers(values, x, m, e) ensures !Outranks(e.0, d.0) {
        assert e in candidates;
      }
    }
    if Wins(values, x, i, d) { assert d in candidates; }
  }
}
