/** Build numbers, and publishing the next one with a compare-and-swap push (tool/release_build_number.py). */
module BuildCounter {
  import opened Bytes

  const MAX_BUILD_NUMBER: nat := 65535
  const ATTEMPTS: nat := 3

  datatype Flavor = BrandA | BrandB

  // ----- Numbers as text -----

  predicate IsDigit(c: char) { '0' <= c <= '9' }

  function Value(s: string): nat
    requires forall c | c in s :: IsDigit(c)
  {
    if s == [] then 0
    else
      var last := s[|s| - 1];
      assert last in s && IsDigit(last);
      10 * Value(s[..|s| - 1]) + (last as int - '0' as int)
  }

  /** A number without leading zeros, of ten digits at most, from 1 to the maximum. */
  function Integer(text: string, maximum: nat): (number: Option<nat>)
    ensures number.Some? ==> number.value <= maximum
  {
    if 1 <= |text| <= 10 && text[0] != '0' && (forall c | c in text :: IsDigit(c)) && Value(text) <= maximum
    then Some(Value(text)) else None
  }

  function Text(n: nat): string {
    var digit := [(n % 10 + '0' as int) as char];
    if n < 10 then digit else Text(n / 10) + digit
  }

  function TenTo(k: nat): nat { if k == 0 then 1 else 10 * TenTo(k - 1) }

  lemma {:induction false} TextIsDecimal(n: nat, k: nat)
    requires n < TenTo(k) && k > 0
    ensures 1 <= |Text(n)| <= k && (forall c | c in Text(n) :: IsDigit(c)) && Value(Text(n)) == n
    ensures n > 0 ==> Text(n)[0] != '0'
  {
    if n < 10 {
      assert Text(n)[..0] == [];
    } else {
      TextIsDecimal(n / 10, k - 1);
      assert Text(n)[..|Text(n)| - 1] == Text(n / 10);
    }
  }

  lemma {:induction false} DigitsAreText(s: string)
    requires s != [] && s[0] != '0' && forall c | c in s :: IsDigit(c)
    ensures Value(s) >= 1 && Text(Value(s)) == s && Value(s) < TenTo(|s|)
  {
    var last := s[|s| - 1];
    assert last in s && IsDigit(last);
    if |s| > 1 {
      var front := s[..|s| - 1];
      DigitsAreText(front);
      assert s == front + [last];
      assert Value(s) / 10 == Value(front) && Value(s) % 10 == last as int - '0' as int;
    } else {
      assert s == [last] && Value(s[..0]) == 0;
    }
  }

  lemma {:induction false} LongerIsGreater(n: nat, k: nat)
    requires |Text(n)| <= k
    ensures n < TenTo(k)
  {
    if n < 10 {
      TenGrows(1, k);
    } else {
      LongerIsGreater(n / 10, k - 1);
    }
  }

  lemma {:induction false} TenGrows(a: nat, b: nat)
    requires a <= b
    ensures TenTo(a) <= TenTo(b) && (a >= 1 ==> TenTo(a) >= 10)
  {
    if a < b { TenGrows(a, b - 1); } else if a > 1 { TenGrows(a - 1, a - 1); }
  }

  /** The accepted texts are exactly the decimal forms of the numbers from 1 to the maximum, in ten digits at most. */
  lemma {:induction false} IntegerMeans(text: string, maximum: nat, n: nat)
    ensures Integer(text, maximum) == Some(n) <==> text == Text(n) && 1 <= n <= maximum && |text| <= 10
  {
    hide TenTo;
    if Integer(text, maximum) == Some(n) { DigitsAreText(text); }
    if text == Text(n) && 1 <= n <= maximum && |text| <= 10 {
      LongerIsGreater(n, 10);
      TextIsDecimal(n, 10);
    }
  }

  /** The text of a number is that of its tenth, with its last digit behind. */
  lemma TextMeans(n: nat)
    ensures |Text(n)| >= 1 && Text(n)[|Text(n)| - 1] as int == '0' as int + n % 10
    ensures if n < 10 then |Text(n)| == 1 else Text(n)[..|Text(n)| - 1] == Text(n / 10)
  {
  }

  /** What the counter file is given reads back. */
  lemma TextReadsBack(n: nat, maximum: nat)
    requires 1 <= n <= maximum && n < 100000
    ensures Integer(Text(n), maximum) == Some(n)
  {
    assert TenTo(1) == 10 && TenTo(2) == 100 && TenTo(3) == 1000 && TenTo(4) == 10000 && TenTo(5) == 100000;
    TextIsDecimal(n, 5);
    IntegerMeans(Text(n), maximum, n);
  }

  /** The build number of a run; a requested one may not be below the counter. */
  function Resolve(current: string, requested: string): Option<nat> {
    match Integer(current, MAX_BUILD_NUMBER)
    case None => None
    case Some(available) =>
      var number := if requested != "" then Integer(requested, MAX_BUILD_NUMBER) else Some(available);
      if number.Some? && number.value < available then None else number
  }

  lemma SmallIsShort(n: nat)
    requires n < 100000
    ensures |Text(n)| <= 5
  {
    assert TenTo(1) == 10 && TenTo(2) == 100 && TenTo(3) == 1000 && TenTo(4) == 10000 && TenTo(5) == 100000;
    TextIsDecimal(n, 5);
  }

  lemma IntegerIsUnique(text: string, maximum: nat)
    requires maximum < 100000
    ensures forall n: nat :: Integer(text, maximum) == Some(n) <==> text == Text(n) && 1 <= n <= maximum
  {
    hide Integer, Text;
    forall n: nat ensures Integer(text, maximum) == Some(n) <==> text == Text(n) && 1 <= n <= maximum {
      IntegerMeans(text, maximum, n);
      if 1 <= n <= maximum { SmallIsShort(n); }
    }
  }

  /** n is the counter's own number c, or was asked for and is not below it. */
  ghost predicate ResolvesTo(current: string, requested: string, c: nat, n: nat) {
    1 <= c <= n <= 65535 && current == Text(c) && if requested == "" then n == c else requested == Text(n)
  }

  /** A run gets the counter's number, or a requested one that is not below it, both from 1 to 65535. */
  lemma ResolveMeans(current: string, requested: string, n: nat)
    ensures Resolve(current, requested) == Some(n) <==>
            exists c: nat :: ResolvesTo(current, requested, c, n)
  {
    hide Integer, Text;
    IntegerIsUnique(current, 65535);
    IntegerIsUnique(requested, 65535);
    if Resolve(current, requested) == Some(n) {
      var c := Integer(current, 65535).value;
      assert Integer(current, 65535) == Some(c) && current == Text(c);
      assert requested != "" ==> Integer(requested, 65535) == Some(n) && requested == Text(n);
      assert ResolvesTo(current, requested, c, n);
    }
    forall c: nat | ResolvesTo(current, requested, c, n)
      ensures Resolve(current, requested) == Some(n)
    {
      assert Integer(current, 65535) == Some(c);
      assert requested != "" ==> Integer(requested, 65535) == Some(n);
    }
  }

  function Max(a: nat, b: nat): nat { if a < b then b else a }

  function NextCounter(current: string, built: string): Option<nat> {
    match (Integer(current, MAX_BUILD_NUMBER + 1), Integer(built, MAX_BUILD_NUMBER))
    case (Some(c), Some(b)) => Some(Max(c, b + 1))
    case _ => None
  }

  // ----- The branch -----

  /** A commit, as far as the counters go; a branch is the chain of commits its tip names. */
  datatype Commit = Commit(counters: map<Flavor, string>)

  type History = seq<Commit>

  function CounterText(h: History, f: Flavor): Option<string> {
    if h != [] && f in h[|h| - 1].counters then Some(h[|h| - 1].counters[f]) else None
  }

  function CounterOf(h: History, f: Flavor): Option<nat> {
    match CounterText(h, f)
    case None => None
    case Some(text) => Integer(text, MAX_BUILD_NUMBER + 1)
  }

  /** A counter is a number from 1 to one past the greatest build number. */
  lemma CounterMeans(h: History, f: Flavor, c: nat)
    ensures CounterOf(h, f) == Some(c) <==> CounterText(h, f) == Some(Text(c)) && 1 <= c <= 65536
  {
    hide Integer, Text;
    if CounterText(h, f).Some? { IntegerIsUnique(CounterText(h, f).value, 65536); }
  }

  datatype Result = Sufficient | Published | Failed

  /** What one fetched tip leads to: an end, or a commit on top of it. */
  datatype Plan = Stop(result: Result) | Propose(commit: Commit)

  function PlanFor(tip: History, source: History, f: Flavor, built: string): Plan {
    if !(source <= tip) then Stop(Failed)
    else
      match CounterText(tip, f)
      case None => Stop(Failed)
      case Some(current) =>
        match NextCounter(current, built)
        case None => Stop(Failed)
        case Some(number) =>
          if Some(number) == Integer(current, MAX_BUILD_NUMBER + 1) then Stop(Sufficient)
          else Propose(Commit(tip[|tip| - 1].counters[f := Text(number)]))
  }

  /** The branch on the server: None once it has been deleted. */
  class Remote {
    var branch: Option<History>

    constructor (h: History)
      ensures branch == Some(h)
    {
      branch := Some(h);
    }

    /** A push under a lease: it lands only on the very tip it was prepared for, and its success may go unheard. */
    method Push(lease: History, commit: Commit, reaches: bool, heard: bool) returns (accepted: bool)
      modifies this
      ensures accepted <==> heard && reaches && old(branch) == Some(lease)
      ensures branch == if reaches && old(branch) == Some(lease) then Some(lease + [commit]) else old(branch)
    {
      accepted := reaches && branch == Some(lease);
      if accepted { branch := Some(lease + [commit]); }
      accepted := accepted && heard;
    }

    /** Somebody else extends the branch. */
    method Extend(commits: History)
      modifies this
      ensures branch == if old(branch).Some? then Some(old(branch).value + commits) else None
    {
      if branch.Some? { branch := Some(branch.value + commits); }
    }
  }

  /** What others do around one attempt: what they push before its fetch and between its fetch and its push, whether
      that push reaches the server, and whether its success is heard. */
  datatype Meanwhile = Meanwhile(early: History, late: History, reaches: bool, heard: bool)

  /** The branch after a push of this commit prepared for this tip: it lands only where nobody came in between. */
  function Pushed(tip: History, commit: Commit, others: Meanwhile): History {
    if others.reaches && others.late == [] then tip + [commit] else tip + others.late
  }

  ghost predicate Accepted(others: Meanwhile) { others.reaches && others.late == [] && others.heard }

  /** These are the tips the attempts fetched: the first is the branch with what others pushed, the next ones what the
      attempt before them left, with what others pushed since; only a push that was turned down is followed by another
      attempt. */
  ghost predicate Fetched(tips: seq<History>, branch: History, f: Flavor, source: History, built: string,
                          others: seq<Meanwhile>) {
    && 1 <= |tips| <= |others| && tips[0] == branch + others[0].early
    && forall i, j ::
        0 <= i && j == i + 1 < |tips| ==> Follows(tips[i], tips[j], f, source, built, others[i], others[j])
  }

  ghost predicate Follows(tip: History, next: History, f: Flavor, source: History, built: string, now: Meanwhile,
                          later: Meanwhile) {
    var plan := PlanFor(tip, source, f, built);
    plan.Propose? && !Accepted(now) && next == Pushed(tip, plan.commit, now) + later.early
  }

  /** How the last attempt ends the publication, and what it leaves on the server. */
  ghost predicate EndsWith(tip: History, attempt: nat, f: Flavor, source: History, built: string, others: Meanwhile,
                           result: Result, branch: History) {
    match PlanFor(tip, source, f, built)
    case Stop(outcome) => result == outcome && branch == tip
    case Propose(commit) =>
      && branch == Pushed(tip, commit, others)
      && if Accepted(others) then result == Published else result == Failed && attempt == 3
  }

  /** Publishing with whatever others push before each of its fetches and each of its pushes. */
  method Publish(remote: Remote, f: Flavor, source: History, built: string, others: seq<Meanwhile>)
    returns (result: Result, ghost tips: seq<History>)
    requires |others| == 3
    modifies remote
    ensures old(remote.branch).None? ==> remote.branch.None? && result == Failed
    ensures Integer(built, 65535).None? ==> remote.branch == old(remote.branch) && result == Failed
    ensures old(remote.branch).Some? ==> remote.branch.Some? && old(remote.branch).value <= remote.branch.value
    ensures old(remote.branch).Some? && Integer(built, 65535).Some? ==>
      && Fetched(tips, old(remote.branch).value, f, source, built, others)
      && EndsWith(tips[|tips| - 1], |tips|, f, source, built, others[|tips| - 1], result, remote.branch.value)
    ensures result == Published || result == Sufficient ==>
      var counter := CounterOf(remote.branch.value, f);
      counter.Some? && Integer(built, 65535).Some? && counter.value > Integer(built, 65535).value
  {
    hide Text, Value, Integer, CounterOf, PlanFor;
    tips := [];
    if Integer(built, MAX_BUILD_NUMBER).None? { return Failed, []; }
    for attempt := 0 to ATTEMPTS
      invariant old(remote.branch).None? ==> remote.branch.None?
      invariant old(remote.branch).Some? ==> remote.branch.Some? && old(remote.branch).value <= remote.branch.value
      invariant old(remote.branch).Some? ==> |tips| == attempt
      invariant attempt == 0 ==> remote.branch == old(remote.branch)
      invariant old(remote.branch).Some? && attempt > 0 ==>
        && Fetched(tips, old(remote.branch).value, f, source, built, others)
        && var plan := PlanFor(tips[attempt - 1], source, f, built);
          plan.Propose? && !Accepted(others[attempt - 1])
          && remote.branch == Some(Pushed(tips[attempt - 1], plan.commit, others[attempt - 1]))
    {
      remote.Extend(others[attempt].early);
      if remote.branch.None? { return Failed, tips; }
      var tip := remote.branch.value;
      tips := tips + [tip];
      var plan := PlanFor(tip, source, f, built);
      PlanMoves(tip, source, f, built);
      if plan.Stop? { return plan.result, tips; }
      remote.Extend(others[attempt].late);
      assert tip + others[attempt].late == tip <==> others[attempt].late == [] by {
        assert |tip + others[attempt].late| == |tip| + |others[attempt].late|;
      }
      var pushed := remote.Push(tip, plan.commit, others[attempt].reaches, others[attempt].heard);
      if pushed { return Published, tips; }
    }
    return Failed, tips;
  }

  /** The counter a fetched tip has, if the built commit is part of it and the counter is a number up to 65536. */
  ghost predicate HasCounter(tip: History, source: History, f: Flavor, counter: nat) {
    && source <= tip && tip != [] && f in tip[|tip| - 1].counters
    && tip[|tip| - 1].counters[f] == Text(counter) && 1 <= counter <= 65536
  }

  ghost predicate WasBuilt(built: string, number: nat) { built == Text(number) && 1 <= number <= 65535 }

  /** A tip past the built number is left alone, and on any other the successor of the built number is proposed for that
      brand alone; without the built commit, a counter or a number the publication fails. */
  lemma PlanMeans(tip: History, source: History, f: Flavor, built: string)
    ensures forall c: nat, b: nat | HasCounter(tip, source, f, c) && WasBuilt(built, b) ::
              PlanFor(tip, source, f, built)
              == if c > b then Stop(Sufficient) else Propose(Commit(tip[|tip| - 1].counters[f := Text(b + 1)]))
    ensures PlanFor(tip, source, f, built) == Stop(Failed)
        <==> !exists c: nat, b: nat :: HasCounter(tip, source, f, c) && WasBuilt(built, b)
  {
    hide Integer, Text;
    IntegerIsUnique(built, 65535);
    if CounterText(tip, f).Some? {
      var current := CounterText(tip, f).value;
      IntegerIsUnique(current, 65536);
      if Integer(current, 65536).Some? { assert Integer(current, 65536) == Some(Integer(current, 65536).value); }
    }
    if Integer(built, 65535).Some? { assert Integer(built, 65535) == Some(Integer(built, 65535).value); }
    if source <= tip && CounterText(tip, f).Some? && Integer(built, 65535).Some?
       && Integer(CounterText(tip, f).value, 65536).Some?
    {
      var c, b := Integer(CounterText(tip, f).value, 65536).value, Integer(built, 65535).value;
      assert HasCounter(tip, source, f, c) && WasBuilt(built, b);
    }
  }

  /** A plan to stop as sufficient, or the commit it proposes, has the counter past what was built, and moves no other
      counter. */
  lemma PlanMoves(tip: History, source: History, f: Flavor, built: string)
    ensures var plan, b := PlanFor(tip, source, f, built), Integer(built, MAX_BUILD_NUMBER);
      && (plan.Stop? ==> plan.result != Published)
      && (plan == Stop(Sufficient) ==> b.Some? && CounterOf(tip, f).Some? && CounterOf(tip, f).value > b.value)
      && (plan.Propose? ==>
            && b.Some? && source <= tip && CounterOf(tip, f).Some? && CounterOf(tip, f).value < b.value + 1
            && CounterOf(tip + [plan.commit], f) == Some(b.value + 1)
            && forall g | g != f :: CounterText(tip + [plan.commit], g) == CounterText(tip, g))
  {
    hide Text, Value;
    var plan := PlanFor(tip, source, f, built);
    if plan.Propose? {
      TextReadsBack(Integer(built, MAX_BUILD_NUMBER).value + 1, MAX_BUILD_NUMBER + 1);
    }
  }

  // ----- Concurrent publishers -----

  datatype Phase = Idle(attempt: nat) | Holding(tip: History, commit: Commit, attempt: nat) | Ended(result: Result)

  datatype Publisher = Publisher(flavor: Flavor, source: History, built: string, phase: Phase)

  /** A push that landed, with the build it was for. */
  datatype Landing = Landing(flavor: Flavor, built: nat)

  datatype State = State(branch: Option<History>, publishers: map<nat, Publisher>, landed: seq<Landing>)

  /** Others extend the branch without touching its counters, or delete it. */
  datatype Event =
    | Start(p: nat, flavor: Flavor, source: History, built: string)
    | Fetch(p: nat)
    | Push(p: nat, reaches: bool, heard: bool)
    | Extend
    | Delete

  function Retry(attempt: nat): Phase { if attempt + 1 >= ATTEMPTS then Ended(Failed) else Idle(attempt + 1) }

  function At(s: State, p: nat, phase: Phase): State
    requires p in s.publishers
  {
    s.(publishers := s.publishers[p := s.publishers[p].(phase := phase)])
  }

  function Next(s: State, e: Event): State {
    match e
    case Start(p, f, source, built) =>
      if p in s.publishers then s
      else s.(publishers := s.publishers[p := Publisher(f, source, built,
                if Integer(built, MAX_BUILD_NUMBER).None? then Ended(Failed) else Idle(0))])
    case Fetch(p) =>
      if p !in s.publishers || !s.publishers[p].phase.Idle? then s
      else
        var who := s.publishers[p];
        if s.branch.None? then At(s, p, Ended(Failed))
        else
          (match PlanFor(s.branch.value, who.source, who.flavor, who.built)
           case Stop(result) => At(s, p, Ended(result))
           case Propose(commit) => At(s, p, Holding(s.branch.value, commit, who.phase.attempt)))
    case Push(p, reaches, heard) =>
      if p !in s.publishers || !s.publishers[p].phase.Holding? then s
      else
        var who := s.publishers[p];
        var built := Integer(who.built, MAX_BUILD_NUMBER);
        if reaches && s.branch == Some(who.phase.tip) && built.Some? then
          At(s, p, if heard then Ended(Published) else Retry(who.phase.attempt)).(
             branch := Some(who.phase.tip + [who.phase.commit]),
                 landed := s.landed + [Landing(who.flavor, built.value)])
        else At(s, p, Retry(who.phase.attempt))
    case Extend =>
      if s.branch.None? || s.branch.value == [] then s
      else s.(branch := Some(s.branch.value + [Commit(s.branch.value[|s.branch.value| - 1].counters)]))
    case Delete => s.(branch := None)
  }

  function RunFrom(s: State, events: seq<Event>): State {
    if events == [] then s else Next(RunFrom(s, events[..|events| - 1]), events[|events| - 1])
  }

  function Run(h: History, events: seq<Event>): State { RunFrom(State(Some(h), map[], []), events) }

  /** The greatest of the initial counter and one past every landed build of a flavor. */
  function Highest(initial: nat, landed: seq<Landing>, f: Flavor): (highest: nat)
    ensures highest >= initial
    ensures forall l | l in landed && l.flavor == f :: l.built + 1 <= highest
    ensures highest == initial || exists l :: l in landed && l.flavor == f && l.built + 1 == highest
  {
    if landed == [] then initial
    else
      var last := landed[|landed| - 1];
      var before := Highest(initial, landed[..|landed| - 1], f);
      if last.flavor == f then Max(before, last.built + 1) else before
  }

  /** The counter now, given what it was and what has landed since. */
  function Expected(initial: Option<nat>, landed: seq<Landing>, f: Flavor): Option<nat> {
    if initial.None? then None else Some(Highest(initial.value, landed, f))
  }

  ghost predicate PublisherOk(s: State, who: Publisher) {
    match who.phase
    case Idle(attempt) => attempt < 3
    case Holding(tip, commit, attempt) =>
      attempt < 3 && PlanFor(tip, who.source, who.flavor, who.built) == Propose(commit)
    case Ended(result) =>
      result == Failed || s.branch.None? ||
      var built, counter := Integer(who.built, MAX_BUILD_NUMBER), CounterOf(s.branch.value, who.flavor);
      built.Some? && counter.Some? && counter.value > built.value
  }

  ghost predicate CountersOk(s: State, h: History) {
    s.branch.Some? ==>
      && h <= s.branch.value
      && forall f: Flavor :: CounterOf(s.branch.value, f) == Expected(CounterOf(h, f), s.landed, f)
  }

  ghost predicate LandingOk(s: State, l: Landing) {
    exists p ::
        p in s.publishers && s.publishers[p].flavor == l.flavor
            && Integer(s.publishers[p].built, MAX_BUILD_NUMBER) == Some(l.built)
  }

  ghost predicate Consistent(s: State, h: History) {
    && CountersOk(s, h)
    && (forall p | p in s.publishers :: PublisherOk(s, s.publishers[p]))
    && (forall l | l in s.landed :: LandingOk(s, l))
  }

  lemma HighestSnoc(initial: nat, landed: seq<Landing>, l: Landing, f: Flavor)
    ensures Highest(initial, landed + [l], f) == if l.flavor == f
        then Max(Highest(initial, landed, f), l.built + 1) else Highest(initial, landed, f)
  {
    assert (landed + [l])[..|landed|] == landed;
  }

  lemma SameTip(h: History, c: Commit, f: Flavor)
    ensures h != [] && c.counters == h[|h| - 1].counters ==> CounterOf(h + [c], f) == CounterOf(h, f)
  {
  }

  lemma PushKeepsCounters(s: State, h: History, e: Event)
    requires Consistent(s, h) && e.Push?
    ensures CountersOk(Next(s, e), h)
  {
    hide PlanFor, Integer, Highest, CounterOf, CounterText;
    var t := Next(s, e);
    if t.branch != s.branch {
      var who := s.publishers[e.p];
      var built := Integer(who.built, MAX_BUILD_NUMBER).value;
      PlanMoves(who.phase.tip, who.source, who.flavor, who.built);
      assert PublisherOk(s, who);
      forall f: Flavor ensures CounterOf(t.branch.value, f) == Expected(CounterOf(h, f), t.landed, f) {
        if CounterOf(h, f).Some? { HighestSnoc(CounterOf(h, f).value, s.landed, Landing(who.flavor, built), f); }
        SameText(who.phase.tip, t.branch.value, f);
      }
    }
  }

  lemma SameText(a: History, b: History, f: Flavor)
    ensures CounterText(a, f) == CounterText(b, f) ==> CounterOf(a, f) == CounterOf(b, f)
  {
  }

  ghost predicate CountersUp(a: History, b: History) {
    forall f: Flavor ::
        CounterOf(a, f).Some? ==> CounterOf(b, f).Some? && CounterOf(a, f).value <= CounterOf(b, f).value
  }

  lemma CountersGrow(s: State, h: History, e: Event)
    requires CountersOk(s, h) && CountersOk(Next(s, e), h)
    ensures var t := Next(s, e);
      t.branch.Some? ==>
        s.branch.Some? && s.branch.value <= t.branch.value && CountersUp(s.branch.value, t.branch.value)
  {
    hide PlanFor, Integer, Highest, CounterOf;
    var t := Next(s, e);
    if t.landed != s.landed {
      forall f: Flavor | CounterOf(h, f).Some? {
        HighestSnoc(CounterOf(h, f).value, s.landed, t.landed[|s.landed|], f);
      }
    }
  }

  lemma {:induction false} StepKeepsCounters(s: State, h: History, e: Event)
    requires Consistent(s, h)
    ensures CountersOk(Next(s, e), h)
  {
    hide PlanFor, Integer, Highest, CounterOf;
    if e.Push? {
      PushKeepsCounters(s, h, e);
    } else if e.Extend? && s.branch.Some? && s.branch.value != [] {
      var tip := s.branch.value;
      forall f: Flavor { SameTip(tip, Commit(tip[|tip| - 1].counters), f); }
    }
  }

  lemma StepKeepsPublishers(s: State, h: History, e: Event)
    requires Consistent(s, h)
    ensures forall p | p in Next(s, e).publishers :: PublisherOk(Next(s, e), Next(s, e).publishers[p])
  {
    hide PlanFor, Integer, Highest, CounterOf, CounterText, CountersOk;
    var t := Next(s, e);
    StepKeepsCounters(s, h, e);
    CountersGrow(s, h, e);
    forall p | p in t.publishers ensures PublisherOk(t, t.publishers[p]) {
      if p in s.publishers {
        var who := s.publishers[p];
        assert PublisherOk(s, who);
        if e.Fetch? && s.branch.Some? { PlanMoves(s.branch.value, who.source, who.flavor, who.built); }
        if e.Push? && who.phase.Holding? { PlanMoves(who.phase.tip, who.source, who.flavor, who.built); }
      }
    }
  }

  lemma StepKeepsLandings(s: State, e: Event)
    requires forall l | l in s.landed :: LandingOk(s, l)
    ensures forall l | l in Next(s, e).landed :: LandingOk(Next(s, e), l)
  {
    hide PlanFor, Integer, CounterOf;
    var t := Next(s, e);
    forall l | l in t.landed ensures LandingOk(t, l) {
      if l in s.landed {
        var p :| p in s.publishers && s.publishers[p].flavor == l.flavor
            && Integer(s.publishers[p].built, MAX_BUILD_NUMBER) == Some(l.built);
        assert t.publishers[p].flavor == l.flavor;
      } else {
        assert t.publishers[e.p].flavor == l.flavor;
      }
    }
  }

  /** Safety over every interleaving: the branch still starts with the initial history, and each counter is exactly
      the greatest of its initial value and one past every build whose push landed. */
  lemma {:induction false} EveryRunIsConsistent(h: History, events: seq<Event>)
    ensures Consistent(Run(h, events), h)
  {
    hide Next, CountersOk, PublisherOk, LandingOk;
    if events == [] {
      NothingLanded(h);
    } else {
      var shorter := events[..|events| - 1];
      EveryRunIsConsistent(h, shorter);
      StepKeepsCounters(Run(h, shorter), h, events[|events| - 1]);
      StepKeepsPublishers(Run(h, shorter), h, events[|events| - 1]);
      StepKeepsLandings(Run(h, shorter), events[|events| - 1]);
    }
  }

  lemma NothingLanded(h: History)
    ensures CountersOk(State(Some(h), map[], []), h)
  {
  }

  /** Over any stretch of a run the branch is only ever appended to, its counters never go down, and a deleted branch
      stays deleted. */
  lemma {:induction false} HistoryIsOnlyAppended(h: History, before: seq<Event>, window: seq<Event>)
    ensures var s, t := Run(h, before), RunFrom(Run(h, before), window);
      t.branch.Some? ==>
        s.branch.Some? && s.branch.value <= t.branch.value && CountersUp(s.branch.value, t.branch.value)
  {
    hide Next, CounterOf, CountersOk, PublisherOk, LandingOk;
    if window != [] {
      var shorter := window[..|window| - 1];
      HistoryIsOnlyAppended(h, before, shorter);
      RunsConcat(h, before, shorter);
      RunsConcat(h, before, window);
      EveryRunIsConsistent(h, before + shorter);
      EveryRunIsConsistent(h, before + window);
      CountersGrow(RunFrom(Run(h, before), shorter), h, window[|window| - 1]);
    }
  }

  lemma {:induction false} RunsConcat(h: History, before: seq<Event>, window: seq<Event>)
    ensures Run(h, before + window) == RunFrom(Run(h, before), window)
  {
    hide Next;
    if window == [] {
      assert before + window == before;
    } else {
      RunsConcat(h, before, window[..|window| - 1]);
      assert (before + window)[..|before + window| - 1] == before + window[..|window| - 1];
    }
  }

  /** A build number that was published for is never handed out again from the branch. */
  lemma PublishedIsNeverReused(h: History, events: seq<Event>, p: nat, requested: string)
    requires var s := Run(h, events);
      && s.branch.Some? && p in s.publishers && s.publishers[p].phase in {Ended(Published), Ended(Sufficient)}
      && CounterText(s.branch.value, s.publishers[p].flavor).Some?
      && Resolve(CounterText(s.branch.value, s.publishers[p].flavor).value, requested).Some?
    ensures var s := Run(h, events);
      var built := Integer(s.publishers[p].built, MAX_BUILD_NUMBER);
      built.Some? && Resolve(CounterText(s.branch.value, s.publishers[p].flavor).value, requested).value > built.value
  {
    hide Run, Value;
    EveryRunIsConsistent(h, events);
    assert PublisherOk(Run(h, events), Run(h, events).publishers[p]);
  }

  // ----- One publisher by itself -----

  lemma RunGoesOn(s: State, events: seq<Event>, e: Event)
    ensures RunFrom(s, []) == s && RunFrom(s, events + [e]) == Next(RunFrom(s, events), e)
  {
    assert (events + [e])[..|events|] == events;
  }

  /** With nobody in between, a publisher that starts, fetches and pushes ends as planned for the tip it found. */
  lemma UndisturbedPublishes(h: History, events: seq<Event>, p: nat, f: Flavor, source: History, built: string)
    requires Run(h, events).branch.Some? && p !in Run(h, events).publishers
    ensures var s := Run(h, events);
      var t := Next(Next(Next(s, Start(p, f, source, built)), Fetch(p)), Push(p, true, true));
      && p in t.publishers && t.publishers[p].phase.Ended?
      && match PlanFor(s.branch.value, source, f, built) {
           case Stop(result) => t.publishers[p].phase.result == result && t.branch == s.branch
           case Propose(commit) =>
             && t.publishers[p].phase.result == Published && t.branch == Some(s.branch.value + [commit])
             && Next(Next(s, Start(p, f, source, built)), Fetch(p)).publishers[p].phase
                == Holding(s.branch.value, commit, 0)
         }
  {
    hide Run, Text, Value, CounterText;
  }

  lemma PushMeans(s: State, p: nat, reaches: bool, heard: bool)
    requires p in s.publishers && s.publishers[p].phase.Holding? && s.branch.Some? && !(reaches && heard)
    requires Integer(s.publishers[p].built, 65535).Some?
    ensures var tip, commit, attempt := s.publishers[p].phase.tip, s.publishers[p].phase.commit,
                                        s.publishers[p].phase.attempt;
      var t := Next(s, Push(p, reaches, heard));
      && t.publishers[p].phase == (if attempt < 2 then Idle(attempt + 1) else Ended(Failed))
      && t.branch == (if reaches && s.branch.value == tip then Some(tip + [commit]) else s.branch)
  {
    hide Integer;
  }

  /** One attempt whose push does not reach the server. */
  function Attempt(s: State, p: nat): State { Next(Next(s, Fetch(p)), Push(p, false, false)) }

  lemma AttemptMeans(s: State, p: nat)
    requires p in s.publishers && s.publishers[p].phase.Idle? && s.branch.Some?
    requires var who := s.publishers[p]; PlanFor(s.branch.value, who.source, who.flavor, who.built).Propose?
    ensures var who, t := s.publishers[p], Attempt(s, p);
      && t.branch == s.branch && p in t.publishers
      && t.publishers[p] == who.(phase := if who.phase.attempt < 2 then Idle(who.phase.attempt + 1) else Ended(Failed))
  {
    hide PlanFor, Integer;
    var who, u := s.publishers[p], Next(s, Fetch(p));
    PlanMoves(s.branch.value, who.source, who.flavor, who.built);
    PushMeans(u, p, false, false);
    assert u.publishers[p] == who.(phase := u.publishers[p].phase);
  }

  /** A publisher whose pushes never reach the server tries three times, leaves the branch alone, and then fails. */
  lemma {:induction false} ThreeAttempts(s: State, p: nat, f: Flavor, source: History, built: string)
    requires s.branch.Some? && p !in s.publishers && PlanFor(s.branch.value, source, f, built).Propose?
    ensures var after := Attempt(Attempt(Next(s, Start(p, f, source, built)), p), p);
      && p in after.publishers && after.publishers[p].phase == Idle(2)
      && Attempt(after, p).publishers[p].phase == Ended(Failed)
      && after.branch == Attempt(after, p).branch == s.branch
  {
    hide PlanFor, Integer, Attempt;
    PlanMoves(s.branch.value, source, f, built);
    var s0 := Next(s, Start(p, f, source, built));
    AttemptMeans(s0, p);
    AttemptMeans(Attempt(s0, p), p);
    AttemptMeans(Attempt(Attempt(s0, p), p), p);
  }

  /** A publisher that finds the branch deleted fails, and so does one whose build number is none. */
  lemma NothingToPublishOn(s: State, p: nat, f: Flavor, source: History, built: string)
    requires p !in s.publishers && (s.branch.None? || Integer(built, 65535).None?)
    ensures var t := Next(Next(s, Start(p, f, source, built)), Fetch(p));
      && t.publishers[p].phase == Ended(Failed) && t.branch == s.branch
      && (Integer(built, 65535).None? ==> Next(s, Start(p, f, source, built)) == t)
  {
    hide Integer;
  }

  /** Others append a commit that keeps the counters, or delete the branch for good. */
  lemma OthersKeepCounters(s: State)
    ensures s.branch.Some? && s.branch.value != [] ==>
      var h, t := s.branch.value, Next(s, Extend);
      t == State(Some(h + [Commit(h[|h| - 1].counters)]), s.publishers, s.landed)
    ensures Next(s, Delete) == State(None, s.publishers, s.landed)
  {
  }
}
