/** Every run of watch calls, stops, refreshes and checks, at the source's lock boundaries. */
module RouteRuns {
  import opened Bytes
  import opened RouteTracker

  /** A refresh holds the select lock from before it reads until after it has published. */
  datatype Refresh = Started(change: Change) | Read(change: Change, now: Reading) | Publishing(state: RouteState) | Done

  /** A refresh that reached the record, and whether the host was watching then. */
  datatype Commit = Commit(change: Change, now: Reading, watched: bool)

  /** stamps counts the calls dispatched; intents remembers what each watch call and stop asked for. */
  datatype State = State(
    record: Record, stamps: nat, intents: map<nat, bool>, waiting: set<nat>,
    pollers: seq<bool>, holder: Option<Refresh>, published: seq<RouteState>, log: seq<Commit>)

  datatype Event =
    | DispatchWatch(watch: bool)
    | DispatchOther
    | RunWatch(stamp: nat)
    | Stop
    | Acquire(change: Change)
    | ReadNow(now: Reading)
    | CommitNow
    | Publish
    | Release

  const START := State(NEW_RECORD, 0, map[], {}, [], None, [], [])

  /** Poller flags after the record moved from one poller handle to another: a handle given up is cancelled, a new one
      starts live. */
  function Repoll(pollers: seq<bool>, from: Option<nat>, to: Option<nat>): seq<bool> {
    if from == to then pollers
    else if from.None? then pollers + [true]
    else if from.value < |pollers| then pollers[from.value := false]
    else pollers
  }

  function Become(s: State, r: Record): State {
    s.(record := r, pollers := Repoll(s.pollers, s.record.poller, r.poller))
  }

  function Next(s: State, e: Event): State {
    match e
    case DispatchWatch(watch) =>
      var stamp := s.stamps + 1;
      s.(stamps := stamp, intents := s.intents[stamp := watch], waiting := s.waiting + {stamp})
    case DispatchOther => s.(stamps := s.stamps + 1)
    case RunWatch(stamp) =>
      if stamp !in s.waiting || stamp !in s.intents then s
      else Become(s, Watched(s.record, s.intents[stamp], stamp, |s.pollers|)).(waiting := s.waiting - {stamp})
    case Stop =>
      var stamp := s.stamps + 1;
      Become(s, Stopped(s.record, stamp)).(stamps := stamp, intents := s.intents[stamp := false])
    case Acquire(change) => if s.holder.Some? then s else s.(holder := Some(Started(change)))
    case ReadNow(now) =>
      if s.holder.Some? && s.holder.value.Started? then s.(holder := Some(Read(s.holder.value.change, now))) else s
    case CommitNow =>
      if s.holder.Some? && s.holder.value.Read? then
        var c := Commit(s.holder.value.change, s.holder.value.now, s.record.watched);
        var r := Refreshed(s.record, c.now, c.change);
        s.(record := r, log := s.log + [c],
           holder := Some(if Counts(s.record, c.now, c.change) && c.watched then Publishing(Stamp(r)) else Done))
      else s
    case Publish =>
      if s.holder.Some? && s.holder.value.Publishing?
          then s.(published := s.published + [s.holder.value.state], holder := Some(Done)) else s
    case Release => if s.holder == Some(Done) then s.(holder := None) else s
  }

  function RunFrom(s: State, events: seq<Event>): State {
    if events == [] then s else Next(RunFrom(s, events[..|events| - 1]), events[|events| - 1])
  }

  function Run(events: seq<Event>): State { RunFrom(START, events) }

  lemma RunGoesOn(s: State, events: seq<Event>, e: Event)
    ensures RunFrom(s, []) == s && RunFrom(s, events + [e]) == Next(RunFrom(s, events), e)
  {
    assert (events + [e])[..|events|] == events;
  }

  // ----- Latest intent wins -----

  /** The record follows the highest stamp that has run. */
  ghost predicate LatestRuns(s: State) {
    && (forall i | i in s.intents :: 0 < i <= s.stamps)
    && (forall i | i in s.waiting :: i in s.intents)
    && (forall i | i in s.intents && i !in s.waiting :: i <= s.record.watchSeq)
    && (if s.record.watchSeq == 0 then !s.record.watched
        else
          && s.record.watchSeq in s.intents && s.record.watchSeq !in s.waiting
          && s.record.watched == s.intents[s.record.watchSeq])
  }

  /** The only live poller is the one the record holds, and it exists exactly while the host watches. */
  ghost predicate OnePoller(s: State) {
    && (s.record.watched <==> s.record.poller.Some?)
    && (forall i :: 0 <= i < |s.pollers| ==> (s.pollers[i] <==> s.record.poller == Some(i)))
    && (s.record.poller.Some? ==> s.record.poller.value < |s.pollers|)
  }

  lemma WatchKeeps(s: State, stamp: nat)
    requires LatestRuns(s) && OnePoller(s)
    ensures LatestRuns(Next(s, RunWatch(stamp))) && OnePoller(Next(s, RunWatch(stamp)))
  {
  }

  lemma StopKeeps(s: State)
    requires LatestRuns(s) && OnePoller(s)
    ensures LatestRuns(Next(s, Stop)) && OnePoller(Next(s, Stop))
  {
  }

  lemma RefreshKeepsWatch(s: State, e: Event)
    requires LatestRuns(s) && OnePoller(s) && !e.RunWatch? && !e.Stop?
    ensures LatestRuns(Next(s, e)) && OnePoller(Next(s, e))
  {
    hide Differs;
  }

  lemma IntentStep(s: State, e: Event)
    requires LatestRuns(s) && OnePoller(s)
    ensures LatestRuns(Next(s, e)) && OnePoller(Next(s, e))
  {
    hide LatestRuns, OnePoller, Next;
    match e
    case RunWatch(stamp) => WatchKeeps(s, stamp);
    case Stop => StopKeeps(s);
    case _ => RefreshKeepsWatch(s, e);
  }

  /** Safety over whole runs: in every reachable state the newest stamp that ran decides, and one poller is live iff
      watched. */
  lemma {:induction false} LatestIntentWins(events: seq<Event>)
    ensures LatestRuns(Run(events)) && OnePoller(Run(events))
  {
    hide Next;
    if events != [] {
      LatestIntentWins(events[..|events| - 1]);
      IntentStep(Run(events[..|events| - 1]), events[|events| - 1]);
    }
  }

  /** Once nothing is waiting to run, the host is watched exactly as the latest call or stop asked, in whatever order
      they ran. */
  lemma QuietMeansLatest(events: seq<Event>, latest: nat)
    requires var s := Run(events); s.waiting == {} && latest in s.intents && forall i | i in s.intents :: i <= latest
    ensures var s := Run(events); s.record.watchSeq == latest && s.record.watched == s.intents[latest]
  {
    hide Run;
    LatestIntentWins(events);
  }

  // ----- Versions -----

  /** The i-th refresh recorded a change: one was asked for, or it read something else than the refresh before it. */
  predicate Recorded(log: seq<Commit>, i: nat)
    requires i < |log|
  {
    log[i].change != Unchanged || (if i == 0 then log[i].now.picks != map[] else log[i].now != log[i - 1].now)
  }

  /** How many refreshes recorded a change. */
  function Changes(log: seq<Commit>): nat {
    if log == [] then 0 else Changes(log[..|log| - 1]) + (if Recorded(log, |log| - 1) then 1 else 0)
  }

  function Resets(log: seq<Commit>): nat {
    if log == [] then 0 else Resets(log[..|log| - 1]) + (if log[|log| - 1].change == Reset then 1 else 0)
  }

  /** What a watching host is to be told: the stamp after every recorded change it watched. */
  function Announced(log: seq<Commit>): seq<RouteState> {
    if log == [] then []
    else
      Announced(log[..|log| - 1]) +
      if Recorded(log, |log| - 1) && log[|log| - 1].watched then [RouteState(Resets(log), Changes(log))] else []
  }

  predicate Remembers(r: Record, log: seq<Commit>) {
    if log == [] then r.picks == map[] && r.providers.None? && r.ruleSets.None?
    else
      var now := log[|log| - 1].now;
      r.picks == now.picks && r.providers == Some(now.providers) && r.ruleSets == Some(now.ruleSets)
  }

  function Pending(s: State): seq<RouteState> {
    if s.holder.Some? && s.holder.value.Publishing? then [s.holder.value.state] else []
  }

  ghost predicate Versioned(s: State) {
    && Stamp(s.record) == RouteState(Resets(s.log), Changes(s.log))
    && Remembers(s.record, s.log)
    && s.published + Pending(s) == Announced(s.log)
  }

  lemma CountsWhenRecorded(r: Record, log: seq<Commit>, c: Commit)
    requires Remembers(r, log)
    ensures Counts(r, c.now, c.change) <==> Recorded(log + [c], |log|)
    ensures Remembers(Refreshed(r, c.now, c.change), log + [c])
  {
    var now := c.now;
    if log != [] {
      var before := log[|log| - 1].now;
      assert (log + [c])[|log| - 1].now == before;
      assert now == before
          <==> now.picks == before.picks && now.providers == before.providers && now.ruleSets == before.ruleSets;
    }
  }

  lemma LogGrows(log: seq<Commit>, c: Commit)
    ensures var longer := log + [c];
      && Changes(longer) == Changes(log) + (if Recorded(longer, |log|) then 1 else 0)
      && Resets(longer) == Resets(log) + (if c.change == Reset then 1 else 0)
      && Announced(longer) ==
         Announced(log) + if Recorded(longer, |log|) && c.watched
             then [RouteState(Resets(longer), Changes(longer))] else []
  {
    assert (log + [c])[..|log|] == log;
  }

  lemma CommitKeeps(s: State)
    requires Versioned(s)
    ensures Versioned(Next(s, CommitNow))
  {
    hide Changes, Resets, Announced, Recorded, Counts, Remembers;
    if s.holder.Some? && s.holder.value.Read? {
      var c := Commit(s.holder.value.change, s.holder.value.now, s.record.watched);
      CountsWhenRecorded(s.record, s.log, c);
      LogGrows(s.log, c);
      assert s.published + [] == s.published;
    }
  }

  lemma VersionStep(s: State, e: Event)
    requires Versioned(s)
    ensures Versioned(Next(s, e))
  {
    hide Changes, Resets, Announced, Recorded, Differs;
    if e.CommitNow? {
      CommitKeeps(s);
    } else {
      assert Next(s, e).log == s.log;
    }
  }

  /** Safety over whole runs: versions count the recorded changes, epochs the resets, and what was published is what was
      to be told. */
  lemma {:induction false} EveryRunIsVersioned(events: seq<Event>)
    ensures Versioned(Run(events))
  {
    hide Next, Versioned;
    if events == [] {
      StartIsVersioned();
    } else {
      EveryRunIsVersioned(events[..|events| - 1]);
      VersionStep(Run(events[..|events| - 1]), events[|events| - 1]);
    }
  }

  lemma StartIsVersioned()
    ensures Versioned(START) && START.stamps == 0 && START.intents == map[] && START.pollers == []
    ensures START.record == Record(0, 0, map[], None, None, false, 0, None)
  {
  }

  ghost predicate Increasing(states: seq<RouteState>) {
    forall i, j :: 0 <= i < j < |states| ==> states[i].version < states[j].version && states[i].epoch <= states[j].epoch
  }

  lemma {:induction false} AnnouncedIncreases(log: seq<Commit>)
    ensures Increasing(Announced(log))
    ensures forall a | a in Announced(log) :: a.version <= Changes(log) && a.epoch <= Resets(log)
  {
    hide Recorded;
    if log != [] {
      AnnouncedIncreases(log[..|log| - 1]);
    }
  }

  /** Published states only ever move forward, whatever happens between a refresh's decision and its publication. */
  lemma PublishedMovesForward(events: seq<Event>)
    ensures Increasing(Run(events).published)
  {
    hide Run, Announced;
    var s := Run(events);
    EveryRunIsVersioned(events);
    AnnouncedIncreases(s.log);
    assert forall i | 0 <= i < |s.published| :: s.published[i] == Announced(s.log)[i];
  }

  lemma {:induction false} LogOnlyGrows(s: State, window: seq<Event>)
    ensures s.log <= RunFrom(s, window).log
  {
    hide Refreshed, Watched, Stopped, Counts;
    if window != [] {
      LogOnlyGrows(s, window[..|window| - 1]);
    }
  }

  lemma {:induction false} ChangesCount(log: seq<Commit>, from: nat)
    requires from <= |log|
    ensures Changes(log[..from]) <= Changes(log) && Resets(log[..from]) <= Resets(log)
    ensures Changes(log[..from]) < Changes(log) <==> exists i :: from <= i < |log| && Recorded(log, i)
    ensures Changes(log[..from]) == Changes(log) ==> Resets(log[..from]) == Resets(log)
  {
    if from == |log| {
      assert log[..from] == log;
    } else {
      var n := |log| - 1;
      ChangesCount(log[..n], from);
      assert log[..n][..from] == log[..from];
      assert forall i | from <= i < n :: Recorded(log[..n], i) <==> Recorded(log, i);
    }
  }

  lemma {:induction false} RunsConcat(before: seq<Event>, window: seq<Event>)
    ensures Run(before + window) == RunFrom(Run(before), window)
  {
    hide Next;
    if window == [] {
      assert before + window == before;
    } else {
      RunsConcat(before, window[..|window| - 1]);
      assert (before + window)[..|before + window| - 1] == before + window[..|window| - 1];
    }
  }

  /** A reply to a check carries a version below the current one exactly when a change was recorded since its stamp was
      read; and an epoch never moves without the version. */
  lemma OutdatedCheckIsSeen(before: seq<Event>, window: seq<Event>)
    ensures var s, t := Run(before), RunFrom(Run(before), window);
      && s.log <= t.log && s.record.version <= t.record.version && s.record.epoch <= t.record.epoch
      && (s.record.version < t.record.version <==> exists i :: |s.log| <= i < |t.log| && Recorded(t.log, i))
      && (s.record.version == t.record.version ==> s.record.epoch == t.record.epoch)
  {
    hide Run, RunFrom, Recorded, Changes, Resets;
    var s, t := Run(before), RunFrom(Run(before), window);
    EveryRunIsVersioned(before);
    EveryRunIsVersioned(before + window);
    RunsConcat(before, window);
    LogOnlyGrows(s, window);
    assert t.log[..|s.log|] == s.log;
    ChangesCount(t.log, |s.log|);
  }

  // ----- No move is missed -----

  predicate WatchedThroughout(s: State, window: seq<Event>) {
    RunFrom(s, window).record.watched && (window != [] ==> WatchedThroughout(s, window[..|window| - 1]))
  }

  lemma {:induction false} WindowIsWatched(s: State, window: seq<Event>)
    requires WatchedThroughout(s, window)
    ensures var t := RunFrom(s, window); s.log <= t.log && forall i :: |s.log| <= i < |t.log| ==> t.log[i].watched
  {
    hide Refreshed, Watched, Stopped, Counts;
    if window != [] {
      WindowIsWatched(s, window[..|window| - 1]);
    }
  }

  lemma {:induction false} WatchedIsAnnounced(log: seq<Commit>, from: nat, version: nat)
    requires from <= |log| && forall i :: from <= i < |log| ==> log[i].watched
    ensures Changes(log[..from]) < version <= Changes(log) ==> exists a :: a in Announced(log) && a.version == version
  {
    hide Recorded;
    if from == |log| {
      assert log[..from] == log;
    } else {
      var n := |log| - 1;
      assert log[..n][..from] == log[..from];
      WatchedIsAnnounced(log[..n], from, version);
      if Changes(log[..from]) < version <= Changes(log[..n]) {
        var a :| a in Announced(log[..n]) && a.version == version;
        assert a in Announced(log);
      } else if Changes(log[..from]) < version <= Changes(log) {
        assert Announced(log)[|Announced(log)| - 1].version == version;
      }
    }
  }

  /** While the host keeps watching, every version the route passes through is published, or is about to be. */
  lemma {:induction false} NoMoveIsMissed(before: seq<Event>, window: seq<Event>, version: nat)
    requires WatchedThroughout(Run(before), window)
    requires Run(before).record.version < version <= RunFrom(Run(before), window).record.version
    ensures var t := RunFrom(Run(before), window); exists a :: a in t.published + Pending(t) && a.version == version
  {
    hide Run, RunFrom, Recorded, Changes, Resets, Announced;
    var s, t := Run(before), RunFrom(Run(before), window);
    EveryRunIsVersioned(before);
    EveryRunIsVersioned(before + window);
    RunsConcat(before, window);
    WindowIsWatched(s, window);
    assert t.log[..|s.log|] == s.log;
    WatchedIsAnnounced(t.log, |s.log|, version);
  }

  // ----- Calls take effect -----

  /** A call that is dispatched and then runs decides, and so does a stop, which runs at once. */
  lemma CallsTakeEffect(events: seq<Event>, watch: bool)
    ensures var s := Run(events);
      var t := Next(Next(s, DispatchWatch(watch)), RunWatch(s.stamps + 1));
      && t.record.watched == watch && t.record.watchSeq == t.stamps == s.stamps + 1 && t.waiting == s.waiting
      && t.intents == s.intents[s.stamps + 1 := watch]
    ensures var s, t := Run(events), Next(Run(events), Stop);
      && !t.record.watched && t.record.watchSeq == t.stamps == s.stamps + 1 && t.waiting == s.waiting
      && t.intents == s.intents[s.stamps + 1 := false]
    ensures var s, t := Run(events), Next(Run(events), DispatchOther);
      t.stamps == s.stamps + 1 && t.record == s.record && t.intents == s.intents && t.waiting == s.waiting
  {
    hide Run;
    LatestIntentWins(events);
    var s := Run(events);
    assert s.stamps + 1 !in s.waiting && s.record.watchSeq <= s.stamps;
    assert s.waiting + {s.stamps + 1} - {s.stamps + 1} == s.waiting;
  }

  /** What a watching host is told after the commit. */
  ghost function Told(s: State, c: Commit): seq<RouteState> {
    var log := s.log + [c];
    if Recorded(log, |s.log|) && c.watched then [RouteState(Resets(log), Changes(log))] else []
  }

  /** A refresh that gets the select lock records what it reads, tells a watching host of a change, and lets go. */
  lemma {:induction false} RefreshGoesThrough(events: seq<Event>, change: Change, now: Reading)
    requires Run(events).holder.None?
    ensures var s := Run(events);
      var t := Next(Next(Next(Next(Next(s, Acquire(change)), ReadNow(now)), CommitNow), Publish), Release);
      var c := Commit(change, now, s.record.watched);
      && t.holder.None? && t.log == s.log + [c] && t.published == s.published + Told(s, c)
      && t.record.picks == now.picks && t.record.providers == Some(now.providers)
      && t.record.ruleSets == Some(now.ruleSets)
      && t.record.version == Changes(t.log) && t.record.epoch == Resets(t.log)
      && t.record.watched == s.record.watched && t.record.poller == s.record.poller
  {
    hide Run, Resets, Changes, Recorded, Announced, Differs, Counts, Remembers;
    EveryRunIsVersioned(events);
    var s := Run(events);
    var c := Commit(change, now, s.record.watched);
    CountsWhenRecorded(s.record, s.log, c);
    LogGrows(s.log, c);
    assert s.published + [] == s.published;
  }

  /** While one refresh holds the select lock no other gets it. */
  lemma OneRefreshAtATime(s: State, change: Change)
    requires s.holder.Some?
    ensures Next(s, Acquire(change)) == s
    ensures Next(s, Release).holder.None? ==> s.holder == Some(Done)
  {
  }
}
