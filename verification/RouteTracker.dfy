/** The route record of core/route.go: refreshing it, watching it, and checking routes against it. */
module RouteTracker {
  import opened Bytes

  datatype Change = Unchanged | Moved | Reset

  /** What one refresh reads: the groups' picks, the providers' versions, the rule sets' strategies. */
  datatype Reading = Reading(picks: map<string, string>, providers: map<string, nat>, ruleSets: map<string, nat>)

  datatype RouteState = RouteState(epoch: nat, version: nat)

  /** The tracker's fields; a provider or rule-set record is absent until the first refresh. */
  datatype Record = Record(epoch: nat, version: nat, picks: map<string, string>, providers: Option<map<string, nat>>,
                           ruleSets: Option<map<string, nat>>, watched: bool, watchSeq: nat, poller: Option<nat>)

  const NEW_RECORD := Record(0, 0, map[], None, None, false, 0, None)

  function Stamp(r: Record): RouteState { RouteState(r.epoch, r.version) }

  /** A reading that is not what the record holds; the first provider and rule-set readings are taken as they are. */
  predicate Differs(r: Record, now: Reading) {
    || (r.providers.Some? && now.providers != r.providers.value)
    || (r.ruleSets.Some? && now.ruleSets != r.ruleSets.value)
    || now.picks != r.picks
  }

  predicate Counts(r: Record, now: Reading, change: Change) { change != Unchanged || Differs(r, now) }

  function Refreshed(r: Record, now: Reading, change: Change): Record {
    r.(providers := Some(now.providers), ruleSets := Some(now.ruleSets), picks := now.picks,
       epoch := if change == Reset then r.epoch + 1 else r.epoch,
       version := if Counts(r, now, change) then r.version + 1 else r.version)
  }

  /** The record after a watch call with this stamp; handle names the poller it would start. */
  function Watched(r: Record, watch: bool, stamp: nat, handle: nat): Record {
    if stamp < r.watchSeq then r
    else r.(watchSeq := stamp, watched := watch,
            poller := if !watch then None else if r.poller.None? then Some(handle) else r.poller)
  }

  function Stopped(r: Record, stamp: nat): Record {
    r.(watchSeq := if r.watchSeq < stamp then stamp else r.watchSeq, watched := false, poller := None)
  }

  function Max(a: Change, b: Change): Change {
    if a == Reset || b == Reset then Reset else if a == Moved || b == Moved then Moved else Unchanged
  }

  /** The tracker as the source updates it, field by field under its lock. */
  class Tracker {
    var epoch: nat
    var version: nat
    var picks: map<string, string>
    var providers: Option<map<string, nat>>
    var ruleSets: Option<map<string, nat>>
    var watched: bool
    var watchSeq: nat
    var stopPoll: Option<nat>
    var cancelled: set<nat>

    function View(): Record
      reads this
    {
      Record(epoch, version, picks, providers, ruleSets, watched, watchSeq, stopPoll)
    }

    constructor ()
      ensures View() == NEW_RECORD && cancelled == {}
    {
      epoch, version, picks, providers, ruleSets := 0, 0, map[], None, None;
      watched, watchSeq, stopPoll, cancelled := false, 0, None, {};
    }

    /** The part of refreshRouteLocked under the tracker's lock; Some is what it goes on to publish. */
    method Refresh(now: Reading, requested: Change) returns (publish: Option<RouteState>)
      modifies this
      ensures View() == Refreshed(old(View()), now, requested) && cancelled == old(cancelled)
      ensures publish == if Counts(old(View()), now, requested) && old(watched) then Some(Stamp(View())) else None
    {
      hide Differs;
      var change := requested;
      if Differs(View(), now) { change := Max(change, Moved); }
      providers, ruleSets, picks := Some(now.providers), Some(now.ruleSets), now.picks;
      if change == Reset { epoch := epoch + 1; }
      if change == Unchanged { return None; }
      version := version + 1;
      if !watched { return None; }
      publish := Some(RouteState(epoch, version));
    }

    method StopPoll()
      modifies this`stopPoll, this`cancelled
      ensures stopPoll == None
      ensures cancelled == old(cancelled) + (if old(stopPoll).Some? then {old(stopPoll).value} else {})
    {
      if stopPoll.Some? {
        cancelled := cancelled + {stopPoll.value};
        stopPoll := None;
      }
    }

    method HandleWatch(watch: bool, seqno: nat, handle: nat) returns (state: RouteState)
      modifies this
      ensures View() == Watched(old(View()), watch, seqno, handle) && state == RouteState(epoch, version)
      ensures seqno < old(watchSeq) ==> View() == old(View())
      ensures seqno >= old(watchSeq) ==>
        && watchSeq == seqno && watched == watch
        && stopPoll == (if !watch then None else if old(stopPoll).None? then Some(handle) else old(stopPoll))
      ensures cancelled
          == old(cancelled) + (if old(stopPoll).Some? && stopPoll.None? then {old(stopPoll).value} else {})
    {
      if seqno < watchSeq { return RouteState(epoch, version); }
      watchSeq := seqno;
      watched := watch;
      if watch && stopPoll.None? { stopPoll := Some(handle); }
      if !watch { StopPoll(); }
      state := RouteState(epoch, version);
    }

    /** The whole call when nothing comes between its refresh and its decision. */
    method WatchRoute(now: Reading, watch: bool, seqno: nat, handle: nat)
      returns (publish: Option<RouteState>, state: RouteState)
      modifies this
      ensures View() == Watched(Refreshed(old(View()), now, Unchanged), watch, seqno, handle) && state == Stamp(View())
      ensures publish == if Differs(old(View()), now) && old(watched)
          then Some(Stamp(Refreshed(old(View()), now, Unchanged))) else None
    {
      hide Differs;
      publish := Refresh(now, Unchanged);
      state := HandleWatch(watch, seqno, handle);
    }

    method StopWatch(stamp: nat)
      modifies this
      ensures View() == Stopped(old(View()), stamp)
      ensures watchSeq == (if old(watchSeq) < stamp then stamp else old(watchSeq)) && !watched && stopPoll == None
      ensures cancelled == old(cancelled) + (if old(stopPoll).Some? then {old(stopPoll).value} else {})
    {
      if watchSeq < stamp { watchSeq := stamp; }
      watched := false;
      StopPoll();
    }
  }

  // ----- Checking routes -----

  datatype Hit = Hit(host: string, proxy: string, exit: string)

  datatype Key = Key(host: string, proxy: string)

  datatype Check = Check(stamp: RouteState, held: seq<bool>)

  /** Whether a route still leaves where the host last saw it leave, each hit resolved anew. */
  predicate Holds(route: seq<Hit>, resolve: Key -> string) {
    route != [] && forall h | h in route :: resolve(Key(h.host, h.proxy)) == h.exit
  }

  /** The same by the answers of one check: every hit was answered, with the exit the host saw. */
  predicate Confirmed(route: seq<Hit>, first: map<Key, string>) {
    route != [] && forall h | h in route :: Key(h.host, h.proxy) in first && first[Key(h.host, h.proxy)] == h.exit
  }

  /** Some hit was answered with another exit, or there was none to answer. */
  predicate Denied(route: seq<Hit>, first: map<Key, string>) {
    route == [] || exists h | h in route :: Key(h.host, h.proxy) in first && first[Key(h.host, h.proxy)] != h.exit
  }

  /** Every answer the map has was one of the first n resolutions. */
  ghost predicate Asked(first: map<Key, string>, answers: (nat, Key) -> string, n: nat) {
    forall k | k in first :: exists i: nat :: i < n && first[k] == answers(i, k)
  }

  lemma AskedOnce(first: map<Key, string>, answers: (nat, Key) -> string, n: nat, key: Key)
    requires Asked(first, answers, n)
    ensures Asked(first[key := answers(n, key)], answers, n + 1)
  {
    var more := first[key := answers(n, key)];
    forall k | k in more ensures exists i: nat :: i < n + 1 && more[k] == answers(i, k) {
      if k == key {
        assert more[k] == answers(n, k);
      } else {
        var i: nat :| i < n && first[k] == answers(i, k);
        assert more[k] == answers(i, k);
      }
    }
  }

  /** Each host and proxy is resolved at most once, whatever later resolutions would have said: the verdicts are those
      of these first answers, and of resolving anew when the answers do not change. */
  method CheckRoutes(routes: seq<seq<Hit>>, stamp: RouteState, answers: (nat, Key) -> string)
    returns (check: Check, first: map<Key, string>)
    ensures check.stamp == stamp && |check.held| == |routes|
    ensures Asked(first, answers, |first|)
    ensures forall i ::
      0 <= i < |routes| ==> if check.held[i] then Confirmed(routes[i], first) else Denied(routes[i], first)
    ensures (forall n, k :: answers(n, k) == answers(0, k)) ==>
              forall i :: 0 <= i < |routes| ==> (check.held[i] <==> Holds(routes[i], k => answers(0, k)))
  {
    hide Confirmed, Denied, Holds, Asked;
    first := map[];
    NothingAsked(answers);
    var held: seq<bool> := [];
    for index := 0 to |routes|
      invariant |held| == index && Asked(first, answers, |first|)
      invariant forall i :: 0 <= i < index ==> if held[i] then Confirmed(routes[i], first) else Denied(routes[i], first)
    {
      var holds;
      ghost var known := first;
      holds, first := CheckRoute(routes[index], first, answers);
      forall i | 0 <= i < index ensures if held[i] then Confirmed(routes[i], first) else Denied(routes[i], first) {
        AnswersStay(routes[i], known, first);
      }
      held := held + [holds];
    }
    check := Check(stamp, held);
    if forall n, k :: answers(n, k) == answers(0, k) {
      forall i | 0 <= i < |routes| ensures check.held[i] <==> Holds(routes[i], k => answers(0, k)) {
        SteadyAnswers(routes[i], first, answers, |first|);
      }
    }
  }

  ghost predicate Extends(first: map<Key, string>, more: map<Key, string>) {
    forall k | k in first :: k in more && more[k] == first[k]
  }

  lemma NothingAsked(answers: (nat, Key) -> string)
    ensures Asked(map[], answers, 0)
  {
  }

  lemma AnswersStay(route: seq<Hit>, first: map<Key, string>, more: map<Key, string>)
    requires Extends(first, more)
    ensures Confirmed(route, first) ==> Confirmed(route, more)
    ensures Denied(route, first) ==> Denied(route, more)
  {
  }

  lemma SteadyAnswers(route: seq<Hit>, first: map<Key, string>, answers: (nat, Key) -> string, n: nat)
    requires Asked(first, answers, n) && forall i, k :: answers(i, k) == answers(0, k)
    ensures Confirmed(route, first) ==> Holds(route, k => answers(0, k))
    ensures Denied(route, first) ==> !Holds(route, k => answers(0, k))
  {
  }

  /** One route: its hits in order, up to the first one that left elsewhere. */
  method CheckRoute(route: seq<Hit>, known: map<Key, string>, answers: (nat, Key) -> string)
    returns (holds: bool, first: map<Key, string>)
    requires Asked(known, answers, |known|)
    ensures Extends(known, first) && Asked(first, answers, |first|)
    ensures if holds then Confirmed(route, first) else Denied(route, first)
  {
    hide Asked;
    first := known;
    holds := |route| > 0;
    var j := 0;
    while j < |route| && holds
      invariant 0 <= j <= |route| && Extends(known, first) && Asked(first, answers, |first|)
      invariant holds ==> route != [] && Answered(route, j, first)
      invariant !holds ==> Denied(route, first)
    {
      var hit := route[j];
      var key := Key(hit.host, hit.proxy);
      if key !in first {
        AskedOnce(first, answers, |first|, key);
        first := first[key := answers(|first|, key)];
      }
      if first[key] != hit.exit {
        assert hit in route;
        holds := false;
      }
      j := j + 1;
    }
  }

  /** The first j hits were answered with the exit the host saw. */
  ghost predicate Answered(route: seq<Hit>, j: nat, first: map<Key, string>) {
    forall i | 0 <= i < j
        && i < |route| ::
            Key(route[i].host, route[i].proxy) in first && first[Key(route[i].host, route[i].proxy)] == route[i].exit
  }
}
