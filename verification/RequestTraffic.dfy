/** The watch on open requests' traffic, and the one goroutine that reports it (core/request_traffic.go). */
module RequestTraffic {

  type Id = string

  datatype Totals = Totals(upload: int, download: int)

  /** A watched request: its last reported totals, and how often it has been collected since it closed. */
  datatype Watched = Watched(totals: Totals, isFresh: bool, closedReports: nat)

  datatype Report = Report(id: Id, totals: Totals)

  const CLOSE_RETRIES: nat := 5

  /** What one collection finds: which requests are still open, the counters it reads, and whether a report is taken. */
  datatype Round = Round(open: set<Id>, counters: Id -> Totals, accepts: bool)

  // ----- One collection -----

  function Aged(id: Id, r: Watched, round: Round): Watched {
    r.(isFresh := false,
       closedReports := if r.closedReports > 0 || (!r.isFresh && id !in round.open) then r.closedReports + 1
           else r.closedReports)
  }

  predicate Changed(id: Id, r: Watched, round: Round) { round.counters(id) != r.totals }

  predicate Queued(requests: map<Id, Watched>, round: Round) {
    round.accepts || forall id | id in requests :: !Changed(id, requests[id], round)
  }

  /** A closed request is given up once a report went through, or after more than five refusals. */
  predicate GivenUp(aged: Watched, queued: bool) {
    aged.closedReports > 0 && (queued || aged.closedReports > CLOSE_RETRIES)
  }

  predicate Dropped(id: Id, r: Watched, round: Round, queued: bool) {
    GivenUp(Aged(id, r, round), queued)
  }

  function Collected(requests: map<Id, Watched>, round: Round): map<Id, Watched> {
    var queued := Queued(requests, round);
    map id | id in requests && !Dropped(id, requests[id], round, queued) ::
      if queued then Aged(id, requests[id], round).(totals := round.counters(id)) else Aged(id, requests[id], round)
  }

  /** Exactly the changed ones of some requests, each once. */
  ghost predicate Reports(changed: seq<Report>, requests: map<Id, Watched>, some: set<Id>, round: Round) {
    && (forall i | 0 <= i < |changed| ::
          changed[i].id in requests && changed[i].id in some
          && requests[changed[i].id].totals != round.counters(changed[i].id)
          && changed[i].totals == round.counters(changed[i].id))
    && (forall i, j :: 0 <= i < j < |changed| ==> changed[i].id != changed[j].id)
    && (forall id | id in requests && id in some && requests[id].totals != round.counters(id) ::
          exists i :: 0 <= i < |changed| && changed[i].id == id)
  }

  lemma NothingReported(requests: map<Id, Watched>, round: Round)
    ensures Reports([], requests, {}, round)
  {
  }

  lemma ReportsGrow(changed: seq<Report>, requests: map<Id, Watched>, some: set<Id>, id: Id, round: Round)
    requires Reports(changed, requests, some, round) && id in requests && id !in some
    ensures var more := if Changed(id, requests[id], round) then changed + [Report(id, round.counters(id))]
        else changed;
      Reports(more, requests, some + {id}, round)
  {
    var more := if Changed(id, requests[id], round) then changed + [Report(id, round.counters(id))] else changed;
    forall other | other in requests && other in some + {id} && requests[other].totals != round.counters(other)
      ensures exists i :: 0 <= i < |more| && more[i].id == other
    {
      if other in some {
        var i :| 0 <= i < |changed| && changed[i].id == other;
        assert more[i].id == other;
      } else {
        assert more[|changed|].id == other;
      }
    }
  }

  /** The host has been told everything this collection found, or there was nothing to tell. */
  ghost predicate Heard(requests: map<Id, Watched>, round: Round) {
    round.accepts || forall id | id in requests :: requests[id].totals == round.counters(id)
  }

  /** How often a request has been collected since it closed: what has closed stays closed, and a fresh request that the
      manager does not list yet may still be opening. */
  ghost function Closings(id: Id, r: Watched, round: Round): nat {
    if r.closedReports == 0 && (r.isFresh || id in round.open) then 0 else r.closedReports + 1
  }

  /** One collection, request by request: a closed one goes when the host has heard everything, or at the sixth
      collection at the latest; one that stays is no longer fresh, and keeps its old totals unless they were heard. */
  lemma CollectionMeans(requests: map<Id, Watched>, round: Round, id: Id)
    requires id in requests
    ensures var r, after := requests[id], Collected(requests, round);
      && (id in after <==>
            Closings(id, r, round) == 0 || (!Heard(requests, round) && Closings(id, r, round) <= 5))
      && (id in after ==>
            after[id] == Watched(if Heard(requests, round) then round.counters(id) else r.totals, false,
                                 Closings(id, r, round)))
    ensures forall other | other in Collected(requests, round) :: other in requests
  {
    assert Heard(requests, round) == Queued(requests, round);
  }

  class Watch {
    var requests: map<Id, Watched>
    var running: bool

    constructor ()
      ensures requests == map[] && !running
    {
      requests, running := map[], false;
    }

    method Add(id: Id, totals: Totals) returns (start: bool)
      modifies this
      ensures requests == old(requests)[id := Watched(totals, true, 0)]
      ensures running && start == !old(running)
    {
      requests := requests[id := Watched(totals, true, 0)];
      start := !running;
      running := true;
    }

    method Collect(round: Round) returns (watching: bool, changed: seq<Report>)
      modifies this
      ensures requests == Collected(old(requests), round)
      ensures running == watching == (requests != map[])
      ensures Reports(changed, old(requests), old(requests).Keys, round)
    {
      changed := AgeAll(round);
      var queued := |changed| == 0 || round.accepts;
      assert queued == Queued(old(requests), round) by {
        if |changed| > 0 { assert Changed(changed[0].id, old(requests)[changed[0].id], round); }
      }
      if queued { StoreAll(changed, round, old(requests)); }
      Drop(queued);
      assert requests == Collected(old(requests), round);
      running := |requests| > 0;
      watching := running;
    }

    method AgeAll(round: Round) returns (changed: seq<Report>)
      modifies this`requests
      ensures requests.Keys == old(requests).Keys
      ensures forall id | id in requests :: requests[id] == Aged(id, old(requests)[id], round)
      ensures Reports(changed, old(requests), old(requests).Keys, round)
    {
      hide Aged, Reports;
      changed := [];
      NothingReported(requests, round);
      var left := requests.Keys;
      ghost var done: set<Id> := {};
      while left != {}
        invariant left !! done && left + done == requests.Keys == old(requests).Keys
        invariant forall id | id in requests ::
          requests[id] == if id in done then Aged(id, old(requests)[id], round) else old(requests)[id]
        invariant Reports(changed, old(requests), done, round)
        decreases left
      {
        var id :| id in left;
        left := left - {id};
        var totals := round.counters(id);
        ReportsGrow(changed, old(requests), done, id, round);
        if totals != requests[id].totals { changed := changed + [Report(id, totals)]; }
        requests := requests[id := Aged(id, requests[id], round)];
        done := done + {id};
      }
      assert done == old(requests).Keys;
    }

    method StoreAll(changed: seq<Report>, round: Round, ghost was: map<Id, Watched>)
      requires requests.Keys == was.Keys && Reports(changed, was, was.Keys, round)
      requires forall id | id in requests :: requests[id] == Aged(id, was[id], round)
      modifies this`requests
      ensures requests.Keys == was.Keys
      ensures forall id | id in requests :: requests[id] == Aged(id, was[id], round).(totals := round.counters(id))
    {
      for n := 0 to |changed|
        invariant requests.Keys == was.Keys
        invariant forall id | id in requests ::
          requests[id] == Aged(id, was[id], round)
          || requests[id] == Aged(id, was[id], round).(totals := round.counters(id))
        invariant forall i | 0 <= i < n ::
          requests[changed[i].id] == Aged(changed[i].id, was[changed[i].id], round).(totals := changed[i].totals)
      {
        var r := changed[n];
        requests := requests[r.id := requests[r.id].(totals := r.totals)];
      }
    }

    method Drop(queued: bool)
      modifies this`requests
      ensures requests == map id | id in old(requests) && !GivenUp(old(requests)[id], queued) :: old(requests)[id]
    {
      var left := requests.Keys;
      while left != {}
        invariant left <= requests.Keys
        invariant requests == map id | id in old(requests) && (id in left || !GivenUp(old(requests)[id], queued))
                                    :: old(requests)[id]
        decreases left
      {
        var id :| id in left;
        left := left - {id};
        if GivenUp(requests[id], queued) { requests := requests - {id}; }
      }
    }

    method Clear()
      modifies this
      ensures requests == map[] && !running
    {
      requests := map[];
      running := false;
    }
  }

  // ----- Every run -----

  /** What the host has been told of a request, starting with what it was announced with. */
  datatype Told = Announced(id: Id, totals: Totals) | Reported(id: Id, totals: Totals)

  /** collectors counts the goroutines still ticking; refused counts the collections in a row whose report was not
      taken. */
  datatype State = State(requests: map<Id, Watched>, running: bool, collectors: nat, told: seq<Told>, refused: nat)

  datatype Event = Add(id: Id, totals: Totals) | Tick(listening: bool, round: Round, order: seq<Id>)

  const START := State(map[], false, 0, [], 0)

  /** The accepted reports of a round, in the order the collection met them. */
  function ReportsIn(order: seq<Id>, requests: map<Id, Watched>, round: Round): seq<Told> {
    if order == [] then []
    else
      var id := order[|order| - 1];
      ReportsIn(order[..|order| - 1], requests, round) +
      if id in requests && Changed(id, requests[id], round) then [Reported(id, round.counters(id))] else []
  }

  function Next(s: State, e: Event): State {
    match e
    case Add(id, totals) =>
      s.(requests := s.requests[id := Watched(totals, true, 0)], running := true,
         collectors := if s.running then s.collectors else s.collectors + 1, told := s.told + [Announced(id, totals)])
    case Tick(listening, round, order) =>
      if s.collectors == 0 then s
      else if !listening then s.(requests := map[], running := false, collectors := s.collectors - 1)
      else if !(forall id | id in s.requests :: id in order) then s
      else
        var queued := Queued(s.requests, round);
        var after := Collected(s.requests, round);
        s.(requests := after, running := after != map[], collectors := if after == map[] then s.collectors - 1
            else s.collectors,
           told := if queued then s.told + ReportsIn(order, s.requests, round) else s.told,
           refused := if queued then 0 else s.refused + 1)
  }

  function Run(events: seq<Event>): State {
    if events == [] then START else Next(Run(events[..|events| - 1]), events[|events| - 1])
  }

  /** The last totals the host was told for a request. */
  function LastTold(told: seq<Told>, id: Id): Totals {
    if told == [] then Totals(0, 0)
    else if told[|told| - 1].id == id then told[|told| - 1].totals
    else LastTold(told[..|told| - 1], id)
  }

  ghost predicate OneCollector(s: State) {
    && (s.running <==> s.requests != map[]) && s.collectors == (if s.running then 1 else 0)
  }

  ghost predicate Settled(s: State) {
    forall id | id in s.requests ::
      s.requests[id].totals == LastTold(s.told, id) && s.requests[id].closedReports <= s.refused
      && s.requests[id].closedReports <= 5 && (s.requests[id].isFresh ==> s.requests[id].closedReports == 0)
  }

  lemma {:induction false} TellingAll(told: seq<Told>, order: seq<Id>, requests: map<Id, Watched>, round: Round, id: Id)
    requires id in requests
    ensures LastTold(told + ReportsIn(order, requests, round), id)
         == if id in order && Changed(id, requests[id], round) then round.counters(id) else LastTold(told, id)
  {
    var news := ReportsIn(order, requests, round);
    if order == [] {
      assert told + news == told;
    } else {
      var n := |order| - 1;
      var before := ReportsIn(order[..n], requests, round);
      TellingAll(told, order[..n], requests, round, id);
      if news == before {
        assert order[n] == id ==> !Changed(id, requests[id], round);
      } else {
        assert (told + news)[..|told + news| - 1] == told + before;
      }
      assert id in order <==> id in order[..n] || id == order[n];
    }
  }

  lemma TickSettles(s: State, round: Round, order: seq<Id>)
    requires Settled(s) && s.collectors > 0 && forall id | id in s.requests :: id in order
    ensures Settled(Next(s, Tick(true, round, order)))
  {
    hide ReportsIn, LastTold;
    forall id | id in s.requests {
      TellingAll(s.told, order, s.requests, round, id);
    }
  }

  lemma AddSettles(s: State, id: Id, totals: Totals)
    requires Settled(s)
    ensures Settled(Next(s, Add(id, totals)))
  {
    var told := s.told + [Announced(id, totals)];
    assert told[..|told| - 1] == s.told;
  }

  lemma StepKeepsOneCollector(s: State, e: Event)
    requires OneCollector(s)
    ensures OneCollector(Next(s, e))
  {
    hide Collected, ReportsIn, Queued;
    if e.Add? { assert e.id in Next(s, e).requests; }
  }

  lemma NothingWatchedAtStart()
    ensures OneCollector(START) && START.told == [] && START.refused == 0
  {
  }

  /** Safety over whole runs: requests are watched exactly while one collector runs, and what is stored is what the host
      was last told. */
  lemma {:induction false} EveryRunIsSettled(events: seq<Event>)
    ensures OneCollector(Run(events)) && Settled(Run(events))
  {
    hide Queued, Dropped, LastTold, ReportsIn, OneCollector;
    if events == [] {
      NothingWatchedAtStart();
    } else {
      var before, e := Run(events[..|events| - 1]), events[|events| - 1];
      EveryRunIsSettled(events[..|events| - 1]);
      StepKeepsOneCollector(before, e);
      match e
      case Add(id, totals) => AddSettles(before, id, totals);
      case Tick(listening, round, order) =>
        if listening && before.collectors > 0 && forall id | id in before.requests :: id in order {
          TickSettles(before, round, order);
        }
    }
  }

  /** A collection lets go of a request only once the host knows its counters as just read, or after six refusals in a
      row. */
  lemma DroppedIsSettled(events: seq<Event>, round: Round, order: seq<Id>, id: Id)
    requires var s := Run(events); id in s.requests && id !in Next(s, Tick(true, round, order)).requests
    ensures var t := Next(Run(events), Tick(true, round, order));
      LastTold(t.told, id) == round.counters(id) || t.refused > 5
  {
    hide Run, ReportsIn, LastTold;
    EveryRunIsSettled(events);
    TellingAll(Run(events).told, order, Run(events).requests, round, id);
  }

  /** A request that has closed is held for five further collections at most: each one that keeps it counts, and was
      refused. */
  lemma {:induction false} ClosedIsHeldBriefly(events: seq<Event>, round: Round, order: seq<Id>, id: Id)
    requires var s := Run(events);
      id in s.requests && !s.requests[id].isFresh && id !in round.open
          && id in Next(s, Tick(true, round, order)).requests
      && forall other | other in s.requests :: other in order
    ensures var s, t := Run(events), Next(Run(events), Tick(true, round, order));
      t.requests[id].closedReports == s.requests[id].closedReports + 1 <= 5 && t.refused == s.refused + 1
  {
    hide Run, ReportsIn, LastTold;
    EveryRunIsSettled(events);
  }

  /** A collection never lets go of a request it has not collected before, nor of one that is still open. */
  lemma OpenIsKept(events: seq<Event>, round: Round, order: seq<Id>, id: Id)
    requires var s := Run(events);
      id in s.requests && (s.requests[id].isFresh || (id in round.open && s.requests[id].closedReports == 0))
    ensures id in Next(Run(events), Tick(true, round, order)).requests
  {
    hide Run, ReportsIn, LastTold, Queued;
    EveryRunIsSettled(events);
  }

  /** A request survives the first collection after it was added, whether or not the manager lists it yet. */
  lemma NewIsKept(events: seq<Event>, id: Id, totals: Totals, round: Round, order: seq<Id>)
    ensures id in Next(Next(Run(events), Add(id, totals)), Tick(true, round, order)).requests
  {
    hide Run, ReportsIn, LastTold, Queued;
  }

  /** A collection nobody listens for forgets every request and ends its collector. */
  lemma UnheardClears(events: seq<Event>, round: Round, order: seq<Id>)
    ensures var t := Next(Run(events), Tick(false, round, order));
      t.requests == map[] && !t.running && t.collectors == 0 && t.told == Run(events).told
  {
    hide Run, ReportsIn, LastTold, Settled;
    EveryRunIsSettled(events);
  }

  lemma RunGoesOn(events: seq<Event>, e: Event)
    ensures Run([]) == START && Run(events + [e]) == Next(Run(events), e)
  {
    assert (events + [e])[..|events|] == events;
  }

  /** Refusals are counted from the last collection that was heard, and tell the host nothing. */
  lemma RefusalsAreCounted(events: seq<Event>, round: Round, order: seq<Id>)
    requires Run(events).collectors > 0 && forall id | id in Run(events).requests :: id in order
    ensures var s, t := Run(events), Next(Run(events), Tick(true, round, order));
      if Heard(s.requests, round) then t.refused == 0 else t.refused == s.refused + 1 && t.told == s.told
  {
    hide Run, ReportsIn, Collected;
    assert Heard(Run(events).requests, round) == Queued(Run(events).requests, round);
  }
}
