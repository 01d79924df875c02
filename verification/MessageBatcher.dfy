/** The three-queue message batcher of core/message.go, one atomic step per select. */
module MessageBatcher {

  datatype MessageType = Loaded | GeoUpdate | RouteChanged | Log | Request | Dns | RequestTraffic | Another

  datatype Message = Message(kind: MessageType, data: int)

  datatype Class = StateClass | PriorityClass | BulkClass | YieldingBulkClass

  datatype Lane = StateLane | PriorityLane | BulkLane

  const BATCH_SIZE: nat := 32
  const QUEUE_SIZE: nat := 256
  const PRIORITY_BURST: nat := 8
  const EVICT_ATTEMPTS: nat := 4

  function ClassOf(m: Message): Class {
    match m.kind
    case Loaded => StateClass
    case GeoUpdate => StateClass
    case RouteChanged => StateClass
    case Log => BulkClass
    case Request => BulkClass
    case Dns => YieldingBulkClass
    case RequestTraffic => YieldingBulkClass
    case Another => PriorityClass
  }

  // ----- Producers -----

  /** Who takes a freed slot before its own producer does. */
  datatype Rival = Nobody | Other(message: Message)

  /** A buffered channel with a single producer. */
  class Channel {
    var queue: seq<Message>

    method EnqueueState(m: Message) returns (queued: bool)
      modifies this
      ensures queued <==> |old(queue)| < 256
      ensures queue == if queued then old(queue) + [m] else old(queue)
    {
      queued := |queue| < QUEUE_SIZE;
      if queued { queue := queue + [m]; }
    }

    /** Makes room by giving up the oldest message. Another producer may take the freed slot first (others tells the
        message it puts there after each attempt); only losing it three times in a row keeps this message out. */
    method EnqueueLatest(m: Message, others: seq<Rival>) returns (queued: bool)
      requires |queue| <= QUEUE_SIZE && |others| == 4
      modifies this
      ensures queued <==> |old(queue)| < 256 || others[0].Nobody? || others[1].Nobody? || others[2].Nobody?
      ensures |old(queue)| < 256 ==> queue == old(queue) + [m]
      ensures queued && |old(queue)| == 256 ==>
        var lost := Lost(others); queue == (old(queue) + Values(others[..lost]))[lost + 1..] + [m]
      ensures !queued ==> queue == (old(queue) + Values(others))[4..]
    {
      queued := false;
      var attempt := 0;
      assert others[..0] == [] && old(queue) + [] == old(queue);
      while attempt < EVICT_ATTEMPTS && !queued
        invariant 0 <= attempt <= EVICT_ATTEMPTS
        invariant !queued && attempt == 0 ==> queue == old(queue)
        invariant !queued && attempt > 0 ==>
          && |old(queue)| == QUEUE_SIZE && queue == (old(queue) + Values(others[..attempt]))[attempt..]
          && (forall i :: 0 <= i < attempt - 1 ==> others[i].Other?)
          && |queue| == (if others[attempt - 1].Other? then QUEUE_SIZE else QUEUE_SIZE - 1)
        invariant queued && |old(queue)| < QUEUE_SIZE ==> queue == old(queue) + [m]
        invariant queued && |old(queue)| == QUEUE_SIZE ==>
          && (exists i :: 0 <= i < 3 && others[i].Nobody?)
          && queue == (old(queue) + Values(others[..Lost(others)]))[Lost(others) + 1..] + [m]
      {
        if |queue| < QUEUE_SIZE {
          LostAt(others, attempt);
          queue := queue + [m];
          queued := true;
        } else {
          ValuesSnoc(others, attempt);
          queue := queue[1..] + (if others[attempt].Other? then [others[attempt].message] else []);
        }
        attempt := attempt + 1;
      }
      assert others[..4] == others;
    }
  }

  /** The messages other producers put in. */
  function Values(others: seq<Rival>): seq<Message> {
    if others == [] then []
    else
      var last := others[|others| - 1];
      Values(others[..|others| - 1]) + if last.Other? then [last.message] else []
  }

  /** How often the freed slot is lost before it is kept. */
  function Lost(others: seq<Rival>): (n: nat)
    ensures n <= |others| && (forall i :: 0 <= i < n ==> others[i].Other?) && (n < |others| ==> others[n].Nobody?)
  {
    if others == [] || others[0].Nobody? then 0 else 1 + Lost(others[1..])
  }

  lemma LostAt(others: seq<Rival>, attempt: nat)
    requires attempt <= |others| && forall i :: 0 <= i < attempt - 1 ==> others[i].Other?
    ensures attempt > 0 && others[attempt - 1].Nobody? ==>
      Lost(others) == attempt - 1 && Values(others[..attempt]) == Values(others[..attempt - 1])
  {
    if attempt > 0 {
      assert others[..attempt][..attempt - 1] == others[..attempt - 1];
      assert Values(others[..attempt - 1]) + [] == Values(others[..attempt - 1]);
    }
  }

  lemma ValuesSnoc(others: seq<Rival>, n: nat)
    requires n < |others|
    ensures Values(others[..n + 1]) == Values(others[..n]) + (if others[n].Other? then [others[n].message] else [])
  {
    assert others[..n + 1][..n] == others[..n];
  }

  /** sendMessage: a message nobody listens for goes nowhere; a heard one goes to its own queue, and the others are left
      alone. Lookup and traffic events share the bulk queue but never push anything out of it. */
  method SendMessage(listening: bool, m: Message, state: Channel, priority: Channel, bulk: Channel)
    returns (queued: bool)
    requires state != priority && priority != bulk && state != bulk
    requires |state.queue| <= QUEUE_SIZE && |priority.queue| <= QUEUE_SIZE && |bulk.queue| <= QUEUE_SIZE
    modifies state, priority, bulk
    ensures state.queue ==
            if listening && m.kind in {Loaded, GeoUpdate, RouteChanged} && |old(state.queue)| < 256
                then old(state.queue) + [m]
            else old(state.queue)
    ensures priority.queue ==
            if listening && m.kind == Another
                then (if |old(priority.queue)| < 256 then old(priority.queue) else old(priority.queue)[1..]) + [m]
            else old(priority.queue)
    ensures bulk.queue ==
            if listening && m.kind in {Log, Request, Dns, RequestTraffic} && |old(bulk.queue)| < 256
                then old(bulk.queue) + [m]
            else if listening && m.kind in {Log, Request} then old(bulk.queue)[1..] + [m]
            else old(bulk.queue)
    ensures m.kind in {Dns, RequestTraffic} ==> old(bulk.queue) <= bulk.queue
    ensures queued <==>
            (listening
             && (m.kind in {Log, Request, Another}
                 || (m.kind in {Loaded, GeoUpdate, RouteChanged} && |old(state.queue)| < 256)
                 || (m.kind in {Dns, RequestTraffic} && |old(bulk.queue)| < 256)))
  {
    if !listening { return false; }
    match ClassOf(m) {
      case StateClass => queued := state.EnqueueState(m);
      case BulkClass => queued := bulk.EnqueueLatest(m, [Nobody, Nobody, Nobody, Nobody]);
      case YieldingBulkClass => queued := bulk.EnqueueState(m);
      case PriorityClass => queued := priority.EnqueueLatest(m, [Nobody, Nobody, Nobody, Nobody]);
    }
  }

  // ----- The batcher -----

  /** A message that left its queue: to the batcher, or pushed out by a producer. */
  datatype Departure = Departure(message: Message, taken: bool)

  /** watched turns false once the batcher has seen the queue closed. */
  datatype Queue = Queue(waiting: seq<Message>, open: bool, watched: bool, arrived: seq<Message>,
      departed: seq<Departure>)

  /** Which select of the loop comes next. */
  datatype Point = Top | BulkTurn | PriorityTurn | Blocked | Finished

  datatype Receipt = Receipt(lane: Lane, message: Message)

  datatype State = State(state: Queue, priority: Queue, bulk: Queue, point: Point, batch: seq<Message>, armed: bool,
                         burst: nat, sent: seq<seq<Message>>, received: seq<Receipt>)

  /** What the blocking select picks: a lane or the flush deadline. */
  datatype Choice = Pick(lane: Lane) | Tick

  /** Producers and closers act between any two selects; Select lets the batcher run its next one. */
  datatype Event = Produce(lane: Lane,
      message: Message) | Evict(lane: Lane) | Close(lane: Lane) | Select(choice: Choice)

  const NEW_QUEUE := Queue([], true, true, [], [])
  const START := State(NEW_QUEUE, NEW_QUEUE, NEW_QUEUE, Top, [], false, 0, [], [])

  function At(s: State, lane: Lane): Queue {
    match lane
    case StateLane => s.state
    case PriorityLane => s.priority
    case BulkLane => s.bulk
  }

  function With(s: State, lane: Lane, q: Queue): State {
    match lane
    case StateLane => s.(state := q)
    case PriorityLane => s.(priority := q)
    case BulkLane => s.(bulk := q)
  }

  predicate Ready(q: Queue) { q.watched && (q.waiting != [] || !q.open) }

  function Flush(s: State): State {
    if s.batch == [] then s else s.(batch := [], armed := false, sent := s.sent + [s.batch])
  }

  function Take(s: State, lane: Lane, m: Message): State {
    var t := s.(armed := s.armed || s.batch == [], batch := s.batch + [m], received := s.received + [Receipt(lane, m)]);
    if |t.batch| >= BATCH_SIZE then Flush(t) else t
  }

  function Depart(q: Queue, taken: bool): Queue
    requires q.waiting != []
  {
    q.(waiting := q.waiting[1..], departed := q.departed + [Departure(q.waiting[0], taken)])
  }

  /** One receive from a ready queue: its head, or the news that it is closed. */
  function Receive(s: State, lane: Lane): State {
    var q := At(s, lane);
    if q.waiting == [] then With(s, lane, q.(watched := false))
    else Take(With(s, lane, Depart(q, true)), lane, q.waiting[0])
  }

  /** The burst counter after receiving from a lane: only a priority message that was really taken counts. */
  function BurstAfter(s: State, lane: Lane): nat {
    match lane
    case StateLane => s.burst
    case PriorityLane => if s.priority.waiting == [] then s.burst else s.burst + 1
    case BulkLane => 0
  }

  function Pull(s: State, lane: Lane): State { Receive(s, lane).(point := Top, burst := BurstAfter(s, lane)) }

  /** The batcher's next select. */
  function Selected(s: State, choice: Choice): State {
    match s.point
    case Top =>
      if !s.state.watched && !s.priority.watched && !s.bulk.watched then Flush(s).(point := Finished)
      else if Ready(s.state) then Pull(s, StateLane)
      else s.(point := BulkTurn)
    case BulkTurn =>
      if s.burst >= PRIORITY_BURST && s.bulk.watched then
        if Ready(s.bulk) then Pull(s, BulkLane) else s.(burst := 0, point := PriorityTurn)
      else s.(point := PriorityTurn)
    case PriorityTurn => if Ready(s.priority) then Pull(s, PriorityLane) else s.(point := Blocked)
    case Blocked =>
      (match choice
       case Tick => if s.armed then Flush(s).(point := Top) else s
       case Pick(lane) => if Ready(At(s, lane)) then Pull(s, lane) else s)
    case Finished => s
  }

  function Next(s: State, e: Event): State {
    match e
    case Produce(lane, m) =>
      var q := At(s, lane);
      if !q.open || |q.waiting| >= QUEUE_SIZE then s
      else With(s, lane, q.(waiting := q.waiting + [m], arrived := q.arrived + [m]))
    case Evict(lane) => if At(s, lane).waiting == [] then s else With(s, lane, Depart(At(s, lane), false))
    case Close(lane) => With(s, lane, At(s, lane).(open := false))
    case Select(choice) => Selected(s, choice)
  }

  function RunFrom(s: State, events: seq<Event>): State {
    if events == [] then s else Next(RunFrom(s, events[..|events| - 1]), events[|events| - 1])
  }

  function Run(events: seq<Event>): State { RunFrom(START, events) }

  /** The loop's own variables, updated in place. */
  class Batcher {
    var state: Queue
    var priority: Queue
    var bulk: Queue
    var point: Point
    var batch: seq<Message>
    var armed: bool
    var burst: nat
    var sent: seq<seq<Message>>
    ghost var received: seq<Receipt>

    ghost function View(): State
      reads this
    {
      State(state, priority, bulk, point, batch, armed, burst, sent, received)
    }

    constructor ()
      ensures View() == START
    {
      state, priority, bulk := NEW_QUEUE, NEW_QUEUE, NEW_QUEUE;
      point, batch, armed, burst, sent, received := Top, [], false, 0, [], [];
    }

    method FlushBatch()
      modifies this
      ensures View() == Flush(old(View()))
    {
      if batch == [] { return; }
      armed := false;
      var current := batch;
      batch := [];
      sent := sent + [current];
    }

    method TakeMessage(lane: Lane, m: Message)
      modifies this
      ensures View() == Take(old(View()), lane, m)
    {
      if batch == [] { armed := true; }
      batch := batch + [m];
      received := received + [Receipt(lane, m)];
      if |batch| >= BATCH_SIZE { FlushBatch(); }
    }

    method ReceiveFrom(lane: Lane)
      requires Ready(At(View(), lane))
      modifies this
      ensures View() == Pull(old(View()), lane)
    {
      match lane {
        case StateLane =>
          if state.waiting == [] {
            state := state.(watched := false);
          } else {
            var m := state.waiting[0];
            state := Depart(state, true);
            TakeMessage(lane, m);
          }
        case PriorityLane =>
          if priority.waiting == [] {
            priority := priority.(watched := false);
          } else {
            var m := priority.waiting[0];
            priority := Depart(priority, true);
            TakeMessage(lane, m);
            burst := burst + 1;
          }
        case BulkLane =>
          burst := 0;
          if bulk.waiting == [] {
            bulk := bulk.(watched := false);
          } else {
            var m := bulk.waiting[0];
            bulk := Depart(bulk, true);
            TakeMessage(lane, m);
          }
      }
      point := Top;
    }

    /** The select the loop is at; choice is what a blocking one happens to pick. */
    method SelectOnce(choice: Choice)
      modifies this
      ensures View() == Selected(old(View()), choice)
    {
      hide Pull, Flush;
      match point {
        case Top =>
          if !state.watched && !priority.watched && !bulk.watched {
            FlushBatch();
            point := Finished;
          } else if Ready(state) {
            ReceiveFrom(StateLane);
          } else {
            point := BulkTurn;
          }
        case BulkTurn =>
          if burst >= PRIORITY_BURST && bulk.watched {
            if Ready(bulk) {
              ReceiveFrom(BulkLane);
            } else {
              burst := 0;
              point := PriorityTurn;
            }
          } else {
            point := PriorityTurn;
          }
        case PriorityTurn =>
          if Ready(priority) {
            ReceiveFrom(PriorityLane);
          } else {
            point := Blocked;
          }
        case Blocked =>
          match choice {
            case Tick =>
              if armed {
                FlushBatch();
                point := Top;
              }
            case Pick(lane) =>
              var queue := match lane case StateLane => state case PriorityLane => priority case BulkLane => bulk;
              if Ready(queue) { ReceiveFrom(lane); }
          }
        case Finished =>
      }
    }
  }

  // ----- Conservation -----

  function Concat(batches: seq<seq<Message>>): seq<Message> {
    if batches == [] then [] else Concat(batches[..|batches| - 1]) + batches[|batches| - 1]
  }

  function Messages(received: seq<Receipt>): seq<Message> {
    if received == [] then [] else Messages(received[..|received| - 1]) + [received[|received| - 1].message]
  }

  /** What the batcher took from one lane, in the order it took it. */
  function FromLane(received: seq<Receipt>, lane: Lane): seq<Message> {
    if received == [] then []
    else
      var r := received[|received| - 1];
      FromLane(received[..|received| - 1], lane) + (if r.lane == lane then [r.message] else [])
  }

  function Left(departed: seq<Departure>): seq<Message> {
    if departed == [] then [] else Left(departed[..|departed| - 1]) + [departed[|departed| - 1].message]
  }

  function Taken(departed: seq<Departure>): seq<Message> {
    if departed == [] then []
    else
      var d := departed[|departed| - 1];
      Taken(departed[..|departed| - 1]) + (if d.taken then [d.message] else [])
  }

  /** Everything that arrived has left or waits, in order, and what was taken is what the batcher received from the
      lane. */
  ghost predicate LaneKept(q: Queue, received: seq<Receipt>, lane: Lane) {
    && q.arrived == Left(q.departed) + q.waiting
    && Taken(q.departed) == FromLane(received, lane)
    && (!q.watched ==> !q.open && q.waiting == [])
    && |q.waiting| <= 256
  }

  ghost predicate BatchKept(s: State) {
    && Concat(s.sent) + s.batch == Messages(s.received)
    && (forall b | b in s.sent :: 1 <= |b| <= 32)
    && |s.batch| < 32 && (s.armed <==> s.batch != [])
  }

  ghost predicate Kept(s: State) {
    && BatchKept(s)
    && LaneKept(s.state, s.received, StateLane)
    && LaneKept(s.priority, s.received, PriorityLane)
    && LaneKept(s.bulk, s.received, BulkLane)
  }

  /** Eight priority messages at most since bulk was last served, and fewer past the bulk turn. */
  ghost predicate BurstBounded(s: State) {
    && (s.bulk.watched ==> s.burst <= 8)
    && (s.bulk.watched && s.point in {PriorityTurn, Blocked} ==> s.burst < 8)
    && (s.point.Finished? ==> s.batch == [] && !s.state.watched && !s.priority.watched && !s.bulk.watched)
  }

  lemma ConcatSnoc(batches: seq<seq<Message>>, b: seq<Message>)
    ensures Concat(batches + [b]) == Concat(batches) + b
  {
    assert (batches + [b])[..|batches|] == batches;
  }

  lemma ReceivedSnoc(received: seq<Receipt>, r: Receipt, lane: Lane)
    ensures Messages(received + [r]) == Messages(received) + [r.message]
    ensures FromLane(received + [r], lane) == FromLane(received, lane) + (if r.lane == lane then [r.message] else [])
  {
    assert (received + [r])[..|received|] == received;
  }

  lemma DepartedSnoc(departed: seq<Departure>, d: Departure)
    ensures Left(departed + [d]) == Left(departed) + [d.message]
    ensures Taken(departed + [d]) == Taken(departed) + (if d.taken then [d.message] else [])
  {
    assert (departed + [d])[..|departed|] == departed;
  }

  lemma FlushKeeps(s: State)
    requires BatchKept(s)
    ensures BatchKept(Flush(s)) && Flush(s).batch == []
  {
    ConcatSnoc(s.sent, s.batch);
    assert Concat(s.sent) + s.batch + [] == Concat(s.sent) + s.batch;
  }

  lemma TakeKeeps(s: State, lane: Lane, m: Message)
    requires BatchKept(s)
    ensures BatchKept(Take(s, lane, m)) && Take(s, lane, m).received == s.received + [Receipt(lane, m)]
  {
    hide Concat, Messages, FromLane;
    ReceivedSnoc(s.received, Receipt(lane, m), lane);
    assert Concat(s.sent) + (s.batch + [m]) == (Concat(s.sent) + s.batch) + [m];
    ConcatSnoc(s.sent, s.batch + [m]);
    assert Concat(s.sent) + (s.batch + [m]) + [] == Concat(s.sent) + (s.batch + [m]);
  }

  lemma DepartKeeps(q: Queue, received: seq<Receipt>, lane: Lane)
    requires LaneKept(q, received, lane) && q.waiting != []
    ensures LaneKept(Depart(q, false), received, lane)
    ensures LaneKept(Depart(q, true), received + [Receipt(lane, q.waiting[0])], lane)
  {
    DepartedSnoc(q.departed, Departure(q.waiting[0], false));
    DepartedSnoc(q.departed, Departure(q.waiting[0], true));
    ReceivedSnoc(received, Receipt(lane, q.waiting[0]), lane);
    assert Left(q.departed) + q.waiting == Left(q.departed) + [q.waiting[0]] + q.waiting[1..];
    assert Taken(q.departed) + [] == Taken(q.departed);
  }

  lemma OtherLaneKept(q: Queue, received: seq<Receipt>, lane: Lane, r: Receipt)
    requires LaneKept(q, received, lane) && r.lane != lane
    ensures LaneKept(q, received + [r], lane)
  {
    ReceivedSnoc(received, r, lane);
    assert FromLane(received, lane) + [] == FromLane(received, lane);
  }

  lemma {:induction false} ReceiveKeeps(s: State, lane: Lane)
    requires Kept(s) && Ready(At(s, lane))
    ensures Kept(Receive(s, lane))
  {
    hide BatchKept, LaneKept, Take;
    var q := At(s, lane);
    if q.waiting == [] {
      ClosedKeeps(q, s.received, lane);
      BatchFrame(s, Receive(s, lane));
    } else {
      var r := Receipt(lane, q.waiting[0]);
      var t := With(s, lane, Depart(q, true));
      BatchFrame(s, t);
      TakeKeeps(t, lane, r.message);
      TakeFrame(t, lane, r.message);
      DepartKeeps(q, s.received, lane);
      if lane != StateLane { OtherLaneKept(s.state, s.received, StateLane, r); }
      if lane != PriorityLane { OtherLaneKept(s.priority, s.received, PriorityLane, r); }
      if lane != BulkLane { OtherLaneKept(s.bulk, s.received, BulkLane, r); }
    }
  }

  lemma TakeFrame(s: State, lane: Lane, m: Message)
    ensures var t := Take(s, lane, m);
      t.state == s.state && t.priority == s.priority && t.bulk == s.bulk && t.point == s.point && t.burst == s.burst
  {
  }

  lemma ClosedKeeps(q: Queue, received: seq<Receipt>, lane: Lane)
    requires LaneKept(q, received, lane) && q.waiting == [] && !q.open
    ensures LaneKept(q.(watched := false), received, lane)
  {
  }

  lemma BatchFrame(s: State, t: State)
    requires BatchKept(s)
    requires t.batch == s.batch && t.armed == s.armed && t.sent == s.sent && t.received == s.received
    ensures BatchKept(t)
  {
  }

  lemma ArrivalKeeps(q: Queue, received: seq<Receipt>, lane: Lane, m: Message)
    requires LaneKept(q, received, lane)
    ensures q.open && |q.waiting| < QUEUE_SIZE
        ==> LaneKept(q.(waiting := q.waiting + [m], arrived := q.arrived + [m]), received, lane)
    ensures LaneKept(q.(open := false), received, lane)
  {
    assert Left(q.departed) + (q.waiting + [m]) == Left(q.departed) + q.waiting + [m];
  }

  lemma {:induction false} PullKeeps(s: State, lane: Lane)
    requires Kept(s) && Ready(At(s, lane))
    ensures Kept(Pull(s, lane))
  {
    hide BatchKept, LaneKept, Receive;
    ReceiveKeeps(s, lane);
    BatchFrame(Receive(s, lane), Pull(s, lane));
  }

  lemma {:induction false} SelectKeeps(s: State, choice: Choice)
    requires Kept(s)
    ensures Kept(Selected(s, choice))
  {
    hide BatchKept, LaneKept, Pull, Flush;
    FlushedIsKept(s);
    forall t: State | t.batch == s.batch && t.armed == s.armed && t.sent == s.sent && t.received == s.received
      ensures BatchKept(t)
    {
      BatchFrame(s, t);
    }
    forall lane | Ready(At(s, lane)) ensures Kept(Pull(s, lane)) { PullKeeps(s, lane); }
  }

  lemma FlushedIsKept(s: State)
    requires Kept(s)
    ensures forall p: Point :: Kept(Flush(s).(point := p))
  {
    hide LaneKept;
    FlushKeeps(s);
  }

  lemma {:induction false} StepKeeps(s: State, e: Event)
    requires Kept(s)
    ensures Kept(Next(s, e))
  {
    hide BatchKept, LaneKept, Selected;
    match e
    case Select(choice) => SelectKeeps(s, choice);
    case Produce(lane, m) =>
      ArrivalKeeps(At(s, lane), s.received, lane, m);
      BatchFrame(s, Next(s, e));
    case Close(lane) =>
      ArrivalKeeps(At(s, lane), s.received, lane, Message(Another, 0));
      BatchFrame(s, Next(s, e));
    case Evict(lane) =>
      if At(s, lane).waiting != [] { DepartKeeps(At(s, lane), s.received, lane); }
      BatchFrame(s, Next(s, e));
  }

  /** Every select takes from one lane, or takes nothing. */
  lemma SelectedShape(s: State, choice: Choice) returns (pulls: bool, lane: Lane)
    ensures var t := Selected(s, choice);
      if pulls then
        && t == Pull(s, lane) && Ready(At(s, lane)) && !s.point.Finished?
        && (s.point.Top? ==> lane == StateLane)
        && (lane == PriorityLane ==> s.point in {PriorityTurn, Blocked})
        && (lane == BulkLane ==> s.point.Blocked? || (s.point.BulkTurn? && s.burst >= PRIORITY_BURST))
      else
        && t.received == s.received && t.state == s.state && t.priority == s.priority && t.bulk == s.bulk
        && (t.burst == s.burst || (t.burst == 0 && s.burst >= PRIORITY_BURST && s.bulk.watched && !Ready(s.bulk)))
        && (s.point.Top? ==> !Ready(s.state))
        && (t.point in {PriorityTurn, Blocked} && s.point !in {PriorityTurn, Blocked} && s.bulk.watched
            ==> t.burst < PRIORITY_BURST)
        && (t.point == Finished
            ==> (s == t || (t.batch == [] && !s.state.watched && !s.priority.watched && !s.bulk.watched)))
        && (t.point == BulkTurn ==> s.point == Top)
        && (t.point == Blocked && s.point != Blocked ==> !Ready(s.priority))
        && (t.point == Top ==> s.point in {Blocked, Top})
  {
    hide Pull;
    match s.point
    case Top => pulls, lane := Ready(s.state), StateLane;
    case BulkTurn => pulls, lane := s.burst >= PRIORITY_BURST && Ready(s.bulk), BulkLane;
    case PriorityTurn => pulls, lane := Ready(s.priority), PriorityLane;
    case Blocked => lane := if choice.Pick? then choice.lane
        else StateLane; pulls := choice.Pick? && Ready(At(s, lane));
    case Finished => pulls, lane := false, StateLane;
  }

  lemma PullFrame(s: State, lane: Lane)
    ensures var t := Pull(s, lane);
      && t.point == Top && t.burst == BurstAfter(s, lane)
      && (lane != StateLane ==> t.state == s.state) && (lane != PriorityLane ==> t.priority == s.priority)
      && (lane != BulkLane ==> t.bulk == s.bulk) && (t.bulk.watched ==> s.bulk.watched)
  {
  }

  lemma SelectBounds(s: State, choice: Choice)
    requires BurstBounded(s)
    ensures BurstBounded(Selected(s, choice))
  {
    hide Pull, Selected;
    var pulls, lane := SelectedShape(s, choice);
    if pulls { PullFrame(s, lane); }
  }

  lemma StepBounds(s: State, e: Event)
    requires BurstBounded(s)
    ensures BurstBounded(Next(s, e))
  {
    hide Selected;
    if e.Select? { SelectBounds(s, e.choice); }
  }

  /** Safety over whole runs: nothing is lost, duplicated or reordered, and batches stay within their size. */
  lemma {:induction false} EveryRunConserves(events: seq<Event>)
    ensures Kept(Run(events)) && BurstBounded(Run(events))
  {
    hide Next, Kept, BurstBounded;
    if events == [] {
      StartIsKept();
    } else {
      EveryRunConserves(events[..|events| - 1]);
      StepKeeps(Run(events[..|events| - 1]), events[|events| - 1]);
      StepBounds(Run(events[..|events| - 1]), events[|events| - 1]);
    }
  }

  lemma StartIsKept()
    ensures Kept(START) && BurstBounded(START)
    ensures START.state == START.priority == START.bulk == Queue([], true, true, [], [])
    ensures START.point.Top? && START.burst == 0 && START.received == []
  {
  }

  lemma RunGoesOn(s: State, events: seq<Event>, e: Event)
    ensures RunFrom(s, []) == s && RunFrom(s, events + [e]) == Next(RunFrom(s, events), e)
  {
    assert (events + [e])[..|events|] == events;
  }

  /** A priority message that was really taken counts towards the burst; bulk starts it over. */
  lemma BurstCounts(s: State)
    ensures Pull(s, StateLane).burst == s.burst && Pull(s, BulkLane).burst == 0
    ensures Pull(s, PriorityLane).burst == s.burst + if s.priority.waiting == [] then 0 else 1
  {
  }

  lemma {:induction false} NothingEvicted(departed: seq<Departure>)
    requires forall d | d in departed :: d.taken
    ensures Taken(departed) == Left(departed)
  {
    if departed != [] {
      NothingEvicted(departed[..|departed| - 1]);
    }
  }

  /** Once the loop has ended, the sent batches are exactly what was taken, and a lane nobody evicted from was taken
      whole. */
  lemma FinishedSentEverything(events: seq<Event>, lane: Lane)
    requires Run(events).point.Finished?
    ensures var s := Run(events);
      && Concat(s.sent) == Messages(s.received)
      && At(s, lane).waiting == [] && At(s, lane).arrived == Left(At(s, lane).departed)
      && Taken(At(s, lane).departed) == FromLane(s.received, lane)
      && ((forall d | d in At(s, lane).departed :: d.taken) ==> FromLane(s.received, lane) == At(s, lane).arrived)
  {
    hide Run;
    EveryRunConserves(events);
    var s := Run(events);
    assert Concat(s.sent) + [] == Concat(s.sent);
    assert Left(At(s, lane).departed) + [] == Left(At(s, lane).departed);
    if forall d | d in At(s, lane).departed :: d.taken { NothingEvicted(At(s, lane).departed); }
  }

  // ----- Bounded bypass -----

  /** How many messages the batcher has taken from a lane. */
  function TakenFrom(s: State, lane: Lane): nat { |FromLane(s.received, lane)| }

  /** The lane has something waiting at every moment of the window. */
  predicate BusyThroughout(s: State, events: seq<Event>, lane: Lane) {
    && At(RunFrom(s, events), lane).waiting != []
    && (events != [] ==> BusyThroughout(s, events[..|events| - 1], lane))
  }

  lemma PullTakes(s: State, lane: Lane, other: Lane)
    ensures TakenFrom(Pull(s, lane), other)
        == TakenFrom(s, other) + (if lane == other && At(s, lane).waiting != [] then 1 else 0)
  {
    hide FromLane;
    if At(s, lane).waiting != [] { ReceivedSnoc(s.received, Receipt(lane, At(s, lane).waiting[0]), other); }
  }

  lemma EnvironmentTakesNothing(s: State, e: Event)
    requires !e.Select?
    ensures Next(s, e).received == s.received && Next(s, e).burst == s.burst && Next(s, e).point == s.point
  {
  }

  /** One step pays for a priority message out of the burst counter, which only a bulk message resets. */
  lemma {:induction false} BulkStep(s: State, e: Event)
    requires Kept(s) && BurstBounded(s) && s.bulk.waiting != []
    ensures var t := Next(s, e);
      && TakenFrom(s, BulkLane) <= TakenFrom(t, BulkLane)
      && TakenFrom(t, PriorityLane) + s.burst <=
         TakenFrom(s, PriorityLane) + t.burst + 8 * (TakenFrom(t, BulkLane) - TakenFrom(s, BulkLane))
  {
    hide Concat, Messages, FromLane, Pull, Selected;
    if e.Select? {
      var pulls, lane := SelectedShape(s, e.choice);
      PullFrame(s, lane);
      PullTakes(s, lane, PriorityLane);
      PullTakes(s, lane, BulkLane);
    } else {
      EnvironmentTakesNothing(s, e);
    }
  }

  lemma {:induction false} BulkWindow(s: State, events: seq<Event>)
    requires Kept(s) && BurstBounded(s) && BusyThroughout(s, events, BulkLane)
    ensures var t := RunFrom(s, events);
      && Kept(t) && BurstBounded(t) && TakenFrom(s, BulkLane) <= TakenFrom(t, BulkLane)
      && TakenFrom(t, PriorityLane) + s.burst <=
         TakenFrom(s, PriorityLane) + t.burst + 8 * (TakenFrom(t, BulkLane) - TakenFrom(s, BulkLane))
  {
    hide Kept, BurstBounded, Next, TakenFrom;
    if events != [] {
      var shorter := events[..|events| - 1];
      BulkWindow(s, shorter);
      var mid := RunFrom(s, shorter);
      StepKeeps(mid, events[|events| - 1]);
      StepBounds(mid, events[|events| - 1]);
      BulkStep(mid, events[|events| - 1]);
    }
  }

  /** While bulk messages wait, at most eight priority messages are taken per bulk message, and eight before
      the first. */
  lemma {:induction false} PriorityYieldsToBulk(before: seq<Event>, window: seq<Event>)
    requires BusyThroughout(Run(before), window, BulkLane)
    ensures var s, t := Run(before), RunFrom(Run(before), window);
      TakenFrom(t, PriorityLane) - TakenFrom(s, PriorityLane) <=
      8 * (TakenFrom(t, BulkLane) - TakenFrom(s, BulkLane)) + 8
  {
    hide Run, Next;
    EveryRunConserves(before);
    BulkWindow(Run(before), window);
  }

  /** Bulk is paid for too: with a full burst at its own turn, or once with the race for a blocked batcher. */
  function Race(s: State): nat { if s.point.Blocked? then 8 else 0 }

  lemma {:induction false} PriorityStep(s: State, e: Event)
    requires Kept(s) && s.priority.waiting != []
    ensures var t := Next(s, e);
      && TakenFrom(s, PriorityLane) <= TakenFrom(t, PriorityLane) && TakenFrom(s, BulkLane) <= TakenFrom(t, BulkLane)
      && 8 * (TakenFrom(t, BulkLane) - TakenFrom(s, BulkLane)) + t.burst + Race(t) <=
         TakenFrom(t, PriorityLane) - TakenFrom(s, PriorityLane) + s.burst + Race(s)
  {
    hide Concat, Messages, FromLane, Pull, Selected;
    if e.Select? {
      var pulls, lane := SelectedShape(s, e.choice);
      PullFrame(s, lane);
      PullTakes(s, lane, PriorityLane);
      PullTakes(s, lane, BulkLane);
    } else {
      EnvironmentTakesNothing(s, e);
    }
  }

  lemma {:induction false} PriorityWindow(s: State, events: seq<Event>)
    requires Kept(s) && BurstBounded(s) && BusyThroughout(s, events, PriorityLane)
    ensures var t := RunFrom(s, events);
      && Kept(t) && BurstBounded(t)
      && TakenFrom(s, PriorityLane) <= TakenFrom(t, PriorityLane) && TakenFrom(s, BulkLane) <= TakenFrom(t, BulkLane)
      && 8 * (TakenFrom(t, BulkLane) - TakenFrom(s, BulkLane)) + t.burst + Race(t) <=
         TakenFrom(t, PriorityLane) - TakenFrom(s, PriorityLane) + s.burst + Race(s)
      && (!s.bulk.watched ==> !t.bulk.watched && TakenFrom(t, BulkLane) == TakenFrom(s, BulkLane))
  {
    hide Kept, BurstBounded, Next, TakenFrom, Race;
    if events != [] {
      var shorter := events[..|events| - 1];
      PriorityWindow(s, shorter);
      var mid := RunFrom(s, shorter);
      StepKeeps(mid, events[|events| - 1]);
      StepBounds(mid, events[|events| - 1]);
      PriorityStep(mid, events[|events| - 1]);
      if !mid.bulk.watched { UnwatchedStays(mid, events[|events| - 1]); }
    }
  }

  lemma UnwatchedStays(s: State, e: Event)
    requires !s.bulk.watched
    ensures !Next(s, e).bulk.watched && TakenFrom(Next(s, e), BulkLane) == TakenFrom(s, BulkLane)
  {
    hide FromLane, Pull;
    if e.Select? {
      var pulls, lane := SelectedShape(s, e.choice);
      PullFrame(s, lane);
      PullTakes(s, lane, BulkLane);
    } else {
      EnvironmentTakesNothing(s, e);
    }
  }

  /** While priority messages wait, bulk gets one turn for eight of them, and two turns more at most. */
  lemma {:induction false} BulkYieldsToPriority(before: seq<Event>, window: seq<Event>)
    requires BusyThroughout(Run(before), window, PriorityLane)
    ensures var s, t := Run(before), RunFrom(Run(before), window);
      8 * (TakenFrom(t, BulkLane) - TakenFrom(s, BulkLane)) <=
      TakenFrom(t, PriorityLane) - TakenFrom(s, PriorityLane) + 16
  {
    hide Run, Next, TakenFrom;
    EveryRunConserves(before);
    PriorityWindow(Run(before), window);
  }

  function Others(s: State): nat { TakenFrom(s, PriorityLane) + TakenFrom(s, BulkLane) }

  /** Past the top of the loop one other message may still go first. */
  function Credit(s: State): nat { if s.point in {BulkTurn, PriorityTurn, Blocked} then 1 else 0 }

  lemma {:induction false} StateStep(s: State, e: Event)
    requires Kept(s) && BurstBounded(s) && s.state.waiting != []
    ensures Others(Next(s, e)) + Credit(Next(s, e)) <= Others(s) + Credit(s)
  {
    hide Concat, Messages, FromLane, Pull, Selected;
    if e.Select? {
      var pulls, lane := SelectedShape(s, e.choice);
      PullFrame(s, lane);
      PullTakes(s, lane, PriorityLane);
      PullTakes(s, lane, BulkLane);
    } else {
      EnvironmentTakesNothing(s, e);
    }
  }

  lemma {:induction false} StateWindow(s: State, window: seq<Event>)
    requires Kept(s) && BurstBounded(s) && BusyThroughout(s, window, StateLane)
    ensures Kept(RunFrom(s, window)) && BurstBounded(RunFrom(s, window))
    ensures Others(RunFrom(s, window)) + Credit(RunFrom(s, window)) <= Others(s) + Credit(s)
  {
    hide Kept, BurstBounded, Next, Others, Credit;
    if window != [] {
      var shorter := window[..|window| - 1];
      StateWindow(s, shorter);
      StepKeeps(RunFrom(s, shorter), window[|window| - 1]);
      StepBounds(RunFrom(s, shorter), window[|window| - 1]);
      StateStep(RunFrom(s, shorter), window[|window| - 1]);
    }
  }

  /** While state messages wait, at most one message of any other lane is taken. */
  lemma StateGoesFirst(before: seq<Event>, window: seq<Event>)
    requires BusyThroughout(Run(before), window, StateLane)
    ensures Others(RunFrom(Run(before), window)) <= Others(Run(before)) + 1
  {
    hide Run, Next;
    EveryRunConserves(before);
    StateWindow(Run(before), window);
  }

  // ----- What producers and closers do to the queues -----

  ghost predicate OthersAlone(s: State, t: State, lane: Lane) {
    && (forall other | other != lane :: At(t, other) == At(s, other))
    && t.point == s.point && t.batch == s.batch && t.armed == s.armed && t.burst == s.burst && t.sent == s.sent
    && t.received == s.received
  }

  /** A message offered to an open queue with room waits behind the others; what is evicted is the oldest; closing
      drops nothing. */
  lemma EnvironmentActs(s: State, lane: Lane, m: Message)
    ensures var q, t := At(s, lane), Next(s, Produce(lane, m));
      OthersAlone(s, t, lane)
      && At(t, lane) == if q.open && |q.waiting| < 256
                        then Queue(q.waiting + [m], true, q.watched, q.arrived + [m], q.departed) else q
    ensures var q, t := At(s, lane), Next(s, Evict(lane));
      OthersAlone(s, t, lane)
      && At(t, lane) == if q.waiting == [] then q
                        else Queue(q.waiting[1..], q.open, q.watched, q.arrived,
                                   q.departed + [Departure(q.waiting[0], false)])
    ensures var q, t := At(s, lane), Next(s, Close(lane));
      OthersAlone(s, t, lane) && At(t, lane) == Queue(q.waiting, false, q.watched, q.arrived, q.departed)
  {
  }

  // ----- When batches are sent -----

  /** A batch goes out when it is full, when the deadline fires while the batcher waits, or at the end. */
  lemma SentOnlyWhenDue(s: State, e: Event)
    requires Kept(s)
    ensures var t := Next(s, e);
      t.sent == s.sent
      || exists b :: t.sent == s.sent + [b]
                     && (|b| == 32 || (e == Select(Tick) && s.point.Blocked? && s.armed) || t.point.Finished?)
  {
    hide Concat, Messages, FromLane;
    SentBefore(s, e);
    var t := Next(s, e);
    if t.sent != s.sent { assert t.sent == s.sent + [t.sent[|s.sent|]]; }
  }

  ghost predicate SentOne(s: State, t: State) { |t.sent| == |s.sent| + 1 && t.sent[..|s.sent|] == s.sent }

  lemma SentBefore(s: State, e: Event)
    requires Kept(s)
    ensures var t := Next(s, e);
      t.sent != s.sent ==>
        && SentOne(s, t)
        && (|t.sent[|s.sent|]| == 32 || (e == Select(Tick) && s.point.Blocked? && s.armed) || t.point.Finished?)
  {
    hide Concat, Messages, FromLane, Pull, Flush, LaneKept;
    FlushSends(s);
    if e.Select? {
      forall lane ensures Pull(s, lane).sent != s.sent ==>
                            SentOne(s, Pull(s, lane)) && |Pull(s, lane).sent[|s.sent|]| == 32 {
        PullSends(s, lane);
      }
    }
  }

  lemma FlushSends(s: State)
    ensures Flush(s).sent != s.sent ==> SentOne(s, Flush(s))
  {
  }

  lemma PullSends(s: State, lane: Lane)
    requires BatchKept(s)
    ensures var t := Pull(s, lane); t.sent != s.sent ==> SentOne(s, t) && |t.sent[|s.sent|]| == 32
  {
    hide Concat, Messages;
  }

  /** The deadline fires only while something is due, and leaves nothing that was taken unsent. */
  lemma {:induction false} DeadlineFlushes(events: seq<Event>)
    requires Run(events).point.Blocked?
    ensures var s := Run(events);
      var t := Next(s, Select(Tick));
      && Concat(t.sent) == Messages(s.received) && t.received == s.received && t.batch == [] && !t.armed
      && t.state == s.state && t.priority == s.priority && t.bulk == s.bulk
      && (s.armed <==> Concat(s.sent) != Messages(s.received)) && (s.armed ==> t.point.Top?)
  {
    hide Run, Messages, LaneKept;
    EveryRunConserves(events);
    TickSends(Run(events));
  }

  lemma TickSends(s: State)
    requires Kept(s) && s.point.Blocked?
    ensures var t := Next(s, Select(Tick));
      && Concat(t.sent) == Concat(s.sent) + s.batch && t.received == s.received && t.batch == [] && !t.armed
      && t.state == s.state && t.priority == s.priority && t.bulk == s.bulk && (s.armed ==> t.point.Top?)
      && (s.batch != [] ==> Concat(s.sent) + s.batch != Concat(s.sent))
      && (s.batch == [] ==> Concat(s.sent) + s.batch == Concat(s.sent))
  {
    hide Messages, LaneKept;
    ConcatSnoc(s.sent, s.batch);
    assert |Concat(s.sent) + s.batch| == |Concat(s.sent)| + |s.batch|;
  }

  /** Nothing waits in the queue, and it is open or known to be closed. */
  ghost predicate Quiet(q: Queue) { q.waiting == [] && (q.open || !q.watched) }

  /** On quiet queues everything taken is sent within four selects, whatever the loop was doing. */
  lemma {:induction false} IdleFlushes(events: seq<Event>)
    requires var s := Run(events); Quiet(s.state) && Quiet(s.priority) && Quiet(s.bulk)
    ensures var s, t := Run(events), RunFrom(Run(events), [Select(Tick), Select(Tick), Select(Tick), Select(Tick)]);
      Concat(t.sent) == Messages(s.received) && t.received == s.received && !t.armed
  {
    hide Run, Kept, Concat, Messages, Next;
    EveryRunConserves(events);
    var s0 := Run(events);
    FourTicks(s0);
    var s1 := Next(s0, Select(Tick));
    var s2 := Next(s1, Select(Tick));
    var s3 := Next(s2, Select(Tick));
    var s4 := Next(s3, Select(Tick));
    IdleStep(s0);
    IdleStep(s1);
    IdleStep(s2);
    IdleStep(s3);
    SentWhenDisarmed(s4);
  }

  lemma FourTicks(s: State)
    ensures var tick := Select(Tick);
      RunFrom(s, [tick, tick, tick, tick]) == Next(Next(Next(Next(s, tick), tick), tick), tick)
  {
    hide Next;
    var tick := Select(Tick);
    assert [tick, tick, tick, tick][..3] == [tick, tick, tick] && [tick, tick, tick][..2] == [tick, tick]
           && [tick, tick][..1] == [tick] && [tick][..0] == [];
    assert RunFrom(s, [tick]) == Next(s, tick);
    assert RunFrom(s, [tick, tick]) == Next(Next(s, tick), tick);
    assert RunFrom(s, [tick, tick, tick]) == Next(Next(Next(s, tick), tick), tick);
  }

  /** How far the loop is from its next flush. */
  function ToFlush(s: State): nat {
    if !s.armed then 0
    else match s.point { case Top => 4 case BulkTurn => 3 case PriorityTurn => 2 case Blocked => 1 case Finished => 0 }
  }

  ghost predicate Idle(s: State) { Kept(s) && BurstBounded(s) && Quiet(s.state) && Quiet(s.priority) && Quiet(s.bulk) }

  lemma IdleStep(s: State)
    requires Idle(s)
    ensures var t := Next(s, Select(Tick));
      Idle(t) && t.received == s.received && ToFlush(t) <= (if ToFlush(s) > 0 then ToFlush(s) - 1 else 0)
  {
    hide Kept, Concat, Messages, Pull;
    StepKeeps(s, Select(Tick));
    StepBounds(s, Select(Tick));
    FlushIsAside(s);
  }

  lemma SentWhenDisarmed(s: State)
    requires Idle(s) && ToFlush(s) == 0
    ensures !s.armed && Concat(s.sent) == Messages(s.received)
  {
    hide Concat, Messages, LaneKept;
    assert Concat(s.sent) + [] == Concat(s.sent);
  }

  // ----- The loop ends when its queues are closed -----

  /** What the blocking select can really do: take from a ready lane, or notice a deadline that is set. */
  predicate Enabled(s: State, choice: Choice) {
    s.point.Blocked? ==> match choice { case Tick => s.armed case Pick(lane) => Ready(At(s, lane)) }
  }

  ghost predicate AllEnabled(s: State, choices: seq<Choice>)
    decreases |choices|
  {
    choices != [] ==>
      Enabled(s, choices[0]) && AllEnabled(Next(s, Select(choices[0])), choices[1..])
  }

  function After(s: State, choices: seq<Choice>): State
    decreases |choices|
  {
    if choices == [] then s else After(Next(s, Select(choices[0])), choices[1..])
  }

  ghost predicate AllClosed(s: State) { !s.state.open && !s.priority.open && !s.bulk.open }

  function Pending(q: Queue): nat { |q.waiting| + if q.watched then 1 else 0 }

  function AllPending(s: State): nat { Pending(s.state) + Pending(s.priority) + Pending(s.bulk) }

  /** Bounds the selects still to come once the queues are closed. */
  function Remaining(s: State): nat {
    match s.point
    case Finished => 0
    case _ =>
      10 * AllPending(s) + (if s.armed then 5 else 0)
      + match s.point { case Top => 4 case BulkTurn => 3 case PriorityTurn => 2 case Blocked => 1 case Finished => 0 }
  }

  lemma {:induction false} ClosedStep(s: State, choice: Choice)
    requires Kept(s) && AllClosed(s) && Enabled(s, choice) && !s.point.Finished?
    ensures var t := Next(s, Select(choice));
      AllClosed(t) && Remaining(t) < Remaining(s)
  {
    hide Concat, Messages, FromLane, Left, Taken, Pull, Flush;
    var pulls, lane := SelectedShape(s, choice);
    FlushIsAside(s);
    if pulls { PullPends(s, lane); } else { SelectedMoves(s, choice); }
  }

  /** A select that takes nothing moves the loop on. */
  lemma SelectedMoves(s: State, choice: Choice)
    requires Enabled(s, choice) && !s.point.Finished? && Selected(s, choice).received == s.received
    requires Selected(s, choice).state == s.state && Selected(s, choice).priority == s.priority
             && Selected(s, choice).bulk == s.bulk
    ensures var t := Selected(s, choice);
      || (s.point.Top? && (t.point.Finished? || (t.point.BulkTurn? && t.armed == s.armed)))
      || (s.point.BulkTurn? && t.point.PriorityTurn? && t.armed == s.armed)
      || (s.point.PriorityTurn? && t.point.Blocked? && t.armed == s.armed)
      || (s.point.Blocked? && s.armed && t == Flush(s).(point := Top))
  {
    hide Take, Flush;
    forall lane | Ready(At(s, lane)) ensures AllPending(Pull(s, lane)) < AllPending(s) { PullPends(s, lane); }
  }

  lemma PullPends(s: State, lane: Lane)
    requires Ready(At(s, lane))
    ensures var t := Pull(s, lane);
      && t.point.Top? && AllPending(t) == AllPending(s) - 1
      && t.state.open == s.state.open && t.priority.open == s.priority.open && t.bulk.open == s.bulk.open
  {
    if At(s, lane).waiting != [] { TakeFrame(With(s, lane, Depart(At(s, lane), true)), lane, At(s, lane).waiting[0]); }
  }

  lemma FlushIsAside(s: State)
    ensures var t := Flush(s);
      t.state == s.state && t.priority == s.priority && t.bulk == s.bulk && t.burst == s.burst
          && t.received == s.received
    ensures Kept(s) ==> !Flush(s).armed
  {
  }

  /** Once every queue is closed the loop ends, in a bounded number of selects, and by then it has sent all it took. */
  lemma {:induction false} ClosedQueuesFinish(before: seq<Event>, choices: seq<Choice>)
    requires AllClosed(Run(before)) && AllEnabled(Run(before), choices) && |choices| >= Remaining(Run(before))
    ensures var t := After(Run(before), choices);
      && t.point.Finished? && Concat(t.sent) == Messages(t.received)
      && t.state.waiting == [] && t.priority.waiting == [] && t.bulk.waiting == []
  {
    hide Run;
    EveryRunConserves(before);
    ClosedRunsOut(Run(before), choices);
  }

  lemma {:induction false} ClosedRunsOut(s: State, choices: seq<Choice>)
    requires Kept(s) && BurstBounded(s) && AllClosed(s) && AllEnabled(s, choices) && |choices| >= Remaining(s)
    ensures var t := After(s, choices);
      && t.point.Finished? && Concat(t.sent) == Messages(t.received)
      && t.state.waiting == [] && t.priority.waiting == [] && t.bulk.waiting == []
    decreases |choices|
  {
    hide Kept, BurstBounded, Next, Concat, Messages, Remaining, AllClosed;
    if choices == [] {
      OnlyFinishedIsOver(s);
      AtTheEnd(s);
    } else {
      var t := Next(s, Select(choices[0]));
      StepKeeps(s, Select(choices[0]));
      StepBounds(s, Select(choices[0]));
      if s.point.Finished? { StaysFinished(s, choices[0]); } else { ClosedStep(s, choices[0]); }
      ClosedRunsOut(t, choices[1..]);
    }
  }

  lemma StaysFinished(s: State, choice: Choice)
    requires s.point.Finished?
    ensures Next(s, Select(choice)) == s && Remaining(s) == 0
  {
  }

  lemma OnlyFinishedIsOver(s: State)
    requires Remaining(s) == 0
    ensures s.point.Finished?
  {
  }

  lemma AtTheEnd(s: State)
    requires Kept(s) && BurstBounded(s) && s.point.Finished?
    ensures Concat(s.sent) == Messages(s.received)
    ensures s.state.waiting == [] && s.priority.waiting == [] && s.bulk.waiting == []
  {
    hide Concat, Messages;
    assert Concat(s.sent) + [] == Concat(s.sent);
  }
}
