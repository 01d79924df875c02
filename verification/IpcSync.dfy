/** Every run of senders, connection losses and reconnections leaves each connection's stream in sync. */
module IpcSync {
  import opened Bytes
  import opened IpcFraming

  /** The send holding the write lock. */
  datatype Sending = Sending(id: nat, frame: seq<byte>, written: nat)

  /** A send that has returned, with the number of bytes its connection accepted and whether it failed. */
  datatype Sent = Sent(id: nat, frame: seq<byte>, written: nat, failed: bool)

  datatype State = State(current: Option<nat>, closed: set<nat>, wires: map<nat, seq<byte>>, writing: Option<Sending>,
      history: seq<Sent>)

  /** Steps at lock boundaries; one that is not possible leaves the state alone. */
  datatype Event =
    | Attach(id: nat)
    | Shutdown
    | Begin(frame: seq<byte>)
    | Accept(n: nat)
    | Finish(failed: bool)

  const START := State(None, {}, map[], None, [])

  function Next(s: State, e: Event): State {
    match e
    case Attach(id) => if id in s.wires then s else s.(current := Some(id), wires := s.wires[id := []])
    case Shutdown => if s.current.None? then s else s.(current := None, closed := s.closed + {s.current.value})
    case Begin(frame) =>
      if s.writing.Some? || s.current.None? then s else s.(writing := Some(Sending(s.current.value, frame, 0)))
    case Accept(n) =>
      if s.writing.None? then s
      else
        var w := s.writing.value;
        if w.id in s.closed || w.id !in s.wires || |w.frame| > MAX_FRAME || w.written + n > |Encode(w.frame)| then s
        else
          s.(writing := Some(w.(written := w.written + n)),
             wires := s.wires[w.id := s.wires[w.id] + Encode(w.frame)[w.written..w.written + n]])
    case Finish(failed) =>
      if s.writing.None? || (!failed && s.writing.value.written != |Encode(s.writing.value.frame)|) then s
      else
        var w := s.writing.value;
        var done := s.(writing := None, history := s.history + [Sent(w.id, w.frame, w.written, failed)]);
        if OutcomeOf(w.written, failed).Torn?
        then done.(current := if s.current == Some(w.id) then None else s.current, closed := s.closed + {w.id})
        else done
  }

  function Run(events: seq<Event>): State {
    if events == [] then START else Next(Run(events[..|events| - 1]), events[|events| - 1])
  }

  lemma RunGoesOn(events: seq<Event>, e: Event)
    ensures Run([]) == START && Run(events + [e]) == Next(Run(events), e)
  {
    assert (events + [e])[..|events|] == events;
  }

  function LineOf(s: State, id: nat): Line
    requires id in s.wires
  {
    Line(s.wires[id], id in s.closed, s.current == Some(id))
  }

  /** A send that has returned, undisturbed, is three steps: they leave its connection as the writer does, record the
      send, and touch no other connection. */
  lemma {:induction false} SendIsThreeSteps(s: State, data: seq<byte>, written: nat, failed: bool)
    requires s.writing.None? && s.current.Some? && s.current.value in s.wires && written <= |Encode(data)|
    requires written > 0 ==> s.current.value !in s.closed && |data| <= 0x400_0000
    requires !failed ==> written == |Encode(data)|
    ensures var id, t := s.current.value, Next(Next(Next(s, Begin(data)), Accept(written)), Finish(failed));
      && t.wires.Keys == s.wires.Keys && LineOf(t, id) == SendOn(LineOf(s, id), data, written, failed)
      && t.writing.None? && t.history == s.history + [Sent(id, data, written, failed)]
      && forall other | other in s.wires && other != id :: LineOf(t, other) == LineOf(s, other)
  {
    hide Encode;
    var id := s.current.value;
    assert s.wires[id] + [] == s.wires[id];
    if written == 0 { assert Encode(data)[..0] == [] && Encode(data)[0..0] == []; }
  }

  // ----- What closes a connection -----

  /** The connection took part of a frame, or all of it, and the send failed all the same. */
  ghost predicate Failed(s: State, i: nat, id: nat) {
    i < |s.history| && s.history[i].id == id && s.history[i].failed && s.history[i].written > 0
  }

  ghost predicate Blamed(s: State) {
    && (forall id :: id in s.closed <==> exists i: nat :: Failed(s, i, id))
    && (forall i :: 0 <= i < |s.history| && !s.history[i].failed ==> Whole(s.history[i]))
    && (s.current.Some? ==> s.current.value !in s.closed && s.current.value in s.wires)
    && (forall id | id in s.closed :: id in s.wires)
    && (s.writing.Some? ==> s.writing.value.id in s.wires)
  }

  /** Attaching a new connection makes it the current one, with nothing on it; shutting down closes the current one; a
      send picks the current one and what it gets accepted goes there. */
  lemma ConnectionSteps(s: State, id: nat, frame: seq<byte>, n: nat)
    ensures id !in s.wires ==>
      Next(s, Attach(id)) == State(Some(id), s.closed, s.wires[id := []], s.writing, s.history)
    ensures s.current == Some(id) ==>
      Next(s, Shutdown) == State(None, s.closed + {id}, s.wires, s.writing, s.history)
    ensures s.current == Some(id) && s.writing.None? ==>
      Next(s, Begin(frame)) == State(s.current, s.closed, s.wires, Some(Sending(id, frame, 0)), s.history)
    ensures var at := Sending(id, frame, 0);
      s.writing == Some(at) && id in s.wires && id !in s.closed && |frame| <= 0x400_0000 && n <= 4 + |frame| ==>
        Next(s, Accept(n)) == State(s.current, s.closed, s.wires[id := s.wires[id] + Encode(frame)[..n]],
                                    Some(Sending(id, frame, n)), s.history)
  {
    hide Encode;
    EncodedIsNotEmpty(frame);
    if n <= 4 + |frame| { assert Encode(frame)[0..n] == Encode(frame)[..n]; }
  }

  /** A send that failed with bytes on the wire closes its connection and gives it up; any other leaves it alone. */
  lemma FinishMeans(s: State, failed: bool)
    requires s.writing.Some? && (failed || s.writing.value.written == 4 + |s.writing.value.frame|)
    ensures var w, t := s.writing.value, Next(s, Finish(failed));
      var torn := failed && w.written > 0;
      && t.closed == s.closed + (if torn then {w.id} else {})
      && t.current == (if torn && s.current == Some(w.id) then None else s.current)
      && t.wires == s.wires && t.writing == None && t.history == s.history + [Sent(w.id, w.frame, w.written, failed)]
  {
    hide Encode;
    EncodedIsNotEmpty(s.writing.value.frame);
  }

  lemma BlameKept(s: State, e: Event)
    requires Blamed(s) && !e.Shutdown?
    ensures Blamed(Next(s, e))
  {
    hide Encode;
    var t := Next(s, e);
    if e.Finish? && t != s {
      var w := s.writing.value;
      EncodedIsNotEmpty(w.frame);
      FinishMeans(s, e.failed);
      var n := |s.history|;
      assert forall i :: 0 <= i < n ==> t.history[i] == s.history[i];
      forall id ensures id in t.closed <==> exists i: nat :: Failed(t, i, id) {
        if i: nat :| Failed(s, i, id) { assert Failed(t, i, id); }
        if i: nat :| Failed(t, i, id) && i < n { assert Failed(s, i, id); }
        assert Failed(t, n, id) <==> id == w.id && e.failed && w.written > 0;
      }
    } else {
      forall id ensures id in t.closed <==> exists i: nat :: Failed(t, i, id) {
        assert forall i: nat :: Failed(t, i, id) <==> Failed(s, i, id);
      }
    }
  }

  /** Until the process shuts down, the closed connections are exactly those on which a send failed with bytes on the
      wire, and a frame was cut short only by a send that failed. */
  lemma {:induction false} ClosedExactlyWhenTorn(events: seq<Event>)
    requires Shutdown !in events
    ensures var s := Run(events);
      && (forall id :: id in s.closed <==>
            exists h :: h in s.history && h.id == id && h.failed && h.written > 0)
      && (forall h | h in s.history :: !h.failed ==> h.written == 4 + |h.frame|)
      && (s.current.Some? ==> s.current.value !in s.closed)
  {
    hide Next, Blamed, Encode;
    BlamedThroughout(events);
    BlameMeans(Run(events));
  }

  lemma BlameMeans(s: State)
    requires Blamed(s)
    ensures forall id :: id in s.closed <==> exists h :: h in s.history && h.id == id && h.failed && h.written > 0
    ensures forall h | h in s.history :: !h.failed ==> h.written == 4 + |h.frame|
    ensures s.current.Some? ==> s.current.value !in s.closed
  {
    hide Encode;
    forall h | h in s.history && !h.failed ensures h.written == 4 + |h.frame| { EncodedIsNotEmpty(h.frame); }
    forall id ensures id in s.closed <==> exists h :: h in s.history && h.id == id && h.failed && h.written > 0 {
      if i: nat :| Failed(s, i, id) { assert s.history[i] in s.history; }
      if h :| h in s.history && h.id == id && h.failed && h.written > 0 {
        var i: nat :| i < |s.history| && s.history[i] == h;
        assert Failed(s, i, id);
      }
    }
  }

  lemma {:induction false} BlamedThroughout(events: seq<Event>)
    requires Shutdown !in events
    ensures Blamed(Run(events))
  {
    hide Next, Blamed;
    if events == [] {
      StartIsBlamed();
    } else {
      BlamedThroughout(events[..|events| - 1]);
      BlameKept(Run(events[..|events| - 1]), events[|events| - 1]);
    }
  }

  lemma StartIsBlamed()
    ensures Blamed(START)
  {
  }

  // ----- What the streams hold -----

  /** The bytes the finished sends left on a connection. */
  function Stream(history: seq<Sent>, id: nat): seq<byte>
    requires forall h | h in history :: h.written <= |Encode(h.frame)|
  {
    if history == [] then []
    else
      var h := history[|history| - 1];
      Stream(history[..|history| - 1], id) + (if h.id == id then Encode(h.frame)[..h.written] else [])
  }

  predicate Whole(h: Sent) { h.written == |Encode(h.frame)| }

  /** The frames a connection took whole, in send order. */
  function Frames(history: seq<Sent>, id: nat): seq<seq<byte>> {
    if history == [] then []
    else
      var h := history[|history| - 1];
      Frames(history[..|history| - 1], id) + (if h.id == id && Whole(h) then [h.frame] else [])
  }

  function Concat(frames: seq<seq<byte>>): seq<byte> {
    if frames == [] then [] else Concat(frames[..|frames| - 1]) + Encode(frames[|frames| - 1])
  }

  /** A send that stopped part way: its connection is closed, no longer current, and saw nothing after it. */
  ghost predicate TornOff(s: State, i: nat) {
    i < |s.history| && 0 < s.history[i].written < |Encode(s.history[i].frame)| ==>
      && s.history[i].id in s.closed && s.current != Some(s.history[i].id)
      && (s.writing.Some? ==> s.writing.value.id != s.history[i].id)
      && forall j :: i < j < |s.history| ==> s.history[j].id != s.history[i].id
  }

  ghost predicate Sane(s: State) {
    && (forall h | h in s.history ::
        h.id in s.wires && h.written <= |Encode(h.frame)| && (h.written > 0 ==> |h.frame| <= 0x400_0000))
    && (s.current.Some? ==> s.current.value in s.wires)
    && (s.writing.Some? ==> s.writing.value.id in s.wires && s.writing.value.written <= |Encode(s.writing.value.frame)|
                            && (s.writing.value.written > 0 ==> |s.writing.value.frame| <= 0x400_0000))
  }

  function InFlight(s: State, id: nat): seq<byte>
    requires s.writing.Some? ==> s.writing.value.written <= |Encode(s.writing.value.frame)|
  {
    if s.writing.Some? && s.writing.value.id == id then Encode(s.writing.value.frame)[..s.writing.value.written] else []
  }

  ghost predicate InSync(s: State) {
    && Sane(s)
    && (forall id | id in s.wires :: s.wires[id] == Stream(s.history, id) + InFlight(s, id))
    && (forall i: nat :: TornOff(s, i))
  }

  lemma {:induction false} UnknownIsSilent(history: seq<Sent>, id: nat)
    requires forall h | h in history :: h.written <= |Encode(h.frame)| && h.id != id
    ensures Stream(history, id) == [] && Frames(history, id) == []
  {
    if history != [] {
      UnknownIsSilent(history[..|history| - 1], id);
    }
  }

  lemma AttachKeeps(s: State, id: nat)
    requires InSync(s)
    ensures InSync(Next(s, Attach(id)))
  {
    hide Encode, Stream;
    if id !in s.wires {
      UnknownIsSilent(s.history, id);
      var t := Next(s, Attach(id));
      forall i: nat ensures TornOff(t, i) { assert TornOff(s, i); }
    }
  }

  lemma InFlightGrows(before: seq<byte>, enc: seq<byte>, a: nat, b: nat)
    requires a <= b <= |enc|
    ensures before + enc[..a] + enc[a..b] == before + enc[..b]
  {
  }

  lemma {:induction false} AcceptKeeps(s: State, n: nat)
    requires InSync(s)
    ensures InSync(Next(s, Accept(n)))
  {
    hide Encode, Stream;
    AcceptKeepsStreams(s, n);
    var t := Next(s, Accept(n));
    forall i: nat ensures TornOff(t, i) { assert TornOff(s, i); }
  }

  lemma AcceptKeepsStreams(s: State, n: nat)
    requires InSync(s)
    ensures var t := Next(s, Accept(n));
      Sane(t) && forall id | id in t.wires :: t.wires[id] == Stream(t.history, id) + InFlight(t, id)
  {
    hide Encode, Stream, TornOff;
    var t := Next(s, Accept(n));
    if t != s {
      var w := s.writing.value;
      InFlightGrows(Stream(s.history, w.id), Encode(w.frame), w.written, w.written + n);
    }
  }

  lemma StreamGrows(history: seq<Sent>, h: Sent, id: nat)
    requires forall g | g in history + [h] :: g.written <= |Encode(g.frame)|
    ensures forall g | g in history :: g in history + [h]
    ensures Stream(history + [h], id) == Stream(history, id) + (if h.id == id then Encode(h.frame)[..h.written] else [])
  {
    hide Encode;
    assert (history + [h])[..|history|] == history;
  }

  lemma FinishIsSane(s: State, failed: bool)
    requires InSync(s)
    ensures Sane(Next(s, Finish(failed)))
  {
    hide Encode, TornOff, Stream, InFlight;
  }

  lemma FinishKeepsStreams(s: State, failed: bool)
    requires InSync(s)
    ensures var t := Next(s, Finish(failed));
      Sane(t) && forall id | id in t.wires :: t.wires[id] == Stream(t.history, id) + InFlight(t, id)
  {
    hide Encode, TornOff, Stream;
    FinishIsSane(s, failed);
    var t := Next(s, Finish(failed));
    if t != s {
      var w := s.writing.value;
      forall id | id in t.wires ensures t.wires[id] == Stream(t.history, id) + InFlight(t, id) {
        StreamGrows(s.history, Sent(w.id, w.frame, w.written, failed), id);
      }
    }
  }

  lemma FinishKeeps(s: State, failed: bool)
    requires InSync(s)
    ensures InSync(Next(s, Finish(failed)))
  {
    hide Encode, Stream, InFlight;
    var t := Next(s, Finish(failed));
    FinishKeepsStreams(s, failed);
    forall i: nat ensures TornOff(t, i) {
      assert TornOff(s, i);
    }
  }

  lemma {:induction false} StepKeeps(s: State, e: Event)
    requires InSync(s)
    ensures InSync(Next(s, e))
  {
    match e
    case Attach(id) => AttachKeeps(s, id);
    case Accept(n) => AcceptKeeps(s, n);
    case Finish(failed) => FinishKeeps(s, failed);
    case Shutdown =>
      hide Encode, Stream;
      forall i: nat ensures TornOff(Next(s, e), i) { assert TornOff(s, i); }
    case Begin(frame) =>
      hide Encode, Stream;
      forall i: nat ensures TornOff(Next(s, e), i) { assert TornOff(s, i); }
  }

  /** Safety over whole runs. */
  lemma {:induction false} EveryRunIsInSync(events: seq<Event>)
    ensures InSync(Run(events))
  {
    hide Next, InSync;
    if events == [] {
      StartIsInSync();
    } else {
      EveryRunIsInSync(events[..|events| - 1]);
      StepKeeps(Run(events[..|events| - 1]), events[|events| - 1]);
    }
  }

  lemma StartIsInSync()
    ensures InSync(START)
  {
  }

  // ----- What the peer reads -----

  ghost predicate LastIfTorn(history: seq<Sent>, id: nat) {
    forall i, j :: 0 <= i < j < |history| && history[i].id == id && history[j].id == id
      ==> history[i].written == 0 || Whole(history[i])
  }

  /** The torn frame at the end of a connection's stream, if there is one. */
  function Tail(history: seq<Sent>, id: nat): seq<byte>
    requires forall h | h in history :: h.written <= |Encode(h.frame)|
  {
    if history == [] then []
    else
      var h := history[|history| - 1];
      if h.id != id then Tail(history[..|history| - 1], id)
      else if Whole(h) then []
      else Encode(h.frame)[..h.written]
  }

  lemma {:induction false} NoTailBefore(history: seq<Sent>, id: nat, last: Sent)
    requires forall h | h in history :: h.written <= |Encode(h.frame)|
    requires LastIfTorn(history + [last], id) && last.id == id
    ensures Tail(history, id) == []
  {
    hide Encode;
    if history != [] {
      var n := |history| - 1;
      var h := history[n];
      assert (history + [last])[n] == h && (history + [last])[n + 1] == last;
      if h.id != id {
        forall i, j | 0 <= i < j < |history[..n] + [last]| && (history[..n] + [last])[i].id == id
            && (history[..n] + [last])[j].id == id
          ensures (history[..n] + [last])[i].written == 0 || Whole((history[..n] + [last])[i])
        {
          var k := if j == n then n + 1 else j;
          assert (history + [last])[i] == (history[..n] + [last])[i]
              && (history + [last])[k] == (history[..n] + [last])[j];
        }
        NoTailBefore(history[..n], id, last);
      }
    }
  }

  lemma {:induction false} StreamSplits(history: seq<Sent>, id: nat)
    requires forall h | h in history :: h.written <= |Encode(h.frame)|
    requires LastIfTorn(history, id)
    ensures Stream(history, id) == Concat(Frames(history, id)) + Tail(history, id)
  {
    hide Encode;
    if history != [] {
      var n := |history| - 1;
      var h, before := history[n], history[..n];
      StreamSplits(before, id);
      assert history == before + [h];
      if h.id == id {
        NoTailBefore(before, id, h);
        if Whole(h) {
          assert (Frames(before, id) + [h.frame])[..|Frames(before, id)|] == Frames(before, id);
          assert Encode(h.frame)[..h.written] == Encode(h.frame);
        } else {
          assert Concat(Frames(before, id)) + [] == Concat(Frames(before, id));
          assert Frames(before, id) + [] == Frames(before, id);
        }
      } else {
        assert Frames(before, id) + [] == Frames(before, id);
        assert Stream(before, id) + [] == Stream(before, id);
      }
    }
  }

  lemma {:induction false} ConcatFront(frame: seq<byte>, frames: seq<seq<byte>>)
    ensures Concat([frame] + frames) == Encode(frame) + Concat(frames)
  {
    hide Encode;
    if frames == [] {
      assert ([frame] + frames)[..0] == [];
    } else {
      var n := |frames| - 1;
      ConcatFront(frame, frames[..n]);
      assert ([frame] + frames)[..n + 1] == [frame] + frames[..n];
    }
  }

  lemma FrameReads(frame: seq<byte>, after: seq<byte>)
    requires |frame| <= 0x400_0000
    ensures ReadFrame(Encode(frame) + after) == Frame(frame, after)
  {
    var stream := Encode(frame) + after;
    var header := Pack(Little, 4, |frame|);
    assert stream[..4] == header && stream[4..] == frame + after;
    assert (frame + after)[..|frame|] == frame && (frame + after)[|frame|..] == after;
    Pow256Values();
    PackUnpack(Little, 4, |frame|);
    assert header[0..4] == header;
  }

  /** What a reader makes of a stream cut inside a frame: a clean end is only reported at a frame or header boundary. */
  lemma TornReads(frame: seq<byte>, k: nat)
    requires |frame| <= 0x400_0000 && k < |Encode(frame)|
    ensures ReadFrame(Encode(frame)[..k]) == Ended(if k == 0 || k == 4 then Eof else UnexpectedEof)
  {
    var stream := Encode(frame)[..k];
    if k >= 4 {
      var header := Pack(Little, 4, |frame|);
      assert stream[..4] == header && |stream[4..]| == k - 4;
      Pow256Values();
      PackUnpack(Little, 4, |frame|);
      assert header[0..4] == header;
    }
  }

  /** Reading returns exactly the whole frames, then stops at the torn one. */
  lemma {:induction false} FramesRead(frames: seq<seq<byte>>, torn: seq<byte>, k: nat)
    requires forall f | f in frames :: |f| <= 0x400_0000
    requires |torn| <= 0x400_0000 && k < |Encode(torn)|
    ensures ReadAll(Concat(frames) + Encode(torn)[..k]) == (frames, if k == 0 || k == 4 then Eof else UnexpectedEof)
    decreases |frames|
  {
    hide Encode, ReadFrame;
    if frames == [] {
      assert Concat(frames) + Encode(torn)[..k] == Encode(torn)[..k];
      TornReads(torn, k);
    } else {
      var rest := frames[1..];
      assert frames == [frames[0]] + rest;
      ConcatFront(frames[0], rest);
      var after := Concat(rest) + Encode(torn)[..k];
      assert Concat(frames) + Encode(torn)[..k] == Encode(frames[0]) + after;
      FrameReads(frames[0], after);
      FramesRead(rest, torn, k);
    }
  }

  lemma {:induction false} FramesFit(history: seq<Sent>, id: nat)
    requires forall h | h in history :: h.written > 0 ==> |h.frame| <= 0x400_0000
    ensures forall f | f in Frames(history, id) :: |f| <= 0x400_0000
  {
    if history != [] {
      assert forall h | h in history[..|history| - 1] :: h in history;
      FramesFit(history[..|history| - 1], id);
    }
  }

  lemma {:induction false} TailIsCut(history: seq<Sent>, id: nat) returns (frame: seq<byte>, k: nat)
    requires forall h | h in history :: h.written <= |Encode(h.frame)| && (h.written > 0 ==> |h.frame| <= 0x400_0000)
    ensures |frame| <= 0x400_0000 && k < |Encode(frame)| && Tail(history, id) == Encode(frame)[..k]
    ensures k > 0
        ==> exists i ::
            0 <= i < |history| && history[i].id == id && history[i].frame == frame && history[i].written == k
  {
    hide Encode;
    if history == [] {
      frame, k := [], 0;
      EncodedIsNotEmpty([]);
    } else {
      var n := |history| - 1;
      var h := history[n];
      if h.id != id {
        frame, k := TailIsCut(history[..n], id);
      } else if Whole(h) || h.written == 0 {
        frame, k := [], 0;
        EncodedIsNotEmpty([]);
      } else {
        frame, k := h.frame, h.written;
        assert history[n].id == id && history[n].frame == frame && history[n].written == k;
      }
    }
  }

  lemma EncodedIsNotEmpty(frame: seq<byte>)
    ensures |Encode(frame)| == 4 + |frame|
  {
  }

  lemma {:induction false} NoTailBeforeWriting(s: State, id: nat)
    requires InSync(s) && s.writing.Some? && s.writing.value.id == id
    ensures Tail(s.history, id) == []
  {
    hide Encode, Stream;
    forall i: nat | i < |s.history| && s.history[i].id == id ensures s.history[i].written == 0 || Whole(s.history[i]) {
      assert TornOff(s, i);
    }
    NothingTorn(s.history, id);
  }

  lemma {:induction false} NothingTorn(history: seq<Sent>, id: nat)
    requires forall h | h in history :: h.written <= |Encode(h.frame)|
    requires forall h | h in history && h.id == id :: h.written == 0 || Whole(h)
    ensures Tail(history, id) == []
  {
    hide Encode;
    if history != [] {
      var n := |history| - 1;
      assert history[n] in history;
      NothingTorn(history[..n], id);
    }
  }

  lemma {:induction false} StreamOfWholeAndTail(s: State, id: nat)
    requires InSync(s) && id in s.wires
    ensures s.wires[id] == Concat(Frames(s.history, id)) + Tail(s.history, id) + InFlight(s, id)
  {
    hide Encode, InFlight;
    forall i, j | 0 <= i < j < |s.history| && s.history[i].id == id && s.history[j].id == id
      ensures s.history[i].written == 0 || Whole(s.history[i])
    {
      assert TornOff(s, i);
    }
    StreamSplits(s.history, id);
  }

  /** In every reachable state every connection holds whole frames in send order and at most one that is not finished;
      the reader returns exactly the whole frames; and one left unfinished, rather than being written this moment, means
      the connection is closed and no longer in use. */
  lemma {:induction false} StreamsReadBack(events: seq<Event>, id: nat) returns (frame: seq<byte>, k: nat)
    requires id in Run(events).wires
    ensures var s := Run(events);
      var writing := s.writing.Some? && s.writing.value.id == id;
      && k <= |Encode(frame)| && s.wires[id] == Concat(Frames(s.history, id)) + Encode(frame)[..k]
      && (writing ==> frame == s.writing.value.frame && k == s.writing.value.written)
      && (!writing ==> k < |Encode(frame)| && (k > 0 ==> id in s.closed && s.current != Some(id)))
      && ReadAll(s.wires[id]) == (if k == |Encode(frame)| then (Frames(s.history, id) + [frame], Eof)
                                  else (Frames(s.history, id), if k == 0 || k == 4 then Eof else UnexpectedEof))
  {
    hide Run, Encode;
    EveryRunIsInSync(events);
    var s := Run(events);
    StreamOfWholeAndTail(s, id);
    FramesFit(s.history, id);
    if s.writing.Some? && s.writing.value.id == id {
      NoTailBeforeWriting(s, id);
      frame, k := s.writing.value.frame, s.writing.value.written;
      assert Concat(Frames(s.history, id)) + [] == Concat(Frames(s.history, id));
      UnfinishedReads(Frames(s.history, id), frame, k);
    } else {
      frame, k := TailIsCut(s.history, id);
      assert Concat(Frames(s.history, id)) + Encode(frame)[..k] + []
          == Concat(Frames(s.history, id)) + Encode(frame)[..k];
      FramesRead(Frames(s.history, id), frame, k);
      if k > 0 {
        var i :| 0 <= i < |s.history| && s.history[i].id == id && s.history[i].frame == frame
            && s.history[i].written == k;
        assert TornOff(s, i);
      }
    }
  }

  /** Reading behind a writer: its frame shows once it is whole. */
  lemma {:induction false} UnfinishedReads(frames: seq<seq<byte>>, frame: seq<byte>, k: nat)
    requires forall f | f in frames :: |f| <= 0x400_0000
    requires k <= |Encode(frame)| && (k > 0 ==> |frame| <= 0x400_0000)
    ensures ReadAll(Concat(frames) + Encode(frame)[..k])
         == if k == |Encode(frame)| then (frames + [frame], Eof)
             else (frames, if k == 0 || k == 4 then Eof else UnexpectedEof)
  {
    hide Encode, ReadFrame, ReadAll;
    EncodedIsNotEmpty(frame);
    EncodedIsNotEmpty([]);
    if k == |Encode(frame)| {
      assert Encode(frame)[..k] == Encode(frame);
      assert (frames + [frame])[..|frames|] == frames;
      assert Concat(frames + [frame]) + Encode([])[..0] == Concat(frames) + Encode(frame);
      FramesRead(frames + [frame], [], 0);
    } else if k == 0 {
      assert Encode(frame)[..0] == Encode([])[..0];
      FramesRead(frames, [], 0);
    } else {
      FramesRead(frames, frame, k);
    }
  }

  /** A frame dropped while its connection stays in use left nothing on the wire. */
  lemma DroppedLeavesNothing(events: seq<Event>, i: nat)
    requires var s := Run(events);
      i < |s.history| && !Whole(s.history[i]) && s.current == Some(s.history[i].id)
    ensures Run(events).history[i].written == 0
  {
    hide Run, Encode;
    EveryRunIsInSync(events);
    assert TornOff(Run(events), i);
  }
}
