/** Length-prefixed IPC frames over a connection that may stall, shorten or break writes: core/server.go. */
module IpcFraming {
  import opened Bytes

  const MAX_FRAME: nat := 64 * 1024 * 1024

  /** The bytes of one frame: a four-byte little-endian length, then the data. */
  function Encode(data: seq<byte>): (r: seq<byte>)
    ensures |r| == 4 + |data|
  {
    Pack(Little, 4, |data|) + data
  }

  /** The length comes first, least significant byte first. */
  lemma FrameLayout(data: seq<byte>)
    requires |data| < TWO_32
    ensures Encode(data)[0] == |data| % 0x100 && Encode(data)[1] == |data| / 0x100 % 0x100
    ensures Encode(data)[2] == |data| / 0x1_0000 % 0x100 && Encode(data)[3] == |data| / 0x100_0000
    ensures Encode(data)[4..] == data
  {
    var n := |data|;
    var a := n / 0x100;
    var b := a / 0x100;
    var c := b / 0x100;
    assert b == n / 0x1_0000 && c == n / 0x100_0000 && c < 0x100;
    FourBytes(n, a, b, c);
  }

  lemma FourBytes(n: nat, a: nat, b: nat, c: nat)
    requires a == n / 256 && b == a / 256 && c == b / 256 && c < 256
    ensures Pack(Little, 4, n) == [n % 256, a % 256, b % 256, c]
  {
    assert PackLittle(1, c) == [c] + PackLittle(0, c / 256);
    assert PackLittle(2, b) == [b % 256] + PackLittle(1, c);
    assert PackLittle(3, a) == [a % 256] + PackLittle(2, b);
    assert PackLittle(4, n) == [n % 256] + PackLittle(3, a);
  }

  // ----- Reading -----

  datatype ReadEnd = Eof | UnexpectedEof | TooLarge

  datatype Read = Frame(data: seq<byte>, rest: seq<byte>) | Ended(end: ReadEnd)

  datatype Full = Full(data: seq<byte>, rest: seq<byte>) | Short(end: ReadEnd)

  /** io.ReadFull: a stream that ends before the first byte is a clean end, even inside a frame. */
  function ReadFull(stream: seq<byte>, n: nat): Full {
    if n <= |stream| then Full(stream[..n], stream[n..])
    else if stream == [] then Short(Eof)
    else Short(UnexpectedEof)
  }

  function ReadFrame(stream: seq<byte>): (r: Read)
    ensures r.Frame? ==> |r.rest| < |stream|
  {
    match ReadFull(stream, 4)
    case Short(end) => Ended(end)
    case Full(lenBuf, rest) =>
      var length := U(Little, lenBuf, 0, 4);
      if length > MAX_FRAME then Ended(TooLarge)
      else
        match ReadFull(rest, length)
        case Short(end) => Ended(end)
        case Full(data, after) => Frame(data, after)
  }

  /** A header that announces more than 64 MiB ends the reading, whatever follows. */
  lemma OversizeEnds(stream: seq<byte>)
    requires |stream| >= 4
    ensures ReadFrame(stream) == Ended(TooLarge)
        <==> 0x400_0000 < (stream[0] as int) + 0x100 * (stream[1] as int) + 0x1_0000 * (stream[2] as int)
                          + 0x100_0000 * (stream[3] as int)
  {
    var header := stream[..4];
    assert header[0..4] == header;
    assert UnpackLittle(header) == header[0] + 256 * UnpackLittle(header[1..]);
    assert UnpackLittle(header[1..]) == header[1] + 256 * UnpackLittle(header[2..]) by {
      assert header[1..][1..] == header[2..];
    }
    assert UnpackLittle(header[2..]) == header[2] + 256 * UnpackLittle(header[3..]) by {
      assert header[2..][1..] == header[3..];
    }
    assert UnpackLittle(header[3..]) == header[3] + 256 * UnpackLittle([]) by {
      assert header[3..][1..] == [];
    }
  }

  function ReadAll(stream: seq<byte>): (seq<seq<byte>>, ReadEnd)
    decreases |stream|
  {
    match ReadFrame(stream)
    case Ended(end) => ([], end)
    case Frame(data, rest) => var (more, end) := ReadAll(rest); ([data] + more, end)
  }

  /** The receive loop of serve. */
  method Receive(stream: seq<byte>) returns (frames: seq<seq<byte>>, end: ReadEnd)
    ensures (frames, end) == ReadAll(stream)
  {
    hide ReadFrame;
    var rest := stream;
    frames := [];
    assert frames + ReadAll(rest).0 == ReadAll(rest).0;
    while true
      invariant ReadAll(stream) == (frames + ReadAll(rest).0, ReadAll(rest).1)
      decreases |rest|
    {
      var r := ReadFrame(rest);
      if r.Ended? {
        assert frames + [] == frames;
        return frames, r.end;
      }
      ReadAllStep(frames, rest);
      frames, rest := frames + [r.data], r.rest;
    }
  }

  lemma {:induction false} ReadAllStep(frames: seq<seq<byte>>, stream: seq<byte>)
    requires ReadFrame(stream).Frame?
    ensures var r := ReadFrame(stream);
      |r.rest| < |stream|
      && frames + ReadAll(stream).0 == frames + [r.data] + ReadAll(r.rest).0 && ReadAll(stream).1 == ReadAll(r.rest).1
  {
    hide ReadFrame;
    ReadFrameShrinks(stream);
    var r := ReadFrame(stream);
    assert frames + ([r.data] + ReadAll(r.rest).0) == frames + [r.data] + ReadAll(r.rest).0;
  }

  lemma ReadFrameShrinks(stream: seq<byte>)
    ensures ReadFrame(stream).Frame? ==> |ReadFrame(stream).rest| < |stream|
  {
  }

  // ----- Writing -----

  /** How the operating system answers one write: at most n bytes taken, then success, a deadline, or a hard error.
      rearmed says whether the deadline can be set again. */
  datatype Response = Done(n: nat) | Deadline(n: nat, rearmed: bool) | Broken(n: nat)

  /** Waiting marks a write the environment has not answered. */
  datatype Failure = NoFailure | TimedOut(rearmed: bool) | HardError | ShortWrite | TooBig | Waiting

  /** What one send amounts to on its connection. */
  datatype Outcome = Delivered | Dropped | Torn

  function OutcomeOf(written: nat, failed: bool): Outcome {
    if !failed then Delivered else if written == 0 then Dropped else Torn
  }

  /** A connection as a send leaves it: its bytes, whether it is closed, and whether the host still writes to it. */
  datatype Line = Line(wire: seq<byte>, closed: bool, attached: bool)

  /** The connection after a send that got some of its frame out: torn means closed and given up. */
  function SendOn(l: Line, data: seq<byte>, written: nat, failed: bool): Line
    requires written <= |Encode(data)|
  {
    var torn := OutcomeOf(written, failed).Torn?;
    Line(l.wire + Encode(data)[..written], l.closed || torn, l.attached && !torn)
  }

  function Least(a: nat, b: nat): nat { if a < b then a else b }

  class Connection {
    /** Every byte accepted so far. */
    var wire: seq<byte>
    var closed: bool
    /** The answers the operating system has in store. */
    var answers: seq<Response>

    method Write(data: seq<byte>) returns (n: nat, failure: Failure)
      modifies this
      ensures closed == old(closed) && n <= |data| && wire == old(wire) + data[..n]
      ensures if old(answers) == [] then failure == Waiting && n == 0 && answers == []
              else
                && answers == old(answers)[1..]
                && n == (if closed then 0 else if old(answers)[0].n < |data| then old(answers)[0].n else |data|)
                && failure == (if closed || old(answers)[0].Broken? then HardError
                               else if old(answers)[0].Deadline? then TimedOut(old(answers)[0].rearmed) else NoFailure)
    {
      if answers == [] {
        assert data[..0] == [];
        return 0, Waiting;
      }
      var answer := answers[0];
      answers := answers[1..];
      n := if closed then 0 else Least(answer.n, |data|);
      wire := wire + data[..n];
      failure := match answer
        case Done(_) => if closed then HardError else NoFailure
        case Deadline(_, rearmed) => if closed then HardError else TimedOut(rearmed)
        case Broken(_) => HardError;
    }

    method Close()
      modifies this`closed
      ensures closed
    {
      closed := true;
    }
  }

  /** Nothing but deadlines that could be set again was answered before the last of these. */
  ghost predicate OnlyStalls(asked: seq<Response>) {
    forall i :: 0 <= i < |asked| - 1 ==> asked[i].Deadline? && asked[i].rearmed
  }

  /** Neither a hard error nor a deadline that could not be set again was answered before the last of these. */
  ghost predicate WentOn(asked: seq<Response>) {
    forall i :: 0 <= i < |asked| - 1 ==> !asked[i].Broken? && (asked[i].Deadline? ==> asked[i].rearmed)
  }

  ghost predicate AllWentOn(asked: seq<Response>) {
    forall r | r in asked :: !r.Broken? && (r.Deadline? ==> r.rearmed)
  }

  lemma NothingAsked()
    ensures WentOn([])
  {
  }

  lemma AllThenMore(before: seq<Response>, more: seq<Response>)
    requires WentOn(before) && before != [] && before[|before| - 1].Done? && WentOn(more)
    ensures WentOn(before + more)
  {
    forall i | 0 <= i < |before + more| - 1
      ensures !(before + more)[i].Broken? && ((before + more)[i].Deadline? ==> (before + more)[i].rearmed)
    {
      assert i < |before| ==> (before + more)[i] == before[i];
    }
  }

  lemma StallsGoOn(before: seq<Response>, asked: seq<Response>)
    requires AllWentOn(before) && OnlyStalls(asked)
    ensures WentOn(before + asked)
    ensures asked != [] && asked[|asked| - 1].Done? ==> AllWentOn(before + asked)
  {
    forall i | 0 <= i < |before + asked| - 1
      ensures !(before + asked)[i].Broken? && ((before + asked)[i].Deadline? ==> (before + asked)[i].rearmed)
    {
      assert i < |before| ==> (before + asked)[i] == before[i];
    }
  }

  /** What the operating system answered last explains how the writing ended. */
  ghost predicate Explains(asked: seq<Response>, closed: bool, failure: Failure) {
    match failure
    case NoFailure => asked == [] || (!closed && !asked[|asked| - 1].Broken?)
    case TimedOut(rearmed) => asked != [] && !closed && asked[|asked| - 1].Deadline?
                              && asked[|asked| - 1].rearmed == rearmed
    case HardError => asked != [] && (closed || asked[|asked| - 1].Broken?)
    case ShortWrite => asked != [] && !closed && asked[|asked| - 1] == Done(0)
    case TooBig => asked == []
    case Waiting => true
  }

  class ResumingWriter {
    const conn: Connection
    var written: nat

    constructor (conn: Connection)
      ensures this.conn == conn && written == 0
    {
      this.conn := conn;
      written := 0;
    }

    /** Waits out deadlines once part of the frame is on the wire: it gives up with bytes to go only on a hard error,
        when nothing of the frame is written, or when the deadline cannot be set again. */
    method Write(data: seq<byte>) returns (accepted: nat, failure: Failure, ghost asked: seq<Response>)
      modifies this, conn
      ensures accepted <= |data| && conn.wire == old(conn.wire) + data[..accepted]
      ensures written == old(written) + accepted && conn.closed == old(conn.closed)
      ensures failure in {NoFailure, TimedOut(true), TimedOut(false), HardError, Waiting}
      ensures failure.TimedOut? && accepted < |data| ==> written == 0 || !failure.rearmed
      ensures failure == Waiting ==> conn.answers == []
      ensures accepted > 0 ==> !old(conn.closed)
      ensures old(conn.answers) == asked + conn.answers
      ensures OnlyStalls(asked) && Explains(asked, conn.closed, failure)
      ensures |asked| > 1 || accepted > 0 ==> asked != [] && old(written) + asked[0].n > 0
      ensures failure == NoFailure ==>
        && asked != [] && asked[|asked| - 1].Done?
        && (accepted == 0 && data != [] ==> asked[|asked| - 1] == Done(0))
    {
      asked := [];
      accepted := 0;
      assert data[..0] == [];
      while true
        invariant accepted <= |data| && conn.wire == old(conn.wire) + data[..accepted]
        invariant written == old(written) + accepted && conn.closed == old(conn.closed)
        invariant accepted > 0 ==> !old(conn.closed)
        invariant old(conn.answers) == asked + conn.answers
        invariant forall r | r in asked :: r.Deadline? && r.rearmed
        invariant if asked == [] then accepted == 0
                  else written > 0 && !conn.closed && old(written) + asked[0].n > 0
        decreases |conn.answers|
      {
        ghost var before := accepted;
        asked := asked + if conn.answers == [] then [] else [conn.answers[0]];
        var n;
        n, failure := conn.Write(data[accepted..]);
        accepted := accepted + n;
        written := written + n;
        assert data[..before] + data[before..][..n] == data[..accepted];
        if failure == NoFailure || failure == Waiting { return; }
        if accepted >= |data| || !Resumes(failure) { return; }
      }
    }

    function Resumes(failure: Failure): bool
      reads this
    {
      written > 0 && failure.TimedOut? && failure.rearmed
    }

    method WriteAll(data: seq<byte>) returns (total: nat, failure: Failure, ghost asked: seq<Response>)
      modifies this, conn
      ensures total <= |data| && conn.wire == old(conn.wire) + data[..total]
      ensures written == old(written) + total && conn.closed == old(conn.closed)
      ensures failure == NoFailure ==> total == |data|
      ensures failure == Waiting ==> conn.answers == []
      ensures failure.TimedOut? && total < |data| ==> written == 0 || !failure.rearmed
      ensures failure != TooBig && (total > 0 ==> !old(conn.closed))
      ensures old(conn.answers) == asked + conn.answers
      ensures WentOn(asked) && Explains(asked, conn.closed, failure)
      ensures |asked| > 1 ==> old(written) + asked[0].n > 0
      ensures failure == NoFailure && data != [] ==> asked != [] && old(written) + asked[0].n > 0
                                                     && asked[|asked| - 1].Done?
    {
      hide OnlyStalls, WentOn;
      asked := [];
      NothingAsked();
      total := 0;
      var left := data;
      assert data[..0] == [];
      while left != []
        invariant total <= |data| && left == data[total..]
        invariant conn.wire == old(conn.wire) + data[..total]
        invariant written == old(written) + total && conn.closed == old(conn.closed)
        invariant total > 0 ==> !old(conn.closed)
        invariant old(conn.answers) == asked + conn.answers
        invariant AllWentOn(asked) && WentOn(asked)
        invariant asked == [] || (total > 0 && old(written) + asked[0].n > 0 && asked[|asked| - 1].Done?)
        invariant asked == [] ==> total == 0
        decreases |left|
      {
        ghost var before := total;
        var n;
        ghost var more;
        n, failure, more := Write(left);
        StallsGoOn(asked, more);
        asked := asked + more;
        total := total + n;
        assert data[..before] + data[before..][..n] == data[..total];
        if failure != NoFailure { return; }
        if n == 0 { return total, ShortWrite, asked; }
        left := left[n..];
      }
      failure := NoFailure;
      assert data[..total] == data;
    }

    /** Puts a prefix of the encoded frame on the wire, and all of it when nothing fails. */
    method WriteFrame(data: seq<byte>) returns (total: nat, failure: Failure, ghost asked: seq<Response>)
      requires written == 0
      modifies this, conn
      ensures total <= 4 + |data| && conn.wire == old(conn.wire) + Encode(data)[..total]
      ensures written == total && conn.closed == old(conn.closed)
      ensures failure == NoFailure ==> total == |Encode(data)| && |data| <= 0x400_0000
      ensures failure == TooBig <==> |data| > 0x400_0000
      ensures total > 0 ==> |data| <= 0x400_0000 && !old(conn.closed)
      ensures old(conn.answers) == asked + conn.answers
      ensures WentOn(asked) && Explains(asked, conn.closed, failure)
      ensures |asked| > 1 ==> asked[0].n > 0
      ensures failure == Waiting ==> conn.answers == []
      ensures failure.TimedOut? && total !in {4, 4 + |data|} ==> total == 0 || !failure.rearmed
    {
      if |data| > MAX_FRAME {
        assert Encode(data)[..0] == [];
        return 0, TooBig, [];
      }
      var header := Pack(Little, 4, |data|);
      var n;
      total, failure, asked := WriteAll(header);
      assert header[..total] == Encode(data)[..total];
      if failure != NoFailure { return; }
      ghost var more;
      n, failure, more := WriteAll(data);
      assert header + data[..n] == Encode(data)[..4 + n];
      AllThenMore(asked, more);
      asked := asked + more;
      total := total + n;
    }
  }

  class Host {
    var conn: Connection?

    /** send: nothing of a frame, all of it, or a torn frame on a connection that is given up for good.
        Waiting means the call has not returned. */
    method Send(data: seq<byte>) returns (written: nat, failure: Failure, ghost asked: seq<Response>)
      modifies this, conn
      ensures conn == old(conn) || conn == null
      ensures old(conn) == null ==> conn == null && written == 0 && failure == NoFailure && asked == []
      ensures old(conn) != null ==>
        && written <= 4 + |data| && old(conn).wire == old(conn.wire) + Encode(data)[..written]
        && (written > 0 ==> !old(conn.closed) && |data| <= 0x400_0000)
        && (failure == TooBig <==> |data| > 0x400_0000)
        && (failure == NoFailure ==> written == 4 + |data|)
      // Nothing went out, all of it did, or the call still waits: the connection is kept as it was.
      ensures written == 0 || failure in {NoFailure, Waiting} ==>
                conn == old(conn) && (old(conn) != null ==> old(conn).closed == old(conn.closed))
      // A failure with part of the frame on the wire: the connection is closed and given up.
      ensures written > 0 && failure !in {NoFailure, Waiting} ==> conn == null && old(conn) != null && old(conn).closed
      ensures old(conn) != null && failure != Waiting ==>
                Line(old(conn).wire, old(conn).closed, conn == old(conn))
                == SendOn(Line(old(conn.wire), old(conn.closed), true), data, written, failure != NoFailure)
      ensures old(conn) != null ==>
        && old(conn.answers) == asked + old(conn).answers && (failure == Waiting ==> old(conn).answers == [])
        && WentOn(asked) && Explains(asked, old(conn.closed), failure) && (|asked| > 1 ==> asked[0].n > 0)
    {
      var c := conn;
      if c == null { return 0, NoFailure, []; }
      var writer := new ResumingWriter(c);
      written, failure, asked := writer.WriteFrame(data);
      if failure == NoFailure || failure == Waiting { return; }
      if written == 0 { return; }
      if conn == c { conn := null; }
      c.Close();
    }
  }
}
