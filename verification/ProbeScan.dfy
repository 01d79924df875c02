/** Reading a probed page only until it shows what the probe is after (core/probe.go, core/service_rules.go). */
module ProbeScan {
  import opened Bytes
  import opened WindowScan

  const OVERLAP: nat := 256

  /** The body a limited reader lets through of what arrives. */
  function Limited(chunks: seq<seq<byte>>, limit: nat): seq<byte> {
    if chunks == [] then []
    else if |chunks[0]| >= limit then chunks[0][..limit]
    else chunks[0] + Limited(chunks[1..], limit - |chunks[0]|)
  }

  /** Reading with every decision made on all that was read so far. */
  function ReadUntil(read: seq<byte>, chunks: seq<seq<byte>>, limit: nat, enough: seq<byte> -> bool): seq<byte>
    decreases |chunks|
  {
    if chunks == [] || limit == 0 then read
    else
      var more := if |chunks[0]| <= limit then chunks[0] else chunks[0][..limit];
      if more != [] && enough(read + more) then read + more
      else ReadUntil(read + more, chunks[1..], limit - |more|, enough)
  }

  /** The part of what was read that the test is shown: the latest chunk and 256 bytes before it. */
  function Window(read: seq<byte>, more: seq<byte>): seq<byte> { (read + more)[Max(0, |read| - OVERLAP)..] }

  /** Reading with every decision made on the window alone. */
  function WindowRead(read: seq<byte>, chunks: seq<seq<byte>>, limit: nat, until: seq<byte> -> bool): seq<byte>
    decreases |chunks|
  {
    if chunks == [] || limit == 0 then read
    else
      var more := if |chunks[0]| <= limit then chunks[0] else chunks[0][..limit];
      if more != [] && until(Window(read, more)) then read + more
      else WindowRead(read + more, chunks[1..], limit - |more|, until)
  }

  method ReadProbeBody(chunks: seq<seq<byte>>, limit: nat, until: seq<byte> -> bool) returns (buffer: seq<byte>)
    ensures buffer == WindowRead([], chunks, limit, until)
  {
    buffer := [];
    var i, left := 0, limit;
    while i < |chunks| && left > 0
      invariant 0 <= i <= |chunks| && 0 <= left
      invariant WindowRead([], chunks, limit, until) == WindowRead(buffer, chunks[i..], left, until)
    {
      var chunk := if |chunks[i]| <= left then chunks[i] else chunks[i][..left];
      assert chunks[i..][1..] == chunks[i + 1..];
      if |chunk| > 0 {
        var start := Max(0, |buffer| - OVERLAP);
        buffer := buffer + chunk;
        if until(buffer[start..]) { return; }
      } else {
        assert buffer + chunk == buffer;
      }
      left := left - |chunk|;
      i := i + 1;
    }
  }

  /** A probe's test that looks for a pattern. */
  ghost predicate LooksFor(until: seq<byte> -> bool, p: Pattern<byte>) {
    p != [] && forall s: seq<byte> :: until(s) <==> Occurs(p, s)
  }

  /** For a pattern that fits the overlap the window decides as if the test saw everything. */
  lemma {:induction false} WindowReadsAsWhole(read: seq<byte>, chunks: seq<seq<byte>>, limit: nat,
                                              until: seq<byte> -> bool, p: Pattern<byte>)
    requires LooksFor(until, p) && |p| <= 257 && !Occurs(p, read)
    ensures WindowRead(read, chunks, limit, until) == ReadUntil(read, chunks, limit, until)
    decreases |chunks|
  {
    hide Occurs;
    if chunks != [] && limit > 0 {
      var more := if |chunks[0]| <= limit then chunks[0] else chunks[0][..limit];
      WindowSees(p, read, more, Max(0, |read| - OVERLAP));
      if more == [] {
        assert read + more == read;
        WindowReadsAsWhole(read, chunks[1..], limit - |more|, until, p);
      } else if !Occurs(p, read + more) {
        WindowReadsAsWhole(read + more, chunks[1..], limit - |more|, until, p);
      }
    }
  }

  lemma TooShort(p: Pattern<byte>, s: seq<byte>)
    requires |s| < |p|
    ensures !Occurs(p, s)
  {
  }

  /** A longer pattern whose last byte comes in a chunk of its own is missed: reading goes on past it. */
  lemma {:induction false} LongerIsMissed(p: Pattern<byte>, w: seq<byte>, rest: seq<seq<byte>>, limit: nat,
                                          until: seq<byte> -> bool)
    requires LooksFor(until, p) && |p| > 257 && |w| == |p| && MatchesAt(p, w, 0) && limit >= |w|
    ensures var chunks := [w[..|w| - 1], [w[|w| - 1]]] + rest;
      && ReadUntil([], chunks, limit, until) == w
      && WindowRead([], chunks, limit, until) == WindowRead(w, rest, limit - |w|, until)
  {
    hide Occurs;
    var m := |w| - 1;
    var first, last := w[..m], [w[m]];
    var chunks := [first, last] + rest;
    assert chunks[0] == first && chunks[1..] == [last] + rest && chunks[1..][1..] == rest && chunks[1..][0] == last;
    assert [] + first == first && first + last == w && Window([], first) == first;
    TooShort(p, first);
    TooShort(p, Window(first, last));
    assert ReadUntil([], chunks, limit, until) == ReadUntil(first, [last] + rest, limit - m, until);
    assert WindowRead([], chunks, limit, until) == WindowRead(first, [last] + rest, limit - m, until);
    OccursWhole(p, w);
  }

  lemma OccursWhole(p: Pattern<byte>, w: seq<byte>)
    requires MatchesAt(p, w, 0)
    ensures Occurs(p, w)
  {
  }

  /** The overlap is exact: scanning the windows reads what scanning everything reads, for every way the page arrives,
      if and only if the pattern has at most 257 bytes. */
  lemma {:induction false} OverlapIsExact(p: Pattern<byte>, w: seq<byte>, until: seq<byte> -> bool)
    requires LooksFor(until, p) && |w| == |p| && MatchesAt(p, w, 0)
    ensures (forall chunks, limit :: WindowRead([], chunks, limit, until) == ReadUntil([], chunks, limit, until))
       <==> |p| <= 257
  {
    hide Occurs, WindowRead, ReadUntil;
    if |p| <= 257 {
      TooShort(p, []);
      forall chunks, limit ensures WindowRead([], chunks, limit, until) == ReadUntil([], chunks, limit, until) {
        WindowReadsAsWhole([], chunks, limit, until, p);
      }
    } else {
      LongerIsMissed(p, w, [[0]], |w| + 1, until);
      OneMore(w, until);
      var chunks := [w[..|w| - 1], [w[|w| - 1]]] + [[0]];
      assert WindowRead([], chunks, |w| + 1, until) != ReadUntil([], chunks, |w| + 1, until);
    }
  }

  lemma OneMore(read: seq<byte>, until: seq<byte> -> bool)
    ensures WindowRead(read, [[0]], 1, until) == read + [0]
  {
    assert WindowRead(read + [0], [], 0, until) == read + [0];
  }

  // ----- What is read -----

  function Whole(chunks: seq<seq<byte>>): seq<byte> {
    if chunks == [] then [] else chunks[0] + Whole(chunks[1..])
  }

  /** A limited body is the beginning of everything that arrives. */
  lemma {:induction false} LimitedMeans(chunks: seq<seq<byte>>, limit: nat)
    ensures Limited(chunks, limit) == if |Whole(chunks)| <= limit then Whole(chunks) else Whole(chunks)[..limit]
  {
    if chunks != [] {
      if |chunks[0]| < limit {
        LimitedMeans(chunks[1..], limit - |chunks[0]|);
      } else if |Whole(chunks)| <= limit {
        assert Whole(chunks) == chunks[0] == chunks[0][..limit];
      }
    }
  }

  lemma FirstIsAll(read: seq<byte>, chunks: seq<seq<byte>>, limit: nat, enough: seq<byte> -> bool)
    requires chunks != []
    ensures |chunks[0]| > limit ==> |ReadUntil(read, chunks, limit, enough)| == |read| + limit
  {
    if |chunks[0]| > limit > 0 {
      var more := chunks[0][..limit];
      assert ReadUntil(read + more, chunks[1..], 0, enough) == read + more;
    }
  }

  /** Reading goes on only past what the test turned down: the test held on nothing that arrived before the end. */
  lemma {:induction false} StopsAtOnce(read: seq<byte>, chunks: seq<seq<byte>>, limit: nat, enough: seq<byte> -> bool,
                                       n: nat)
    requires 0 < n <= |chunks|
    requires var part := Limited(chunks[..n], limit);
      part != [] && |read + part| < |ReadUntil(read, chunks, limit, enough)|
    ensures !enough(read + Limited(chunks[..n], limit))
    decreases |chunks|
  {
    LimitedToNothing(chunks[..n]);
    FirstIsAll(read, chunks, limit, enough);
    if 0 < limit && |chunks[0]| <= limit {
      var more := chunks[0];
      assert chunks[..n][0] == chunks[0] && chunks[..n][1..] == chunks[1..][..n - 1];
      LimitedSplits(chunks[..n], limit);
      var later := Limited(chunks[1..][..n - 1], limit - |more|);
      assert read + (more + later) == read + more + later;
      if later == [] {
        assert read + more + later == read + more;
      } else {
        StopsAtOnce(read + more, chunks[1..], limit - |more|, enough, n - 1);
      }
    }
  }

  // ----- The Gemini region -----

  const MARKER: seq<byte> := [0x2C, 0x32, 0x2C, 0x31, 0x2C, 0x32, 0x30, 0x30, 0x2C, 0x22]

  const CODE_LENGTH: nat := 3

  predicate MarkerAt(body: seq<byte>, i: nat) { i + |MARKER| <= |body| && body[i..i + |MARKER|] == MARKER }

  /** The first place of the marker, if there is one. */
  function Index(body: seq<byte>, from: nat): (index: Option<nat>)
    requires from <= |body|
    ensures index.Some? ==> from <= index.value && MarkerAt(body, index.value)
    ensures forall i: nat | from <= i && MarkerAt(body, i) :: index.Some? && index.value <= i
    decreases |body| - from
  {
    if MarkerAt(body, from) then Some(from)
    else if from == |body| then None
    else Index(body, from + 1)
  }

  /** The three bytes after the first marker. */
  function RegionCode(body: seq<byte>): Option<seq<byte>> {
    match Index(body, 0)
    case None => None
    case Some(i) =>
      if i + |MARKER| + CODE_LENGTH > |body| then None else Some(body[i + |MARKER|..i + |MARKER| + CODE_LENGTH])
  }

  /** The body reads `,2,1,200,"` at this place. */
  ghost predicate ReadsMarker(body: seq<byte>, i: nat) {
    && i + 10 <= |body| && body[i] == ',' as int && body[i + 1] == '2' as int && body[i + 2] == ',' as int
    && body[i + 3] == '1' as int && body[i + 4] == ',' as int && body[i + 5] == '2' as int
    && body[i + 6] == '0' as int && body[i + 7] == '0' as int && body[i + 8] == ',' as int
    && body[i + 9] == '\"' as int
  }

  lemma MarkerReads(body: seq<byte>, i: nat)
    ensures MarkerAt(body, i) <==> ReadsMarker(body, i)
  {
    if i + 10 <= |body| {
      var piece := body[i..i + 10];
      assert piece[0] == body[i] && piece[1] == body[i + 1] && piece[2] == body[i + 2] && piece[3] == body[i + 3]
             && piece[4] == body[i + 4] && piece[5] == body[i + 5] && piece[6] == body[i + 6]
             && piece[7] == body[i + 7] && piece[8] == body[i + 8] && piece[9] == body[i + 9];
    }
  }

  /** The code is the three bytes behind the first marker. */
  ghost predicate BehindFirst(body: seq<byte>, i: nat, code: seq<byte>) {
    && ReadsMarker(body, i) && i + 13 <= |body| && body[i + 10..i + 13] == code
    && forall j: nat | j < i :: !ReadsMarker(body, j)
  }

  lemma RegionCodeMeans(body: seq<byte>, code: seq<byte>)
    ensures RegionCode(body) == Some(code) <==> exists i: nat :: BehindFirst(body, i, code)
  {
    hide MarkerAt, ReadsMarker;
    forall i: nat ensures MarkerAt(body, i) <==> ReadsMarker(body, i) { MarkerReads(body, i); }
    if RegionCode(body) == Some(code) {
      var i := Index(body, 0).value;
      assert BehindFirst(body, i, code);
    }
    forall i: nat | BehindFirst(body, i, code) ensures RegionCode(body) == Some(code) {
      var j := Index(body, 0).value;
      assert j == i;
    }
  }

  /** The probe's test on a tail: the marker, with a whole code after it. */
  predicate CodeIsIn(tail: seq<byte>) { RegionCode(tail).Some? }

  ghost function CodePattern(): (p: Pattern<byte>)
    ensures |p| == |MARKER| + CODE_LENGTH
  {
    seq(|MARKER| + CODE_LENGTH, k requires 0 <= k < |MARKER| + CODE_LENGTH =>
      if k < |MARKER| then (b: byte) => b == MARKER[k] else (b: byte) => true)
  }

  lemma CodePatternAt(s: seq<byte>, i: nat)
    ensures MatchesAt(CodePattern(), s, i) <==> i + |MARKER| + CODE_LENGTH <= |s| && MarkerAt(s, i)
  {
    var p := CodePattern();
    if i + |p| <= |s| {
      forall k | 0 <= k < |p| ensures p[k](s[i + k]) <==> (k < |MARKER| ==> s[i..i + |MARKER|][k] == MARKER[k]) {
      }
      if MatchesAt(p, s, i) {
        forall k | 0 <= k < |MARKER| ensures s[i..i + |MARKER|][k] == MARKER[k] { assert p[k](s[i + k]); }
      }
    }
  }

  lemma CodeIsPattern(s: seq<byte>)
    ensures CodeIsIn(s) <==> Occurs(CodePattern(), s)
  {
    if CodeIsIn(s) { CodePatternAt(s, Index(s, 0).value); }
    if i: nat :| i <= |s| && MatchesAt(CodePattern(), s, i) { CodePatternAt(s, i); }
  }

  lemma {:induction false} ReadsAPrefix(read: seq<byte>, chunks: seq<seq<byte>>, limit: nat, enough: seq<byte> -> bool)
    ensures var got := ReadUntil(read, chunks, limit, enough);
      && got <= read + Limited(chunks, limit)
      && (got == read + Limited(chunks, limit) || enough(got))
    decreases |chunks|
  {
    if chunks == [] {
      assert read + [] == read;
    } else if limit > 0 {
      var more := if |chunks[0]| <= limit then chunks[0] else chunks[0][..limit];
      ReadsAPrefix(read + more, chunks[1..], limit - |more|, enough);
      assert read + Limited(chunks, limit) == read + more + Limited(chunks[1..], limit - |more|) by {
        LimitedSplits(chunks, limit);
      }
    } else {
      assert Limited(chunks, 0) == [] && read + [] == read;
    }
  }

  lemma LimitedSplits(chunks: seq<seq<byte>>, limit: nat)
    requires chunks != []
    ensures var more := if |chunks[0]| <= limit then chunks[0] else chunks[0][..limit];
      Limited(chunks, limit) == more + Limited(chunks[1..], limit - |more|)
  {
    if |chunks[0]| >= limit {
      LimitedToNothing(chunks[1..]);
      assert chunks[0][..limit] + [] == chunks[0][..limit];
    }
  }

  lemma LimitedToNothing(chunks: seq<seq<byte>>)
    ensures Limited(chunks, 0) == []
  {
  }

  lemma SameCodeInPrefix(body: seq<byte>, rest: seq<byte>)
    requires CodeIsIn(body)
    ensures RegionCode(body + rest) == RegionCode(body)
  {
    var i := Index(body, 0).value;
    var whole := body + rest;
    assert whole[i..i + |MARKER|] == body[i..i + |MARKER|];
    assert MarkerAt(whole, i);
    var j := Index(whole, 0).value;
    assert body[j..j + |MARKER|] == whole[j..j + |MARKER|];
    assert MarkerAt(body, j);
    assert whole[i + |MARKER|..i + |MARKER| + CODE_LENGTH] == body[i + |MARKER|..i + |MARKER| + CODE_LENGTH];
  }

  /** However the page arrives, stopping early finds the code the whole limited page would have given. */
  method GeminiCode(chunks: seq<seq<byte>>, limit: nat) returns (code: Option<seq<byte>>)
    ensures code == RegionCode(Limited(chunks, limit))
  {
    forall s: seq<byte> ensures CodeIsIn(s) <==> Occurs(CodePattern(), s) { CodeIsPattern(s); }
    var body := ReadProbeBody(chunks, limit, s => CodeIsIn(s));
    WindowReadsAsWhole([], chunks, limit, s => CodeIsIn(s), CodePattern());
    code := RegionCode(body);
    StopsWithTheCode(chunks, limit, s => CodeIsIn(s));
  }

  lemma StopsWithTheCode(chunks: seq<seq<byte>>, limit: nat, enough: seq<byte> -> bool)
    requires forall s: seq<byte> :: enough(s) <==> CodeIsIn(s)
    ensures RegionCode(ReadUntil([], chunks, limit, enough)) == RegionCode(Limited(chunks, limit))
  {
    hide RegionCode, ReadUntil, Limited;
    var got, whole := ReadUntil([], chunks, limit, enough), Limited(chunks, limit);
    ReadsAPrefix([], chunks, limit, enough);
    assert [] + whole == whole;
    if got != whole {
      assert whole == got + whole[|got|..];
      SameCodeInPrefix(got, whole[|got|..]);
    }
  }
}
