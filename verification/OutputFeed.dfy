/** Splitting a child's output into lines and scanning it, chunk by chunk (tool/pub_get_retry.py). */
module OutputFeed {
  import opened WindowScan

  const MAX_LINE: nat := 32 * 1024
  const TAIL: nat := 2048

  /** How many bytes a character takes in UTF-8. */
  function Width(c: char): nat {
    if c as int < 0x80 then 1 else if c as int < 0x800 then 2 else if c as int < 0x10000 then 3 else 4
  }

  function Size(s: string): nat { if s == [] then 0 else Width(s[0]) + Size(s[1..]) }

  datatype Emission = Line(text: string) | OversizedOmitted

  // ----- What a text should emit, read as a whole -----

  /** A text taken apart: its characters, and its line ends, of which a carriage return and a newline together
      are one. */
  datatype Piece = Character(c: char) | LineEnd(raw: string)

  predicate CrLf(s: string) { |s| > 1 && s[0] == '\r' && s[1] == '\n' }

  predicate EndsLine(c: char) { c == '\r' || c == '\n' }

  function Lex(s: string): seq<Piece> {
    if s == [] then []
    else if CrLf(s) then [LineEnd(s[..2])] + Lex(s[2..])
    else [if EndsLine(s[0]) then LineEnd([s[0]]) else Character(s[0])] + Lex(s[1..])
  }

  /** What follows the last line end. */
  function LastLine(pieces: seq<Piece>): string {
    if pieces == [] || pieces[|pieces| - 1].LineEnd? then []
        else LastLine(pieces[..|pieces| - 1]) + [pieces[|pieces| - 1].c]
  }

  /** A line is omitted when its bytes, those of its end counted, are more than 32 KiB. */
  function Verdict(line: string, end: string): Emission {
    if Size(line) + |end| > MAX_LINE then OversizedOmitted else Line(line)
  }

  /** One emission for every line end. */
  function CompleteLines(pieces: seq<Piece>): seq<Emission> {
    if pieces == [] then []
    else
      var before, last := pieces[..|pieces| - 1], pieces[|pieces| - 1];
      CompleteLines(before) + if last.LineEnd? then [Verdict(LastLine(before), last.raw)] else []
  }

  /** One emission for every line, the last one included even without an end. */
  function Emissions(pieces: seq<Piece>): seq<Emission> {
    CompleteLines(pieces) + if LastLine(pieces) == [] then [] else [Verdict(LastLine(pieces), "")]
  }

  /** What a whole text should emit. */
  function EmissionsOf(text: string): seq<Emission> { Emissions(Lex(text)) }

  // ----- Parts of a chunk -----

  /** The characters a Python line split breaks after. */
  predicate Breaks(c: char) { c as int in {0x0A, 0x0B, 0x0C, 0x0D, 0x1C, 0x1D, 0x1E, 0x85, 0x2028, 0x2029} }

  /** How many characters the first part has, its break included. */
  function FirstPart(s: string): (n: nat)
    requires s != []
    ensures 0 < n <= |s|
  {
    if CrLf(s) then 2 else if Breaks(s[0]) || |s| == 1 then 1 else 1 + FirstPart(s[1..])
  }

  function Parts(s: string): seq<string> {
    if s == [] then [] else [s[..FirstPart(s)]] + Parts(s[FirstPart(s)..])
  }

  function Flatten(parts: seq<string>): string { if parts == [] then [] else parts[0] + Flatten(parts[1..]) }

  function LexAll(parts: seq<string>): seq<Piece> { if parts == [] then [] else Lex(parts[0]) + LexAll(parts[1..]) }

  predicate Plain(s: string) { forall c | c in s :: !EndsLine(c) }

  /** A part that is not empty and holds a line end at most at its end. */
  ghost predicate OneLine(part: string) {
    part != [] && (Plain(part) || exists body: string, end: string :: Closes(part, body, end))
  }

  ghost predicate Closes(part: string, body: string, end: string) {
    part == body + end && Plain(body) && end in {"\r", "\n", "\r\n"}
  }

  /** A boundary between a carriage return and the newline that belongs to it. */
  predicate Splits(a: string, b: string) { a != [] && b != [] && a[|a| - 1] == '\r' && b[0] == '\n' }

  lemma {:induction false} LexJoins(a: string, b: string)
    requires !Splits(a, b)
    ensures Lex(a + b) == Lex(a) + Lex(b)
    decreases |a|
  {
    if a == [] {
      assert a + b == b;
    } else {
      var k := if CrLf(a) then 2 else 1;
      assert CrLf(a + b) <==> CrLf(a);
      assert (a + b)[k..] == a[k..] + b && (a + b)[..k] == a[..k];
      LexJoins(a[k..], b);
    }
  }

  lemma {:induction false} FirstPartIsOneLine(s: string)
    requires s != []
    ensures OneLine(s[..FirstPart(s)]) && !Splits(s[..FirstPart(s)], s[FirstPart(s)..])
  {
    var n := FirstPart(s);
    if CrLf(s) {
      assert s[..2] == "" + "\r\n" && Closes(s[..2], "", "\r\n");
    } else if Breaks(s[0]) || |s| == 1 {
      if EndsLine(s[0]) { assert s[..1] == "" + [s[0]] && Closes(s[..1], "", [s[0]]); }
    } else {
      FirstPartIsOneLine(s[1..]);
      var m := FirstPart(s[1..]);
      var inner := s[1..][..m];
      assert s[..n] == [s[0]] + inner && s[n..] == s[1..][m..] && !EndsLine(s[0]);
      if body: string, end: string :| Closes(inner, body, end) {
        assert s[..n] == ([s[0]] + body) + end;
        assert Closes(s[..n], [s[0]] + body, end);
      }
    }
  }

  lemma {:induction false} PartsMakeTheText(s: string)
    ensures LexAll(Parts(s)) == Lex(s) && forall p | p in Parts(s) :: OneLine(p)
  {
    hide FirstPart, OneLine, Splits;
    if s != [] {
      var n := FirstPart(s);
      var first, rest := s[..n], s[n..];
      FirstPartIsOneLine(s);
      PartsMakeTheText(rest);
      LexJoins(first, rest);
      assert first + rest == s;
      assert ([first] + Parts(rest))[0] == first && ([first] + Parts(rest))[1..] == Parts(rest);
    }
  }

  lemma {:induction false} SizeAdds(a: string, b: string)
    ensures Size(a + b) == Size(a) + Size(b)
  {
    if a == [] {
      assert a + b == b;
    } else {
      SizeAdds(a[1..], b);
      assert (a + b)[1..] == a[1..] + b;
    }
  }

  lemma EndSize(end: string)
    requires end in {"\r", "\n", "\r\n"}
    ensures Size(end) == |end| && Lex(end) == [LineEnd(end)]
  {
    assert end[1..] == (if |end| == 1 then [] else "\n");
    assert Size("\n") == 1 && Size("\r") == 1 by { assert "\n"[1..] == [] && "\r"[1..] == []; }
    assert |end| == 1 ==> end[1..] == [];
    if |end| == 2 { assert end[..2] == end && end[2..] == []; }
  }

  lemma CharacterGrows(pieces: seq<Piece>, c: char)
    ensures LastLine(pieces + [Character(c)]) == LastLine(pieces) + [c]
    ensures CompleteLines(pieces + [Character(c)]) == CompleteLines(pieces)
  {
    assert (pieces + [Character(c)])[..|pieces|] == pieces;
    assert CompleteLines(pieces) + [] == CompleteLines(pieces);
  }

  lemma {:induction false} LineGrows(pieces: seq<Piece>, more: string)
    requires Plain(more)
    ensures LastLine(pieces + Lex(more)) == LastLine(pieces) + more
        && CompleteLines(pieces + Lex(more)) == CompleteLines(pieces)
    decreases |more|
  {
    hide LastLine, CompleteLines;
    if more == [] {
      assert pieces + Lex(more) == pieces && LastLine(pieces) + more == LastLine(pieces);
    } else {
      var c, rest := more[0], more[1..];
      assert c in more && more == [c] + rest;
      var next := pieces + [Character(c)];
      assert Lex(more) == [Character(c)] + Lex(rest);
      assert pieces + Lex(more) == next + Lex(rest);
      CharacterGrows(pieces, c);
      LineGrows(next, rest);
      assert LastLine(pieces) + [c] + rest == LastLine(pieces) + more;
    }
  }

  lemma LineEnds(pieces: seq<Piece>, end: string)
    ensures var closed := pieces + [LineEnd(end)];
      LastLine(closed) == [] && CompleteLines(closed) == CompleteLines(pieces) + [Verdict(LastLine(pieces), end)]
  {
    assert (pieces + [LineEnd(end)])[..|pieces|] == pieces;
  }

  ghost predicate Lexed(pieces: seq<Piece>) {
    forall p | p in pieces :: p.Character? ==> !EndsLine(p.c)
  }

  lemma {:induction false} LexIsLexed(s: string)
    ensures Lexed(Lex(s))
  {
    if s != [] { LexIsLexed(if CrLf(s) then s[2..] else s[1..]); }
  }

  lemma {:induction false} LastLineIsPlain(pieces: seq<Piece>)
    requires Lexed(pieces)
    ensures Plain(LastLine(pieces))
  {
    if pieces != [] && pieces[|pieces| - 1].Character? {
      assert pieces[|pieces| - 1] in pieces;
      LastLineIsPlain(pieces[..|pieces| - 1]);
    }
  }

  /** Trailing line ends taken off. */
  function Stripped(s: string): string {
    if s != [] && EndsLine(s[|s| - 1]) then Stripped(s[..|s| - 1]) else s
  }

  lemma StripsCharacter(s: string, c: char)
    requires EndsLine(c)
    ensures Stripped(s + [c]) == Stripped(s)
  {
    assert (s + [c])[..|s|] == s;
  }

  lemma PlainStays(line: string)
    requires Plain(line)
    ensures Stripped(line) == line
  {
    assert line != [] ==> line[|line| - 1] in line;
  }

  lemma EndsAreEnds()
    ensures EndsLine('\r') && EndsLine('\n')
  {
  }

  lemma StripsOneEnd(line: string, end: string)
    requires Plain(line) && end in {"\r", "\n", "\r\n"}
    ensures Stripped(line + end) == line
  {
    hide Stripped, Plain, EndsLine;
    PlainStays(line);
    EndsAreEnds();
    if |end| == 1 {
      StripsCharacter(line, end[0]);
      assert line + [end[0]] == line + end;
    } else {
      StripsCharacter(line, '\r');
      StripsCharacter(line + ['\r'], '\n');
      assert line + ['\r'] + ['\n'] == line + end;
    }
  }

  function Last(s: string, n: nat): string { if |s| <= n then s else s[|s| - n..] }

  // ----- The stream -----

  class Output {
    const patterns: map<string, Pattern<char>>
    var tail: string
    var pending: string
    var longLine: bool
    var categories: set<string>
    var emitted: seq<Emission>
    /** Everything fed so far, as text and chunk by chunk taken apart. */
    ghost var fed: string
    ghost var pieces: seq<Piece>

    /** What the fields say about everything fed so far. */
    ghost predicate Valid()
      reads this
    {
      && LineState(pieces, pending, longLine, emitted) && Lexed(pieces)
      && tail == Last(fed, TAIL)
      && categories <= patterns.Keys
      && forall k | k in patterns :: Recorded(patterns[k], fed, k in categories)
    }

    constructor (patterns: map<string, Pattern<char>>)
      requires forall k | k in patterns :: patterns[k] != []
      ensures Valid() && fed == "" && pieces == [] && emitted == [] && this.patterns == patterns
    {
      this.patterns := patterns;
      tail, pending, longLine, categories, emitted, fed, pieces := "", "", false, {}, [], "", [];
      new;
      assert forall k | k in patterns :: !Occurs(patterns[k], "");
    }

    method TakePart(part: string, ghost before: seq<Piece>)
      requires OneLine(part) && LineState(before, pending, longLine, emitted) && Lexed(before)
      modifies this`pending, this`longLine, this`emitted
      ensures LineState(before + Lex(part), pending, longLine, emitted)
    {
      hide LineState, OneLine, Lexed;
      ghost var was := pending;
      pending := pending + part;
      if Size(pending) > MAX_LINE {
        pending := "";
        longLine := true;
      }
      PartTaken(before, part, was, old(longLine), emitted, pending, longLine);
      if part[|part| - 1] in {'\n', '\r'} {
        if longLine {
          emitted := emitted + [OversizedOmitted];
        } else {
          emitted := emitted + [Line(Stripped(pending))];
        }
        pending := "";
        longLine := false;
      }
    }

    method FeedLines(text: string)
      requires LineState(pieces, pending, longLine, emitted) && Lexed(pieces)
      modifies this`pending, this`longLine, this`emitted
      ensures LineState(pieces + Lex(text), pending, longLine, emitted)
    {
      hide LineState, OneLine, Lexed, Lex;
      var parts := Parts(text);
      PartsMakeTheText(text);
      assert pieces + LexAll([]) == pieces && parts[..0] == [];
      for i := 0 to |parts|
        invariant LineState(pieces + LexAll(parts[..i]), pending, longLine, emitted)
      {
        LexAllSnoc(parts[..i], parts[i]);
        assert parts[..i + 1] == parts[..i] + [parts[i]];
        assert pieces + LexAll(parts[..i]) + Lex(parts[i]) == pieces + (LexAll(parts[..i]) + Lex(parts[i]));
        StaysLexed(pieces, parts[..i]);
        TakePart(parts[i], pieces + LexAll(parts[..i]));
      }
      assert parts[..|parts|] == parts;
    }

    method Feed(text: string, final: bool)
      requires Valid()
      modifies this
      ensures fed == old(fed) + text && pieces == old(pieces) + Lex(text)
      ensures !final ==> Valid()
      ensures emitted == if final then Emissions(pieces) else CompleteLines(pieces)
      ensures categories <= patterns.Keys && forall k | k in patterns :: Recorded(patterns[k], fed, k in categories)
    {
      hide Recorded, LineState, Lexed, Lex;
      var scan := tail + text;
      ghost var before := categories;
      categories := categories + set k | k in patterns && Occurs(patterns[k], scan);
      forall k | k in patterns ensures Recorded(patterns[k], fed + text, k in categories) {
        ScanRecords(patterns[k], fed, text, k in before);
      }
      TailKept(fed, text);
      tail := Last(scan, TAIL);
      FeedLines(text);
      OneMoreLexed(pieces, text);
      fed, pieces := fed + text, pieces + Lex(text);
      LineStateMeans(pieces, pending, longLine, emitted);
      if final && (pending != "" || longLine) {
        if longLine { emitted := emitted + [OversizedOmitted]; } else { emitted := emitted + [Line(pending)]; }
        pending := "";
      }
    }
  }

  /** The emitted lines are the complete ones, and the rest is the unfinished line, unless it is already too long. */
  ghost predicate LineState(pieces: seq<Piece>, pending: string, longLine: bool, emitted: seq<Emission>) {
    && emitted == CompleteLines(pieces)
    && (longLine <==> Size(LastLine(pieces)) > 0x8000)
    && (!longLine ==> pending == LastLine(pieces))
  }

  lemma LineStateMeans(pieces: seq<Piece>, pending: string, longLine: bool, emitted: seq<Emission>)
    requires LineState(pieces, pending, longLine, emitted)
    ensures emitted == CompleteLines(pieces)
    ensures Emissions(pieces) == CompleteLines(pieces) +
      if longLine then [OversizedOmitted] else if pending != "" then [Line(pending)] else []
  {
  }

  lemma OneMoreLexed(pieces: seq<Piece>, text: string)
    requires Lexed(pieces)
    ensures Lexed(pieces + Lex(text))
  {
    LexIsLexed(text);
  }

  lemma {:induction false} StaysLexed(pieces: seq<Piece>, parts: seq<string>)
    requires Lexed(pieces)
    ensures Lexed(pieces + LexAll(parts))
    decreases |parts|
  {
    if parts == [] {
      assert pieces + LexAll(parts) == pieces;
    } else {
      OneMoreLexed(pieces, parts[0]);
      StaysLexed(pieces + Lex(parts[0]), parts[1..]);
      assert pieces + LexAll(parts) == pieces + Lex(parts[0]) + LexAll(parts[1..]);
    }
  }

  /** Adding a part: the long flag and the pending text before the line is closed, and what closing it emits. */
  lemma PartTaken(before: seq<Piece>, part: string, was: string, wasLong: bool, emitted: seq<Emission>, pending: string,
                  long: bool)
    requires OneLine(part) && LineState(before, was, wasLong, emitted) && Lexed(before)
    requires pending == (if Size(was + part) > MAX_LINE then "" else was + part)
        && long == (wasLong || Size(was + part) > MAX_LINE)
    ensures part != []
    ensures part[|part| - 1] !in {'\n', '\r'} ==> LineState(before + Lex(part), pending, long, emitted)
    ensures part[|part| - 1] in {'\n', '\r'} ==>
      LineState(before + Lex(part), "", false, emitted + [if long then OversizedOmitted else Line(Stripped(pending))])
  {
    hide CompleteLines, LastLine, Size, Lex, Lexed, Stripped;
    var line := LastLine(before);
    SizeAdds(line, part);
    assert part[|part| - 1] in part;
    if Plain(part) {
      LineGrows(before, part);
    } else {
      var body: string, end: string :| Closes(part, body, end);
      assert part[|part| - 1] == end[|end| - 1];
      EndSize(end);
      LexJoins(body, end) by { assert body != [] ==> body[|body| - 1] in body; }
      LineGrows(before, body);
      LineEnds(before + Lex(body), end);
      assert before + Lex(part) == before + Lex(body) + [LineEnd(end)];
      SizeAdds(line + body, end);
      assert line + part == line + body + end;
      EmptySize();
      LastLineIsPlain(before);
      StripsOneEnd(line + body, end);
    }
  }

  lemma EmptySize()
    ensures Size([]) == 0
  {
  }

  lemma {:induction false} LexAllSnoc(parts: seq<string>, last: string)
    ensures LexAll(parts + [last]) == LexAll(parts) + Lex(last)
  {
    hide Lex;
    if parts == [] {
      assert [last][1..] == [] && parts + [last] == [last];
    } else {
      LexAllSnoc(parts[1..], last);
      assert (parts + [last])[1..] == parts[1..] + [last];
    }
  }

  lemma {:induction false} FlattenSnoc(parts: seq<string>, last: string)
    ensures Flatten(parts + [last]) == Flatten(parts) + last
  {
    if parts == [] {
      assert [last][1..] == [] && parts + [last] == [last];
    } else {
      FlattenSnoc(parts[1..], last);
      assert (parts + [last])[1..] == parts[1..] + [last];
    }
  }

  /** A pattern of up to 2049 characters is recorded exactly when it occurs; a longer one only when it does. */
  ghost predicate Recorded(p: Pattern<char>, text: string, recorded: bool) {
    p != [] && (recorded ==> Occurs(p, text)) && (|p| <= 2049 ==> (recorded <==> Occurs(p, text)))
  }

  lemma TailKept(fed: string, text: string)
    ensures Last(Last(fed, TAIL) + text, TAIL) == Last(fed + text, TAIL)
  {
  }

  lemma ScanRecords(p: Pattern<char>, fed: string, text: string, was: bool)
    requires Recorded(p, fed, was)
    ensures Recorded(p, fed + text, was || Occurs(p, Last(fed, TAIL) + text))
  {
    hide Occurs;
    var start := if |fed| <= TAIL then 0 else |fed| - TAIL;
    assert (fed + text)[start..] == Last(fed, TAIL) + text;
    if Occurs(p, fed) {
      OccursLater(p, fed, text);
    } else if |p| <= TAIL + 1 {
      WindowSees(p, fed, text, start);
    }
    if Occurs(p, (fed + text)[start..]) { OccursInWhole(p, fed + text, start); }
  }

  /** A diagnostic of more than 2049 characters goes unrecorded when its last one comes in a chunk of its own. */
  lemma LongerGoesUnrecorded(p: Pattern<char>, w: string)
    requires |p| > 2049 && |w| == |p| && MatchesAt(p, w, 0)
    ensures var fed, text := w[..|w| - 1], [w[|w| - 1]];
      fed + text == w && Occurs(p, fed + text) && !Occurs(p, fed) && !Occurs(p, Last(fed, TAIL) + text)
  {
    var fed, text := w[..|w| - 1], [w[|w| - 1]];
    assert fed + text == w;
    forall i: nat ensures !MatchesAt(p, fed, i) && !MatchesAt(p, Last(fed, TAIL) + text, i) {}
  }

  lemma OccursInWhole(p: Pattern<char>, s: string, start: nat)
    requires start <= |s| && Occurs(p, s[start..])
    ensures Occurs(p, s)
  {
    var i: nat :| i <= |s| - start && MatchesAt(p, s[start..], i);
    assert s[start..|s|] == s[start..];
    MatchesInPart(p, s, start, |s|, start + i);
    assert MatchesAt(p, s, start + i);
  }

  /** What is emitted are the lines of the chunks taken apart one by one; what is recorded depends on the whole text
      alone. */
  method FeedAll(chunks: seq<string>, patterns: map<string, Pattern<char>>)
    returns (emitted: seq<Emission>, categories: set<string>)
    requires forall k | k in patterns :: patterns[k] != []
    ensures emitted == Emissions(LexAll(chunks))
    ensures categories <= patterns.Keys
        && forall k | k in patterns :: Recorded(patterns[k], Flatten(chunks), k in categories)
  {
    hide Recorded, LineState, Lexed, Lex;
    var output := new Output(patterns);
    assert chunks[..0] == [];
    for i := 0 to |chunks|
      invariant output.Valid() && output.fed == Flatten(chunks[..i]) && output.pieces == LexAll(chunks[..i])
      invariant output.patterns == patterns && fresh(output)
    {
      LexAllSnoc(chunks[..i], chunks[i]);
      FlattenSnoc(chunks[..i], chunks[i]);
      assert chunks[..i + 1] == chunks[..i] + [chunks[i]];
      output.Feed(chunks[i], false);
    }
    assert chunks[..|chunks|] == chunks;
    output.Feed("", true);
    assert Flatten(chunks) + "" == Flatten(chunks) && LexAll(chunks) + Lex("") == LexAll(chunks) by { NothingToLex(); }
    return output.emitted, output.categories;
  }

  lemma NothingToLex()
    ensures Lex("") == []
  {
  }

  // ----- Chunk boundaries -----

  function Ends(pieces: seq<Piece>): nat {
    if pieces == [] then 0 else Ends(pieces[..|pieces| - 1]) + if pieces[|pieces| - 1].LineEnd? then 1 else 0
  }

  lemma {:induction false} OneEmissionPerEnd(pieces: seq<Piece>)
    ensures |CompleteLines(pieces)| == Ends(pieces)
  {
    if pieces != [] { OneEmissionPerEnd(pieces[..|pieces| - 1]); }
  }

  lemma {:induction false} EndsJoin(a: seq<Piece>, b: seq<Piece>)
    ensures Ends(a + b) == Ends(a) + Ends(b)
    ensures LastLine(a + b) == if Ends(b) == 0 then LastLine(a) + LastLine(b) else LastLine(b)
    decreases |b|
  {
    if b == [] {
      assert a + b == a && LastLine(a) + LastLine(b) == LastLine(a);
    } else {
      var shorter := b[..|b| - 1];
      EndsJoin(a, shorter);
      assert (a + b)[..|a + b| - 1] == a + shorter;
      if b[|b| - 1].Character? && Ends(b) == 0 {
        assert LastLine(a) + LastLine(shorter) + [b[|b| - 1].c] == LastLine(a) + LastLine(b);
      }
    }
  }

  /** A boundary inside a carriage return and newline makes one line end more, and leaves the last line alone. */
  lemma {:induction false} SplitAddsAnEnd(a: string, b: string)
    requires Splits(a, b)
    ensures Ends(Lex(a) + Lex(b)) == Ends(Lex(a + b)) + 1 && LastLine(Lex(a) + Lex(b)) == LastLine(Lex(a + b))
  {
    hide Ends, LastLine;
    var head, tail := a[..|a| - 1], b[1..];
    assert a == head + "\r" && b == "\n" + tail && a + b == head + ("\r\n" + tail);
    LexJoins(head, "\r");
    EndSize("\r");
    EndSize("\n");
    assert Lex(b) == [LineEnd("\n")] + Lex(tail) by { assert b[1..] == tail; }
    LexJoins(head, "\r\n" + tail);
    var both := "\r\n" + tail;
    assert CrLf(both) && both[..2] == "\r\n" && both[2..] == tail;
    assert Lex(both) == [LineEnd("\r\n")] + Lex(tail);
    var front, back := Lex(head), Lex(tail);
    assert Lex(a) + Lex(b) == front + ([LineEnd("\r"), LineEnd("\n")] + back);
    assert Lex(a + b) == front + ([LineEnd("\r\n")] + back);
    EndsJoin(front, [LineEnd("\r"), LineEnd("\n")] + back);
    EndsJoin([LineEnd("\r"), LineEnd("\n")], back);
    EndsJoin(front, [LineEnd("\r\n")] + back);
    EndsJoin([LineEnd("\r\n")], back);
    FewEnds();
  }

  lemma FewEnds()
    ensures Ends([LineEnd("\r"), LineEnd("\n")]) == 2 && LastLine([LineEnd("\r"), LineEnd("\n")]) == []
    ensures Ends([LineEnd("\r\n")]) == 1 && LastLine([LineEnd("\r\n")]) == []
  {
    assert [LineEnd("\r"), LineEnd("\n")][..1] == [LineEnd("\r")] && [LineEnd("\r")][..0] == []
        && [LineEnd("\r\n")][..0] == [];
  }

  /** The i-th chunk begins with the newline of a carriage return before it. */
  predicate SplitAt(chunks: seq<string>, i: nat)
    requires i < |chunks|
  {
    Splits(Flatten(chunks[..i]), chunks[i])
  }

  /** How many boundaries fall inside a carriage return and newline. */
  function SplitCount(chunks: seq<string>): (n: nat)
    ensures n == 0 <==> forall i: nat | i < |chunks| :: !SplitAt(chunks, i)
  {
    if chunks == [] then 0
    else
      var before := chunks[..|chunks| - 1];
      assert forall i: nat | i < |before| :: before[..i] == chunks[..i];
      assert forall i: nat | i < |before| :: SplitAt(before, i) <==> SplitAt(chunks, i);
      SplitCount(before) + if SplitAt(chunks, |chunks| - 1) then 1 else 0
  }

  lemma {:induction false} SplitsCounted(chunks: seq<string>)
    ensures Ends(LexAll(chunks)) == Ends(Lex(Flatten(chunks))) + SplitCount(chunks)
    ensures LastLine(LexAll(chunks)) == LastLine(Lex(Flatten(chunks)))
    ensures SplitCount(chunks) == 0 ==> LexAll(chunks) == Lex(Flatten(chunks))
  {
    hide Ends, LastLine, Lex, Splits;
    if chunks == [] {
      NothingToLex();
    } else {
      var n := |chunks| - 1;
      var before, last := chunks[..n], chunks[n];
      SplitsCounted(before);
      assert chunks == before + [last];
      LexAllSnoc(before, last);
      FlattenSnoc(before, last);
      EndsJoin(LexAll(before), Lex(last));
      EndsJoin(Lex(Flatten(before)), Lex(last));
      if Splits(Flatten(before), last) { SplitAddsAnEnd(Flatten(before), last); }
          else { LexJoins(Flatten(before), last); }
    }
  }

  /** The emissions are those of the whole text, however it was cut, if and only if no boundary falls between a carriage
      return and its newline; every such boundary emits one line more. */
  lemma {:induction false} ChunksDoNotMatterExactly(chunks: seq<string>)
    ensures Emissions(LexAll(chunks)) == EmissionsOf(Flatten(chunks))
        <==> forall i: nat | i < |chunks| :: !SplitAt(chunks, i)
    ensures |Emissions(LexAll(chunks))| == |EmissionsOf(Flatten(chunks))| + SplitCount(chunks)
  {
    hide Ends, LastLine, Lex, CompleteLines, SplitAt;
    SplitsCounted(chunks);
    OneEmissionPerEnd(LexAll(chunks));
    OneEmissionPerEnd(Lex(Flatten(chunks)));
  }

  // ----- Line by line -----

  lemma WidthMeans(c: char)
    ensures Width(c) == 1 <==> c as int <= 0x7f
    ensures Width(c) == 2 <==> 0x80 <= c as int <= 0x7ff
    ensures Width(c) == 3 <==> 0x800 <= c as int <= 0xffff
    ensures Width(c) == 4 <==> c as int >= 0x1_0000
  {
  }

  lemma SizeSnoc(s: string, c: char)
    ensures Size([]) == 0 && Size(s + [c]) == Size(s) + Width(c)
  {
    SizeAdds(s, [c]);
    assert [c][1..] == [];
    assert Size([c]) == Width(c) + Size([c][1..]);
  }

  /** A line without carriage return or newline. */
  ghost predicate SingleLine(line: string) { '\r' !in line && '\n' !in line }

  lemma SingleIsPlain(line: string)
    ensures SingleLine(line) <==> Plain(line)
  {
    if !SingleLine(line) {
      if '\r' in line { assert EndsLine('\r'); } else { assert EndsLine('\n'); }
    }
  }

  lemma {:induction false} LinesJoin(a: seq<Piece>, b: seq<Piece>)
    requires LastLine(a) == []
    ensures CompleteLines(a + b) == CompleteLines(a) + CompleteLines(b) && LastLine(a + b) == LastLine(b)
    decreases |b|
  {
    if b == [] {
      assert a + b == a && CompleteLines(a) + CompleteLines(b) == CompleteLines(a);
    } else {
      var shorter := b[..|b| - 1];
      LinesJoin(a, shorter);
      assert (a + b)[..|a + b| - 1] == a + shorter;
      var last := if b[|b| - 1].LineEnd? then [Verdict(LastLine(shorter), b[|b| - 1].raw)] else [];
      assert CompleteLines(a) + CompleteLines(shorter) + last == CompleteLines(a) + (CompleteLines(shorter) + last);
    }
  }

  /** A text is emitted line by line: a carriage return, a newline or both together end a line, and what follows is
      emitted on its own. A line of more than 32 KiB, its end included, is only noted. */
  lemma {:induction false} FirstLineIsEmitted(line: string, end: string, rest: string)
    requires SingleLine(line) && end in {"\r", "\n", "\r\n"} && !(end == "\r" && rest != [] && rest[0] == '\n')
    ensures EmissionsOf(line + end + rest)
         == [if Size(line) + |end| > 0x8000 then OversizedOmitted else Line(line)] + EmissionsOf(rest)
  {
    hide Lex, CompleteLines, LastLine, Size;
    SingleIsPlain(line);
    EndSize(end);
    LexJoins(line, end) by { assert line != [] ==> line[|line| - 1] in line; }
    assert (line + end)[|line + end| - 1] == end[|end| - 1];
    LexJoins(line + end, rest);
    assert [] + Lex(line) == Lex(line);
    LineGrows([], line);
    NothingYet();
    assert [] + line == line;
    LineEnds(Lex(line), end);
    LinesJoin(Lex(line) + [LineEnd(end)], Lex(rest));
  }

  lemma NothingYet()
    ensures LastLine([]) == [] && CompleteLines([]) == []
  {
  }

  /** What follows the last line end is emitted too, unless it is empty. */
  lemma LastLineIsEmitted(line: string)
    requires SingleLine(line)
    ensures EmissionsOf(line) == if line == [] then []
        else [if Size(line) > 0x8000 then OversizedOmitted else Line(line)]
  {
    hide Lex, CompleteLines, LastLine, Size;
    SingleIsPlain(line);
    LineGrows([], line);
    NothingYet();
    assert [] + Lex(line) == Lex(line) && [] + line == line;
  }
}
