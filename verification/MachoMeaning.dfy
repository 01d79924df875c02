/** Which bytes the Mach-O reader accepts and what it makes of them, told field by field from the bytes alone. */
module MachoMeaning {
  import opened Bytes
  import opened SentryMacho
  import opened MachoGuarantees

  // ----- Fields -----

  /** The n-byte unsigned field at a position; 0 where the file has no such bytes. */
  ghost function Field(e: Endian, data: seq<byte>, at: nat, n: nat): nat {
    if at + n <= |data| then U(e, data, at, n) else 0
  }

  ghost function Piece(data: seq<byte>, at: nat, n: nat): seq<byte> {
    if at + n <= |data| then data[at..at + n] else []
  }

  /** A fixed-width name: its ASCII text without the NUL bytes that fill it up. */
  ghost function Name(data: seq<byte>, at: nat): string {
    DecodeAscii(StripNul(Piece(data, at, 16)))
  }

  ghost predicate Magic(data: seq<byte>, at: nat, e: Endian, wide: bool) {
    Piece(data, at, 4)
    == (if e.Little? then [if wide then 0xcf else 0xce, 0xfa, 0xed, 0xfe]
        else [0xfe, 0xed, 0xfa, if wide then 0xcf else 0xce])
  }

  // ----- Segment commands -----

  /** The section records of a segment command of either width. */
  ghost function Records(wide: bool, at: nat): nat { if wide then at + 72 else at + 56 }
  ghost function RecordSize(wide: bool): nat { if wide then 80 else 68 }

  ghost function RecordCount(data: seq<byte>, e: Endian, wide: bool, at: nat): nat {
    if wide then Field(e, data, at + 64, 4) else Field(e, data, at + 48, 4)
  }

  ghost function SegmentAt(data: seq<byte>, e: Endian, wide: bool, at: nat): Segment {
    if wide then
      Segment(Name(data, at + 8), Field(e, data, at + 24, 8), Field(e, data, at + 32, 8),
              Field(e, data, at + 40, 8), Field(e, data, at + 48, 8))
    else
      Segment(Name(data, at + 8), Field(e, data, at + 24, 4), Field(e, data, at + 28, 4),
              Field(e, data, at + 32, 4), Field(e, data, at + 36, 4))
  }

  /** A section record. It is present in the file unless it has no offset or no size, its segment has no file contents,
      or its type is S_ZEROFILL, S_GB_ZEROFILL or S_THREAD_LOCAL_ZEROFILL. */
  ghost function SectionAt(data: seq<byte>, start: nat, e: Endian, wide: bool, at: nat, fileSize: nat): Section {
    var addr := if wide then Field(e, data, at + 32, 8) else Field(e, data, at + 32, 4);
    var size := if wide then Field(e, data, at + 40, 8) else Field(e, data, at + 36, 4);
    var offset := if wide then Field(e, data, at + 48, 4) else Field(e, data, at + 40, 4);
    var align := if wide then Field(e, data, at + 52, 4) else Field(e, data, at + 44, 4);
    var flags := if wide then Field(e, data, at + 64, 4) else Field(e, data, at + 56, 4);
    Section(Name(data, at), Name(data, at + 16), start + offset, size, addr, align, flags,
            offset > 0 && size > 0 && fileSize > 0 && flags % 256 != 0x1 && flags % 256 != 0xc && flags % 256 != 0x12)
  }

  ghost function RowAt(data: seq<byte>, start: nat, e: Endian, wide: bool, at: nat, count: nat, fileSize: nat)
    : seq<Section> {
    seq(count, i requires 0 <= i < count => SectionAt(data, start, e, wide, at + i * RecordSize(wide), fileSize))
  }

  ghost function SectionsAt(data: seq<byte>, start: nat, e: Endian, wide: bool, at: nat): seq<Section> {
    RowAt(data, start, e, wide, Records(wide, at), RecordCount(data, e, wide, at),
        SegmentAt(data, e, wide, at).filesize)
  }

  /** A section that is present lies within the file contents of its segment. */
  ghost predicate Inside(s: Section, start: nat, fileStart: nat, fileSize: nat) {
    s.hasContents ==> start + fileStart <= s.offset && s.offset + s.size <= start + fileStart + fileSize
  }

  ghost predicate AllInside(row: seq<Section>, start: nat, fileStart: nat, fileSize: nat) {
    forall k :: 0 <= k < |row| ==> Inside(row[k], start, fileStart, fileSize)
  }

  ghost predicate SegmentFits(data: seq<byte>, start: nat, size: nat, e: Endian, wide: bool, at: nat, width: nat) {
    var segment := SegmentAt(data, e, wide, at);
    && Records(wide, at) <= at + width
    && segment.fileoff + segment.filesize <= size
    && Records(wide, at) + RecordCount(data, e, wide, at) * RecordSize(wide) <= at + width
    && AllInside(SectionsAt(data, start, e, wide, at), start, segment.fileoff, segment.filesize)
  }

  // ----- Load commands -----

  ghost function Kind(data: seq<byte>, e: Endian, at: nat): nat { Field(e, data, at, 4) }
  ghost function Width(data: seq<byte>, e: Endian, at: nat): nat { Field(e, data, at + 4, 4) }

  /** A symbol table: its entries are 12 or 16 bytes wide. */
  ghost predicate SymbolsFit(data: seq<byte>, size: nat, e: Endian, wide: bool, at: nat) {
    && Field(e, data, at + 8, 4) + Field(e, data, at + 12, 4) * (if wide then 16 else 12) <= size
    && Field(e, data, at + 16, 4) + Field(e, data, at + 20, 4) <= size
  }

  /** Some entry of the table is of type N_OSO. */
  ghost predicate HoldsOso(data: seq<byte>, start: nat, e: Endian, wide: bool, at: nat) {
    exists i :: 0 <= i < Field(e, data, at + 12, 4) && SymbolType(data, start, e, wide, at, i) == 0x66
  }

  ghost function SymbolType(data: seq<byte>, start: nat, e: Endian, wide: bool, at: nat, i: nat): nat {
    Field(Little, data, start + Field(e, data, at + 8, 4) + i * (if wide then 16 else 12) + 4, 1)
  }

  ghost predicate CommandFits(data: seq<byte>, start: nat, size: nat, stop: nat, e: Endian, wide: bool, at: nat) {
    var width := Width(data, e, at);
    && at + 8 <= stop && width >= 8 && at + width <= stop
    && (Kind(data, e, at) == 0x1b ==> width == 24)
    && (Kind(data, e, at) == 0x2 ==> width == 24 && SymbolsFit(data, size, e, wide, at))
    && (Kind(data, e, at) == 0x1 ==> SegmentFits(data, start, size, e, false, at, width))
    && (Kind(data, e, at) == 0x19 ==> SegmentFits(data, start, size, e, true, at, width))
  }

  /** The commands stand one behind the other, from first to end, and each is well formed. */
  ghost predicate Chain(data: seq<byte>, start: nat, size: nat, stop: nat, e: Endian, wide: bool, first: nat,
                        commands: seq<nat>, end: nat) {
    if commands == [] then end == first
    else
      var n := |commands| - 1;
      var at := commands[n];
      && Chain(data, start, size, stop, e, wide, first, commands[..n], at)
      && CommandFits(data, start, size, stop, e, wide, at) && end == at + Width(data, e, at)
  }

  ghost function SegmentsOf(data: seq<byte>, e: Endian, commands: seq<nat>): seq<Segment> {
    if commands == [] then []
    else
      var n := |commands| - 1;
      var at := commands[n];
      SegmentsOf(data, e, commands[..n])
      + (if Kind(data, e, at) == 0x1 then [SegmentAt(data, e, false, at)]
         else if Kind(data, e, at) == 0x19 then [SegmentAt(data, e, true, at)] else [])
  }

  ghost function SectionsOf(data: seq<byte>, start: nat, e: Endian, commands: seq<nat>): seq<Section> {
    if commands == [] then []
    else
      var n := |commands| - 1;
      var at := commands[n];
      SectionsOf(data, start, e, commands[..n])
      + (if Kind(data, e, at) == 0x1 then SectionsAt(data, start, e, false, at)
         else if Kind(data, e, at) == 0x19 then SectionsAt(data, start, e, true, at) else [])
  }

  /** The identifier some LC_UUID command carries. */
  ghost predicate Carries(data: seq<byte>, e: Endian, commands: seq<nat>, id: seq<byte>) {
    exists k :: 0 <= k < |commands| && Kind(data, e, commands[k]) == 0x1b && Piece(data, commands[k] + 8, 16) == id
  }

  /** The last symbol table decides. */
  ghost predicate OsoOf(data: seq<byte>, start: nat, e: Endian, wide: bool, commands: seq<nat>) {
    if commands == [] then false
    else
      var n := |commands| - 1;
      if Kind(data, e, commands[n]) == 0x2 then HoldsOso(data, start, e, wide, commands[n])
      else OsoOf(data, start, e, wide, commands[..n])
  }

  // ----- One image -----

  ghost predicate HeaderAt(data: seq<byte>, start: nat, size: nat, wide: bool, v: Slice) {
    && start + size <= |data| && v.offset == start && v.size == size
    && Magic(data, start, v.endian, wide) && (if wide then 32 else 28) <= size
    && v.cpuType == Signed32(Field(v.endian, data, start + 4, 4))
    && v.cpuSubtype == Signed32(Field(v.endian, data, start + 8, 4))
    && v.filetype == Field(v.endian, data, start + 12, 4)
    && (v.filetype == 1 || v.filetype == 2 || v.filetype == 6 || v.filetype == 8 || v.filetype == 10)
    && match v.architecture {
         case I386 => v.cpuType == 7
         case Arm => v.cpuType == 12
         case X86_64 => v.cpuType == 0x0100_0007
         case Arm64 => v.cpuType == 0x0100_000c
       }
  }

  ghost predicate CommandsAt(data: seq<byte>, start: nat, size: nat, wide: bool, v: Slice, commands: seq<nat>) {
    var e := v.endian;
    var first := start + (if wide then 32 else 28);
    var stop := first + Field(e, data, start + 20, 4);
    && |commands| == Field(e, data, start + 16, 4) <= 100000 && stop <= start + size
    && Chain(data, start, size, stop, e, wide, first, commands, stop)
    && v.segments == SegmentsOf(data, e, commands) && v.sections == SectionsOf(data, start, e, commands)
    && (v.hasOsoSymbols <==> OsoOf(data, start, e, wide, commands))
    && (forall id | Carries(data, e, commands, id) :: v.uuid == id)
    && (v.uuid == [] || Carries(data, e, commands, v.uuid))
  }

  /** data[start..start + size] is an image and v is its inventory. */
  ghost predicate Image(data: seq<byte>, start: nat, size: nat, v: Slice) {
    exists wide, commands :: HeaderAt(data, start, size, wide, v) && CommandsAt(data, start, size, wide, v, commands)
                             && FlagsMatch(v)
  }

  ghost predicate FlagsMatch(v: Slice) {
    && (v.hasDebugInfo <==>
        exists k :: 0 <= k < |v.sections| && HoldsDwarf(v.sections[k], {"__debug_info", "__zdebug_info"}))
    && (v.hasDebugLine <==>
        exists k :: 0 <= k < |v.sections| && HoldsDwarf(v.sections[k], {"__debug_line", "__zdebug_line"}))
    && (v.hasExecutableText <==> exists k :: 0 <= k < |v.sections| && HoldsCode(v.sections[k]))
  }

  // ----- The reader, record by record -----

  lemma AddMeans(data: seq<byte>, start: nat, e: Endian, wide: bool, at: nat, fileStart: nat, fileSize: nat, s: Scan)
    requires at + RecordSize(wide) <= |data|
    ensures var r := AddSection(start, fileStart, fileSize, UnpackSection(data, e, wide, at), s);
      var section := SectionAt(data, start, e, wide, at, fileSize);
      && (r.Ok? <==> Inside(section, start, fileStart, fileSize))
      && (r.Ok? ==> r.value == s.(sections := s.sections + [section], debugSections := r.value.debugSections,
                                  executable := r.value.executable))
  {
    hide U, StripNul, DecodeAscii, EncodeAscii, CodeFlags;
  }

  lemma RowSplits(data: seq<byte>, start: nat, e: Endian, wide: bool, at: nat, count: nat, fileSize: nat)
    requires count > 0
    ensures RowAt(data, start, e, wide, at, count, fileSize)
         == [SectionAt(data, start, e, wide, at, fileSize)]
            + RowAt(data, start, e, wide, at + RecordSize(wide), count - 1, fileSize)
  {
    hide SectionAt;
    var row, rest := RowAt(data, start, e, wide, at, count, fileSize),
                     RowAt(data, start, e, wide, at + RecordSize(wide), count - 1, fileSize);
    forall k | 1 <= k < count ensures row[k] == rest[k - 1] {
      assert at + k * RecordSize(wide) == at + RecordSize(wide) + (k - 1) * RecordSize(wide);
    }
  }

  lemma {:induction false} SectionsMean(data: seq<byte>, start: nat, e: Endian, wide: bool, at: nat, count: nat,
                                        fileStart: nat, fileSize: nat, s: Scan)
    requires at + SectionTable(wide, count) <= |data|
    ensures var r := ReadSections(data, start, e, wide, at, count, fileStart, fileSize, s);
      var row := RowAt(data, start, e, wide, at, count, fileSize);
      && (r.Ok? <==> AllInside(row, start, fileStart, fileSize))
      && (r.Ok? ==> r.value == s.(sections := s.sections + row, debugSections := r.value.debugSections,
                                  executable := r.value.executable))
    decreases count
  {
    hide UnpackSection, AddSection, SectionAt, Inside;
    if count == 0 {
      assert RowAt(data, start, e, wide, at, count, fileSize) == [];
      assert s.sections + [] == s.sections;
    } else {
      AddMeans(data, start, e, wide, at, fileStart, fileSize, s);
      RowSplits(data, start, e, wide, at, count, fileSize);
      var next := AddSection(start, fileStart, fileSize, UnpackSection(data, e, wide, at), s);
      var first, rest := SectionAt(data, start, e, wide, at, fileSize),
                         RowAt(data, start, e, wide, at + RecordSize(wide), count - 1, fileSize);
      AllInsideSplits(first, rest, start, fileStart, fileSize);
      if next.Ok? {
        SectionsMean(data, start, e, wide, at + SectionTable(wide, 1), count - 1, fileStart, fileSize, next.value);
        assert s.sections + [first] + rest == s.sections + ([first] + rest);
      }
    }
  }

  lemma AllInsideSplits(first: Section, rest: seq<Section>, start: nat, fileStart: nat, fileSize: nat)
    ensures AllInside([first] + rest, start, fileStart, fileSize)
        <==> Inside(first, start, fileStart, fileSize) && AllInside(rest, start, fileStart, fileSize)
  {
    hide Inside;
    var all := [first] + rest;
    assert all[0] == first && forall k :: 1 <= k < |all| ==> all[k] == rest[k - 1];
    assert forall k :: 0 <= k < |rest| ==> rest[k] == all[k + 1];
  }

  lemma SegmentMeans(data: seq<byte>, start: nat, size: nat, e: Endian, wide: bool, width: nat, s: Scan)
    requires s.cursor + width <= |data|
    ensures var r := ReadSegment(data, start, size, e, wide, width, s);
      && (r.Ok? <==> SegmentFits(data, start, size, e, wide, s.cursor, width))
      && (r.Ok? ==> r.value == s.(segments := s.segments + [SegmentAt(data, e, wide, s.cursor)],
                                  sections := s.sections + SectionsAt(data, start, e, wide, s.cursor),
                                  debugSections := r.value.debugSections, executable := r.value.executable))
  {
    hide U, StripNul, DecodeAscii, ReadSections, AllInside, RowAt;
    if width >= SegmentSize(wide) {
      var raw := UnpackSegment(data, e, wide, s.cursor);
      if raw.fileoff + raw.filesize <= size && SegmentSize(wide) + SectionTable(wide, raw.nsects) <= width {
        var named := s.(segments := s.segments + [SegmentAt(data, e, wide, s.cursor)]);
        SectionsMean(data, start, e, wide, s.cursor + SegmentSize(wide), raw.nsects, raw.fileoff, raw.filesize, named);
      }
    }
  }

  lemma SymtabMeans(data: seq<byte>, start: nat, size: nat, e: Endian, wide: bool, s: Scan)
    requires s.cursor + 24 <= |data| && start + size <= |data|
    ensures var r := ReadSymtab(data, start, size, e, wide, s);
      && (r.Ok? <==> SymbolsFit(data, size, e, wide, s.cursor))
      && (r.Ok? ==> r.value == s.(oso := HoldsOso(data, start, e, wide, s.cursor)))
  {
    hide U;
    if SymbolsFit(data, size, e, wide, s.cursor) {
      var symbols, count := U(e, data, s.cursor + 8, 4), U(e, data, s.cursor + 12, 4);
      forall i | 0 <= i < count
        ensures SymbolType(data, start, e, wide, s.cursor, i) == data[start + symbols + SymbolTable(wide, i) + 4] {
        OneByte(data, start + symbols + SymbolTable(wide, i) + 4);
      }
    }
  }

  lemma OneByte(data: seq<byte>, at: nat)
    requires at < |data|
    ensures U(Little, data, at, 1) == data[at]
  {
    var one := data[at..at + 1];
    assert UnpackLittle(one) == one[0] + 256 * UnpackLittle(one[1..]);
  }

  // ----- The reader, command by command -----

  /** What the scan has gathered is what the commands so far say. */
  ghost predicate Gathered(data: seq<byte>, start: nat, size: nat, stop: nat, e: Endian, wide: bool, first: nat,
                           commands: seq<nat>, s: Scan) {
    && Chain(data, start, size, stop, e, wide, first, commands, s.cursor)
    && s.segments == SegmentsOf(data, e, commands) && s.sections == SectionsOf(data, start, e, commands)
    && (s.oso <==> OsoOf(data, start, e, wide, commands))
    && (forall id :: id in s.identifiers <==> Carries(data, e, commands, id))
  }

  lemma CommandMeans(data: seq<byte>, start: nat, size: nat, stop: nat, e: Endian, wide: bool, s: Scan)
    requires stop <= start + size <= |data|
    ensures var r := ReadCommand(data, start, size, stop, e, wide, s);
      var at, kind := s.cursor, Kind(data, e, s.cursor);
      && (r.Ok? <==> CommandFits(data, start, size, stop, e, wide, at))
      && (r.Ok? ==>
            && r.value.cursor == at + Width(data, e, at)
            && r.value.identifiers == s.identifiers + (if kind == 0x1b then {Piece(data, at + 8, 16)} else {})
            && r.value.oso == (if kind == 0x2 then HoldsOso(data, start, e, wide, at) else s.oso)
            && r.value.segments == s.segments + (if kind == 0x1 then [SegmentAt(data, e, false, at)]
                                                 else if kind == 0x19 then [SegmentAt(data, e, true, at)] else [])
            && r.value.sections == s.sections + (if kind == 0x1 then SectionsAt(data, start, e, false, at)
                                                 else if kind == 0x19 then SectionsAt(data, start, e, true, at)
                                                 else []))
  {
    hide U, ReadSegment, ReadSymtab, SegmentAt, SectionsAt, SegmentFits, SymbolsFit, HoldsOso;
    if s.cursor + 8 <= stop {
      var width := U(e, data, s.cursor + 4, 4);
      if width >= 8 && s.cursor + width <= stop {
        SegmentMeans(data, start, size, e, false, width, s);
        SegmentMeans(data, start, size, e, true, width, s);
        if width == 24 { SymtabMeans(data, start, size, e, wide, s); }
      }
    }
  }

  lemma CarriesOneMore(data: seq<byte>, e: Endian, commands: seq<nat>, at: nat, id: seq<byte>)
    ensures Carries(data, e, commands + [at], id)
        <==> Carries(data, e, commands, id) || (Kind(data, e, at) == 0x1b && Piece(data, at + 8, 16) == id)
  {
    hide Kind, Piece;
    var all := commands + [at];
    assert all[|commands|] == at && forall k :: 0 <= k < |commands| ==> all[k] == commands[k];
  }

  /** One command more is read exactly when it is well formed, and then what it says has been gathered. */
  lemma StepMeans(data: seq<byte>, start: nat, size: nat, stop: nat, e: Endian, wide: bool, first: nat,
                  commands: seq<nat>, s: Scan)
    requires stop <= start + size <= |data|
    requires Gathered(data, start, size, stop, e, wide, first, commands, s)
    ensures var r := ReadCommand(data, start, size, stop, e, wide, s);
      && (r.Ok? <==> CommandFits(data, start, size, stop, e, wide, s.cursor))
      && (r.Ok? ==> r.value.cursor == s.cursor + Width(data, e, s.cursor)
                    && Gathered(data, start, size, stop, e, wide, first, commands + [s.cursor], r.value))
  {
    hide ReadCommand, CommandFits, SegmentAt, SectionsAt, HoldsOso, Kind, Width, Piece, Carries;
    CommandMeans(data, start, size, stop, e, wide, s);
    var r := ReadCommand(data, start, size, stop, e, wide, s);
    var longer := commands + [s.cursor];
    assert longer[..|commands|] == commands;
    if r.Ok? {
      forall id ensures id in r.value.identifiers <==> Carries(data, e, longer, id) {
        CarriesOneMore(data, e, commands, s.cursor, id);
      }
    }
  }

  /** Reading count commands more. */
  lemma {:induction false} CommandsMean(data: seq<byte>, start: nat, size: nat, stop: nat, e: Endian, wide: bool,
                                        first: nat, commands: seq<nat>, count: nat, s: Scan)
    returns (all: seq<nat>)
    requires stop <= start + size <= |data|
    requires Gathered(data, start, size, stop, e, wide, first, commands, s)
    ensures var r := ReadCommands(data, start, size, stop, e, wide, count, s);
      r.Ok? ==> |all| == |commands| + count && Gathered(data, start, size, stop, e, wide, first, all, r.value)
    decreases count
  {
    hide ReadCommand, Gathered;
    all := commands;
    if count > 0 {
      StepMeans(data, start, size, stop, e, wide, first, commands, s);
      var next := ReadCommand(data, start, size, stop, e, wide, s);
      if next.Ok? {
        all := CommandsMean(data, start, size, stop, e, wide, first, commands + [s.cursor], count - 1, next.value);
      }
    }
  }

  lemma {:induction false} ChainPrefix(data: seq<byte>, start: nat, size: nat, stop: nat, e: Endian, wide: bool,
                                       first: nat, commands: seq<nat>, end: nat, n: nat)
    requires Chain(data, start, size, stop, e, wide, first, commands, end) && n < |commands|
    ensures Chain(data, start, size, stop, e, wide, first, commands[..n], commands[n])
    ensures CommandFits(data, start, size, stop, e, wide, commands[n])
    ensures (if n + 1 < |commands| then commands[n + 1] else end) == commands[n] + Width(data, e, commands[n])
    decreases |commands|
  {
    hide CommandFits, Width;
    var m := |commands| - 1;
    if n < m {
      ChainPrefix(data, start, size, stop, e, wide, first, commands[..m], commands[m], n);
      assert commands[..m][..n] == commands[..n];
    }
  }

  /** Commands that form a chain are read to their end. */
  lemma {:induction false} ChainIsRead(data: seq<byte>, start: nat, size: nat, stop: nat, e: Endian, wide: bool,
                                       first: nat, all: seq<nat>, end: nat, n: nat, s: Scan)
    requires stop <= start + size <= |data| && n <= |all|
    requires Chain(data, start, size, stop, e, wide, first, all, end)
    requires Gathered(data, start, size, stop, e, wide, first, all[..n], s)
    requires s.cursor == if n < |all| then all[n] else end
    ensures var r := ReadCommands(data, start, size, stop, e, wide, |all| - n, s);
      r.Ok? && r.value.cursor == end && Gathered(data, start, size, stop, e, wide, first, all, r.value)
    decreases |all| - n
  {
    hide ReadCommand, Gathered, Chain, CommandFits, Width;
    if n == |all| {
      assert all[..n] == all;
    } else {
      ChainPrefix(data, start, size, stop, e, wide, first, all, end, n);
      StepMeans(data, start, size, stop, e, wide, first, all[..n], s);
      assert all[..n] + [all[n]] == all[..n + 1];
      ChainIsRead(data, start, size, stop, e, wide, first, all, end, n + 1,
          ReadCommand(data, start, size, stop, e, wide, s).value);
    }
  }

  // ----- One image -----

  lemma MagicMeans(data: seq<byte>, at: nat, e: Endian, wide: bool)
    ensures ThinMagic(data, at) == Some((e, wide)) <==> Magic(data, at, e, wide)
  {
  }

  lemma HeaderMeans(data: seq<byte>, start: nat, size: nat, wide: bool, v: Slice)
    requires HeaderAt(data, start, size, wide, v)
    ensures var first := start + (if wide then 32 else 28);
      var stop := first + Field(v.endian, data, start + 20, 4);
      var count := Field(v.endian, data, start + 16, 4);
      ReadHeader(data, start, size)
      == if count > 100000 || stop > start + size then Err(CommandTable)
         else Ok(Header(v.endian, wide, v.cpuType, v.cpuSubtype, v.filetype, v.architecture, count, stop))
  {
    hide U, Signed32, ThinMagic, Magic;
    MagicMeans(data, start, v.endian, wide);
  }

  lemma HeaderIs(data: seq<byte>, start: nat, size: nat, v: Slice)
    requires ReadHeader(data, start, size).Ok? && v.offset == start && v.size == size
    requires var h := ReadHeader(data, start, size).value;
      && v.endian == h.endian && v.cpuType == h.cpuType && v.cpuSubtype == h.cpuSubtype && v.filetype == h.filetype
      && v.architecture == h.architecture
    ensures HeaderAt(data, start, size, ReadHeader(data, start, size).value.wide, v)
  {
    hide U, Signed32, ThinMagic, Magic;
    var h := ReadHeader(data, start, size).value;
    MagicMeans(data, start, h.endian, h.wide);
    MagicExtent(data, start, size);
  }

  lemma MagicExtent(data: seq<byte>, start: nat, size: nat)
    requires ReadHeader(data, start, size).Ok?
    ensures start + 28 <= |data|
  {
    hide U, ThinMagic;
  }

  lemma NothingGathered(data: seq<byte>, start: nat, size: nat, stop: nat, e: Endian, wide: bool, first: nat)
    ensures Gathered(data, start, size, stop, e, wide, first, [], ScanFrom(first))
  {
  }

  lemma OneIdentifier(ids: set<seq<byte>>, id: seq<byte>)
    requires forall other | other in ids :: other == id
    ensures |ids| <= 1
  {
    if ids != {} { assert ids == {id}; }
  }

  /** The reader accepts exactly the images, and tells exactly what they are. */
  lemma {:induction false} ThinExactly(data: seq<byte>, start: nat, size: nat, v: Slice)
    ensures Thin(data, start, size) == Ok(v) <==> Image(data, start, size, v)
  {
    hide HeaderAt, CommandsAt, FlagsMatch, Thin;
    if Thin(data, start, size) == Ok(v) { ThinIsImage(data, start, size, v); }
    forall wide, commands | HeaderAt(data, start, size, wide, v) && CommandsAt(data, start, size, wide, v, commands)
                            && FlagsMatch(v)
      ensures Thin(data, start, size) == Ok(v)
    {
      ImageIsRead(data, start, size, wide, v, commands);
    }
  }

  lemma ThinIsImage(data: seq<byte>, start: nat, size: nat, v: Slice)
    requires Thin(data, start, size) == Ok(v)
    ensures Image(data, start, size, v)
  {
    hide ReadHeader, ReadCommands, HeaderAt, HoldsDwarf, HoldsCode, EncodeAscii, Chain, SegmentsOf, SectionsOf, OsoOf,
         Carries, SectionShape;
    var h := ReadHeader(data, start, size).value;
    var first := start + HeaderSize(h.wide);
    HeaderIs(data, start, size, v);
    HeaderMeans(data, start, size, h.wide, v);
    ThinShape(data, start, size);
    NothingGathered(data, start, size, h.stop, h.endian, h.wide, first);
    var commands := CommandsMean(data, start, size, h.stop, h.endian, h.wide, first, [], h.count, ScanFrom(first));
    var s := ReadCommands(data, start, size, h.stop, h.endian, h.wide, h.count, ScanFrom(first)).value;
    IdentifierIs(data, h.endian, commands, s.identifiers);
    assert CommandsAt(data, start, size, h.wide, v, commands);
  }

  lemma IdentifierIs(data: seq<byte>, e: Endian, commands: seq<nat>, ids: set<seq<byte>>)
    requires |ids| <= 1 && forall id :: id in ids <==> Carries(data, e, commands, id)
    ensures forall id | Carries(data, e, commands, id) :: UuidOf(ids) == id
    ensures UuidOf(ids) == [] || Carries(data, e, commands, UuidOf(ids))
  {
    hide Carries;
    if ids != {} { assert UuidOf(ids) in ids; }
    forall id | id in ids ensures UuidOf(ids) == id { SingletonSet(ids, UuidOf(ids), id); }
  }

  lemma ImageIsRead(data: seq<byte>, start: nat, size: nat, wide: bool, v: Slice, commands: seq<nat>)
    requires HeaderAt(data, start, size, wide, v) && CommandsAt(data, start, size, wide, v, commands) && FlagsMatch(v)
    ensures Thin(data, start, size) == Ok(v)
  {
    hide ReadHeader, ReadCommands, HoldsDwarf, HoldsCode, EncodeAscii, Chain, SegmentsOf, SectionsOf, OsoOf, Carries,
         SectionShape, Magic, Field;
    HeaderMeans(data, start, size, wide, v);
    var h := ReadHeader(data, start, size).value;
    var first := start + HeaderSize(wide);
    NothingGathered(data, start, size, h.stop, h.endian, wide, first);
    ChainStarts(data, start, size, h.stop, h.endian, wide, first, commands, h.stop);
    assert commands[..0] == [];
    ChainIsRead(data, start, size, h.stop, h.endian, wide, first, commands, h.stop, 0, ScanFrom(first));
    var s := ReadCommands(data, start, size, h.stop, h.endian, wide, h.count, ScanFrom(first)).value;
    OneIdentifier(s.identifiers, v.uuid);
    IdentifierIs(data, h.endian, commands, s.identifiers);
    ThinShape(data, start, size);
  }

  lemma ChainStarts(data: seq<byte>, start: nat, size: nat, stop: nat, e: Endian, wide: bool, first: nat,
                    commands: seq<nat>, end: nat)
    requires Chain(data, start, size, stop, e, wide, first, commands, end)
    ensures first == if commands == [] then end else commands[0]
  {
    hide CommandFits, Width;
    if commands != [] {
      ChainPrefix(data, start, size, stop, e, wide, first, commands, end, 0);
    }
  }

  // ----- Universal files -----

  ghost predicate UniversalMagic(data: seq<byte>, e: Endian, wide: bool) {
    Piece(data, 0, 4)
    == (if e.Big? then [0xca, 0xfe, 0xba, if wide then 0xbf else 0xbe]
        else [if wide then 0xbf else 0xbe, 0xba, 0xfe, 0xca])
  }

  ghost function EntrySize(wide: bool): nat { if wide then 32 else 20 }

  ghost function EntryAt(data: seq<byte>, e: Endian, wide: bool, i: nat): FatEntry {
    var at := 8 + i * EntrySize(wide);
    var cpuType, cpuSubtype := Signed32(Field(e, data, at, 4)), Signed32(Field(e, data, at + 4, 4));
    if wide then
      FatEntry(cpuType, cpuSubtype, Field(e, data, at + 8, 8), Field(e, data, at + 16, 8), Field(e, data, at + 24, 4))
    else
      FatEntry(cpuType, cpuSubtype, Field(e, data, at + 8, 4), Field(e, data, at + 12, 4), Field(e, data, at + 16, 4))
  }

  /** A table of 1 to 64 entries. */
  ghost predicate TableAt(data: seq<byte>, e: Endian, wide: bool, count: nat) {
    && UniversalMagic(data, e, wide) && |data| >= 8 && count == Field(e, data, 4, 4)
    && 0 < count <= 64 && 8 + count * EntrySize(wide) <= |data|
  }

  /** The entry announces this image, which stands where it says, behind the table. */
  ghost predicate Announces(data: seq<byte>, tableEnd: nat, entry: FatEntry, v: Slice) {
    && tableEnd <= entry.offset == v.offset && 0 < entry.size == v.size && entry.offset + entry.size <= |data|
    && entry.cpuType == v.cpuType && entry.cpuSubtype == v.cpuSubtype
    && Image(data, v.offset, v.size, v)
  }

  ghost predicate Universal(data: seq<byte>, e: Endian, wide: bool, variants: seq<Slice>) {
    var tableEnd := 8 + |variants| * EntrySize(wide);
    && TableAt(data, e, wide, |variants|)
    && (forall i :: 0 <= i < |variants| ==> Announces(data, tableEnd, EntryAt(data, e, wide, i), variants[i]))
    && (forall i, j :: 0 <= i < j < |variants| ==> SetApart(variants[i], variants[j]))
  }

  ghost predicate SetApart(a: Slice, b: Slice) { ApartFrom(a, b) && a.architecture != b.architecture }

  lemma EntryMeans(data: seq<byte>, e: Endian, wide: bool, i: nat)
    requires 8 + FatTable(wide, i + 1) <= |data|
    ensures UnpackFatEntry(data, e, wide, 8 + FatTable(wide, i)) == EntryAt(data, e, wide, i)
    ensures FatTable(wide, i) == i * EntrySize(wide)
  {
    hide U, Signed32;
  }

  lemma FatSliceMeans(data: seq<byte>, tableEnd: nat, info: FatEntry, variants: seq<Slice>, ranges: seq<(nat, nat)>,
                      v: Slice)
    requires RangesOf(variants, ranges) && forall i :: 0 <= i < |variants| ==> variants[i].size > 0
    ensures FatSlice(data, tableEnd, info, variants, ranges) == Ok(v)
        <==> Announces(data, tableEnd, info, v) && forall i :: 0 <= i < |variants| ==> SetApart(variants[i], v)
  {
    hide Thin, Image;
    ThinExactly(data, info.offset, info.size, v);
    if Image(data, info.offset, info.size, v) { ThinStands(data, info.offset, info.size); }
  }

  lemma {:induction false} FatMeans(data: seq<byte>, e: Endian, wide: bool, variants: seq<Slice>,
                                    ranges: seq<(nat, nat)>, all: seq<Slice>, count: nat)
    requires 8 + FatTable(wide, count) <= |data| && |variants| <= count
    requires RangesOf(variants, ranges) && forall i :: 0 <= i < |variants| ==> variants[i].size > 0
    ensures FatVariants(data, e, wide, count, |variants|, variants, ranges) == Ok(all)
        <==> Extends(data, e, wide, variants, all, count)
    decreases count - |variants|
  {
    hide FatSlice, UnpackFatEntry, EntryAt, Extends, Follows, RangesOf;
    var index := |variants|;
    if index == count {
      ExtendsNothing(data, e, wide, variants, all, count);
    } else {
      assert FatTable(wide, index + 1) <= FatTable(wide, count);
      EntryMeans(data, e, wide, index);
      FatTableMeans(wide, count);
      var info := EntryAt(data, e, wide, index);
      var read := FatSlice(data, 8 + FatTable(wide, count), info, variants, ranges);
      ExtendsOne(data, e, wide, variants, all, count);
      if |all| == count { EntryReads(data, e, wide, variants, ranges, all[index], count); }
      if read.Ok? {
        EntryReads(data, e, wide, variants, ranges, read.value, count);
        FatMeans(data, e, wide, variants + [read.value], ranges + [(info.offset, info.offset + info.size)], all, count);
        ExtendsBegins(data, e, wide, variants, read.value, all, count);
      }
    }
  }

  lemma EntryReads(data: seq<byte>, e: Endian, wide: bool, variants: seq<Slice>, ranges: seq<(nat, nat)>, v: Slice,
                   count: nat)
    requires RangesOf(variants, ranges) && forall i :: 0 <= i < |variants| ==> variants[i].size > 0
    ensures var info := EntryAt(data, e, wide, |variants|);
      && (FatSlice(data, 8 + count * EntrySize(wide), info, variants, ranges) == Ok(v)
          <==> Follows(data, e, wide, variants, v, count))
      && (Follows(data, e, wide, variants, v, count) ==>
            v.size > 0 && RangesOf(variants + [v], ranges + [(info.offset, info.offset + info.size)]))
  {
    hide EntryAt, FatSlice, Image, SetApart;
    FatSliceMeans(data, 8 + count * EntrySize(wide), EntryAt(data, e, wide, |variants|), variants, ranges, v);
  }

  lemma FatTableMeans(wide: bool, count: nat)
    ensures FatTable(wide, count) == count * EntrySize(wide)
  {
  }

  /** v may come next. */
  ghost predicate Follows(data: seq<byte>, e: Endian, wide: bool, variants: seq<Slice>, v: Slice, count: nat) {
    && Announces(data, 8 + count * EntrySize(wide), EntryAt(data, e, wide, |variants|), v)
    && forall i :: 0 <= i < |variants| ==> SetApart(variants[i], v)
  }

  ghost predicate Extends(data: seq<byte>, e: Endian, wide: bool, variants: seq<Slice>, all: seq<Slice>, count: nat) {
    && |variants| <= |all| == count && all[..|variants|] == variants
    && forall j :: |variants| <= j < count ==> Follows(data, e, wide, all[..j], all[j], count)
  }

  lemma ExtendsNothing(data: seq<byte>, e: Endian, wide: bool, variants: seq<Slice>, all: seq<Slice>, count: nat)
    requires |variants| == count
    ensures Extends(data, e, wide, variants, all, count) <==> all == variants
  {
    assert |all| == count ==> all[..count] == all;
  }

  lemma ExtendsOne(data: seq<byte>, e: Endian, wide: bool, variants: seq<Slice>, all: seq<Slice>, count: nat)
    requires |variants| < count
    ensures Extends(data, e, wide, variants, all, count)
        <==> |all| == count && Follows(data, e, wide, variants, all[|variants|], count)
             && Extends(data, e, wide, variants + [all[|variants|]], all, count)
  {
    hide Follows;
    var n := |variants|;
    if Extends(data, e, wide, variants, all, count) {
      assert Follows(data, e, wide, all[..n], all[n], count);
      assert all[..n + 1] == variants + [all[n]];
    }
    if |all| == count && Extends(data, e, wide, variants + [all[n]], all, count) {
      assert all[..n] == all[..n + 1][..n] == variants;
    }
  }

  lemma ExtendsBegins(data: seq<byte>, e: Endian, wide: bool, variants: seq<Slice>, v: Slice, all: seq<Slice>,
                      count: nat)
    requires |variants| < count
    ensures Extends(data, e, wide, variants + [v], all, count) ==> |all| == count && all[|variants|] == v
  {
    hide Follows;
    if Extends(data, e, wide, variants + [v], all, count) {
      assert all[|variants|] == all[..|variants| + 1][|variants|];
    }
  }

  lemma ExtendsMeans(data: seq<byte>, e: Endian, wide: bool, all: seq<Slice>)
    requires TableAt(data, e, wide, |all|)
    ensures Extends(data, e, wide, [], all, |all|) <==> Universal(data, e, wide, all)
  {
    hide Announces, SetApart, EntryAt, TableAt;
    if Universal(data, e, wide, all) {
      forall j | 0 <= j < |all| ensures Follows(data, e, wide, all[..j], all[j], |all|) {}
    }
    if Extends(data, e, wide, [], all, |all|) {
      forall j | 0 <= j < |all|
        ensures Announces(data, 8 + |all| * EntrySize(wide), EntryAt(data, e, wide, j), all[j])
        ensures forall i :: 0 <= i < j ==> SetApart(all[i], all[j])
      {
        assert Follows(data, e, wide, all[..j], all[j], |all|);
        assert forall i :: 0 <= i < j ==> all[..j][i] == all[i];
      }
    }
  }

  lemma UniversalMagicMeans(data: seq<byte>, e: Endian, wide: bool)
    ensures FatMagic(data) == Some((e, wide)) <==> UniversalMagic(data, e, wide)
    ensures UniversalMagic(data, e, wide) ==> ThinMagic(data, 0).None?
  {
  }

  /** A file that inspection accepts: one image, or a universal file of several. */
  ghost predicate Describes(data: seq<byte>, inventory: Inventory) {
    if inventory.isFat then exists e, wide :: Universal(data, e, wide, inventory.variants)
    else |inventory.variants| == 1 && Image(data, 0, |data|, inventory.variants[0])
  }

  lemma UniversalIsRead(data: seq<byte>, e: Endian, wide: bool, inventory: Inventory)
    requires UniversalMagic(data, e, wide) && inventory.isFat
    ensures Inspect(data) == Ok(inventory) <==> Universal(data, e, wide, inventory.variants)
  {
    hide U, Thin, FatVariants, UniversalMagic, Extends, Announces, EntryAt;
    UniversalMagicMeans(data, e, wide);
    var count := Field(e, data, 4, 4);
    FatTableMeans(wide, count);
    MagicTakesFour(data, e, wide);
    if 0 < count <= 64 && |data| >= 8 && 8 + FatTable(wide, count) <= |data| {
      FatMeans(data, e, wide, [], [], inventory.variants, count);
      if |inventory.variants| == count { ExtendsMeans(data, e, wide, inventory.variants); }
      ExtendsLength(data, e, wide, inventory.variants, count);
    }
  }

  lemma ExtendsLength(data: seq<byte>, e: Endian, wide: bool, all: seq<Slice>, count: nat)
    ensures Extends(data, e, wide, [], all, count) ==> |all| == count
  {
  }

  lemma MagicTakesFour(data: seq<byte>, e: Endian, wide: bool)
    requires UniversalMagic(data, e, wide)
    ensures |data| >= 4
  {
  }

  /** Inspection accepts exactly the images and the universal files of images, and reports exactly what they hold. */
  lemma {:induction false} InspectExactly(data: seq<byte>, inventory: Inventory)
    ensures Inspect(data) == Ok(inventory) <==> Describes(data, inventory)
  {
    hide U, Thin, FatVariants, Universal, Image, UniversalMagic;
    if inventory.isFat {
      forall e, wide | UniversalMagic(data, e, wide)
        ensures Inspect(data) == Ok(inventory) <==> Universal(data, e, wide, inventory.variants)
      {
        UniversalIsRead(data, e, wide, inventory);
      }
      forall e, wide | Universal(data, e, wide, inventory.variants) ensures UniversalMagic(data, e, wide) {
        UniversalHasMagic(data, e, wide, inventory.variants);
      }
      if Inspect(data) == Ok(inventory) {
        var (e, wide) := FatMagic(data).value;
        UniversalMagicMeans(data, e, wide);
      }
    } else {
      NotFat(data, inventory);
      if |inventory.variants| == 1 { ThinExactly(data, 0, |data|, inventory.variants[0]); }
    }
  }

  lemma UniversalHasMagic(data: seq<byte>, e: Endian, wide: bool, variants: seq<Slice>)
    requires Universal(data, e, wide, variants)
    ensures UniversalMagic(data, e, wide)
  {
  }

  lemma NotFat(data: seq<byte>, inventory: Inventory)
    requires !inventory.isFat
    ensures Inspect(data) == Ok(inventory)
        <==> |inventory.variants| == 1 && Thin(data, 0, |data|) == Ok(inventory.variants[0])
  {
    hide U, ReadCommands, FatVariants, Summary;
    if |inventory.variants| == 1 && Thin(data, 0, |data|) == Ok(inventory.variants[0]) {
      assert inventory.variants == [inventory.variants[0]];
    }
  }

  // ----- The stricter table reader -----

  /** What the stricter reader demands of an entry by itself, and of two of them. */
  ghost predicate EntryAlone(data: seq<byte>, tableEnd: nat, entry: FatEntry) {
    && tableEnd <= entry.offset && 0 < entry.size && entry.offset + entry.size <= |data|
    && entry.align <= 31 && entry.offset % Pow2(entry.align) == 0
  }

  ghost predicate EntriesApart(a: FatEntry, b: FatEntry) {
    && (a.offset + a.size <= b.offset || b.offset + b.size <= a.offset)
    && !(a.cpuType == b.cpuType && a.cpuSubtype % 0x0100_0000 == b.cpuSubtype % 0x0100_0000)
  }

  ghost predicate TableExtends(data: seq<byte>, e: Endian, wide: bool, accepted: seq<FatEntry>, all: seq<FatEntry>,
                               count: nat) {
    && |accepted| <= |all| == count && all[..|accepted|] == accepted
    && (forall i :: |accepted| <= i < count ==>
          all[i] == EntryAt(data, e, wide, i) && EntryAlone(data, 8 + count * EntrySize(wide), all[i]))
    && (forall i, j :: 0 <= i < j < count && |accepted| <= j ==> EntriesApart(all[i], all[j]))
  }

  lemma {:induction false} TableMeans(data: seq<byte>, e: Endian, wide: bool, accepted: seq<FatEntry>,
                                      all: seq<FatEntry>, count: nat)
    requires 8 + FatTable(wide, count) <= |data| && |accepted| <= count
    requires forall i :: 0 <= i < |accepted| ==> accepted[i].size > 0
    ensures FatEntriesFrom(data, e, wide, count, |accepted|, accepted) == Ok(all)
        <==> TableExtends(data, e, wide, accepted, all, count)
    decreases count - |accepted|
  {
    hide UnpackFatEntry, EntryAt, TableExtends, Pow2;
    var index := |accepted|;
    if index == count {
      TableEnds(data, e, wide, accepted, all, count);
    } else {
      assert FatTable(wide, index + 1) <= FatTable(wide, count);
      EntryMeans(data, e, wide, index);
      FatTableMeans(wide, count);
      var info := EntryAt(data, e, wide, index);
      TableStep(data, e, wide, accepted, all, count);
      if EntryAlone(data, 8 + count * EntrySize(wide), info)
         && forall i :: 0 <= i < index ==> EntriesApart(accepted[i], info)
      {
        TableMeans(data, e, wide, accepted + [info], all, count);
      }
    }
  }

  lemma TableEnds(data: seq<byte>, e: Endian, wide: bool, accepted: seq<FatEntry>, all: seq<FatEntry>, count: nat)
    requires |accepted| == count
    ensures TableExtends(data, e, wide, accepted, all, count) <==> all == accepted
  {
    assert |all| == count ==> all[..count] == all;
  }

  lemma TableStep(data: seq<byte>, e: Endian, wide: bool, accepted: seq<FatEntry>, all: seq<FatEntry>, count: nat)
    requires |accepted| < count
    ensures var info := EntryAt(data, e, wide, |accepted|);
      TableExtends(data, e, wide, accepted, all, count)
      <==> EntryAlone(data, 8 + count * EntrySize(wide), info)
           && (forall i :: 0 <= i < |accepted| ==> EntriesApart(accepted[i], info))
           && TableExtends(data, e, wide, accepted + [info], all, count)
  {
    hide EntryAt, EntryAlone, EntriesApart;
    var n := |accepted|;
    var info := EntryAt(data, e, wide, n);
    if TableExtends(data, e, wide, accepted, all, count) {
      assert all[n] == info && all[..n + 1] == accepted + [info];
      assert forall i :: 0 <= i < n ==> accepted[i] == all[..n][i] == all[i];
    }
    if TableExtends(data, e, wide, accepted + [info], all, count) {
      assert all[..n] == all[..n + 1][..n] == accepted;
      assert all[n] == all[..n + 1][n] == info;
      assert forall i :: 0 <= i < n ==> accepted[i] == all[..n][i] == all[i];
    }
  }

  /** The reader of archives accepts exactly the tables whose entries are aligned, inside the file, and apart. */
  lemma {:induction false} FatEntriesExactly(data: seq<byte>, e: Endian, wide: bool, all: seq<FatEntry>)
    requires UniversalMagic(data, e, wide)
    ensures FatEntries(data) == Ok(all) <==>
            TableAt(data, e, wide, |all|) && TableExtends(data, e, wide, [], all, |all|)
  {
    hide U, UniversalMagic, FatEntriesFrom, TableExtends;
    UniversalMagicMeans(data, e, wide);
    var count := Field(e, data, 4, 4);
    FatTableMeans(wide, count);
    if 0 < count <= 64 && |data| >= 8 && 8 + FatTable(wide, count) <= |data| {
      TableMeans(data, e, wide, [], all, count);
      TableLength(data, e, wide, all, count);
    }
  }

  lemma TableLength(data: seq<byte>, e: Endian, wide: bool, all: seq<FatEntry>, count: nat)
    ensures TableExtends(data, e, wide, [], all, count) ==> |all| == count
  {
  }
}
