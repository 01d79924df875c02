/** The strict offline Mach-O reader of tool/sentry_macho.py. */
module SentryMacho {
  import opened Bytes

  datatype MachoError =
    | TruncatedHeader | UnsupportedHeader | UnsupportedSliceMagic | SliceBounds | UnsupportedArtifact
    | CommandTable | TruncatedCommand | CommandBounds | UuidCommand | SymtabCommand | SymtabBounds
    | TruncatedSegment | SegmentBounds | SectionBounds | Conflicting
    | UniversalHeader | UniversalSliceBounds | OverlappingSlices | CpuMismatch
    | DuplicateArchitecture | DuplicateCpu

  datatype Architecture = I386 | Arm | X86_64 | Arm64

  datatype Section = Section(name: string, segment: string, offset: nat, size: nat, addr: nat,
                             align: nat, flags: nat, hasContents: bool)

  datatype Segment = Segment(name: string, vmaddr: nat, vmsize: nat, fileoff: nat, filesize: nat)

  /** One image; uuid is empty when the image carries no LC_UUID. */
  datatype Slice = Slice(architecture: Architecture, uuid: seq<byte>, filetype: nat,
                         hasDebugInfo: bool, hasDebugLine: bool, hasExecutableText: bool,
                         hasOsoSymbols: bool, cpuType: int, cpuSubtype: int, endian: Endian,
                         offset: nat, size: nat, segments: seq<Segment>, sections: seq<Section>)

  datatype Inventory = Inventory(variants: seq<Slice>, isFat: bool)

  /** What the load-command loop has gathered so far. */
  datatype Scan = Scan(cursor: nat, identifiers: set<seq<byte>>, debugSections: set<seq<byte>>,
                       executable: bool, oso: bool, segments: seq<Segment>, sections: seq<Section>)

  datatype RawSegment = RawSegment(name: seq<byte>, vmaddr: nat, vmsize: nat, fileoff: nat,
                                   filesize: nat, nsects: nat)

  datatype RawSection = RawSection(name: seq<byte>, segment: seq<byte>, addr: nat, size: nat,
                                   offset: nat, align: nat, flags: nat)

  /** The fixed image header. */
  datatype Header = Header(endian: Endian, wide: bool, cpuType: int, cpuSubtype: int, filetype: nat,
                           architecture: Architecture, count: nat, stop: nat)

  datatype FatEntry = FatEntry(cpuType: int, cpuSubtype: int, offset: nat, size: nat, align: nat)

  const LC_SEGMENT: nat := 1
  const LC_SYMTAB: nat := 2
  const LC_SEGMENT_64: nat := 0x19
  const LC_UUID: nat := 0x1b
  const DWARF := "__DWARF"
  const TEXT_SECTION := "__text"
  const DEBUG_INFO := "__debug_info"
  const ZDEBUG_INFO := "__zdebug_info"
  const DEBUG_LINE := "__debug_line"
  const ZDEBUG_LINE := "__zdebug_line"

  function ThinMagic(data: seq<byte>, at: nat): Option<(Endian, bool)> {
    if at + 4 > |data| then None
    else if data[at..at + 4] == [0xce, 0xfa, 0xed, 0xfe] then Some((Little, false))
    else if data[at..at + 4] == [0xcf, 0xfa, 0xed, 0xfe] then Some((Little, true))
    else if data[at..at + 4] == [0xfe, 0xed, 0xfa, 0xce] then Some((Big, false))
    else if data[at..at + 4] == [0xfe, 0xed, 0xfa, 0xcf] then Some((Big, true))
    else None
  }

  function FatMagic(data: seq<byte>): Option<(Endian, bool)> {
    if |data| < 4 then None
    else if data[..4] == [0xca, 0xfe, 0xba, 0xbe] then Some((Big, false))
    else if data[..4] == [0xbe, 0xba, 0xfe, 0xca] then Some((Little, false))
    else if data[..4] == [0xca, 0xfe, 0xba, 0xbf] then Some((Big, true))
    else if data[..4] == [0xbf, 0xba, 0xfe, 0xca] then Some((Little, true))
    else None
  }

  function Word(wide: bool): nat { if wide then 8 else 4 }
  function HeaderSize(wide: bool): nat { if wide then 32 else 28 }
  function SegmentSize(wide: bool): nat { 40 + 4 * Word(wide) }
  function SectionTable(wide: bool, count: nat): nat { if wide then 80 * count else 68 * count }
  function SymbolTable(wide: bool, count: nat): nat { if wide then 16 * count else 12 * count }
  function FatTable(wide: bool, count: nat): nat { if wide then 32 * count else 20 * count }

  function ArchitectureOf(cpuType: int): Option<Architecture> {
    if cpuType == 7 then Some(I386)
    else if cpuType == 12 then Some(Arm)
    else if cpuType == 0x01000007 then Some(X86_64)
    else if cpuType == 0x0100000c then Some(Arm64)
    else None
  }

  function UnpackSegment(data: seq<byte>, e: Endian, wide: bool, at: nat): RawSegment
    requires at + SegmentSize(wide) <= |data|
  {
    var w := Word(wide);
    RawSegment(data[at + 8..at + 24], U(e, data, at + 24, w), U(e, data, at + 24 + w, w),
               U(e, data, at + 24 + 2 * w, w), U(e, data, at + 24 + 3 * w, w),
               U(e, data, at + 32 + 4 * w, 4))
  }

  function UnpackSection(data: seq<byte>, e: Endian, wide: bool, at: nat): RawSection
    requires at + SectionTable(wide, 1) <= |data|
  {
    var w := Word(wide);
    RawSection(data[at..at + 16], data[at + 16..at + 32], U(e, data, at + 32, w), U(e, data, at + 32 + w, w),
               U(e, data, at + 32 + 2 * w, 4), U(e, data, at + 36 + 2 * w, 4), U(e, data, at + 48 + 2 * w, 4))
  }

  /** flags & 0x80000400 is not zero. */
  predicate CodeFlags(flags: nat) {
    flags % TWO_32 >= TWO_31 || flags / 0x400 % 2 == 1
  }

  predicate HasContents(raw: RawSection, fileSize: nat) {
    raw.offset != 0 && raw.size != 0 && fileSize != 0 && raw.flags % 256 !in {0x1, 0xc, 0x12}
  }

  function AddSection(start: nat, fileStart: nat, fileSize: nat, raw: RawSection, s: Scan): Result<Scan, MachoError> {
    var name, segment := StripNul(raw.name), StripNul(raw.segment);
    var has := HasContents(raw, fileSize);
    if has && (raw.offset < fileStart || raw.offset + raw.size > fileStart + fileSize) then Err(SectionBounds)
    else
      Ok(s.(debugSections := s.debugSections + if has && segment == EncodeAscii(DWARF) then {name} else {},
            executable := s.executable || (has && (name == EncodeAscii(TEXT_SECTION) || CodeFlags(raw.flags))),
            sections := s.sections + [Section(DecodeAscii(name), DecodeAscii(segment), start + raw.offset,
                                              raw.size, raw.addr, raw.align, raw.flags, has)]))
  }

  /** Reads count section records standing one after another from at. */
  function ReadSections(data: seq<byte>, start: nat, e: Endian, wide: bool, at: nat, count: nat,
                        fileStart: nat, fileSize: nat, s: Scan): Result<Scan, MachoError>
    requires at + SectionTable(wide, count) <= |data|
    decreases count
  {
    if count == 0 then Ok(s)
    else
      var next := AddSection(start, fileStart, fileSize, UnpackSection(data, e, wide, at), s);
      if next.Err? then next
      else ReadSections(data, start, e, wide, at + SectionTable(wide, 1), count - 1, fileStart, fileSize, next.value)
  }

  function ReadSegment(data: seq<byte>, start: nat, size: nat, e: Endian, wide: bool, width: nat, s: Scan)
    : Result<Scan, MachoError>
    requires s.cursor + width <= |data|
  {
    if width < SegmentSize(wide) then Err(TruncatedSegment)
    else
      var raw := UnpackSegment(data, e, wide, s.cursor);
      if raw.fileoff + raw.filesize > size || SegmentSize(wide) + SectionTable(wide, raw.nsects) > width
      then Err(SegmentBounds)
      else
        var named := s.(segments := s.segments + [Segment(DecodeAscii(StripNul(raw.name)), raw.vmaddr, raw.vmsize,
                                                          raw.fileoff, raw.filesize)]);
        ReadSections(data, start, e, wide, s.cursor + SegmentSize(wide), raw.nsects, raw.fileoff, raw.filesize, named)
  }

  function ReadSymtab(data: seq<byte>, start: nat, size: nat, e: Endian, wide: bool, s: Scan): Result<Scan, MachoError>
    requires s.cursor + 24 <= |data| && start + size <= |data|
  {
    var symbols, count := U(e, data, s.cursor + 8, 4), U(e, data, s.cursor + 12, 4);
    var strings, stringsSize := U(e, data, s.cursor + 16, 4), U(e, data, s.cursor + 20, 4);
    if symbols + SymbolTable(wide, count) > size || strings + stringsSize > size then Err(SymtabBounds)
    else Ok(s.(oso := exists i | 0 <= i < count :: data[start + symbols + SymbolTable(wide, i) + 4] == 0x66))
  }

  /** One load command; the cursor ends on the next one. */
  function ReadCommand(data: seq<byte>, start: nat, size: nat, stop: nat, e: Endian, wide: bool, s: Scan)
    : Result<Scan, MachoError>
    requires stop <= start + size <= |data|
  {
    if s.cursor + 8 > stop then Err(TruncatedCommand)
    else
      var command, width := U(e, data, s.cursor, 4), U(e, data, s.cursor + 4, 4);
      if width < 8 || s.cursor + width > stop then Err(CommandBounds)
      else
        var read :=
          if command == LC_UUID then
            if width != 24 then Err(UuidCommand)
            else Ok(s.(identifiers := s.identifiers + {data[s.cursor + 8..s.cursor + 24]}))
          else if command == LC_SYMTAB then
            if width != 24 then Err(SymtabCommand) else ReadSymtab(data, start, size, e, wide, s)
          else if command == LC_SEGMENT || command == LC_SEGMENT_64 then
            ReadSegment(data, start, size, e, command == LC_SEGMENT_64, width, s)
          else Ok(s);
        if read.Err? then read else Ok(read.value.(cursor := s.cursor + width))
  }

  function ReadCommands(data: seq<byte>, start: nat, size: nat, stop: nat, e: Endian, wide: bool, count: nat, s: Scan)
    : Result<Scan, MachoError>
    requires stop <= start + size <= |data|
    decreases count
  {
    if count == 0 then Ok(s)
    else
      var next := ReadCommand(data, start, size, stop, e, wide, s);
      if next.Err? then next else ReadCommands(data, start, size, stop, e, wide, count - 1, next.value)
  }

  function UuidOf(identifiers: set<seq<byte>>): seq<byte>
    requires |identifiers| <= 1
  {
    if identifiers == {} then []
    else
      assert forall a, b | a in identifiers && b in identifiers :: a == b by {
        forall a, b | a in identifiers && b in identifiers ensures a == b { SingletonSet(identifiers, a, b); }
      }
      var id :| id in identifiers; id
  }

  lemma SingletonSet<T>(s: set<T>, a: T, b: T)
    requires |s| <= 1 && a in s && b in s
    ensures a == b
  {
    assert |s - {a}| == |s| - 1;
    assert s - {a} == {};
  }

  function ScanFrom(cursor: nat): Scan {
    Scan(cursor, {}, {}, false, false, [], [])
  }

  function ReadHeader(data: seq<byte>, start: nat, size: nat): (r: Result<Header, MachoError>)
    ensures r.Ok? ==> r.value.stop <= start + size <= |data|
  {
    match ThinMagic(data, start)
    case None => Err(UnsupportedSliceMagic)
    case Some((e, wide)) =>
      if size < HeaderSize(wide) || start + size > |data| then Err(SliceBounds)
      else
        var cpuType, cpuSubtype := Signed32(U(e, data, start + 4, 4)), Signed32(U(e, data, start + 8, 4));
        var filetype := U(e, data, start + 12, 4);
        var architecture := ArchitectureOf(cpuType);
        if architecture.None? || filetype !in {1, 2, 6, 8, 10} then Err(UnsupportedArtifact)
        else
          var count, commandsSize := U(e, data, start + 16, 4), U(e, data, start + 20, 4);
          var stop := start + HeaderSize(wide) + commandsSize;
          if count > 100000 || stop > start + size then Err(CommandTable)
          else Ok(Header(e, wide, cpuType, cpuSubtype, filetype, architecture.value, count, stop))
  }

  function Summary(h: Header, start: nat, size: nat, s: Scan): Result<Slice, MachoError> {
    if s.cursor != h.stop || |s.identifiers| > 1 then Err(Conflicting)
    else
      Ok(Slice(h.architecture, UuidOf(s.identifiers), h.filetype,
               EncodeAscii(DEBUG_INFO) in s.debugSections || EncodeAscii(ZDEBUG_INFO) in s.debugSections,
               EncodeAscii(DEBUG_LINE) in s.debugSections || EncodeAscii(ZDEBUG_LINE) in s.debugSections,
               s.executable, s.oso, h.cpuType, h.cpuSubtype, h.endian, start, size, s.segments, s.sections))
  }

  /** The image occupying data[start..start + size]. */
  function Thin(data: seq<byte>, start: nat, size: nat): Result<Slice, MachoError> {
    var header := ReadHeader(data, start, size);
    if header.Err? then Err(header.error)
    else
      var h := header.value;
      var scan := ReadCommands(data, start, size, h.stop, h.endian, h.wide, h.count,
          ScanFrom(start + HeaderSize(h.wide)));
      if scan.Err? then Err(scan.error) else Summary(h, start, size, scan.value)
  }

  function UnpackFatEntry(data: seq<byte>, e: Endian, wide: bool, at: nat): FatEntry
    requires at + FatTable(wide, 1) <= |data|
  {
    var w := Word(wide);
    FatEntry(Signed32(U(e, data, at, 4)), Signed32(U(e, data, at + 4, 4)), U(e, data, at + 8, w),
             U(e, data, at + 8 + w, w), U(e, data, at + 8 + 2 * w, 4))
  }

  predicate Overlaps(ranges: seq<(nat, nat)>, offset: nat, size: nat) {
    exists i | 0 <= i < |ranges| :: offset < ranges[i].1 && offset + size > ranges[i].0
  }

  /** The image behind one container entry, given the entries already accepted. */
  function FatSlice(data: seq<byte>, tableEnd: nat, info: FatEntry, variants: seq<Slice>, ranges: seq<(nat, nat)>)
    : Result<Slice, MachoError>
  {
    if info.offset < tableEnd || info.size == 0 || info.offset + info.size > |data| then Err(UniversalSliceBounds)
    else if Overlaps(ranges, info.offset, info.size) then Err(OverlappingSlices)
    else
      var thin := Thin(data, info.offset, info.size);
      if thin.Err? then thin
      else if thin.value.cpuType != info.cpuType || thin.value.cpuSubtype != info.cpuSubtype then Err(CpuMismatch)
      else if exists i | 0 <= i < |variants| :: variants[i].architecture == thin.value.architecture
      then Err(DuplicateArchitecture)
      else thin
  }

  /** The universal-container loop of inspect_macho, from entry index on. */
  function FatVariants(data: seq<byte>, e: Endian, wide: bool, count: nat, index: nat,
                       variants: seq<Slice>, ranges: seq<(nat, nat)>): Result<seq<Slice>, MachoError>
    requires index <= count && 8 + FatTable(wide, count) <= |data|
    decreases count - index
  {
    if index == count then Ok(variants)
    else
      var info := UnpackFatEntry(data, e, wide, 8 + FatTable(wide, index));
      var slice := FatSlice(data, 8 + FatTable(wide, count), info, variants, ranges);
      if slice.Err? then Err(slice.error)
      else FatVariants(data, e, wide, count, index + 1, variants + [slice.value],
          ranges + [(info.offset, info.offset + info.size)])
  }

  function Inspect(data: seq<byte>): Result<Inventory, MachoError> {
    if |data| < 4 then Err(TruncatedHeader)
    else if ThinMagic(data, 0).Some? then
      var thin := Thin(data, 0, |data|);
      if thin.Err? then Err(thin.error) else Ok(Inventory([thin.value], false))
    else if FatMagic(data).None? || |data| < 8 then Err(UnsupportedHeader)
    else
      var (e, wide) := FatMagic(data).value;
      var count := U(e, data, 4, 4);
      if !(0 < count <= 64) || 8 + FatTable(wide, count) > |data| then Err(UniversalHeader)
      else
        var variants := FatVariants(data, e, wide, count, 0, [], []);
        if variants.Err? then Err(variants.error) else Ok(Inventory(variants.value, true))
  }

  /** The second reader of the container header, used before a slice is known to be an image. */
  function FatEntriesFrom(data: seq<byte>, e: Endian, wide: bool, count: nat, index: nat, accepted: seq<FatEntry>)
    : Result<seq<FatEntry>, MachoError>
    requires index <= count && 8 + FatTable(wide, count) <= |data|
    decreases count - index
  {
    if index == count then Ok(accepted)
    else
      var info := UnpackFatEntry(data, e, wide, 8 + FatTable(wide, index));
      if info.offset < 8 + FatTable(wide, count) || info.size == 0 || info.offset + info.size > |data|
         || info.align > 31 || info.offset % Pow2(info.align) != 0
      then Err(UniversalSliceBounds)
      else if exists i | 0 <= i < |accepted| :: info.offset < accepted[i].offset + accepted[i].size
                                                && info.offset + info.size > accepted[i].offset
      then Err(OverlappingSlices)
      else if exists i | 0 <= i < |accepted| :: CpuKey(accepted[i]) == CpuKey(info) then Err(DuplicateCpu)
      else FatEntriesFrom(data, e, wide, count, index + 1, accepted + [info])
  }

  function CpuKey(info: FatEntry): (int, int) {
    (info.cpuType, info.cpuSubtype % 0x0100_0000)
  }

  function Pow2(n: nat): (p: nat)
    ensures p > 0
  {
    if n == 0 then 1 else 2 * Pow2(n - 1)
  }

  function FatEntries(data: seq<byte>): Result<seq<FatEntry>, MachoError> {
    if |data| < 8 || FatMagic(data).None? then Err(UniversalHeader)
    else
      var (e, wide) := FatMagic(data).value;
      var count := U(e, data, 4, 4);
      if !(0 < count <= 64) || 8 + FatTable(wide, count) > |data| then Err(UniversalHeader)
      else FatEntriesFrom(data, e, wide, count, 0, [])
  }

  // ----- The loops of the reader -----

  method ParseSections(data: seq<byte>, start: nat, e: Endian, wide: bool, at: nat, count: nat,
                       fileStart: nat, fileSize: nat, initial: Scan) returns (r: Result<Scan, MachoError>)
    requires at + SectionTable(wide, count) <= |data|
    ensures r == ReadSections(data, start, e, wide, at, count, fileStart, fileSize, initial)
  {
    hide UnpackSection;
    var s, remaining: nat, position: nat := initial, count, at;
    while remaining > 0
      invariant position + SectionTable(wide, remaining) <= |data|
      invariant ReadSections(data, start, e, wide, at, count, fileStart, fileSize, initial)
             == ReadSections(data, start, e, wide, position, remaining, fileStart, fileSize, s)
    {
      var after := position + SectionTable(wide, 1);
      assert after + SectionTable(wide, remaining - 1) <= |data|;
      var next := AddSection(start, fileStart, fileSize, UnpackSection(data, e, wide, position), s);
      if next.Err? { return next; }
      s, remaining, position := next.value, remaining - 1, after;
    }
    return Ok(s);
  }

  method ParseSegment(data: seq<byte>, start: nat, size: nat, e: Endian, wide: bool, width: nat, s: Scan)
    returns (r: Result<Scan, MachoError>)
    requires s.cursor + width <= |data|
    ensures r == ReadSegment(data, start, size, e, wide, width, s)
  {
    hide U, StripNul, DecodeAscii, ReadSections;
    if width < SegmentSize(wide) { return Err(TruncatedSegment); }
    var raw := UnpackSegment(data, e, wide, s.cursor);
    if raw.fileoff + raw.filesize > size || SegmentSize(wide) + SectionTable(wide, raw.nsects) > width {
      return Err(SegmentBounds);
    }
    var named := s.(segments := s.segments + [Segment(DecodeAscii(StripNul(raw.name)), raw.vmaddr, raw.vmsize,
                                                      raw.fileoff, raw.filesize)]);
    r := ParseSections(data, start, e, wide, s.cursor + SegmentSize(wide), raw.nsects, raw.fileoff, raw.filesize,
        named);
  }

  method ParseCommand(data: seq<byte>, start: nat, size: nat, stop: nat, e: Endian, wide: bool, s: Scan)
    returns (r: Result<Scan, MachoError>)
    requires stop <= start + size <= |data|
    ensures r == ReadCommand(data, start, size, stop, e, wide, s)
  {
    hide U, ReadSegment, ReadSymtab;
    if s.cursor + 8 > stop { return Err(TruncatedCommand); }
    var command, width := U(e, data, s.cursor, 4), U(e, data, s.cursor + 4, 4);
    if width < 8 || s.cursor + width > stop { return Err(CommandBounds); }
    r := Ok(s);
    if command == LC_UUID {
      if width != 24 { return Err(UuidCommand); }
      r := Ok(s.(identifiers := s.identifiers + {data[s.cursor + 8..s.cursor + 24]}));
    } else if command == LC_SYMTAB {
      if width != 24 { return Err(SymtabCommand); }
      r := ReadSymtab(data, start, size, e, wide, s);
    } else if command == LC_SEGMENT || command == LC_SEGMENT_64 {
      r := ParseSegment(data, start, size, e, command == LC_SEGMENT_64, width, s);
    }
    if r.Ok? { r := Ok(r.value.(cursor := s.cursor + width)); }
  }

  method ParseCommands(data: seq<byte>, start: nat, size: nat, stop: nat, e: Endian, wide: bool, count: nat,
                       initial: Scan)
    returns (r: Result<Scan, MachoError>)
    requires stop <= start + size <= |data|
    ensures r == ReadCommands(data, start, size, stop, e, wide, count, initial)
  {
    hide ReadCommand;
    var s, done := initial, 0;
    while done < count
      invariant 0 <= done <= count
      invariant ReadCommands(data, start, size, stop, e, wide, count, initial)
             == ReadCommands(data, start, size, stop, e, wide, count - done, s)
    {
      var next := ParseCommand(data, start, size, stop, e, wide, s);
      if next.Err? { return next; }
      s, done := next.value, done + 1;
    }
    return Ok(s);
  }

  method ParseThin(data: seq<byte>, start: nat, size: nat) returns (r: Result<Slice, MachoError>)
    ensures r == Thin(data, start, size)
  {
    var header := ReadHeader(data, start, size);
    if header.Err? { return Err(header.error); }
    var h := header.value;
    var scan := ParseCommands(data, start, size, h.stop, h.endian, h.wide, h.count,
        ScanFrom(start + HeaderSize(h.wide)));
    if scan.Err? { return Err(scan.error); }
    return Summary(h, start, size, scan.value);
  }

  method ParseFatSlice(data: seq<byte>, tableEnd: nat, info: FatEntry, variants: seq<Slice>, ranges: seq<(nat, nat)>)
    returns (r: Result<Slice, MachoError>)
    ensures r == FatSlice(data, tableEnd, info, variants, ranges)
  {
    if info.offset < tableEnd || info.size == 0 || info.offset + info.size > |data| {
      return Err(UniversalSliceBounds);
    }
    if Overlaps(ranges, info.offset, info.size) { return Err(OverlappingSlices); }
    r := ParseThin(data, info.offset, info.size);
    if r.Err? { return; }
    if r.value.cpuType != info.cpuType || r.value.cpuSubtype != info.cpuSubtype { return Err(CpuMismatch); }
    if exists i | 0 <= i < |variants| :: variants[i].architecture == r.value.architecture {
      return Err(DuplicateArchitecture);
    }
  }

  method ParseFatVariants(data: seq<byte>, e: Endian, wide: bool, count: nat)
    returns (r: Result<seq<Slice>, MachoError>)
    requires 8 + FatTable(wide, count) <= |data|
    ensures r == FatVariants(data, e, wide, count, 0, [], [])
  {
    hide UnpackFatEntry, FatSlice;
    var variants: seq<Slice>, ranges: seq<(nat, nat)>, index: nat := [], [], 0;
    while index < count
      invariant index <= count
      invariant FatVariants(data, e, wide, count, 0, [], [])
          == FatVariants(data, e, wide, count, index, variants, ranges)
    {
      assert FatTable(wide, index + 1) <= FatTable(wide, count);
      var info := UnpackFatEntry(data, e, wide, 8 + FatTable(wide, index));
      var slice := ParseFatSlice(data, 8 + FatTable(wide, count), info, variants, ranges);
      if slice.Err? { return Err(slice.error); }
      variants, ranges, index := variants + [slice.value], ranges + [(info.offset, info.offset + info.size)], index + 1;
    }
    return Ok(variants);
  }

  method InspectMacho(data: seq<byte>) returns (r: Result<Inventory, MachoError>)
    ensures r == Inspect(data)
  {
    if |data| < 4 { return Err(TruncatedHeader); }
    if ThinMagic(data, 0).Some? {
      var thin := ParseThin(data, 0, |data|);
      return if thin.Err? then Err(thin.error) else Ok(Inventory([thin.value], false));
    }
    if FatMagic(data).None? || |data| < 8 { return Err(UnsupportedHeader); }
    var (e, wide) := FatMagic(data).value;
    var count := U(e, data, 4, 4);
    if !(0 < count <= 64) || 8 + FatTable(wide, count) > |data| { return Err(UniversalHeader); }
    var variants := ParseFatVariants(data, e, wide, count);
    return if variants.Err? then Err(variants.error) else Ok(Inventory(variants.value, true));
  }
}
