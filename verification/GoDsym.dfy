/** The debug-only Mach-O writer of tool/prepare_sentry_macos_symbols.py. */
module GoDsym {
  import opened Bytes
  import opened SentryMacho

  datatype PrepError =
    | NotMacho(macho: MachoError) | NotExecutable | UnsupportedSlice | DwarfUnavailable | TextBaseUnavailable
    | TruncatedDwarf | InvalidCompressed | OversizeCompressed | OversizePayload
    | NameNotAscii | StructRange | NoUuid | InvalidSymbolInput | MissingUuidOrArchitecture | ValidationFailed

  const MAX_DEBUG_SECTION: nat := 512 * 1024 * 1024
  const MAX_DEBUG_PAYLOAD: nat := 1024 * 1024 * 1024
  const MH_DSYM: nat := 10
  const DWARF_FLAGS: nat := 0x0200_0000
  const TEXT := "__TEXT"
  const ZDEBUG := "__zdebug_"
  const DEBUG := "__debug_"
  const ZLIB: seq<byte> := [0x5a, 0x4c, 0x49, 0x42]

  /** What a zlib decoder given at most the stated number of output bytes reports. */
  datatype Inflated = Inflated(contents: seq<byte>, eof: bool, unused: bool) | ZlibError

  type Inflate = (seq<byte>, nat) -> Inflated

  /** A section that has been laid out: offset is relative to the image start. */
  datatype Placed = Placed(name: string, contents: seq<byte>, offset: nat, alignment: nat)

  datatype Layout = Layout(payload: seq<byte>, placed: seq<Placed>)

  function Min(a: nat, b: nat): nat { if a < b then a else b }

  /** (c + 2**a - 1) & ~(2**a - 1). */
  function AlignUp(c: nat, a: nat): nat {
    var x := c + Pow2(a) - 1;
    x - x % Pow2(a)
  }

  /** The least multiple of 2**a that is not below c. */
  lemma {:induction false} AlignUpMeans(c: nat, a: nat)
    ensures c <= AlignUp(c, a) < c + Pow2(a)
    ensures AlignUp(c, a) % Pow2(a) == 0
  {
    var x, p := c + Pow2(a) - 1, Pow2(a);
    assert x - x % p == p * (x / p);
    MultipleOf(p, x / p);
  }

  lemma {:induction false} MultipleOf(p: nat, q: int)
    requires p > 0
    ensures (p * q) % p == 0
  {
    var d := q - (p * q) / p;
    assert (p * q) % p == p * d by { assert p * (q - (p * q) / p) == p * q - p * ((p * q) / p); }
    assert d >= 1 ==> p * d >= p;
    assert d <= -1 ==> p * d + p <= 0;
  }

  function DwarfSections(sections: seq<Section>): seq<Section> {
    if sections == [] then []
    else
      (if sections[0].segment == DWARF && sections[0].hasContents then [sections[0]] else [])
      + DwarfSections(sections[1..])
  }

  function FirstText(segments: seq<Segment>): Option<Segment> {
    if segments == [] then None
    else if segments[0].name == TEXT then Some(segments[0])
    else FirstText(segments[1..])
  }

  predicate StartsWith(s: string, prefix: string) {
    |prefix| <= |s| && s[..|prefix|] == prefix
  }

  /** What stream.seek(offset) and stream.read(size) return. */
  function ReadAt(source: seq<byte>, offset: nat, size: nat): seq<byte> {
    source[Min(offset, |source|)..Min(offset + size, |source|)]
  }

  /** The name and bytes under which one DWARF section is copied. */
  function Materialize(inflate: Inflate, source: seq<byte>, section: Section): Result<(string, seq<byte>), PrepError> {
    var raw := ReadAt(source, section.offset, section.size);
    if |raw| != section.size then Err(TruncatedDwarf)
    else if !StartsWith(section.name, ZDEBUG) then Ok((section.name, raw))
    else if |raw| < 12 || raw[..4] != ZLIB then Err(InvalidCompressed)
    else
      var expected := U(Big, raw, 4, 8);
      if !(0 < expected <= MAX_DEBUG_SECTION) then Err(OversizeCompressed)
      else
        match inflate(raw[12..], expected + 1)
        case ZlibError => Err(InvalidCompressed)
        case Inflated(contents, eof, unused) =>
          if |contents| != expected || !eof || unused then Err(InvalidCompressed)
          else Ok((DEBUG + section.name[|ZDEBUG|..], contents))
  }

  function PlaceSection(inflate: Inflate, source: seq<byte>, dataOffset: nat, section: Section, l: Layout)
    : Result<Layout, PrepError>
  {
    var alignment := Min(section.align, 16);
    var cursor := dataOffset + |l.payload|;
    AlignUpMeans(cursor, alignment);
    var aligned := AlignUp(cursor, alignment);
    var payload := l.payload + Zeros(aligned - cursor);
    var made := Materialize(inflate, source, section);
    if made.Err? then Err(made.error)
    else
      var (name, contents) := made.value;
      if |contents| > MAX_DEBUG_SECTION || |payload| + |contents| > MAX_DEBUG_PAYLOAD then Err(OversizePayload)
      else if !IsAscii(name) then Err(NameNotAscii)
      else if aligned >= TWO_32 then Err(StructRange)
      else Ok(Layout(payload + contents, l.placed + [Placed(name, contents, aligned, alignment)]))
  }

  function PlaceAll(inflate: Inflate, source: seq<byte>, dataOffset: nat, sections: seq<Section>, l: Layout)
    : Result<Layout, PrepError>
  {
    if sections == [] then Ok(l)
    else
      var next := PlaceSection(inflate, source, dataOffset, sections[0], l);
      if next.Err? then next else PlaceAll(inflate, source, dataOffset, sections[1..], next.value)
  }

  function Name16(s: seq<byte>): (r: seq<byte>)
    ensures |r| == 16
  {
    if |s| > 16 then s[..16] else s + Zeros(16 - |s|)
  }

  function L4(v: nat): (r: seq<byte>) ensures |r| == 4 { Pack(Little, 4, v) }
  function L8(v: nat): (r: seq<byte>) ensures |r| == 8 { Pack(Little, 8, v) }

  function SectionRecord(p: Placed): (r: seq<byte>)
    ensures |r| == 80
  {
    Name16(EncodeAscii(p.name))
        + (Name16(EncodeAscii(DWARF)) + (L8(0) + (L8(|p.contents|) + (L4(p.offset) + (L4(p.alignment)
    + (L4(0) + (L4(0) + (L4(DWARF_FLAGS) + (L4(0) + (L4(0) + L4(0)))))))))))
  }

  function SectionRecords(placed: seq<Placed>): (r: seq<byte>)
    ensures |r| == 80 * |placed|
  {
    if placed == [] then []
    else SectionRecords(placed[..|placed| - 1]) + SectionRecord(placed[|placed| - 1])
  }

  function SegmentCommand(width: nat, name: string, vmaddr: nat, vmsize: nat, fileoff: nat, filesize: nat, count: nat)
    : (r: seq<byte>)
    ensures |r| == 72
  {
    L4(LC_SEGMENT_64)
        + (L4(width) + (Name16(EncodeAscii(name)) + (L8(vmaddr) + (L8(vmsize) + (L8(fileoff) + (L8(filesize)
    + (L4(0) + (L4(0) + (L4(count) + L4(0))))))))))
  }

  function UuidCommand24(id: seq<byte>): (r: seq<byte>)
    requires |id| == 16
    ensures |r| == 24
  {
    L4(LC_UUID) + (L4(24) + id)
  }

  predicate CpuFits(v: int) { -TWO_31 <= v < TWO_31 }

  function HeaderBytes(filetype: nat, cpuType: int, cpuSubtype: int, commandSize: nat): (r: seq<byte>)
    requires CpuFits(cpuType) && CpuFits(cpuSubtype)
    ensures |r| == 32
  {
    L4(0xFEED_FACF)
        + (PackInt32(Little, cpuType) + (PackInt32(Little, cpuSubtype) + (L4(filetype) + (L4(3) + (L4(commandSize)
    + (L4(0) + L4(0)))))))
  }

  function CommandSize(count: nat): nat { 24 + 72 + 72 + count * 80 }

  function DataOffset(count: nat): nat { AlignUp(32 + CommandSize(count), 3) }

  /** Everything a slice is written from, in the ranges its struct formats accept. */
  predicate Packable(item: Slice, text: Segment, l: Layout) {
    && CpuFits(item.cpuType) && CpuFits(item.cpuSubtype) && |item.uuid| == 16
    && CommandSize(|l.placed|) < TWO_32
    && text.vmaddr < TWO_64 && text.vmsize < TWO_64
  }

  /** The image laid out from its pieces; the writer only ever asks for MH_DSYM. */
  function SliceBytes(filetype: nat, item: Slice, text: Segment, l: Layout): seq<byte>
    requires Packable(item, text, l)
  {
    var n := |l.placed|;
    AlignUpMeans(32 + CommandSize(n), 3);
    HeaderBytes(filetype, item.cpuType, item.cpuSubtype, CommandSize(n))
    + (UuidCommand24(item.uuid)
    + (SegmentCommand(72, TEXT, text.vmaddr, text.vmsize, 0, 0, 0)
    + (SegmentCommand(72 + n * 80, DWARF, 0, |l.payload|, DataOffset(n), |l.payload|, n)
    + (SectionRecords(l.placed)
    + (Zeros(DataOffset(n) - (32 + CommandSize(n))) + l.payload)))))
  }

  lemma {:induction false} PlacesEach(inflate: Inflate, source: seq<byte>, dataOffset: nat, sections: seq<Section>,
                                      l: Layout)
    ensures var r := PlaceAll(inflate, source, dataOffset, sections, l);
      r.Ok? ==> |r.value.placed| == |l.placed| + |sections|
  {
    if sections != [] {
      var next := PlaceSection(inflate, source, dataOffset, sections[0], l);
      if next.Ok? {
        PlacesEach(inflate, source, dataOffset, sections[1..], next.value);
      }
    }
  }

  function GoDebugSlice(inflate: Inflate, source: seq<byte>, item: Slice): Result<seq<byte>, PrepError> {
    if item.endian != Little || item.architecture !in {X86_64, Arm64} then Err(UnsupportedSlice)
    else
      var sections := DwarfSections(item.sections);
      if !item.hasDebugInfo || !item.hasDebugLine || sections == [] then Err(DwarfUnavailable)
      else if FirstText(item.segments).None? then Err(TextBaseUnavailable)
      else
        var text := FirstText(item.segments).value;
        var placing := PlaceAll(inflate, source, DataOffset(|sections|), sections, Layout([], []));
        if placing.Err? then Err(placing.error)
        else
          PlacesEach(inflate, source, DataOffset(|sections|), sections, Layout([], []));
          var l := placing.value;
          if !CpuFits(item.cpuType) || !CpuFits(item.cpuSubtype) || CommandSize(|sections|) >= TWO_32
              then Err(StructRange)
          else if |item.uuid| != 16 then Err(NoUuid)
          else if text.vmaddr >= TWO_64 || text.vmsize >= TWO_64 then Err(StructRange)
          else Ok(SliceBytes(MH_DSYM, item, text, l))
  }

  function SliceAll(inflate: Inflate, source: seq<byte>, items: seq<Slice>): (r: Result<seq<seq<byte>>, PrepError>)
    ensures r.Ok? ==> |r.value| == |items|
    ensures r.Ok? ==> forall i :: 0 <= i < |items| ==> GoDebugSlice(inflate, source, items[i]) == Ok(r.value[i])
  {
    if items == [] then Ok([])
    else
      var first := GoDebugSlice(inflate, source, items[0]);
      if first.Err? then Err(first.error)
      else
        var rest := SliceAll(inflate, source, items[1..]);
        if rest.Err? then rest else Ok([first.value] + rest.value)
  }

  // ----- The universal container -----

  /** Where the slices start: each on the first page boundary after what precedes it. */
  function Offsets(content: seq<seq<byte>>, cursor: nat): (r: seq<nat>)
    ensures |r| == |content|
  {
    if content == [] then [] else [cursor] + Offsets(content[1..], AlignUp(cursor + |content[0]|, 12))
  }

  function FatRecord(item: Slice, offset: nat, size: nat): (r: seq<byte>)
    requires CpuFits(item.cpuType) && CpuFits(item.cpuSubtype)
    ensures |r| == 20
  {
    PackInt32(Big, item.cpuType)
        + (PackInt32(Big, item.cpuSubtype) + (Pack(Big, 4, offset) + (Pack(Big, 4, size) + Pack(Big, 4, 12))))
  }

  predicate ContainerFits(items: seq<Slice>, content: seq<seq<byte>>, offsets: seq<nat>)
    requires |items| == |content| == |offsets|
  {
    |items| < TWO_32 && forall i :: 0 <= i < |items| ==>
      CpuFits(items[i].cpuType) && CpuFits(items[i].cpuSubtype) && offsets[i] < TWO_32 && |content[i]| < TWO_32
  }

  function FatHeader(items: seq<Slice>, content: seq<seq<byte>>, offsets: seq<nat>, n: nat): (r: seq<byte>)
    requires |items| == |content| == |offsets| && ContainerFits(items, content, offsets) && n <= |items|
    ensures |r| == 8 + 20 * n
  {
    if n == 0 then Pack(Big, 4, 0xCAFE_BABE) + Pack(Big, 4, |items|)
    else FatHeader(items, content, offsets, n - 1) + FatRecord(items[n - 1], offsets[n - 1], |content[n - 1]|)
  }

  /** Pads data up to each slice's offset and appends the slice. */
  function AppendSlices(data: seq<byte>, content: seq<seq<byte>>, offsets: seq<nat>, n: nat): seq<byte>
    requires n <= |content| == |offsets|
  {
    if n == 0 then data
    else
      var before := AppendSlices(data, content, offsets, n - 1);
      before + Zeros(if offsets[n - 1] < |before| then 0 else offsets[n - 1] - |before|) + content[n - 1]
  }

  function Container(items: seq<Slice>, content: seq<seq<byte>>): Result<seq<byte>, PrepError>
    requires |items| == |content|
  {
    if |content| == 1 then Ok(content[0])
    else
      var offsets := Offsets(content, AlignUp(8 + 20 * |items|, 12));
      if !ContainerFits(items, content, offsets) then Err(StructRange)
      else Ok(AppendSlices(FatHeader(items, content, offsets, |items|), content, offsets, |items|))
  }

  /** The bytes written for a source image, before they are read back. */
  function Emit(inflate: Inflate, source: seq<byte>): Result<seq<byte>, PrepError> {
    var read := Inspect(source);
    if read.Err? then Err(NotMacho(read.error))
    else
      var items := read.value.variants;
      if items == [] || exists i | 0 <= i < |items| :: items[i].filetype != 2 then Err(NotExecutable)
      else
        var content := SliceAll(inflate, source, items);
        if content.Err? then Err(content.error) else Container(items, content.value)
  }

  /** inspect_macho, insisting on the two shipped architectures and on a UUID. */
  function Variants(data: seq<byte>): Result<seq<Slice>, PrepError> {
    var read := Inspect(data);
    if read.Err? then Err(InvalidSymbolInput)
    else if exists i | 0 <= i < |read.value.variants| ::
              read.value.variants[i].architecture !in {X86_64, Arm64} || read.value.variants[i].uuid == []
    then Err(MissingUuidOrArchitecture)
    else Ok(read.value.variants)
  }

  function Identities(variants: seq<Slice>): set<(Architecture, seq<byte>)> {
    set i | 0 <= i < |variants| :: (variants[i].architecture, variants[i].uuid)
  }

  predicate DebugOnly(v: Slice) {
    v.filetype == 10 && !v.hasExecutableText && v.hasDebugInfo && v.hasDebugLine
  }

  /** extract_go_dsym: emit, read back, and accept only a debug image with the source's identities. */
  function Extract(inflate: Inflate, source: seq<byte>): Result<seq<byte>, PrepError> {
    var emitted := Emit(inflate, source);
    if emitted.Err? then emitted
    else
      var original, copied := Variants(source), Variants(emitted.value);
      if original.Err? then Err(original.error)
      else if copied.Err? then Err(copied.error)
      else if Identities(original.value) != Identities(copied.value)
              || exists i | 0 <= i < |copied.value| :: !DebugOnly(copied.value[i])
      then Err(ValidationFailed)
      else emitted
  }

  // ----- The loops of the writer -----

  /** The section loop: pads, copies and records one section after another. */
  method BuildSections(inflate: Inflate, source: seq<byte>, dataOffset: nat, sections: seq<Section>)
    returns (r: Result<Layout, PrepError>, sectionCommands: seq<byte>)
    ensures r == PlaceAll(inflate, source, dataOffset, sections, Layout([], []))
    ensures r.Ok? ==> sectionCommands == SectionRecords(r.value.placed)
  {
    hide Materialize, AlignUp, SectionRecord, IsAscii;
    var cursor: nat, l, index: nat := dataOffset, Layout([], []), 0;
    sectionCommands := [];
    assert sections[0..] == sections;
    while index < |sections|
      invariant index <= |sections|
      invariant cursor == dataOffset + |l.payload|
      invariant PlaceAll(inflate, source, dataOffset, sections, Layout([], []))
             == PlaceAll(inflate, source, dataOffset, sections[index..], l)
      invariant sectionCommands == SectionRecords(l.placed)
    {
      var section := sections[index];
      assert sections[index..][1..] == sections[index + 1..];
      var alignment := Min(section.align, 16);
      AlignUpMeans(cursor, alignment);
      var aligned := AlignUp(cursor, alignment);
      var payload := l.payload + Zeros(aligned - cursor);
      var made := Materialize(inflate, source, section);
      if made.Err? { return Err(made.error), []; }
      var (name, contents) := made.value;
      if |contents| > MAX_DEBUG_SECTION || |payload| + |contents| > MAX_DEBUG_PAYLOAD {
        return Err(OversizePayload), [];
      }
      if !IsAscii(name) { return Err(NameNotAscii), []; }
      if aligned >= TWO_32 { return Err(StructRange), []; }
      var p := Placed(name, contents, aligned, alignment);
      assert (l.placed + [p])[..|l.placed|] == l.placed;
      sectionCommands := sectionCommands + SectionRecord(p);
      l := Layout(payload + contents, l.placed + [p]);
      cursor, index := aligned + |contents|, index + 1;
    }
    return Ok(l), sectionCommands;
  }

  method BuildSlice(inflate: Inflate, source: seq<byte>, item: Slice) returns (r: Result<seq<byte>, PrepError>)
    ensures r == GoDebugSlice(inflate, source, item)
  {
    hide PlaceAll, HeaderBytes, UuidCommand24, SegmentCommand, SectionRecords, AlignUp;
    if item.endian != Little || item.architecture !in {X86_64, Arm64} { return Err(UnsupportedSlice); }
    var sections := DwarfSections(item.sections);
    if !item.hasDebugInfo || !item.hasDebugLine || sections == [] { return Err(DwarfUnavailable); }
    var text := FirstText(item.segments);
    if text.None? { return Err(TextBaseUnavailable); }
    var n := |sections|;
    var placing, sectionCommands := BuildSections(inflate, source, DataOffset(n), sections);
    if placing.Err? { return Err(placing.error); }
    PlacesEach(inflate, source, DataOffset(n), sections, Layout([], []));
    if !CpuFits(item.cpuType) || !CpuFits(item.cpuSubtype) || CommandSize(n) >= TWO_32 { return Err(StructRange); }
    if |item.uuid| != 16 { return Err(NoUuid); }
    if text.value.vmaddr >= TWO_64 || text.value.vmsize >= TWO_64 { return Err(StructRange); }
    var payload := placing.value.payload;
    AlignUpMeans(32 + CommandSize(n), 3);
    var commands := HeaderBytes(MH_DSYM, item.cpuType, item.cpuSubtype, CommandSize(n)) + UuidCommand24(item.uuid)
      + SegmentCommand(72, TEXT, text.value.vmaddr, text.value.vmsize, 0, 0, 0)
      + SegmentCommand(72 + n * 80, DWARF, 0, |payload|, DataOffset(n), |payload|, n) + sectionCommands;
    var data := commands + Zeros(DataOffset(n) - |commands|) + payload;
    assert data == SliceBytes(MH_DSYM, item, text.value, placing.value);
    return Ok(data);
  }

  method LayOffsets(content: seq<seq<byte>>, start: nat) returns (offsets: seq<nat>)
    ensures offsets == Offsets(content, start)
  {
    hide AlignUp;
    var cursor: nat, index: nat := start, 0;
    offsets := [];
    assert content[0..] == content;
    while index < |content|
      invariant index <= |content| && |offsets| == index
      invariant Offsets(content, start) == offsets + Offsets(content[index..], cursor)
    {
      assert content[index..][1..] == content[index + 1..];
      offsets, cursor, index := offsets + [cursor], AlignUp(cursor + |content[index]|, 12), index + 1;
    }
  }

  method BuildContainer(items: seq<Slice>, content: seq<seq<byte>>) returns (r: Result<seq<byte>, PrepError>)
    requires |items| == |content|
    ensures r == Container(items, content)
  {
    hide AlignUp, FatRecord, Pack, Offsets;
    if |content| == 1 { return Ok(content[0]); }
    AlignUpMeans(8 + 20 * |items|, 12);
    var offsets := LayOffsets(content, AlignUp(8 + 20 * |items|, 12));
    if !ContainerFits(items, content, offsets) { return Err(StructRange); }
    var data := WriteContainer(items, content, offsets);
    return Ok(data);
  }

  method WriteContainer(items: seq<Slice>, content: seq<seq<byte>>, offsets: seq<nat>) returns (data: seq<byte>)
    requires |items| == |content| == |offsets| && ContainerFits(items, content, offsets)
    ensures data == AppendSlices(FatHeader(items, content, offsets, |items|), content, offsets, |items|)
  {
    hide FatRecord, Pack;
    data := Pack(Big, 4, 0xCAFE_BABE) + Pack(Big, 4, |items|);
    var index: nat := 0;
    while index < |items|
      invariant index <= |items| && data == FatHeader(items, content, offsets, index)
    {
      data := data + FatRecord(items[index], offsets[index], |content[index]|);
      index := index + 1;
    }
    ghost var header := data;
    index := 0;
    while index < |content|
      invariant index <= |content| && data == AppendSlices(header, content, offsets, index)
    {
      data := data + Zeros(if offsets[index] < |data| then 0 else offsets[index] - |data|) + content[index];
      index := index + 1;
    }
  }

  ghost function After(done: seq<seq<byte>>, rest: Result<seq<seq<byte>>, PrepError>)
    : Result<seq<seq<byte>>, PrepError> {
    if rest.Err? then rest else Ok(done + rest.value)
  }

  lemma {:induction false} AfterStep(inflate: Inflate, source: seq<byte>, items: seq<Slice>, done: seq<seq<byte>>)
    requires items != [] && GoDebugSlice(inflate, source, items[0]).Ok?
    ensures After(done, SliceAll(inflate, source, items))
         == After(done + [GoDebugSlice(inflate, source, items[0]).value], SliceAll(inflate, source, items[1..]))
  {
    hide GoDebugSlice;
    var first, rest := GoDebugSlice(inflate, source, items[0]).value, SliceAll(inflate, source, items[1..]);
    if rest.Ok? {
      assert done + ([first] + rest.value) == done + [first] + rest.value;
    }
  }

  method BuildAll(inflate: Inflate, source: seq<byte>, items: seq<Slice>) returns (r: Result<seq<seq<byte>>, PrepError>)
    ensures r == SliceAll(inflate, source, items)
  {
    hide GoDebugSlice;
    var content: seq<seq<byte>>, index: nat := [], 0;
    ghost var whole := SliceAll(inflate, source, items);
    assert items[0..] == items && (whole.Ok? ==> [] + whole.value == whole.value);
    while index < |items|
      invariant index <= |items|
      invariant SliceAll(inflate, source, items) == After(content, SliceAll(inflate, source, items[index..]))
    {
      assert items[index..][1..] == items[index + 1..];
      var slice := BuildSlice(inflate, source, items[index]);
      if slice.Err? { return Err(slice.error); }
      AfterStep(inflate, source, items[index..], content);
      content, index := content + [slice.value], index + 1;
    }
    assert content + [] == content;
    return Ok(content);
  }

  method ExtractGoDsym(inflate: Inflate, source: seq<byte>) returns (r: Result<seq<byte>, PrepError>)
    ensures r == Extract(inflate, source)
  {
    hide Inspect, SliceAll, Container;
    var read := InspectMacho(source);
    if read.Err? { return Err(NotMacho(read.error)); }
    var items := read.value.variants;
    if items == [] || exists i | 0 <= i < |items| :: items[i].filetype != 2 { return Err(NotExecutable); }
    var content := BuildAll(inflate, source, items);
    if content.Err? { return Err(content.error); }
    r := BuildContainer(items, content.value);
    if r.Err? { return; }
    var original, copied := Variants(source), Variants(r.value);
    if original.Err? { return Err(original.error); }
    if copied.Err? { return Err(copied.error); }
    if Identities(original.value) != Identities(copied.value)
       || exists i | 0 <= i < |copied.value| :: !DebugOnly(copied.value[i]) {
      return Err(ValidationFailed);
    }
  }
}
