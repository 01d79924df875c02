/** When the writer of debug images succeeds, told from its source alone. */
module GoDsymSuccess {
  import opened Bytes
  import opened SentryMacho
  import opened MachoGuarantees
  import opened GoDsym
  import opened GoDsymRoundTrip
  import opened GoDsymTheorems

  // ----- What a source image is bounded by -----

  ghost predicate SegmentsFit(segments: seq<Segment>) {
    forall s | s in segments :: s.vmaddr < TWO_64 && s.vmsize < TWO_64
  }

  /** Every listed section took up at least 68 bytes of load commands. */
  ghost predicate Sized(s: Scan, from: nat) { from + 68 * |s.sections| <= s.cursor && SegmentsFit(s.segments) }

  lemma UBound(e: Endian, data: seq<byte>, off: nat, n: nat)
    requires off + n <= |data|
    ensures U(e, data, off, n) < Pow256(n)
  {
    UnpackBound(e, data[off..off + n]);
  }

  lemma {:induction false} SectionsCounted(data: seq<byte>, start: nat, e: Endian, wide: bool, at: nat, count: nat,
                                           fileStart: nat, fileSize: nat, s: Scan)
    requires at + SectionTable(wide, count) <= |data|
    ensures var r := ReadSections(data, start, e, wide, at, count, fileStart, fileSize, s);
      r.Ok? ==> |r.value.sections| == |s.sections| + count && r.value.segments == s.segments
    decreases count
  {
    hide UnpackSection, StripNul, DecodeAscii, EncodeAscii;
    if count > 0 {
      var next := AddSection(start, fileStart, fileSize, UnpackSection(data, e, wide, at), s);
      if next.Ok? {
        SectionsCounted(data, start, e, wide, at + SectionTable(wide, 1), count - 1, fileStart, fileSize, next.value);
      }
    }
  }

  lemma SegmentSized(data: seq<byte>, start: nat, size: nat, e: Endian, wide: bool, width: nat, s: Scan)
    requires s.cursor + width <= |data| && SegmentsFit(s.segments)
    ensures var r := ReadSegment(data, start, size, e, wide, width, s);
      r.Ok? ==> SegmentsFit(r.value.segments) && 68 * |r.value.sections| <= 68 * |s.sections| + width
  {
    hide U, StripNul, DecodeAscii, ReadSections;
    if width >= SegmentSize(wide) {
      var raw := UnpackSegment(data, e, wide, s.cursor);
      if raw.fileoff + raw.filesize <= size && SegmentSize(wide) + SectionTable(wide, raw.nsects) <= width {
        Pow256Values();
        UBound(e, data, s.cursor + 24, Word(wide));
        UBound(e, data, s.cursor + 24 + Word(wide), Word(wide));
        var named := s.(segments := s.segments + [Segment(DecodeAscii(StripNul(raw.name)), raw.vmaddr, raw.vmsize,
                                                          raw.fileoff, raw.filesize)]);
        SectionsCounted(data, start, e, wide, s.cursor + SegmentSize(wide), raw.nsects, raw.fileoff, raw.filesize,
            named);
      }
    }
  }

  lemma CommandSized(data: seq<byte>, start: nat, size: nat, stop: nat, e: Endian, wide: bool, s: Scan, from: nat)
    requires stop <= start + size <= |data| && Sized(s, from)
    ensures var r := ReadCommand(data, start, size, stop, e, wide, s); r.Ok? ==> Sized(r.value, from)
  {
    hide U, ReadSegment, SegmentsFit;
    if s.cursor + 8 <= stop {
      var command, width := U(e, data, s.cursor, 4), U(e, data, s.cursor + 4, 4);
      if s.cursor + width <= stop && (command == LC_SEGMENT || command == LC_SEGMENT_64) {
        SegmentSized(data, start, size, e, command == LC_SEGMENT_64, width, s);
      }
    }
  }

  lemma {:induction false} CommandsSized(data: seq<byte>, start: nat, size: nat, stop: nat, e: Endian, wide: bool,
                                         count: nat, s: Scan, from: nat)
    requires stop <= start + size <= |data| && Sized(s, from)
    ensures var r := ReadCommands(data, start, size, stop, e, wide, count, s); r.Ok? ==> Sized(r.value, from)
    decreases count
  {
    hide ReadCommand, Sized;
    if count > 0 {
      CommandSized(data, start, size, stop, e, wide, s, from);
      var next := ReadCommand(data, start, size, stop, e, wide, s);
      if next.Ok? { CommandsSized(data, start, size, stop, e, wide, count - 1, next.value, from); }
    }
  }

  /** What an accepted slice of a file cannot exceed. */
  ghost predicate Bounded(v: Slice, sourceSize: nat) {
    && 68 * |v.sections| <= sourceSize && SegmentsFit(v.segments) && CpuFits(v.cpuType) && CpuFits(v.cpuSubtype)
  }

  lemma ThinBounded(data: seq<byte>, start: nat, size: nat)
    ensures var r := Thin(data, start, size); r.Ok? ==> Bounded(r.value, |data|)
  {
    hide U, ReadCommands, EncodeAscii, DecodeAscii, ThinMagic;
    var r := Thin(data, start, size);
    if r.Ok? {
      var h := ReadHeader(data, start, size).value;
      HeaderFits(data, start, size);
      CommandsSized(data, start, size, h.stop, h.endian, h.wide, h.count, ScanFrom(start + HeaderSize(h.wide)),
                    start + HeaderSize(h.wide));
    }
  }

  lemma HeaderFits(data: seq<byte>, start: nat, size: nat)
    ensures var r := ReadHeader(data, start, size); r.Ok? ==> CpuFits(r.value.cpuType) && CpuFits(r.value.cpuSubtype)
  {
    hide U, ThinMagic;
    Pow256Values();
    if ReadHeader(data, start, size).Ok? {
      var e := ThinMagic(data, start).value.0;
      UBound(e, data, start + 4, 4);
      UBound(e, data, start + 8, 4);
    }
  }

  ghost predicate AllBounded(variants: seq<Slice>, sourceSize: nat) {
    forall v | v in variants :: Bounded(v, sourceSize)
  }

  lemma {:induction false} FatBounded(data: seq<byte>, e: Endian, wide: bool, count: nat, index: nat,
                                      variants: seq<Slice>, ranges: seq<(nat, nat)>)
    requires index <= count && 8 + FatTable(wide, count) <= |data| && AllBounded(variants, |data|)
    ensures var r := FatVariants(data, e, wide, count, index, variants, ranges); r.Ok? ==> AllBounded(r.value, |data|)
    decreases count - index
  {
    hide U, Thin, Bounded;
    if index < count {
      var info := UnpackFatEntry(data, e, wide, 8 + FatTable(wide, index));
      var slice := FatSlice(data, 8 + FatTable(wide, count), info, variants, ranges);
      if slice.Ok? {
        ThinBounded(data, info.offset, info.size);
        FatBounded(data, e, wide, count, index + 1, variants + [slice.value],
            ranges + [(info.offset, info.offset + info.size)]);
      }
    }
  }

  lemma InspectBounded(data: seq<byte>)
    ensures var r := Inspect(data); r.Ok? ==> AllBounded(r.value.variants, |data|)
  {
    hide U, Thin, FatVariants, Bounded;
    if |data| >= 4 && ThinMagic(data, 0).Some? {
      ThinBounded(data, 0, |data|);
    } else if |data| >= 8 && FatMagic(data).Some? {
      var (e, wide) := FatMagic(data).value;
      var count := U(e, data, 4, 4);
      if count <= 64 && 8 + FatTable(wide, count) <= |data| { FatBounded(data, e, wide, count, 0, [], []); }
    }
  }

  // ----- Laying out -----

  /** The section can be copied: it is whole, unpacks to at most 512 MiB, and has an ASCII name. */
  ghost predicate Copyable(inflate: Inflate, source: seq<byte>, section: Section) {
    exists name, contents :: Unpacks(inflate, source, section, name, contents)
                             && |contents| <= 0x2000_0000 && (forall i :: 0 <= i < |name| ==> name[i] as int < 128)
  }

  /** How long the copy is: what the header of a compressed section announces, or the section's own size. */
  function ContentsSize(source: seq<byte>, section: Section): nat {
    if "__zdebug_" <= section.name && section.offset + 12 <= |source| then U(Big, source, section.offset + 4, 8)
    else section.size
  }

  /** Where the sections end when they are laid out, each aligned, from a position on. */
  function End(source: seq<byte>, sections: seq<Section>, cursor: nat): (end: nat)
    ensures end >= cursor
  {
    if sections == [] then cursor
    else
      var alignment := if sections[0].align < 16 then sections[0].align else 16;
      AlignUpMeans(cursor, alignment);
      End(source, sections[1..], AlignUp(cursor, alignment) + ContentsSize(source, sections[0]))
  }

  /** A section that is whole fails to be unpacked only when it is a `__zdebug_` one: as oversize by the length its
      header announces, and as invalid for anything else. */
  lemma MaterializeFails(inflate: Inflate, source: seq<byte>, section: Section)
    requires section.size > 0 && section.offset + section.size <= |source|
    ensures var own, made := source[section.offset..section.offset + section.size],
                             Materialize(inflate, source, section);
      var headed := |own| >= 12 && own[..4] == [0x5a, 0x4c, 0x49, 0x42];
      && (made.Err? ==> made.error in {OversizeCompressed, InvalidCompressed} && "__zdebug_" <= section.name)
      && (made == Err(OversizeCompressed) <==>
            "__zdebug_" <= section.name && headed && !(0 < U(Big, own, 4, 8) <= 0x2000_0000))
      && (made == Err(InvalidCompressed) <==>
            && "__zdebug_" <= section.name
            && (headed ==> 0 < U(Big, own, 4, 8) <= 0x2000_0000)
            && !exists name, contents :: Unpacks(inflate, source, section, name, contents))
  {
    hide Unpacks, U;
    var made := Materialize(inflate, source, section);
    if made.Ok? { MaterializeMeans(inflate, source, section, made.value.0, made.value.1); }
    forall name, contents | Unpacks(inflate, source, section, name, contents) ensures made == Ok((name, contents)) {
      MaterializeMeans(inflate, source, section, name, contents);
    }
  }

  lemma {:induction false} PlacingSucceeds(inflate: Inflate, source: seq<byte>, dataOffset: nat, sections: seq<Section>,
                                           l: Layout)
    requires dataOffset + MAX_DEBUG_PAYLOAD < TWO_32 && |l.payload| <= MAX_DEBUG_PAYLOAD
    requires forall k :: 0 <= k < |sections| ==> sections[k].size > 0
    ensures var r := PlaceAll(inflate, source, dataOffset, sections, l);
      && r != Err(StructRange) && (r.Ok? ==> |r.value.payload| <= MAX_DEBUG_PAYLOAD)
      && (r.Ok? <==> (forall k :: 0 <= k < |sections| ==> Copyable(inflate, source, sections[k]))
                     && End(source, sections, dataOffset + |l.payload|) <= dataOffset + 0x4000_0000)
    decreases |sections|
  {
    hide Materialize, AlignUp, IsAscii, Copyable, ContentsSize;
    if sections != [] {
      var rest := sections[1..];
      PlacingOne(inflate, source, dataOffset, sections[0], l);
      var next := PlaceSection(inflate, source, dataOffset, sections[0], l);
      if next.Ok? {
        PlacingSucceeds(inflate, source, dataOffset, rest, next.value);
        assert forall k :: 0 <= k < |rest| ==> rest[k] == sections[k + 1];
        assert forall k :: 1 <= k < |sections| ==> sections[k] == rest[k - 1];
      } else if Copyable(inflate, source, sections[0]) {
        var cursor := AlignUp(dataOffset + |l.payload|, Min(sections[0].align, 16))
            + ContentsSize(source, sections[0]);
        assert End(source, sections, dataOffset + |l.payload|) == End(source, rest, cursor);
      }
    }
  }

  lemma PlacingOne(inflate: Inflate, source: seq<byte>, dataOffset: nat, section: Section, l: Layout)
    requires dataOffset + MAX_DEBUG_PAYLOAD < TWO_32 && |l.payload| <= MAX_DEBUG_PAYLOAD && section.size > 0
    ensures var r, end := PlaceSection(inflate, source, dataOffset, section, l),
                          AlignUp(dataOffset + |l.payload|, Min(section.align, 16))
                              + ContentsSize(source, section);
      && (r.Err? ==>
            r.error in {OversizePayload, NameNotAscii} || Materialize(inflate, source, section) == Err(r.error))
      && (r.Ok? <==> Copyable(inflate, source, section) && end <= dataOffset + 0x4000_0000)
      && (r.Ok? ==> dataOffset + |r.value.payload| == end)
      && r != Err(StructRange)
  {
    hide AlignUp, U, Materialize, Unpacks, ContentsSize, Copyable, IsAscii;
    AlignUpMeans(dataOffset + |l.payload|, Min(section.align, 16));
    CopyableMeans(inflate, source, section);
  }

  lemma CopyableMeans(inflate: Inflate, source: seq<byte>, section: Section)
    requires section.size > 0
    ensures var made := Materialize(inflate, source, section);
      && (Copyable(inflate, source, section)
          <==> made.Ok? && |made.value.1| <= MAX_DEBUG_SECTION && IsAscii(made.value.0))
      && (made.Ok? ==> |made.value.1| == ContentsSize(source, section))
      && made != Err(StructRange)
  {
    hide Materialize, Unpacks, ContentsSize;
    NeverOutOfRange(inflate, source, section);
    var made := Materialize(inflate, source, section);
    if made.Ok? {
      MaterializeMeans(inflate, source, section, made.value.0, made.value.1);
      UnpackedSize(inflate, source, section, made.value.0, made.value.1);
    }
    forall name, contents | Unpacks(inflate, source, section, name, contents) ensures made == Ok((name, contents)) {
      MaterializeMeans(inflate, source, section, name, contents);
    }
  }

  lemma NeverOutOfRange(inflate: Inflate, source: seq<byte>, section: Section)
    ensures Materialize(inflate, source, section) != Err(StructRange)
  {
    hide U;
  }

  lemma UnpackedSize(inflate: Inflate, source: seq<byte>, section: Section, name: string, contents: seq<byte>)
    requires Unpacks(inflate, source, section, name, contents)
    ensures |contents| == ContentsSize(source, section)
  {
    if ZDEBUG <= section.name {
      assert source[section.offset..section.offset + section.size][4..12]
          == source[section.offset + 4..section.offset + 12];
    }
  }

  // ----- One image -----

  /** What a slice must bring along for its debug image to be written. */
  ghost predicate Suitable(inflate: Inflate, source: seq<byte>, item: Slice) {
    var sections := DwarfSections(item.sections);
    && item.endian == Little && item.architecture in {X86_64, Arm64} && |item.uuid| == 16
    && item.hasDebugInfo && item.hasDebugLine && FirstText(item.segments).Some?
    && (forall k :: 0 <= k < |sections| ==> Copyable(inflate, source, sections[k]))
    && End(source, sections, DataOffset(|sections|)) <= DataOffset(|sections|) + 0x4000_0000
  }

  lemma {:induction false} FewerSelected(sections: seq<Section>)
    ensures |DwarfSections(sections)| <= |sections|
  {
    if sections != [] { FewerSelected(sections[1..]); }
  }

  lemma {:induction false} FirstTextIsListed(segments: seq<Segment>)
    ensures FirstText(segments).Some? ==> FirstText(segments).value in segments
  {
    if segments != [] { FirstTextIsListed(segments[1..]); }
  }

  lemma OffsetFits(count: nat)
    requires 68 * count < TWO_31
    ensures DataOffset(count) + MAX_DEBUG_PAYLOAD + 3 * 4096 < TWO_32 && CommandSize(count) < TWO_32
  {
    AlignUpMeans(32 + CommandSize(count), 3);
    assert Pow2(3) == 8;
  }

  lemma {:induction false} SliceSucceeds(inflate: Inflate, source: seq<byte>, item: Slice)
    requires SliceShape(item, |source|) && Bounded(item, |source|) && |source| < TWO_31
    ensures var r := GoDebugSlice(inflate, source, item);
      && r != Err(StructRange) && (r.Ok? <==> Suitable(inflate, source, item))
      && (r.Ok? ==> |r.value| + 3 * 4096 < TWO_32)
  {
    hide PlaceAll, DwarfSections, SliceBytes, U, AlignUp, End, Copyable, FirstText, DataOffset;
    var sections := DwarfSections(item.sections);
    Selected(item.sections);
    FewerSelected(item.sections);
    FirstTextIsListed(item.segments);
    OffsetFits(|sections|);
    forall k | 0 <= k < |sections| ensures sections[k].size > 0 {
      assert SectionShape(sections[k], |source|);
    }
    PlacingSucceeds(inflate, source, DataOffset(|sections|), sections, Layout([], []));
    PlacesEach(inflate, source, DataOffset(|sections|), sections, Layout([], []));
    var placing := PlaceAll(inflate, source, DataOffset(|sections|), sections, Layout([], []));
    if placing.Ok? && GoDebugSlice(inflate, source, item).Ok? {
      ImageSize(item, FirstText(item.segments).value, placing.value);
    }
  }

  /** What a slice lacks is reported in this order: its kind, its debug sections, its text base. */
  lemma SliceFails(inflate: Inflate, source: seq<byte>, item: Slice)
    requires SliceShape(item, |source|)
    ensures var r := GoDebugSlice(inflate, source, item);
      var supported := item.endian == Little && (item.architecture == X86_64 || item.architecture == Arm64);
      var debugged := item.hasDebugInfo && item.hasDebugLine;
      var based := exists j: nat :: FirstTextAt(item.segments, j);
      && (!supported ==> r == Err(UnsupportedSlice))
      && (supported && !debugged ==> r == Err(DwarfUnavailable))
      && (supported && debugged && !based ==> r == Err(TextBaseUnavailable))
      && (supported && debugged && based ==>
            r.Ok? || r.error !in {UnsupportedSlice, DwarfUnavailable, TextBaseUnavailable})
  {
    hide PlaceAll, DwarfSections, SliceBytes, FirstText, DataOffset, FirstTextAt;
    var sections := DwarfSections(item.sections);
    FirstTextMeans(item.segments);
    Selected(item.sections);
    if item.hasDebugInfo {
      var k :| 0 <= k < |item.sections| && HoldsDwarf(item.sections[k], {"__debug_info", "__zdebug_info"});
      assert item.sections[k] in sections;
    }
    PlacingErrors(inflate, source, DataOffset(|sections|), sections, Layout([], []));
  }

  lemma {:induction false} PlacingErrors(inflate: Inflate, source: seq<byte>, dataOffset: nat, sections: seq<Section>,
                                         l: Layout)
    ensures var r := PlaceAll(inflate, source, dataOffset, sections, l);
      r.Err? ==> r.error !in {UnsupportedSlice, DwarfUnavailable, TextBaseUnavailable}
    decreases |sections|
  {
    hide AlignUp, IsAscii, U;
    if sections != [] {
      var next := PlaceSection(inflate, source, dataOffset, sections[0], l);
      if next.Ok? { PlacingErrors(inflate, source, dataOffset, sections[1..], next.value); }
    }
  }

  lemma ImageSize(item: Slice, text: Segment, l: Layout)
    requires Packable(item, text, l)
    ensures |SliceBytes(MH_DSYM, item, text, l)| == DataOffset(|l.placed|) + |l.payload|
  {
    var image := SliceBytes(MH_DSYM, item, text, l);
    AtEnd([], image);
    ImagePieces([] + image, 0, MH_DSYM, item, text, l);
  }

  // ----- The whole file -----

  lemma {:induction false} SlicesSucceed(inflate: Inflate, source: seq<byte>, items: seq<Slice>)
    requires VariantsShape(items, |source|) && AllBounded(items, |source|) && |source| < TWO_31
    ensures var r := SliceAll(inflate, source, items);
      && r != Err(StructRange) && (r.Ok? <==> forall i :: 0 <= i < |items| ==> Suitable(inflate, source, items[i]))
  {
    hide GoDebugSlice, SliceShape, Bounded, Suitable;
    if items != [] {
      SliceSucceeds(inflate, source, items[0]);
      var rest := items[1..];
      assert forall i :: 0 <= i < |rest| ==> rest[i] == items[i + 1];
      assert forall i :: 1 <= i < |items| ==> items[i] == rest[i - 1];
      SlicesSucceed(inflate, source, rest);
    }
  }

  /** Two architectures at most can be shipped, so a container of them stays below 4 GiB. */
  lemma {:induction false} ContainerSucceeds(inflate: Inflate, source: seq<byte>, items: seq<Slice>,
                                             content: seq<seq<byte>>)
    requires VariantsShape(items, |source|) && AllBounded(items, |source|) && |source| < TWO_31 && items != []
    requires SliceAll(inflate, source, items) == Ok(content)
    ensures Container(items, content).Ok?
  {
    hide GoDebugSlice, SliceShape, AlignUp, FatHeader, AppendSlices;
    forall i | 0 <= i < |items|
      ensures items[i].architecture in {X86_64, Arm64} && |content[i]| + 3 * 4096 < TWO_32
      ensures CpuFits(items[i].cpuType) && CpuFits(items[i].cpuSubtype)
    {
      assert items[i] in items && Bounded(items[i], |source|);
      SliceSucceeds(inflate, source, items[i]);
      WrittenArchitecture(inflate, source, items[i]);
    }
    AtMostTwo(items);
    PageSize();
    var start := AlignUp(8 + 20 * |items|, 12);
    AlignUpMeans(8 + 20 * |items|, 12);
    if |items| == 2 {
      AlignUpMeans(start + |content[0]|, 12);
      assert Offsets(content, start)[0] == start;
      assert Offsets(content, start)[1] == Offsets(content[1..], AlignUp(start + |content[0]|, 12))[0];
    }
  }

  lemma WrittenArchitecture(inflate: Inflate, source: seq<byte>, item: Slice)
    requires GoDebugSlice(inflate, source, item).Ok?
    ensures item.architecture in {X86_64, Arm64}
  {
    hide PlaceAll, DwarfSections, SliceBytes, FirstText, DataOffset;
  }

  function Architectures(items: seq<Slice>): set<Architecture> {
    if items == [] then {} else {items[0].architecture} + Architectures(items[1..])
  }

  lemma {:induction false} CountArchitectures(items: seq<Slice>)
    ensures forall a :: a in Architectures(items) <==> exists i :: 0 <= i < |items| && items[i].architecture == a
    ensures DistinctArchitectures(items) ==> |Architectures(items)| == |items|
  {
    if items != [] {
      var rest := items[1..];
      CountArchitectures(rest);
      assert forall i :: 0 <= i < |rest| ==> rest[i] == items[i + 1];
      assert forall i :: 1 <= i < |items| ==> items[i] == rest[i - 1];
      assert items[0].architecture == items[0].architecture;
    }
  }

  lemma {:induction false} AtMostTwo(items: seq<Slice>)
    requires DistinctArchitectures(items) && forall i :: 0 <= i < |items| ==> items[i].architecture in {X86_64, Arm64}
    ensures |items| <= 2
  {
    CountArchitectures(items);
    var a := Architectures(items);
    var others := a - {X86_64};
    assert others == if Arm64 in a then {Arm64} else {};
    assert |a| <= |others| + 1;
  }

  /** On sources below 2 GiB the writer succeeds if and only if the source is an accepted executable all of whose slices
      are suitable; no number it packs is ever out of range. */
  lemma {:induction false} EmitSucceedsExactly(inflate: Inflate, source: seq<byte>)
    requires |source| < TWO_31
    ensures Emit(inflate, source) != Err(StructRange)
    ensures Emit(inflate, source).Ok? <==>
            Inspect(source).Ok? && forall i :: 0 <= i < |Inspect(source).value.variants| ==>
              Inspect(source).value.variants[i].filetype == 2
                  && Suitable(inflate, source, Inspect(source).value.variants[i])
  {
    hide Inspect, SliceAll, Container, Suitable, SliceShape, Bounded;
    InspectShape(source);
    InspectBounded(source);
    if Inspect(source).Ok? {
      var items := Inspect(source).value.variants;
      SlicesSucceed(inflate, source, items);
      var content := SliceAll(inflate, source, items);
      if content.Ok? { ContainerSucceeds(inflate, source, items, content.value); }
    }
  }

  /** The whole extraction: it gives a debug image if and only if every slice is suitable and copies no section named
      __text. */
  lemma {:induction false} ExtractSucceedsExactly(inflate: Inflate, source: seq<byte>)
    requires |source| < TWO_31
    ensures Extract(inflate, source).Ok? <==>
            Inspect(source).Ok? && forall i :: 0 <= i < |Inspect(source).value.variants| ==>
              var item := Inspect(source).value.variants[i];
              item.filetype == 2 && Suitable(inflate, source, item) && !SelectsText(item)
  {
    hide Inspect, Emit, Extract, Suitable, SelectsText;
    EmitSucceedsExactly(inflate, source);
    EmitComesFirst(inflate, source);
    if Emit(inflate, source).Ok? { ExtractAccepts(inflate, source); }
  }

  lemma EmitComesFirst(inflate: Inflate, source: seq<byte>)
    ensures Extract(inflate, source).Ok? ==> Emit(inflate, source).Ok?
  {
    hide Emit, Variants, Identities;
  }
}
