/** What an accepted universal file guarantees, and how the two readers of its table relate (tool/sentry_macho.py). */
module MachoGuarantees {
  import opened Bytes
  import opened SentryMacho

  ghost predicate ApartFrom(a: Slice, b: Slice) {
    a.offset + a.size <= b.offset || b.offset + b.size <= a.offset
  }

  /** Slices inside the file, clear of the table and of each other, of different architectures. */
  ghost predicate StandApart(variants: seq<Slice>, tableEnd: nat, fileSize: nat) {
    && (forall i | 0 <= i < |variants| ::
          tableEnd <= variants[i].offset && variants[i].size > 0 && variants[i].offset + variants[i].size <= fileSize)
    && (forall i, j :: 0 <= i < j < |variants| ==>
          ApartFrom(variants[i], variants[j]) && variants[i].architecture != variants[j].architecture)
  }

  ghost predicate RangesOf(variants: seq<Slice>, ranges: seq<(nat, nat)>) {
    |ranges| == |variants|
        && forall i | 0 <= i < |variants| :: ranges[i] == (variants[i].offset, variants[i].offset + variants[i].size)
  }

  lemma ThinStands(data: seq<byte>, start: nat, size: nat)
    requires Thin(data, start, size).Ok?
    ensures var v := Thin(data, start, size).value;
      v.offset == start && v.size == size && ArchitectureOf(v.cpuType) == Some(v.architecture)
  {
    hide ReadCommands, U, ThinMagic;
  }

  lemma SliceStandsApart(data: seq<byte>, tableEnd: nat, info: FatEntry, variants: seq<Slice>, ranges: seq<(nat, nat)>)
    requires StandApart(variants, tableEnd, |data|) && RangesOf(variants, ranges)
    requires FatSlice(data, tableEnd, info, variants, ranges).Ok?
    ensures var v := FatSlice(data, tableEnd, info, variants, ranges).value;
      && StandApart(variants + [v], tableEnd, |data|)
          && RangesOf(variants + [v], ranges + [(info.offset, info.offset + info.size)])
      && v.cpuType == info.cpuType
  {
    hide Thin;
    ThinStands(data, info.offset, info.size);
  }

  lemma {:induction false} FatStandsApart(data: seq<byte>, e: Endian, wide: bool, count: nat, index: nat,
                                          variants: seq<Slice>, ranges: seq<(nat, nat)>)
    requires index <= count && 8 + FatTable(wide, count) <= |data|
    requires StandApart(variants, 8 + FatTable(wide, count), |data|) && RangesOf(variants, ranges)
    requires FatVariants(data, e, wide, count, index, variants, ranges).Ok?
    ensures StandApart(FatVariants(data, e, wide, count, index, variants, ranges).value, 8 + FatTable(wide, count),
        |data|)
    decreases count - index
  {
    hide StandApart, RangesOf, FatSlice, UnpackFatEntry;
    if index < count {
      var info := UnpackFatEntry(data, e, wide, 8 + FatTable(wide, index));
      SliceStandsApart(data, 8 + FatTable(wide, count), info, variants, ranges);
      var slice := FatSlice(data, 8 + FatTable(wide, count), info, variants, ranges).value;
      FatStandsApart(data, e, wide, count, index + 1, variants + [slice],
          ranges + [(info.offset, info.offset + info.size)]);
    }
  }

  /** The slices of an accepted universal file never share a byte with each other or with the table. */
  lemma {:induction false} AcceptedSlicesStandApart(data: seq<byte>)
    requires Inspect(data).Ok? && Inspect(data).value.isFat
    ensures var (e, wide) := FatMagic(data).value;
      |data| >= 8 && StandApart(Inspect(data).value.variants, 8 + FatTable(wide, U(e, data, 4, 4)), |data|)
  {
    hide FatVariants, Thin, U;
    var (e, wide) := FatMagic(data).value;
    FatStandsApart(data, e, wide, U(e, data, 4, 4), 0, [], []);
  }

  // ----- The two table readers -----

  ghost predicate AlignedFrom(data: seq<byte>, e: Endian, wide: bool, count: nat, index: nat)
    requires index <= count && 8 + FatTable(wide, count) <= |data|
  {
    forall i | index <= i < count ::
      var info := UnpackFatEntry(data, e, wide, 8 + FatTable(wide, i));
      info.align <= 31 && info.offset % Pow2(info.align) == 0
  }

  ghost predicate EntriesOf(accepted: seq<FatEntry>, variants: seq<Slice>) {
    |accepted| == |variants| && forall i | 0 <= i < |variants| ::
      accepted[i].offset == variants[i].offset && accepted[i].size == variants[i].size
      && accepted[i].cpuType == variants[i].cpuType
          && ArchitectureOf(variants[i].cpuType) == Some(variants[i].architecture)
  }

  lemma {:induction false} EntryAgrees(data: seq<byte>, tableEnd: nat, info: FatEntry, variants: seq<Slice>,
                                       ranges: seq<(nat, nat)>, accepted: seq<FatEntry>)
    requires EntriesOf(accepted, variants) && RangesOf(variants, ranges)
    requires FatSlice(data, tableEnd, info, variants, ranges).Ok?
    ensures tableEnd <= info.offset && info.size > 0 && info.offset + info.size <= |data|
    ensures forall i | 0 <= i < |accepted| ::
              !(info.offset < accepted[i].offset + accepted[i].size && info.offset + info.size > accepted[i].offset)
              && CpuKey(accepted[i]) != CpuKey(info)
    ensures EntriesOf(accepted + [info], variants + [FatSlice(data, tableEnd, info, variants, ranges).value])
  {
    hide Thin, ArchitectureOf;
    ThinStands(data, info.offset, info.size);
    forall i | 0 <= i < |accepted| ensures !(info.offset < ranges[i].1 && info.offset + info.size > ranges[i].0) {}
  }

  lemma NothingLeft(data: seq<byte>, e: Endian, wide: bool, count: nat)
    requires 8 + FatTable(wide, count) <= |data|
    ensures AlignedFrom(data, e, wide, count, count)
  {
  }

  lemma AlignedStep(data: seq<byte>, e: Endian, wide: bool, count: nat, index: nat)
    requires index < count && 8 + FatTable(wide, count) <= |data|
    ensures var info := UnpackFatEntry(data, e, wide, 8 + FatTable(wide, index));
      AlignedFrom(data, e, wide, count, index)
      <==> info.align <= 31 && info.offset % Pow2(info.align) == 0 && AlignedFrom(data, e, wide, count, index + 1)
  {
    hide UnpackFatEntry, Pow2;
  }

  lemma {:induction false} TablesAgree(data: seq<byte>, e: Endian, wide: bool, count: nat, index: nat,
                                       variants: seq<Slice>, ranges: seq<(nat, nat)>, accepted: seq<FatEntry>)
    requires index <= count && 8 + FatTable(wide, count) <= |data|
    requires StandApart(variants, 8 + FatTable(wide, count), |data|) && EntriesOf(accepted, variants)
        && RangesOf(variants, ranges)
    requires FatVariants(data, e, wide, count, index, variants, ranges).Ok?
    ensures FatEntriesFrom(data, e, wide, count, index, accepted).Ok? <==> AlignedFrom(data, e, wide, count, index)
    decreases count - index
  {
    hide StandApart, RangesOf, EntriesOf, FatSlice, UnpackFatEntry, CpuKey, AlignedFrom, Pow2;
    if index == count {
      NothingLeft(data, e, wide, count);
    } else {
      AlignedStep(data, e, wide, count, index);
      var info := UnpackFatEntry(data, e, wide, 8 + FatTable(wide, index));
      EntryAgrees(data, 8 + FatTable(wide, count), info, variants, ranges, accepted);
      SliceStandsApart(data, 8 + FatTable(wide, count), info, variants, ranges);
      var slice := FatSlice(data, 8 + FatTable(wide, count), info, variants, ranges).value;
      TablesAgree(data, e, wide, count, index + 1, variants + [slice],
          ranges + [(info.offset, info.offset + info.size)], accepted + [info]);
    }
  }

  /** On a universal file that inspection accepts, the stricter table reader fails exactly when an entry
      is misaligned. */
  lemma {:induction false} ReadersAgree(data: seq<byte>)
    requires Inspect(data).Ok? && Inspect(data).value.isFat
    ensures var (e, wide) := FatMagic(data).value;
      |data| >= 8 && 8 + FatTable(wide, U(e, data, 4, 4)) <= |data|
      && (FatEntries(data).Ok? <==> AlignedFrom(data, e, wide, U(e, data, 4, 4), 0))
  {
    hide FatVariants, FatEntriesFrom, Thin, U, AlignedFrom;
    var (e, wide) := FatMagic(data).value;
    TablesAgree(data, e, wide, U(e, data, 4, 4), 0, [], [], []);
  }

  // ----- What every accepted image satisfies -----

  ghost predicate NameShape(name: string) {
    |name| <= 16 && (name != "" ==> name[|name| - 1] != '\0')
  }

  ghost predicate SectionShape(s: Section, sourceSize: nat) {
    && NameShape(s.name)
    && (s.hasContents ==> s.size > 0 && s.offset + s.size <= sourceSize)
  }

  /** A debug section the scan has noted is one of the sections it lists. */
  ghost predicate Noted(sections: seq<Section>, name: seq<byte>) {
    exists k :: 0 <= k < |sections| && sections[k].hasContents && sections[k].segment == DWARF
                && sections[k].name == DecodeAscii(name)
  }

  /** A DWARF section that is present in the file under one of the names. */
  ghost predicate HoldsDwarf(s: Section, names: set<string>) {
    s.hasContents && s.segment == "__DWARF" && s.name in names
  }

  /** A section that is present in the file and executable: by its name, or by S_ATTR_PURE_INSTRUCTIONS or
      S_ATTR_SOME_INSTRUCTIONS among its flags. */
  ghost predicate HoldsCode(s: Section) {
    s.hasContents && (s.name == "__text" || s.flags / 0x8000_0000 % 2 == 1 || s.flags / 0x400 % 2 == 1)
  }

  ghost predicate ScanShape(s: Scan, sourceSize: nat) {
    && (forall k :: 0 <= k < |s.sections| ==> SectionShape(s.sections[k], sourceSize))
    && (forall name | name in s.debugSections :: Noted(s.sections, name))
    && (forall k :: 0 <= k < |s.sections| && HoldsDwarf(s.sections[k], LineTables()) ==>
          EncodeAscii(s.sections[k].name) in s.debugSections)
    && (s.executable <==> exists k :: 0 <= k < |s.sections| && HoldsCode(s.sections[k]))
    && (forall id | id in s.identifiers :: |id| == 16)
  }

  ghost function LineTables(): set<string> { {"__debug_info", "__zdebug_info", "__debug_line", "__zdebug_line"} }

  lemma NotedGrows(sections: seq<Section>, more: seq<Section>, name: seq<byte>)
    requires Noted(sections, name)
    ensures Noted(sections + more, name)
  {
    var k :| 0 <= k < |sections| && sections[k].hasContents && sections[k].segment == DWARF
             && sections[k].name == DecodeAscii(name);
    assert (sections + more)[k] == sections[k];
  }

  lemma DecodedShape(raw: seq<byte>)
    requires |raw| <= 16
    ensures NameShape(DecodeAscii(StripNul(raw)))
  {
    StripNulMeans(raw);
  }

  lemma AddShape(start: nat, size: nat, fileStart: nat, fileSize: nat, raw: RawSection, s: Scan, sourceSize: nat)
    requires ScanShape(s, sourceSize) && |raw.name| == 16
    requires start + size <= sourceSize && fileStart + fileSize <= size
    ensures var r := AddSection(start, fileStart, fileSize, raw, s);
      r.Ok? ==> ScanShape(r.value, sourceSize)
  {
    hide StripNul, DecodeAscii, EncodeAscii, CodeFlags, HoldsCode, HoldsDwarf, LineTables, NameShape;
    var r := AddSection(start, fileStart, fileSize, raw, s);
    if r.Ok? {
      DecodedShape(raw.name);
      AddedMeans(start, fileStart, fileSize, raw, s);
      var added := r.value.sections[|s.sections|];
      assert r.value.sections == s.sections + [added];
      forall name | name in r.value.debugSections ensures Noted(r.value.sections, name) {
        if name in s.debugSections {
          NotedGrows(s.sections, [added], name);
        } else {
          assert added.name == DecodeAscii(name);
        }
      }
      CodeGrows(s.sections, added);
      forall k | 0 <= k < |r.value.sections| && HoldsDwarf(r.value.sections[k], LineTables())
        ensures EncodeAscii(r.value.sections[k].name) in r.value.debugSections
      {
        assert k < |s.sections| ==> r.value.sections[k] == s.sections[k];
      }
    }
  }

  lemma CodeGrows(sections: seq<Section>, added: Section)
    ensures var all := sections + [added];
      (exists k :: 0 <= k < |all| && HoldsCode(all[k]))
      <==> HoldsCode(added) || exists k :: 0 <= k < |sections| && HoldsCode(sections[k])
  {
    hide HoldsCode;
    var all := sections + [added];
    assert all[|sections|] == added;
    assert forall k :: 0 <= k < |sections| ==> all[k] == sections[k];
  }

  lemma AddedMeans(start: nat, fileStart: nat, fileSize: nat, raw: RawSection, s: Scan)
    requires AddSection(start, fileStart, fileSize, raw, s).Ok?
    ensures var next := AddSection(start, fileStart, fileSize, raw, s).value;
      && |next.sections| == |s.sections| + 1
      && var added := next.sections[|s.sections|];
        && (StripNul(raw.name) in next.debugSections <==>
            StripNul(raw.name) in s.debugSections || (added.hasContents && added.segment == DWARF))
        && (HoldsDwarf(added, LineTables()) ==> EncodeAscii(added.name) in next.debugSections)
        && (next.executable <==> s.executable || HoldsCode(added))
  {
    hide StripNul, DecodeAscii, EncodeAscii, LineTables, IsAscii;
    DebugNamesAreAscii();
    OnlyItsBytes(StripNul(raw.name), TEXT_SECTION);
    OnlyItsBytes(StripNul(raw.segment), DWARF);
    CodeFlagsMean(raw.flags);
    var name := DecodeAscii(StripNul(raw.name));
    if name in LineTables() {
      LineTablesAreAscii(name);
      OnlyItsBytes(StripNul(raw.name), name);
    }
  }

  lemma CodeFlagsMean(flags: nat)
    ensures CodeFlags(flags) <==> flags / 0x8000_0000 % 2 == 1 || flags / 0x400 % 2 == 1
  {
  }

  lemma LineTablesAreAscii(name: string)
    requires name in LineTables()
    ensures IsAscii(name)
  {
    DebugNamesAreAscii();
  }

  lemma DebugNamesAreAscii()
    ensures IsAscii(DWARF) && IsAscii(TEXT_SECTION) && IsAscii(DEBUG_INFO) && IsAscii(ZDEBUG_INFO)
            && IsAscii(DEBUG_LINE) && IsAscii(ZDEBUG_LINE)
  {
  }

  lemma {:induction false} SectionsShape(data: seq<byte>, start: nat, size: nat, e: Endian, wide: bool, at: nat,
                                         count: nat, fileStart: nat, fileSize: nat, s: Scan)
    requires at + SectionTable(wide, count) <= |data| && start + size <= |data| && fileStart + fileSize <= size
    requires ScanShape(s, |data|)
    ensures var r := ReadSections(data, start, e, wide, at, count, fileStart, fileSize, s);
      r.Ok? ==> ScanShape(r.value, |data|)
    decreases count
  {
    hide AddSection, U, ScanShape;
    if count > 0 {
      var raw := UnpackSection(data, e, wide, at);
      AddShape(start, size, fileStart, fileSize, raw, s, |data|);
      var next := AddSection(start, fileStart, fileSize, raw, s);
      if next.Ok? {
        SectionsShape(data, start, size, e, wide, at + SectionTable(wide, 1), count - 1, fileStart, fileSize,
            next.value);
      }
    }
  }

  lemma SameShape(a: Scan, b: Scan, sourceSize: nat)
    requires ScanShape(a, sourceSize)
    requires b.sections == a.sections && b.debugSections == a.debugSections && b.executable == a.executable
    requires forall id | id in b.identifiers :: id in a.identifiers || |id| == 16
    ensures ScanShape(b, sourceSize)
  {
  }

  lemma {:induction false} CommandShape(data: seq<byte>, start: nat, size: nat, stop: nat, e: Endian, wide: bool,
                                        s: Scan)
    requires stop <= start + size <= |data| && ScanShape(s, |data|)
    ensures var r := ReadCommand(data, start, size, stop, e, wide, s);
      r.Ok? ==> ScanShape(r.value, |data|)
  {
    hide U, ScanShape, StripNul, DecodeAscii, ReadSections;
    var r := ReadCommand(data, start, size, stop, e, wide, s);
    if r.Ok? {
      var command, width := U(e, data, s.cursor, 4), U(e, data, s.cursor + 4, 4);
      if command == LC_SEGMENT || command == LC_SEGMENT_64 {
        var w := command == LC_SEGMENT_64;
        var raw := UnpackSegment(data, e, w, s.cursor);
        var named := s.(segments := s.segments + [Segment(DecodeAscii(StripNul(raw.name)), raw.vmaddr, raw.vmsize,
                                                          raw.fileoff, raw.filesize)]);
        SameShape(s, named, |data|);
        SectionsShape(data, start, size, e, w, s.cursor + SegmentSize(w), raw.nsects, raw.fileoff, raw.filesize, named);
        var read := ReadSections(data, start, e, w, s.cursor + SegmentSize(w), raw.nsects, raw.fileoff, raw.filesize,
            named);
        SameShape(read.value, r.value, |data|);
      } else {
        SameShape(s, r.value, |data|);
      }
    }
  }

  lemma {:induction false} CommandsShape(data: seq<byte>, start: nat, size: nat, stop: nat, e: Endian, wide: bool,
                                         count: nat, s: Scan)
    requires stop <= start + size <= |data| && ScanShape(s, |data|)
    ensures var r := ReadCommands(data, start, size, stop, e, wide, count, s);
      r.Ok? ==> ScanShape(r.value, |data|)
    decreases count
  {
    hide ReadCommand, ScanShape;
    if count > 0 {
      CommandShape(data, start, size, stop, e, wide, s);
      var next := ReadCommand(data, start, size, stop, e, wide, s);
      if next.Ok? {
        CommandsShape(data, start, size, stop, e, wide, count - 1, next.value);
      }
    }
  }

  /** What every image the reader accepts satisfies. */
  ghost predicate SliceShape(v: Slice, sourceSize: nat) {
    && (forall k :: 0 <= k < |v.sections| ==> SectionShape(v.sections[k], sourceSize))
    && (v.hasDebugInfo <==>
        exists k :: 0 <= k < |v.sections| && HoldsDwarf(v.sections[k], {"__debug_info", "__zdebug_info"}))
    && (v.hasDebugLine <==>
        exists k :: 0 <= k < |v.sections| && HoldsDwarf(v.sections[k], {"__debug_line", "__zdebug_line"}))
    && (v.hasExecutableText <==> exists k :: 0 <= k < |v.sections| && HoldsCode(v.sections[k]))
    && (v.uuid == [] || |v.uuid| == 16)
    && ArchitectureOf(v.cpuType) == Some(v.architecture)
  }

  lemma ThinShape(data: seq<byte>, start: nat, size: nat)
    ensures var r := Thin(data, start, size);
      r.Ok? ==> SliceShape(r.value, |data|)
  {
    hide U, ReadCommands, ReadHeader, Summary, ScanShape, SliceShape;
    var header := ReadHeader(data, start, size);
    if header.Ok? {
      var h := header.value;
      var s0 := ScanFrom(start + HeaderSize(h.wide));
      HeaderArchitecture(data, start, size);
      EmptyScanShape(s0, |data|);
      CommandsShape(data, start, size, h.stop, h.endian, h.wide, h.count, s0);
      var scan := ReadCommands(data, start, size, h.stop, h.endian, h.wide, h.count, s0);
      if scan.Ok? { SummaryShape(h, start, size, scan.value, |data|); }
    }
  }

  lemma EmptyScanShape(s: Scan, sourceSize: nat)
    requires s == ScanFrom(s.cursor)
    ensures ScanShape(s, sourceSize)
  {
  }

  lemma HeaderArchitecture(data: seq<byte>, start: nat, size: nat)
    ensures var r := ReadHeader(data, start, size);
      r.Ok? ==> ArchitectureOf(r.value.cpuType) == Some(r.value.architecture)
  {
    hide U, ThinMagic;
  }

  lemma SummaryShape(h: Header, start: nat, size: nat, s: Scan, sourceSize: nat)
    requires ScanShape(s, sourceSize) && ArchitectureOf(h.cpuType) == Some(h.architecture)
    ensures var r := Summary(h, start, size, s);
      r.Ok? ==> SliceShape(r.value, sourceSize)
  {
    hide EncodeAscii, DecodeAscii, HoldsCode, HoldsDwarf, SectionShape, ArchitectureOf, Noted;
    NotedEither(s, sourceSize, DEBUG_INFO, ZDEBUG_INFO);
    NotedEither(s, sourceSize, DEBUG_LINE, ZDEBUG_LINE);
    assert |s.identifiers| <= 1 && s.identifiers != {} ==> UuidOf(s.identifiers) in s.identifiers;
  }

  lemma NotedEither(s: Scan, sourceSize: nat, a: string, b: string)
    requires ScanShape(s, sourceSize) && a in LineTables() && b in LineTables()
    ensures EncodeAscii(a) in s.debugSections || EncodeAscii(b) in s.debugSections
        <==> exists k :: 0 <= k < |s.sections| && HoldsDwarf(s.sections[k], {a, b})
  {
    hide EncodeAscii, ScanShape, HoldsDwarf;
    NotedMeans(s, sourceSize, a);
    NotedMeans(s, sourceSize, b);
    EitherName(s.sections, a, b);
  }

  lemma EitherName(sections: seq<Section>, a: string, b: string)
    ensures (exists k :: 0 <= k < |sections| && HoldsDwarf(sections[k], {a, b}))
        <==> (exists k :: 0 <= k < |sections| && HoldsDwarf(sections[k], {a}))
             || exists k :: 0 <= k < |sections| && HoldsDwarf(sections[k], {b})
  {
    forall k | 0 <= k < |sections|
      ensures HoldsDwarf(sections[k], {a, b}) <==> HoldsDwarf(sections[k], {a}) || HoldsDwarf(sections[k], {b}) {}
  }

  lemma NotedMeans(s: Scan, sourceSize: nat, name: string)
    requires ScanShape(s, sourceSize) && name in LineTables()
    ensures EncodeAscii(name) in s.debugSections
        <==> exists k :: 0 <= k < |s.sections| && HoldsDwarf(s.sections[k], {name})
  {
    hide EncodeAscii, DecodeAscii;
    DebugNamesAreAscii();
    OnlyItsBytes(EncodeAscii(name), name);
    if EncodeAscii(name) in s.debugSections { assert Noted(s.sections, EncodeAscii(name)); }
    forall k | 0 <= k < |s.sections| && HoldsDwarf(s.sections[k], {name}) ensures EncodeAscii(name) in s.debugSections {
      assert HoldsDwarf(s.sections[k], LineTables());
    }
  }

  ghost predicate DistinctArchitectures(variants: seq<Slice>) {
    forall i, j :: 0 <= i < j < |variants| ==> variants[i].architecture != variants[j].architecture
  }

  ghost predicate VariantsShape(variants: seq<Slice>, sourceSize: nat) {
    (forall i :: 0 <= i < |variants| ==> SliceShape(variants[i], sourceSize)) && DistinctArchitectures(variants)
  }

  lemma {:induction false} FatShape(data: seq<byte>, e: Endian, wide: bool, count: nat, index: nat,
                                    variants: seq<Slice>, ranges: seq<(nat, nat)>)
    requires index <= count && 8 + FatTable(wide, count) <= |data|
    requires VariantsShape(variants, |data|) && |variants| == index
    ensures var r := FatVariants(data, e, wide, count, index, variants, ranges);
      r.Ok? ==> VariantsShape(r.value, |data|) && |r.value| == count
    decreases count - index
  {
    hide U, Thin, SliceShape;
    if index < count {
      var info := UnpackFatEntry(data, e, wide, 8 + FatTable(wide, index));
      var slice := FatSlice(data, 8 + FatTable(wide, count), info, variants, ranges);
      if slice.Ok? {
        ThinShape(data, info.offset, info.size);
        FatShape(data, e, wide, count, index + 1, variants + [slice.value],
            ranges + [(info.offset, info.offset + info.size)]);
      }
    }
  }

  lemma InspectShape(data: seq<byte>)
    ensures var r := Inspect(data);
      r.Ok? ==> VariantsShape(r.value.variants, |data|) && 0 < |r.value.variants| <= 64
  {
    hide U, Thin, FatVariants, SliceShape;
    if |data| >= 4 && ThinMagic(data, 0).Some? {
      ThinShape(data, 0, |data|);
    } else if |data| >= 8 && FatMagic(data).Some? {
      var (e, wide) := FatMagic(data).value;
      var count := U(e, data, 4, 4);
      if count <= 64 && 8 + FatTable(wide, count) <= |data| {
        FatShape(data, e, wide, count, 0, [], []);
      }
    }
  }
}
