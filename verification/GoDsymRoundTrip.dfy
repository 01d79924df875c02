/** What the reader makes of the bytes the writer emits. */
module GoDsymRoundTrip {
  import opened Bytes
  import opened SentryMacho
  import opened GoDsym

  // ----- One record at a time -----

  lemma Read4(data: seq<byte>, off: nat, v: nat)
    requires v < TWO_32 && At(data, off, L4(v))
    ensures off + 4 <= |data| && U(Little, data, off, 4) == v
  {
    Pow256Values();
    ReadPacked(Little, data, off, 4, v);
  }

  lemma Read8(data: seq<byte>, off: nat, v: nat)
    requires v < TWO_64 && At(data, off, L8(v))
    ensures off + 8 <= |data| && U(Little, data, off, 8) == v
  {
    Pow256Values();
    ReadPacked(Little, data, off, 8, v);
  }

  lemma MagicBytes()
    ensures L4(0xFEED_FACF) == [0xcf, 0xfa, 0xed, 0xfe]
    ensures Pack(Big, 4, 0xCAFE_BABE) == [0xca, 0xfe, 0xba, 0xbe]
  {
    assert PackLittle(2, 0xFEED) == [0xed, 0xfe];
    assert PackLittle(4, 0xFEED_FACF) == [0xcf] + ([0xfa] + PackLittle(2, 0xFEED));
    assert PackBig(2, 0xCAFE) == [0xca, 0xfe];
    assert PackBig(4, 0xCAFE_BABE) == PackBig(2, 0xCAFE) + [0xba] + [0xbe];
  }

  lemma HeaderMagic(data: seq<byte>, start: nat)
    requires At(data, start, L4(0xFEED_FACF))
    ensures ThinMagic(data, start) == Some((Little, true))
  {
    MagicBytes();
  }

  lemma HeaderReads(data: seq<byte>, start: nat, size: nat, filetype: nat, cpuType: int, cpuSubtype: int,
                    commandSize: nat)
    requires CpuFits(cpuType) && CpuFits(cpuSubtype) && commandSize < TWO_32
    requires At(data, start, HeaderBytes(filetype, cpuType, cpuSubtype, commandSize))
    requires filetype in {1, 2, 6, 8, 10}
    requires start + size <= |data| && 32 + commandSize <= size && ArchitectureOf(cpuType).Some?
    ensures ReadHeader(data, start, size)
        == Ok(Header(Little, true, cpuType, cpuSubtype, filetype, ArchitectureOf(cpuType).value,
                                                       3, start + 32 + commandSize))
  {
    hide At, U, L4, PackInt32, ThinMagic, Signed32, ArchitectureOf;
    var f8 := L4(0) + L4(0);
    var f6 := L4(commandSize) + f8;
    var f5 := L4(3) + f6;
    var f4 := L4(filetype) + f5;
    var f3 := PackInt32(Little, cpuSubtype) + f4;
    var f2 := PackInt32(Little, cpuType) + f3;
    AtSplit(data, start, L4(0xFEED_FACF), f2);
    AtSplit(data, start + 4, PackInt32(Little, cpuType), f3);
    AtSplit(data, start + 8, PackInt32(Little, cpuSubtype), f4);
    AtSplit(data, start + 12, L4(filetype), f5);
    AtSplit(data, start + 16, L4(3), f6);
    AtSplit(data, start + 20, L4(commandSize), f8);
    HeaderMagic(data, start);
    ReadPackedInt32(Little, data, start + 4, cpuType);
    ReadPackedInt32(Little, data, start + 8, cpuSubtype);
    Read4(data, start + 12, filetype);
    Read4(data, start + 16, 3);
    Read4(data, start + 20, commandSize);
  }

  lemma SegmentReads(data: seq<byte>, at: nat, width: nat, name: string, vmaddr: nat, vmsize: nat,
                     fileoff: nat, filesize: nat, count: nat)
    requires IsAscii(name) && width < TWO_32 && count < TWO_32
    requires vmaddr < TWO_64 && vmsize < TWO_64 && fileoff < TWO_64 && filesize < TWO_64
    requires At(data, at, SegmentCommand(width, name, vmaddr, vmsize, fileoff, filesize, count))
    ensures at + 72 <= |data| && U(Little, data, at, 4) == LC_SEGMENT_64 && U(Little, data, at + 4, 4) == width
    ensures UnpackSegment(data, Little, true, at)
         == RawSegment(Name16(EncodeAscii(name)), vmaddr, vmsize, fileoff, filesize, count)
  {
    var f11 := L4(0);
    var f10 := L4(count) + f11;
    var f9 := L4(0) + f10;
    var f8 := L4(0) + f9;
    var f7 := L8(filesize) + f8;
    var f6 := L8(fileoff) + f7;
    var f5 := L8(vmsize) + f6;
    var f4 := L8(vmaddr) + f5;
    var f3 := Name16(EncodeAscii(name)) + f4;
    var f2 := L4(width) + f3;
    AtSplit(data, at, L4(LC_SEGMENT_64), f2);
    AtSplit(data, at + 4, L4(width), f3);
    AtSplit(data, at + 8, Name16(EncodeAscii(name)), f4);
    AtSplit(data, at + 24, L8(vmaddr), f5);
    AtSplit(data, at + 32, L8(vmsize), f6);
    AtSplit(data, at + 40, L8(fileoff), f7);
    AtSplit(data, at + 48, L8(filesize), f8);
    AtSplit(data, at + 56, L4(0), f9);
    AtSplit(data, at + 60, L4(0), f10);
    AtSplit(data, at + 64, L4(count), f11);
    Read4(data, at, LC_SEGMENT_64);
    Read4(data, at + 4, width);
    Read8(data, at + 24, vmaddr);
    Read8(data, at + 32, vmsize);
    Read8(data, at + 40, fileoff);
    Read8(data, at + 48, filesize);
    Read4(data, at + 64, count);
  }

  lemma SectionReads(data: seq<byte>, at: nat, p: Placed)
    requires IsAscii(p.name) && p.offset < TWO_32 && p.alignment < TWO_32 && |p.contents| < TWO_64
    requires At(data, at, SectionRecord(p))
    ensures at + 80 <= |data|
    ensures UnpackSection(data, Little, true, at)
         == RawSection(Name16(EncodeAscii(p.name)), Name16(EncodeAscii(DWARF)), 0, |p.contents|, p.offset,
             p.alignment, DWARF_FLAGS)
  {
    var f10 := L4(0) + (L4(0) + L4(0));
    var f9 := L4(DWARF_FLAGS) + f10;
    var f8 := L4(0) + f9;
    var f7 := L4(0) + f8;
    var f6 := L4(p.alignment) + f7;
    var f5 := L4(p.offset) + f6;
    var f4 := L8(|p.contents|) + f5;
    var f3 := L8(0) + f4;
    var f2 := Name16(EncodeAscii(DWARF)) + f3;
    AtSplit(data, at, Name16(EncodeAscii(p.name)), f2);
    AtSplit(data, at + 16, Name16(EncodeAscii(DWARF)), f3);
    AtSplit(data, at + 32, L8(0), f4);
    AtSplit(data, at + 40, L8(|p.contents|), f5);
    AtSplit(data, at + 48, L4(p.offset), f6);
    AtSplit(data, at + 52, L4(p.alignment), f7);
    AtSplit(data, at + 56, L4(0), f8);
    AtSplit(data, at + 60, L4(0), f9);
    AtSplit(data, at + 64, L4(DWARF_FLAGS), f10);
    Read8(data, at + 32, 0);
    Read8(data, at + 40, |p.contents|);
    Read4(data, at + 48, p.offset);
    Read4(data, at + 52, p.alignment);
    Read4(data, at + 64, DWARF_FLAGS);
  }

  // ----- What no reader looks at -----

  ghost predicate Blank(data: seq<byte>, at: nat) { at + 4 <= |data| && data[at..at + 4] == [0, 0, 0, 0] }

  lemma ZeroIsBlank(data: seq<byte>, at: nat)
    requires At(data, at, L4(0))
    ensures Blank(data, at)
  {
    assert PackLittle(2, 0) == [0, 0] by { assert PackLittle(0, 0) == []; }
    assert L4(0) == [0, 0] + PackLittle(2, 0);
  }

  /** Header flags and the reserved word are zero. */
  lemma HeaderBlanks(data: seq<byte>, start: nat, filetype: nat, cpuType: int, cpuSubtype: int, commandSize: nat)
    requires CpuFits(cpuType) && CpuFits(cpuSubtype)
    requires At(data, start, HeaderBytes(filetype, cpuType, cpuSubtype, commandSize))
    ensures Blank(data, start + 24) && Blank(data, start + 28)
  {
    hide At, L4, PackInt32, Blank;
    var head := L4(0xFEED_FACF) + (PackInt32(Little, cpuType) + (PackInt32(Little, cpuSubtype)
                + (L4(filetype) + (L4(3) + L4(commandSize)))));
    var tail := L4(0) + L4(0);
    assert HeaderBytes(filetype, cpuType, cpuSubtype, commandSize) == head + tail;
    AtSplit(data, start, head, tail);
    AtSplit(data, start + 24, L4(0), L4(0));
    ZeroIsBlank(data, start + 24);
    ZeroIsBlank(data, start + 28);
  }

  /** A segment grants no protection and carries no flags. */
  lemma SegmentBlanks(data: seq<byte>, at: nat, width: nat, name: string, vmaddr: nat, vmsize: nat, fileoff: nat,
                      filesize: nat, count: nat)
    requires At(data, at, SegmentCommand(width, name, vmaddr, vmsize, fileoff, filesize, count))
    ensures Blank(data, at + 56) && Blank(data, at + 60) && Blank(data, at + 68)
  {
    hide At, L4, L8, Name16, EncodeAscii, Blank;
    var head := L4(LC_SEGMENT_64) + (L4(width) + (Name16(EncodeAscii(name)) + (L8(vmaddr) + (L8(vmsize)
                + (L8(fileoff) + L8(filesize))))));
    var tail := L4(0) + (L4(0) + (L4(count) + L4(0)));
    assert SegmentCommand(width, name, vmaddr, vmsize, fileoff, filesize, count) == head + tail;
    AtSplit(data, at, head, tail);
    AtSplit(data, at + 56, L4(0), L4(0) + (L4(count) + L4(0)));
    AtSplit(data, at + 60, L4(0), L4(count) + L4(0));
    AtSplit(data, at + 64, L4(count), L4(0));
    ZeroIsBlank(data, at + 56);
    ZeroIsBlank(data, at + 60);
    ZeroIsBlank(data, at + 68);
  }

  /** A section has no relocations and nothing in its reserved words. */
  lemma SectionBlanks(data: seq<byte>, at: nat, p: Placed)
    requires At(data, at, SectionRecord(p))
    ensures Blank(data, at + 56) && Blank(data, at + 60)
    ensures Blank(data, at + 68) && Blank(data, at + 72) && Blank(data, at + 76)
  {
    hide At, L4, L8, Name16, EncodeAscii, Blank;
    var head := Name16(EncodeAscii(p.name)) + (Name16(EncodeAscii(DWARF)) + (L8(0) + (L8(|p.contents|)
                + (L4(p.offset) + L4(p.alignment)))));
    var last := L4(0) + (L4(0) + L4(0));
    var tail := L4(0) + (L4(0) + (L4(DWARF_FLAGS) + last));
    assert SectionRecord(p) == head + tail;
    AtSplit(data, at, head, tail);
    AtSplit(data, at + 56, L4(0), L4(0) + (L4(DWARF_FLAGS) + last));
    AtSplit(data, at + 60, L4(0), L4(DWARF_FLAGS) + last);
    AtSplit(data, at + 64, L4(DWARF_FLAGS), last);
    AtSplit(data, at + 68, L4(0), L4(0) + L4(0));
    AtSplit(data, at + 72, L4(0), L4(0));
    ZeroIsBlank(data, at + 56);
    ZeroIsBlank(data, at + 60);
    ZeroIsBlank(data, at + 68);
    ZeroIsBlank(data, at + 72);
    ZeroIsBlank(data, at + 76);
  }

  /** A section name the reader can have produced, and so reproduces: at most 16 characters, no NUL at the end. */
  predicate NameFits(name: string) {
    IsAscii(name) && |name| <= 16 && (name != "" ==> name[|name| - 1] != '\0')
  }

  lemma NameReads(name: string)
    requires NameFits(name)
    ensures StripNul(Name16(EncodeAscii(name))) == EncodeAscii(name)
    ensures DecodeAscii(StripNul(Name16(EncodeAscii(name)))) == name
  {
    StripPadded(EncodeAscii(name), 16 - |name|);
    EncodeDecode(name);
  }

  // ----- The sections of one image -----

  function SectionOf(start: nat, p: Placed): Section {
    Section(p.name, DWARF, start + p.offset, |p.contents|, 0, p.alignment, DWARF_FLAGS, true)
  }

  function SectionsOf(start: nat, placed: seq<Placed>): seq<Section> {
    seq(|placed|, i requires 0 <= i < |placed| => SectionOf(start, placed[i]))
  }

  /** Where every section lies: inside the payload, aligned, and after the one before it. */
  ghost predicate LaidOut(dataOffset: nat, payload: seq<byte>, placed: seq<Placed>) {
    && (forall k :: 0 <= k < |placed| ==>
          && dataOffset <= placed[k].offset < TWO_32
          && placed[k].offset % Pow2(placed[k].alignment) == 0 && placed[k].alignment <= 16
          && placed[k].contents != []
          && At(payload, placed[k].offset - dataOffset, placed[k].contents))
    && (forall j, k :: 0 <= j < k < |placed| ==> placed[j].offset + |placed[j].contents| <= placed[k].offset)
  }

  /** The scan after the placed sections have been read. */
  ghost predicate Absorbed(start: nat, placed: seq<Placed>, before: Scan, after: Scan)
  {
    && after.cursor == before.cursor && after.identifiers == before.identifiers && after.oso == before.oso
    && after.segments == before.segments
    && after.sections == before.sections + SectionsOf(start, placed)
    && before.debugSections <= after.debugSections
    && (forall k :: 0 <= k < |placed| ==> EncodeAscii(placed[k].name) in after.debugSections)
    && after.executable == (before.executable || exists k :: 0 <= k < |placed| && placed[k].name == TEXT_SECTION)
  }

  lemma SameName(a: string, b: string)
    requires IsAscii(a) && IsAscii(b) && EncodeAscii(a) == EncodeAscii(b)
    ensures a == b
  {
    EncodeDecode(a);
    EncodeDecode(b);
  }

  ghost predicate Readable(p: Placed, fileStart: nat, fileSize: nat) {
    && NameFits(p.name) && p.contents != [] && |p.contents| < TWO_64 && 0 < p.offset < TWO_32 && p.alignment < TWO_32
    && fileStart <= p.offset && p.offset + |p.contents| <= fileStart + fileSize
  }

  lemma RecordAbsorbs(start: nat, p: Placed, fileStart: nat, fileSize: nat, s: Scan)
    requires Readable(p, fileStart, fileSize)
    ensures var raw := RawSection(Name16(EncodeAscii(p.name)), Name16(EncodeAscii(DWARF)), 0, |p.contents|, p.offset,
                                  p.alignment, DWARF_FLAGS);
      var next := AddSection(start, fileStart, fileSize, raw, s);
      next.Ok? && Absorbed(start, [p], s, next.value)
  {
    hide StripNul, Name16, DecodeAscii, EncodeAscii, NameFits, IsAscii;
    SegmentNamesFit();
    NameReads(p.name);
    NameReads(DWARF);
    NameIsAscii(p.name);
    NameIsAscii(TEXT_SECTION);
    if EncodeAscii(p.name) == EncodeAscii(TEXT_SECTION) { SameName(p.name, TEXT_SECTION); }
    assert SectionsOf(start, [p]) == [SectionOf(start, p)];
    assert !CodeFlags(DWARF_FLAGS);
    assert [p][0] == p;
  }

  /** The section table of the emitted image, read from its k-th record on. */
  lemma {:induction false} SectionsAbsorb(data: seq<byte>, start: nat, at: nat, placed: seq<Placed>, fileStart: nat,
                                          fileSize: nat, s: Scan)
    requires forall k :: 0 <= k < |placed| ==> Readable(placed[k], fileStart, fileSize)
    requires forall k :: 0 <= k < |placed| ==> At(data, at + 80 * k, SectionRecord(placed[k]))
    requires at + 80 * |placed| <= |data|
    ensures var r := ReadSections(data, start, Little, true, at, |placed|, fileStart, fileSize, s);
      r.Ok? && Absorbed(start, placed, s, r.value)
    decreases |placed|
  {
    hide UnpackSection, AddSection, SectionRecord, NameFits, EncodeAscii, Absorbed, SectionsOf, At;
    if placed == [] {
      NothingAbsorbed(start, s);
    } else {
      var p, rest := placed[0], placed[1..];
      assert At(data, at + 80 * 0, SectionRecord(p));
      NameIsAscii(p.name);
      SectionReads(data, at, p);
      RecordAbsorbs(start, p, fileStart, fileSize, s);
      var next := AddSection(start, fileStart, fileSize, UnpackSection(data, Little, true, at), s).value;
      forall k | 0 <= k < |rest| ensures At(data, at + 80 + 80 * k, SectionRecord(rest[k])) {
        assert At(data, at + 80 * (k + 1), SectionRecord(placed[k + 1]));
      }
      SectionsAbsorb(data, start, at + 80, rest, fileStart, fileSize, next);
      AbsorbedTogether(start, p, rest, s, next,
          ReadSections(data, start, Little, true, at + 80, |rest|, fileStart, fileSize, next).value);
      assert placed == [p] + rest;
    }
  }

  lemma NothingAbsorbed(start: nat, s: Scan)
    ensures Absorbed(start, [], s, s)
  {
    assert SectionsOf(start, []) == [];
  }

  lemma AbsorbedTogether(start: nat, p: Placed, rest: seq<Placed>, a: Scan, b: Scan, c: Scan)
    requires Absorbed(start, [p], a, b) && Absorbed(start, rest, b, c)
    ensures Absorbed(start, [p] + rest, a, c)
  {
    hide EncodeAscii, SectionsOf;
    var all := [p] + rest;
    assert [p][0] == p && all[0] == p;
    SectionsTogether(start, p, rest);
    assert a.sections + SectionsOf(start, [p]) + SectionsOf(start, rest)
        == a.sections + (SectionsOf(start, [p]) + SectionsOf(start, rest));
    forall k | 0 <= k < |all| ensures EncodeAscii(all[k].name) in c.debugSections {
      assert k > 0 ==> all[k] == rest[k - 1];
    }
    TextAmong(p, rest);
  }

  lemma SectionsTogether(start: nat, p: Placed, rest: seq<Placed>)
    ensures SectionsOf(start, [p] + rest) == SectionsOf(start, [p]) + SectionsOf(start, rest)
  {
  }

  lemma TextAmong(p: Placed, rest: seq<Placed>)
    ensures var all := [p] + rest;
      (exists k :: 0 <= k < |all| && all[k].name == TEXT_SECTION)
      <==> p.name == TEXT_SECTION || exists k :: 0 <= k < |rest| && rest[k].name == TEXT_SECTION
  {
    var all := [p] + rest;
    assert all[0] == p && forall k :: 0 <= k < |rest| ==> all[k + 1] == rest[k];
    assert forall k :: 1 <= k < |all| ==> all[k] == rest[k - 1];
  }

  // ----- One image -----

  lemma UuidStep(data: seq<byte>, start: nat, size: nat, stop: nat, id: seq<byte>, s: Scan)
    requires stop <= start + size <= |data| && s.cursor + 24 <= stop && |id| == 16
    requires At(data, s.cursor, UuidCommand24(id))
    ensures ReadCommand(data, start, size, stop, Little, true, s)
         == Ok(s.(identifiers := s.identifiers + {id}, cursor := s.cursor + 24))
  {
    AtSplit(data, s.cursor, L4(LC_UUID), L4(24) + id);
    AtSplit(data, s.cursor + 4, L4(24), id);
    Read4(data, s.cursor, LC_UUID);
    Read4(data, s.cursor + 4, 24);
    assert data[s.cursor + 8..s.cursor + 24] == id;
  }

  lemma {:induction false} SegmentStep(data: seq<byte>, start: nat, size: nat, stop: nat, name: string, vmaddr: nat,
                                       vmsize: nat, fileoff: nat, filesize: nat, count: nat, s: Scan)
    requires stop <= start + size <= |data| && s.cursor + 72 + 80 * count <= stop
    requires 72 + 80 * count < TWO_32 && vmaddr < TWO_64 && vmsize < TWO_64 && fileoff < TWO_64 && filesize < TWO_64
    requires fileoff + filesize <= size && NameFits(name)
    requires At(data, s.cursor, SegmentCommand(72 + count * 80, name, vmaddr, vmsize, fileoff, filesize, count))
    ensures var named := s.(segments := s.segments + [Segment(name, vmaddr, vmsize, fileoff, filesize)]);
      var r := ReadSections(data, start, Little, true, s.cursor + 72, count, fileoff, filesize, named);
      ReadCommand(data, start, size, stop, Little, true, s)
      == if r.Err? then r else Ok(r.value.(cursor := s.cursor + 72 + 80 * count))
  {
    hide SegmentCommand, UnpackSegment, Name16, EncodeAscii, ReadSections, U, At, StripNul, DecodeAscii, NameFits;
    assert IsAscii(name) by { NameIsAscii(name); }
    SegmentReads(data, s.cursor, 72 + count * 80, name, vmaddr, vmsize, fileoff, filesize, count);
    NameReads(name);
  }

  lemma NameIsAscii(name: string)
    requires NameFits(name)
    ensures IsAscii(name)
  {
  }

  /** The emitted image as the reader reports it. */
  ghost predicate Describes(v: Slice, filetype: nat, item: Slice, text: Segment, l: Layout, start: nat, size: nat) {
    && v.architecture == item.architecture && v.uuid == item.uuid
    && v.cpuType == item.cpuType && v.cpuSubtype == item.cpuSubtype
    && v.filetype == filetype && v.endian == Little && v.offset == start && v.size == size
    && v.sections == SectionsOf(start, l.placed)
    && v.segments == [Segment(TEXT, text.vmaddr, text.vmsize, 0, 0),
                      Segment(DWARF, 0, |l.payload|, DataOffset(|l.placed|), |l.payload|)]
    && (v.hasExecutableText <==> exists k :: 0 <= k < |l.placed| && l.placed[k].name == TEXT_SECTION)
    && ((exists k :: 0 <= k < |l.placed| && l.placed[k].name == DEBUG_INFO) ==> v.hasDebugInfo)
    && ((exists k :: 0 <= k < |l.placed| && l.placed[k].name == DEBUG_LINE) ==> v.hasDebugLine)
  }

  ghost predicate Emittable(item: Slice, text: Segment, l: Layout) {
    && Packable(item, text, l)
    && ArchitectureOf(item.cpuType) == Some(item.architecture)
    && LaidOut(DataOffset(|l.placed|), l.payload, l.placed)
    && |l.payload| <= MAX_DEBUG_PAYLOAD
    && forall k :: 0 <= k < |l.placed| ==>
         NameFits(l.placed[k].name)
             && l.placed[k].offset + |l.placed[k].contents| <= DataOffset(|l.placed|) + |l.payload|
  }

  lemma Extent(data: seq<byte>, off: nat, piece: seq<byte>)
    requires At(data, off, piece)
    ensures off + |piece| <= |data|
  {
  }

  lemma SegmentNamesFit()
    ensures NameFits(TEXT) && NameFits(DWARF) && NameFits(TEXT_SECTION)
  {
  }

  lemma NoSections(data: seq<byte>, start: nat, at: nat, fileStart: nat, fileSize: nat, s: Scan)
    requires at <= |data|
    ensures ReadSections(data, start, Little, true, at, 0, fileStart, fileSize, s) == Ok(s)
  {
  }

  /** The pieces of an emitted image stand where the load commands say. */
  lemma {:induction false} ImagePieces(data: seq<byte>, start: nat, filetype: nat, item: Slice, text: Segment,
                                       l: Layout)
    requires Packable(item, text, l) && At(data, start, SliceBytes(filetype, item, text, l))
    ensures var n := |l.placed|;
      && |SliceBytes(filetype, item, text, l)| == DataOffset(n) + |l.payload|
      && start + DataOffset(n) + |l.payload| <= |data|
      && 200 + 80 * n <= DataOffset(n) < 208 + 80 * n
      && At(data, start, HeaderBytes(filetype, item.cpuType, item.cpuSubtype, CommandSize(n)))
      && At(data, start + 32, UuidCommand24(item.uuid))
      && At(data, start + 56, SegmentCommand(72, TEXT, text.vmaddr, text.vmsize, 0, 0, 0))
      && At(data, start + 128, SegmentCommand(72 + n * 80, DWARF, 0, |l.payload|, DataOffset(n), |l.payload|, n))
      && At(data, start + 200, SectionRecords(l.placed))
      && At(data, start + 200 + 80 * n, Zeros(DataOffset(n) - (200 + 80 * n)))
      && At(data, start + DataOffset(n), l.payload)
  {
    hide HeaderBytes, UuidCommand24, SegmentCommand, SectionRecords, At, AlignUp;
    var n := |l.placed|;
    AlignUpMeans(32 + CommandSize(n), 3);
    Extent(data, start, SliceBytes(filetype, item, text, l));
    assert Pow2(3) == 8;
    var f6 := Zeros(DataOffset(n) - (32 + CommandSize(n))) + l.payload;
    var f5 := SectionRecords(l.placed) + f6;
    var f4 := SegmentCommand(72 + n * 80, DWARF, 0, |l.payload|, DataOffset(n), |l.payload|, n) + f5;
    var f3 := SegmentCommand(72, TEXT, text.vmaddr, text.vmsize, 0, 0, 0) + f4;
    var f2 := UuidCommand24(item.uuid) + f3;
    AtSplit(data, start, HeaderBytes(filetype, item.cpuType, item.cpuSubtype, CommandSize(n)), f2);
    AtSplit(data, start + 32, UuidCommand24(item.uuid), f3);
    AtSplit(data, start + 56, SegmentCommand(72, TEXT, text.vmaddr, text.vmsize, 0, 0, 0), f4);
    AtSplit(data, start + 128, SegmentCommand(72 + n * 80, DWARF, 0, |l.payload|, DataOffset(n), |l.payload|, n), f5);
    AtSplit(data, start + 200, SectionRecords(l.placed), f6);
    AtSplit(data, start + 200 + 80 * n, Zeros(DataOffset(n) - (32 + CommandSize(n))), l.payload);
  }

  lemma {:induction false} RecordsStand(data: seq<byte>, at: nat, placed: seq<Placed>)
    requires At(data, at, SectionRecords(placed))
    ensures forall k :: 0 <= k < |placed| ==> At(data, at + 80 * k, SectionRecord(placed[k]))
  {
    hide SectionRecord, At;
    if placed != [] {
      var n := |placed| - 1;
      AtSplit(data, at, SectionRecords(placed[..n]), SectionRecord(placed[n]));
      RecordsStand(data, at, placed[..n]);
    }
  }

  lemma {:induction false} ImageReads(data: seq<byte>, start: nat, filetype: nat, item: Slice, text: Segment, l: Layout)
    requires Emittable(item, text, l) && filetype in {1, 2, 6, 8, 10}
        && At(data, start, SliceBytes(filetype, item, text, l))
    ensures var size := |SliceBytes(filetype, item, text, l)|;
      var r := Thin(data, start, size);
      r.Ok? && Describes(r.value, filetype, item, text, l, start, size)
  {
    hide SliceBytes, HeaderBytes, UuidCommand24, SegmentCommand, SectionRecords, SectionRecord, At, AlignUp,
        ReadCommand,
         ReadCommands, ReadSections, ReadHeader, Absorbed, Summary, Describes, U, NameFits;
    var n, size := |l.placed|, |SliceBytes(filetype, item, text, l)|;
    var stop := start + 32 + CommandSize(n);
    ImagePieces(data, start, filetype, item, text, l);
    SegmentNamesFit();
    HeaderReads(data, start, size, filetype, item.cpuType, item.cpuSubtype, CommandSize(n));
    var h := ReadHeader(data, start, size).value;
    var s0 := ScanFrom(start + 32);
    UuidStep(data, start, size, stop, item.uuid, s0);
    var s1 := s0.(identifiers := {item.uuid}, cursor := start + 56);
    assert s0.identifiers + {item.uuid} == {item.uuid};
    SegmentStep(data, start, size, stop, TEXT, text.vmaddr, text.vmsize, 0, 0, 0, s1);
    NoSections(data, start, start + 128, 0, 0, s1.(segments := [Segment(TEXT, text.vmaddr, text.vmsize, 0, 0)]));
    assert [] + [Segment(TEXT, text.vmaddr, text.vmsize, 0, 0)] == [Segment(TEXT, text.vmaddr, text.vmsize, 0, 0)];
    var s2 := s1.(segments := [Segment(TEXT, text.vmaddr, text.vmsize, 0, 0)], cursor := start + 128);
    SegmentStep(data, start, size, stop, DWARF, 0, |l.payload|, DataOffset(n), |l.payload|, n, s2);
    var named := s2.(segments := s2.segments + [Segment(DWARF, 0, |l.payload|, DataOffset(n), |l.payload|)]);
    RecordsStand(data, start + 200, l.placed);
    SectionsAbsorb(data, start, start + 200, l.placed, DataOffset(n), |l.payload|, named);
    var read := ReadSections(data, start, Little, true, start + 200, n, DataOffset(n), |l.payload|, named).value;
    ThreeCommands(data, start, size, stop, s0, s1, s2, read.(cursor := stop));
    SummaryDescribes(h, filetype, item, text, l, start, size, named, read);
  }

  lemma ThreeCommands(data: seq<byte>, start: nat, size: nat, stop: nat, s0: Scan, s1: Scan, s2: Scan, s3: Scan)
    requires stop <= start + size <= |data|
    requires ReadCommand(data, start, size, stop, Little, true, s0) == Ok(s1)
    requires ReadCommand(data, start, size, stop, Little, true, s1) == Ok(s2)
    requires ReadCommand(data, start, size, stop, Little, true, s2) == Ok(s3)
    ensures ReadCommands(data, start, size, stop, Little, true, 3, s0) == Ok(s3)
  {
    hide ReadCommand;
    assert ReadCommands(data, start, size, stop, Little, true, 0, s3) == Ok(s3);
    assert ReadCommands(data, start, size, stop, Little, true, 1, s2) == Ok(s3);
    assert ReadCommands(data, start, size, stop, Little, true, 2, s1) == Ok(s3);
  }

  lemma SummaryDescribes(h: Header, filetype: nat, item: Slice, text: Segment, l: Layout, start: nat, size: nat,
                         named: Scan, read: Scan)
    requires Absorbed(start, l.placed, named, read)
    requires named.identifiers == {item.uuid} && named.sections == [] && !named.executable
    requires named.segments == [Segment(TEXT, text.vmaddr, text.vmsize, 0, 0),
                                Segment(DWARF, 0, |l.payload|, DataOffset(|l.placed|), |l.payload|)]
    requires h == Header(Little, true, item.cpuType, item.cpuSubtype, filetype, item.architecture, 3, h.stop)
    ensures var r := Summary(h, start, size, read.(cursor := h.stop));
      r.Ok? && Describes(r.value, filetype, item, text, l, start, size)
  {
    hide EncodeAscii;
    assert read.identifiers == {item.uuid};
    assert UuidOf(read.identifiers) == item.uuid;
  }

  ghost predicate BlankSection(data: seq<byte>, at: nat) {
    Blank(data, at + 56) && Blank(data, at + 60) && Blank(data, at + 68) && Blank(data, at + 72) && Blank(data, at + 76)
  }

  /** The load commands of an image with this many sections say nothing but what the reader reports. */
  ghost predicate BlankElsewhere(data: seq<byte>, start: nat, count: nat) {
    && Blank(data, start + 24) && Blank(data, start + 28)
    && Blank(data, start + 112) && Blank(data, start + 116) && Blank(data, start + 124)
    && Blank(data, start + 184) && Blank(data, start + 188) && Blank(data, start + 196)
    && forall k :: 0 <= k < count ==> BlankSection(data, start + 200 + 80 * k)
  }

  lemma ImageBlanks(data: seq<byte>, start: nat, filetype: nat, item: Slice, text: Segment, l: Layout)
    requires Packable(item, text, l) && At(data, start, SliceBytes(filetype, item, text, l))
    ensures BlankElsewhere(data, start, |l.placed|)
  {
    hide SliceBytes, HeaderBytes, SegmentCommand, SectionRecords, SectionRecord, At, AlignUp, Blank, DataOffset;
    var n := |l.placed|;
    ImagePieces(data, start, filetype, item, text, l);
    HeaderBlanks(data, start, filetype, item.cpuType, item.cpuSubtype, CommandSize(n));
    SegmentBlanks(data, start + 56, 72, TEXT, text.vmaddr, text.vmsize, 0, 0, 0);
    SegmentBlanks(data, start + 128, 72 + n * 80, DWARF, 0, |l.payload|, DataOffset(n), |l.payload|, n);
    RecordsStand(data, start + 200, l.placed);
    forall k | 0 <= k < n ensures BlankSection(data, start + 200 + 80 * k) {
      SectionBlanks(data, start + 200 + 80 * k, l.placed[k]);
    }
  }
}
