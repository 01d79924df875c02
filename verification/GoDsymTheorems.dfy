/** The whole path: read a source image, emit its debug image, read that back. */
module GoDsymTheorems {
  import opened Bytes
  import opened SentryMacho
  import opened GoDsym
  import opened GoDsymRoundTrip
  import opened MachoGuarantees

  // ----- Layout -----

  lemma AtGrows(data: seq<byte>, off: nat, piece: seq<byte>, more: seq<byte>)
    requires At(data, off, piece)
    ensures At(data + more, off, piece)
  {
    assert (data + more)[off..off + |piece|] == data[off..off + |piece|];
  }

  lemma AtEnd(data: seq<byte>, piece: seq<byte>)
    ensures At(data + piece, |data|, piece)
  {
  }

  ghost predicate Tidy(dataOffset: nat, l: Layout) {
    && LaidOut(dataOffset, l.payload, l.placed)
    && |l.payload| <= MAX_DEBUG_PAYLOAD
    && forall k :: 0 <= k < |l.placed| ==> l.placed[k].offset + |l.placed[k].contents| <= dataOffset + |l.payload|
  }

  ghost predicate Covered(placed: seq<Placed>, position: nat) {
    exists k :: 0 <= k < |placed| && placed[k].offset <= position < placed[k].offset + |placed[k].contents|
  }

  /** Where the first n placed sections end. */
  function EndOf(dataOffset: nat, placed: seq<Placed>, n: nat): nat
    requires n <= |placed|
  {
    if n == 0 then dataOffset else placed[n - 1].offset + |placed[n - 1].contents|
  }

  /** Nothing is wasted and nothing else is written: every section starts at the first aligned place after the one
      before it, the payload ends with the last one, and only zeros stand between them. */
  ghost predicate Compact(dataOffset: nat, l: Layout) {
    && dataOffset + |l.payload| == EndOf(dataOffset, l.placed, |l.placed|)
    && (forall k :: 0 <= k < |l.placed| ==>
          l.placed[k].offset < EndOf(dataOffset, l.placed, k) + Pow2(l.placed[k].alignment))
    && (forall i :: 0 <= i < |l.payload| && l.payload[i] != 0 ==> Covered(l.placed, dataOffset + i))
  }

  lemma CoveredGrows(placed: seq<Placed>, p: Placed, position: nat)
    ensures Covered(placed + [p], position)
        <==> Covered(placed, position) || p.offset <= position < p.offset + |p.contents|
  {
    var all := placed + [p];
    assert all[|placed|] == p;
    assert forall k :: 0 <= k < |placed| ==> all[k] == placed[k];
  }

  lemma EndsGrow(dataOffset: nat, placed: seq<Placed>, p: Placed, k: nat)
    requires k <= |placed|
    ensures EndOf(dataOffset, placed + [p], k) == EndOf(dataOffset, placed, k)
  {
  }

  lemma CompactGrows(dataOffset: nat, l: Layout, pad: seq<byte>, p: Placed)
    requires Compact(dataOffset, l) && p.offset == dataOffset + |l.payload| + |pad|
    requires |pad| < Pow2(p.alignment) && forall i :: 0 <= i < |pad| ==> pad[i] == 0
    ensures Compact(dataOffset, Layout(l.payload + pad + p.contents, l.placed + [p]))
  {
    hide Pow2, Covered, EndOf;
    var placed, payload := l.placed + [p], l.payload + pad + p.contents;
    CoverGrows(dataOffset, l, pad, p);
    forall k | 0 <= k < |placed| ensures placed[k].offset < EndOf(dataOffset, placed, k) + Pow2(placed[k].alignment) {
      EndsGrow(dataOffset, l.placed, p, k);
    }
    LastEnds(dataOffset, placed);
  }

  lemma LastEnds(dataOffset: nat, placed: seq<Placed>)
    requires placed != []
    ensures var last := placed[|placed| - 1]; EndOf(dataOffset, placed, |placed|) == last.offset + |last.contents|
  {
  }

  lemma CoverGrows(dataOffset: nat, l: Layout, pad: seq<byte>, p: Placed)
    requires forall i :: 0 <= i < |l.payload| && l.payload[i] != 0 ==> Covered(l.placed, dataOffset + i)
    requires p.offset == dataOffset + |l.payload| + |pad| && forall i :: 0 <= i < |pad| ==> pad[i] == 0
    ensures var payload := l.payload + pad + p.contents;
      forall i :: 0 <= i < |payload| && payload[i] != 0 ==> Covered(l.placed + [p], dataOffset + i)
  {
    hide Covered;
    var payload := l.payload + pad + p.contents;
    forall i | 0 <= i < |payload| ensures payload[i] == 0 || Covered(l.placed + [p], dataOffset + i) {
      CoveredGrows(l.placed, p, dataOffset + i);
    }
  }

  /** The name and bytes under which a section is copied: its own, or what the zlib stream behind a GNU header expands
      to, which must be exactly as long as that header says and end where the section does. */
  ghost predicate Unpacks(inflate: Inflate, source: seq<byte>, from: Section, name: string, contents: seq<byte>) {
    && from.offset + from.size <= |source|
    && var own := source[from.offset..from.offset + from.size];
      if "__zdebug_" <= from.name then
        && name == "__debug_" + from.name[9..]
        && |own| >= 12 && own[..4] == [0x5a, 0x4c, 0x49, 0x42]
        && var length := U(Big, own, 4, 8);
          0 < length == |contents| <= 0x2000_0000 && inflate(own[12..], length + 1) == Inflated(contents, true, false)
      else
        name == from.name && contents == own
  }

  lemma MaterializeMeans(inflate: Inflate, source: seq<byte>, section: Section, name: string, contents: seq<byte>)
    requires section.size > 0
    ensures Materialize(inflate, source, section) == Ok((name, contents))
        <==> Unpacks(inflate, source, section, name, contents)
    ensures Unpacks(inflate, source, section, name, contents) ==> contents != []
  {
    hide U;
  }

  lemma {:induction false} PlaceOne(inflate: Inflate, source: seq<byte>, dataOffset: nat, section: Section, l: Layout)
    requires Tidy(dataOffset, l) && Compact(dataOffset, l) && section.size > 0
    ensures var r := PlaceSection(inflate, source, dataOffset, section, l);
      r.Ok? ==>
        && Tidy(dataOffset, r.value) && Compact(dataOffset, r.value)
        && |r.value.placed| == |l.placed| + 1 && r.value.placed[..|l.placed|] == l.placed
        && var p := r.value.placed[|l.placed|];
          Unpacks(inflate, source, section, p.name, p.contents) && IsAscii(p.name)
          && p.alignment == (if section.align < 16 then section.align else 16)
  {
    hide Materialize, Unpacks, AlignUp, IsAscii, At, Pow2, Compact;
    var r := PlaceSection(inflate, source, dataOffset, section, l);
    if r.Ok? {
      var made := Materialize(inflate, source, section).value;
      MaterializeMeans(inflate, source, section, made.0, made.1);
      var alignment := Min(section.align, 16);
      var cursor := dataOffset + |l.payload|;
      AlignUpMeans(cursor, alignment);
      var pad := Zeros(AlignUp(cursor, alignment) - cursor);
      var p := r.value.placed[|l.placed|];
      forall k | 0 <= k < |l.placed|
        ensures At(r.value.payload, l.placed[k].offset - dataOffset, l.placed[k].contents) {
        AtGrows(l.payload, l.placed[k].offset - dataOffset, l.placed[k].contents, pad + p.contents);
        assert l.payload + (pad + p.contents) == r.value.payload;
      }
      AtEnd(l.payload + pad, p.contents);
      CompactGrows(dataOffset, l, pad, p);
      assert r.value == Layout(l.payload + pad + p.contents, l.placed + [p]);
    }
  }

  /** Every selected section is placed, in order, with the name and bytes it unpacks to. */
  ghost predicate Places(inflate: Inflate, source: seq<byte>, sections: seq<Section>, placed: seq<Placed>) {
    && |placed| == |sections|
    && forall k :: 0 <= k < |sections| ==>
         Unpacks(inflate, source, sections[k], placed[k].name, placed[k].contents)
         && IsAscii(placed[k].name) && placed[k].alignment == (if sections[k].align < 16 then sections[k].align else 16)
  }

  lemma {:induction false} PlacesAll(inflate: Inflate, source: seq<byte>, dataOffset: nat, done: seq<Section>,
                                     sections: seq<Section>, l: Layout)
    requires Tidy(dataOffset, l) && Compact(dataOffset, l) && Places(inflate, source, done, l.placed)
    requires forall k :: 0 <= k < |sections| ==> sections[k].size > 0
    ensures var r := PlaceAll(inflate, source, dataOffset, sections, l);
      r.Ok? ==>
        && Tidy(dataOffset, r.value) && Compact(dataOffset, r.value)
        && Places(inflate, source, done + sections, r.value.placed)
    decreases |sections|
  {
    hide Unpacks, PlaceSection, Tidy, Compact, IsAscii;
    if sections == [] {
      assert done + sections == done;
    } else {
      PlaceOne(inflate, source, dataOffset, sections[0], l);
      var next := PlaceSection(inflate, source, dataOffset, sections[0], l);
      if next.Ok? {
        forall k | 0 <= k < |done| ensures next.value.placed[k] == l.placed[k] {
          assert next.value.placed[..|l.placed|][k] == l.placed[k];
        }
        PlacesAll(inflate, source, dataOffset, done + [sections[0]], sections[1..], next.value);
        assert done + [sections[0]] + sections[1..] == done + sections;
      }
    }
  }

  // ----- One image, from source to reader -----

  lemma {:induction false} Selected(sections: seq<Section>)
    ensures forall k :: 0 <= k < |DwarfSections(sections)| ==>
              DwarfSections(sections)[k] in sections && DwarfSections(sections)[k].hasContents
              && DwarfSections(sections)[k].segment == DWARF
    ensures forall s | s in sections && s.segment == DWARF && s.hasContents :: s in DwarfSections(sections)
  {
    if sections != [] {
      Selected(sections[1..]);
      assert sections == [sections[0]] + sections[1..];
    }
  }

  ghost predicate IsPresentDwarf(s: Section) { s.segment == "__DWARF" && s.hasContents }

  /** picked are the elements of all at these positions, which are those of the DWARF sections present in the file. */
  ghost predicate PicksAt(all: seq<Section>, picked: seq<Section>, at: seq<nat>) {
    && |at| == |picked| && (forall k :: 0 <= k < |at| ==> at[k] < |all| && picked[k] == all[at[k]])
    && (forall j, k :: 0 <= j < k < |at| ==> at[j] < at[k])
    && (forall i :: 0 <= i < |all| ==> (i in at <==> IsPresentDwarf(all[i])))
  }

  function Shifted(at: seq<nat>): seq<nat> {
    seq(|at|, k requires 0 <= k < |at| => at[k] + 1)
  }

  lemma ShiftedHolds(at: seq<nat>, i: nat)
    ensures i in Shifted(at) <==> i > 0 && i - 1 in at
  {
    if i > 0 && i - 1 in at {
      var k :| 0 <= k < |at| && at[k] == i - 1;
      assert Shifted(at)[k] == i;
    }
  }

  lemma PassesOver(first: Section, rest: seq<Section>, picked: seq<Section>, at: seq<nat>)
    requires PicksAt(rest, picked, at) && !IsPresentDwarf(first)
    ensures PicksAt([first] + rest, picked, Shifted(at))
  {
    hide IsPresentDwarf, Shifted;
    var all, shifted := [first] + rest, Shifted(at);
    ShiftedIs(at);
    forall i | 0 <= i < |all| ensures i in shifted <==> IsPresentDwarf(all[i]) {
      ShiftedHolds(at, i);
      assert i > 0 ==> all[i] == rest[i - 1];
    }
    forall k | 0 <= k < |shifted| ensures shifted[k] < |all| && picked[k] == all[shifted[k]] {
      assert shifted[k] == at[k] + 1;
    }
    forall j, k | 0 <= j < k < |shifted| ensures shifted[j] < shifted[k] {
      assert shifted[j] == at[j] + 1 && shifted[k] == at[k] + 1;
    }
  }

  lemma PicksFirst(first: Section, rest: seq<Section>, picked: seq<Section>, at: seq<nat>)
    requires PicksAt(rest, picked, at) && IsPresentDwarf(first)
    ensures PicksAt([first] + rest, [first] + picked, [0] + Shifted(at))
  {
    hide IsPresentDwarf, Shifted;
    var all, places, shifted := [first] + rest, [0] + Shifted(at), Shifted(at);
    ShiftedIs(at);
    forall i | 0 <= i < |all| ensures i in places <==> IsPresentDwarf(all[i]) {
      ZeroOr(shifted, i);
      ShiftedHolds(at, i);
      assert i > 0 ==> all[i] == rest[i - 1];
    }
    forall k | 0 <= k < |places| ensures places[k] < |all| && ([first] + picked)[k] == all[places[k]] {
      assert k > 0 ==> places[k] == at[k - 1] + 1;
    }
    forall j, k | 0 <= j < k < |places| ensures places[j] < places[k] {
      assert places[k] == at[k - 1] + 1 && (j > 0 ==> places[j] == at[j - 1] + 1);
    }
  }

  lemma ShiftedIs(at: seq<nat>)
    ensures |Shifted(at)| == |at| && forall k :: 0 <= k < |at| ==> Shifted(at)[k] == at[k] + 1
  {
  }

  lemma ZeroOr(at: seq<nat>, i: nat)
    ensures i in [0] + at <==> i == 0 || i in at
  {
  }

  /** The copied sections are the DWARF sections present in the file, all of them and in their order. */
  lemma {:induction false} SelectedInOrder(sections: seq<Section>) returns (at: seq<nat>)
    ensures PicksAt(sections, DwarfSections(sections), at)
  {
    hide PicksAt, Shifted;
    if sections == [] {
      at := [];
      NothingToPick();
    } else {
      at := SelectedInOrder(sections[1..]);
      if IsPresentDwarf(sections[0]) {
        PicksFirst(sections[0], sections[1..], DwarfSections(sections[1..]), at);
      } else {
        PassesOver(sections[0], sections[1..], DwarfSections(sections[1..]), at);
      }
      assert [sections[0]] + sections[1..] == sections;
      assert [] + DwarfSections(sections[1..]) == DwarfSections(sections[1..]);
      at := if IsPresentDwarf(sections[0]) then [0] + Shifted(at) else Shifted(at);
    }
  }

  lemma NothingToPick()
    ensures PicksAt([], [], [])
  {
  }

  function PlacingOf(inflate: Inflate, source: seq<byte>, item: Slice): Result<Layout, PrepError> {
    var sections := DwarfSections(item.sections);
    PlaceAll(inflate, source, DataOffset(|sections|), sections, Layout([], []))
  }

  /** The name a source section is copied under. */
  function CopiedName(name: string): string {
    if "__zdebug_" <= name then "__debug_" + name[9..] else name
  }

  lemma UnpackedName(inflate: Inflate, source: seq<byte>, section: Section, copiedName: string, contents: seq<byte>)
    requires NameShape(section.name) && Unpacks(inflate, source, section, copiedName, contents)
    ensures copiedName == CopiedName(section.name) && NameShape(copiedName)
  {
    hide U;
    var name := section.name;
    var copied := DEBUG + name[if |name| < |ZDEBUG| then 0 else |ZDEBUG|..];
    assert |name| > |ZDEBUG| ==> copied[|copied| - 1] == name[|name| - 1];
  }

  lemma CopiedText(name: string)
    ensures CopiedName(name) == TEXT_SECTION <==> name == TEXT_SECTION
  {
    if ZDEBUG <= name {
      var copied := DEBUG + name[|ZDEBUG|..];
      assert copied[2] == 'd' && TEXT_SECTION[2] == 't';
      assert name[2] == ZDEBUG[2] == 'z';
    }
  }

  lemma CopiedDebugNames()
    ensures CopiedName(DEBUG_INFO) == CopiedName(ZDEBUG_INFO) == DEBUG_INFO
    ensures CopiedName(DEBUG_LINE) == CopiedName(ZDEBUG_LINE) == DEBUG_LINE
  {
    assert ZDEBUG_INFO[..|ZDEBUG|] == ZDEBUG && ZDEBUG_LINE[..|ZDEBUG|] == ZDEBUG;
    assert DEBUG + ZDEBUG_INFO[|ZDEBUG|..] == DEBUG_INFO && DEBUG + ZDEBUG_LINE[|ZDEBUG|..] == DEBUG_LINE;
    assert DEBUG_INFO[2] != ZDEBUG[2] && DEBUG_LINE[2] != ZDEBUG[2];
    assert DEBUG_INFO[..|ZDEBUG|][2] != ZDEBUG[2] && DEBUG_LINE[..|ZDEBUG|][2] != ZDEBUG[2];
  }

  predicate SelectsText(item: Slice) {
    exists k :: 0 <= k < |DwarfSections(item.sections)| && DwarfSections(item.sections)[k].name == TEXT_SECTION
  }

  ghost predicate NamesCarried(sections: seq<Section>, placed: seq<Placed>) {
    |placed| == |sections| && forall k :: 0 <= k < |sections| ==> placed[k].name == CopiedName(sections[k].name)
  }

  ghost predicate HasName(placed: seq<Placed>, name: string) {
    exists k :: 0 <= k < |placed| && placed[k].name == name
  }

  lemma PlacingShape(inflate: Inflate, source: seq<byte>, item: Slice)
    requires SliceShape(item, |source|) && PlacingOf(inflate, source, item).Ok?
    ensures var l := PlacingOf(inflate, source, item).value;
      var sections := DwarfSections(item.sections);
      && Tidy(DataOffset(|sections|), l) && Compact(DataOffset(|sections|), l)
      && Places(inflate, source, sections, l.placed)
      && NamesCarried(sections, l.placed)
      && (forall k :: 0 <= k < |sections| ==> NameFits(l.placed[k].name))
  {
    hide Unpacks, DwarfSections, PlaceAll, CopiedName, IsAscii, NameShape, Tidy, Compact, NameFits, AlignUp;
    var sections := DwarfSections(item.sections);
    var l := PlacingOf(inflate, source, item).value;
    Selected(item.sections);
    assert forall k :: 0 <= k < |sections| ==> SectionShape(sections[k], |source|);
    EmptyIsTidy(DataOffset(|sections|));
    PlacesAll(inflate, source, DataOffset(|sections|), [], sections, Layout([], []));
    assert [] + sections == sections;
    forall k | 0 <= k < |sections|
      ensures NameFits(l.placed[k].name) && l.placed[k].name == CopiedName(sections[k].name)
    {
      UnpackedName(inflate, source, sections[k], l.placed[k].name, l.placed[k].contents);
      NameFitsWhen(l.placed[k].name);
    }
  }

  lemma EmptyIsTidy(dataOffset: nat)
    ensures Tidy(dataOffset, Layout([], [])) && Compact(dataOffset, Layout([], []))
  {
  }

  /** The names that matter survive the copy, and __text does not arise by it. */
  lemma NamesMatter(item: Slice, placed: seq<Placed>, sourceSize: nat)
    requires SliceShape(item, sourceSize) && NamesCarried(DwarfSections(item.sections), placed)
    ensures SelectsText(item) <==> HasName(placed, TEXT_SECTION)
    ensures item.hasDebugInfo ==> HasName(placed, DEBUG_INFO)
    ensures item.hasDebugLine ==> HasName(placed, DEBUG_LINE)
  {
    hide DwarfSections, CopiedName, NameShape;
    var sections := DwarfSections(item.sections);
    Selected(item.sections);
    CopiedDebugNames();
    forall k | 0 <= k < |sections| ensures placed[k].name == TEXT_SECTION <==> sections[k].name == TEXT_SECTION {
      CopiedText(sections[k].name);
    }
    forall k | 0 <= k < |item.sections| && item.sections[k].hasContents && item.sections[k].segment == DWARF
      ensures HasName(placed, CopiedName(item.sections[k].name))
    {
      assert item.sections[k] in sections;
    }
  }

  lemma NameFitsWhen(name: string)
    requires IsAscii(name) && NameShape(name)
    ensures NameFits(name)
  {
  }

  /** The first __TEXT segment of a source image. */
  ghost predicate FirstTextAt(segments: seq<Segment>, j: nat) {
    && j < |segments| && segments[j].name == "__TEXT"
    && forall i :: 0 <= i < j ==> segments[i].name != "__TEXT"
  }

  lemma {:induction false} FirstTextMeans(segments: seq<Segment>)
    ensures FirstText(segments).Some? <==> exists j: nat :: FirstTextAt(segments, j)
    ensures forall j: nat :: FirstTextAt(segments, j) ==> FirstText(segments) == Some(segments[j])
  {
    if segments != [] {
      FirstTextMeans(segments[1..]);
      assert forall i :: 1 <= i < |segments| ==> segments[i] == segments[1..][i - 1];
      assert segments[0].name == "__TEXT" ==> FirstTextAt(segments, 0);
      forall j: nat | FirstTextAt(segments[1..], j) && segments[0].name != "__TEXT"
        ensures FirstTextAt(segments, j + 1) {}
      forall j: nat | FirstTextAt(segments, j) && j > 0 ensures FirstTextAt(segments[1..], j - 1) {}
    }
  }

  /** v is a debug-only copy of item inside data: same identity and text base, every DWARF section byte for byte, and
      nothing but zeros around them. */
  ghost predicate Copies(inflate: Inflate, source: seq<byte>, item: Slice, data: seq<byte>, v: Slice) {
    var selected := DwarfSections(item.sections);
    && v.architecture == item.architecture && v.uuid == item.uuid
    && v.cpuType == item.cpuType && v.cpuSubtype == item.cpuSubtype
    && v.filetype == 10 && v.hasDebugInfo && v.hasDebugLine
    && (v.hasExecutableText <==> SelectsText(item))
    && |v.sections| == |selected|
    && (forall k :: 0 <= k < |selected| ==> CopiesSection(inflate, source, selected[k], data, v.offset, v.sections[k]))
    && (forall j, k :: 0 <= j < k < |selected| ==> v.sections[j].offset + v.sections[j].size <= v.sections[k].offset)
    && KeepsTextBase(item, v) && OnlySections(data, v) && BlankElsewhere(data, v.offset, |v.sections|)
  }

  ghost predicate CopiesSection(inflate: Inflate, source: seq<byte>, from: Section, data: seq<byte>, start: nat,
                                to: Section) {
    && start <= to.offset && to.offset + to.size <= |data| && to.hasContents && to.segment == "__DWARF"
    && (to.offset - start) % Pow2(to.align) == 0 && to.align == (if from.align < 16 then from.align else 16)
    && to.flags == 0x0200_0000 && to.addr == 0
    && Unpacks(inflate, source, from, to.name, data[to.offset..to.offset + to.size])
  }

  /** Addresses are kept: an empty __TEXT segment where the first one of the source was mapped. */
  ghost predicate KeepsTextBase(item: Slice, v: Slice) {
    && |v.segments| == 2 && v.segments[1].name == "__DWARF" && v.segments[1].vmaddr == 0
    && exists j: nat :: FirstTextAt(item.segments, j)
         && v.segments[0] == Segment("__TEXT", item.segments[j].vmaddr, item.segments[j].vmsize, 0, 0)
  }

  ghost predicate InSection(sections: seq<Section>, position: nat) {
    exists k :: 0 <= k < |sections| && sections[k].offset <= position < sections[k].offset + sections[k].size
  }

  /** No other byte of the source survives: the image ends with the __DWARF segment, which starts at most seven bytes
      after the load commands and holds zeros wherever it holds no section. */
  ghost predicate OnlySections(data: seq<byte>, v: Slice) {
    && |v.segments| == 2 && v.offset + v.size <= |data|
    && v.segments[1].fileoff + v.segments[1].filesize == v.size && v.segments[1].filesize == v.segments[1].vmsize
    && 200 + 80 * |v.sections| <= v.segments[1].fileoff < 208 + 80 * |v.sections|
    && (forall i :: v.offset + 200 + 80 * |v.sections| <= i < v.offset + v.size && data[i] != 0 ==>
          InSection(v.sections, i))
  }

  /** A slice that was written is the image of its layout. */
  lemma SliceIsWritten(inflate: Inflate, source: seq<byte>, item: Slice)
    requires GoDebugSlice(inflate, source, item).Ok?
    ensures FirstText(item.segments).Some? && PlacingOf(inflate, source, item).Ok?
    ensures var text, l := FirstText(item.segments).value, PlacingOf(inflate, source, item).value;
      && |l.placed| == |DwarfSections(item.sections)| && Packable(item, text, l)
      && GoDebugSlice(inflate, source, item).value == SliceBytes(MH_DSYM, item, text, l)
  {
    hide DwarfSections, PlaceAll, SliceBytes, FirstText, DataOffset;
    PlacesEach(inflate, source, DataOffset(|DwarfSections(item.sections)|), DwarfSections(item.sections),
        Layout([], []));
  }

  lemma {:induction false} ImageDescribed(inflate: Inflate, source: seq<byte>, item: Slice, data: seq<byte>, start: nat)
    requires SliceShape(item, |source|) && GoDebugSlice(inflate, source, item).Ok?
    requires At(data, start, GoDebugSlice(inflate, source, item).value)
    ensures var raw := GoDebugSlice(inflate, source, item).value;
      var text := FirstText(item.segments);
      var placing := PlacingOf(inflate, source, item);
      var r := Thin(data, start, |raw|);
      && r.Ok? && text.Some? && placing.Ok?
      && |raw| > 0 && Describes(r.value, MH_DSYM, item, text.value, placing.value, start, |raw|)
      && |placing.value.placed| == |DwarfSections(item.sections)|
      && var n := |placing.value.placed|;
        && 200 + 80 * n <= DataOffset(n) < 208 + 80 * n
        && At(data, start + 200 + 80 * n, Zeros(DataOffset(n) - (200 + 80 * n)))
        && At(data, start + DataOffset(n), placing.value.payload)
        && |raw| == DataOffset(n) + |placing.value.payload| && start + |raw| <= |data|
  {
    hide PlacingOf, GoDebugSlice, Packable, DwarfSections, SliceBytes, At, FirstText, DataOffset, NameFits, SliceShape,
         Thin, Describes, Places, NamesCarried, LaidOut, Compact, Zeros, HeaderBytes, SegmentCommand, SectionRecords;
    SliceIsWritten(inflate, source, item);
    var l := PlacingOf(inflate, source, item).value;
    var text := FirstText(item.segments).value;
    PlacingShape(inflate, source, item);
    ShapeArchitecture(item, |source|);
    ImageReads(data, start, MH_DSYM, item, text, l);
    ImagePieces(data, start, MH_DSYM, item, text, l);
  }

  lemma {:induction false} ImageSaysNoMore(inflate: Inflate, source: seq<byte>, item: Slice, data: seq<byte>,
                                           start: nat)
    requires GoDebugSlice(inflate, source, item).Ok? && At(data, start, GoDebugSlice(inflate, source, item).value)
    ensures BlankElsewhere(data, start, |DwarfSections(item.sections)|)
  {
    hide GoDebugSlice, PlacingOf, Packable, DwarfSections, SliceBytes, At, FirstText, BlankElsewhere, DataOffset;
    SliceIsWritten(inflate, source, item);
    ImageBlanks(data, start, MH_DSYM, item, FirstText(item.segments).value, PlacingOf(inflate, source, item).value);
  }

  lemma {:induction false} ImageCopies(inflate: Inflate, source: seq<byte>, item: Slice, data: seq<byte>, start: nat)
    requires SliceShape(item, |source|) && GoDebugSlice(inflate, source, item).Ok?
    requires At(data, start, GoDebugSlice(inflate, source, item).value)
    ensures var raw := GoDebugSlice(inflate, source, item).value;
      var r := Thin(data, start, |raw|);
      && |raw| > 0 && r.Ok? && Copies(inflate, source, item, data, r.value)
      && r.value.architecture in {X86_64, Arm64} && |r.value.uuid| == 16
  {
    hide Unpacks, DwarfSections, PlaceAll, SliceBytes, At, U, FirstText, AlignUp, NameFits, SliceShape, Thin,
         CopiedName, Tidy, Places, CopiesSection, OnlySections, KeepsTextBase, Compact, Zeros, BlankElsewhere;
    var l := PlacingOf(inflate, source, item).value;
    ImageDescribed(inflate, source, item, data, start);
    ImageSaysNoMore(inflate, source, item, data, start);
    PlacingShape(inflate, source, item);
    NamesMatter(item, l.placed, |source|);
    var v := Thin(data, start, |GoDebugSlice(inflate, source, item).value|).value;
    ImageSections(inflate, source, DwarfSections(item.sections), data, start, l, v);
    TextIsKept(item, FirstText(item.segments).value, l, v);
    ImageZeros(data, start, l, v);
  }

  lemma ImageSections(inflate: Inflate, source: seq<byte>, selected: seq<Section>, data: seq<byte>, start: nat,
                      l: Layout, v: Slice)
    requires Tidy(DataOffset(|selected|), l) && Places(inflate, source, selected, l.placed)
    requires At(data, start + DataOffset(|l.placed|), l.payload) && v.sections == SectionsOf(start, l.placed)
    ensures |v.sections| == |selected|
    ensures forall k :: 0 <= k < |selected| ==> CopiesSection(inflate, source, selected[k], data, start, v.sections[k])
    ensures forall j, k :: 0 <= j < k < |selected| ==>
              v.sections[j].offset + v.sections[j].size <= v.sections[k].offset
  {
    hide At, AlignUp, DataOffset, Unpacks, Pow2;
    forall k | 0 <= k < |l.placed| ensures CopiesSection(inflate, source, selected[k], data, start, v.sections[k]) {
      var p := l.placed[k];
      AtWithin(data, start + DataOffset(|l.placed|), l.payload, p.offset - DataOffset(|l.placed|), p.contents);
      AtSlice(data, start + p.offset, p.contents);
    }
  }

  lemma TextIsKept(item: Slice, text: Segment, l: Layout, v: Slice)
    requires FirstText(item.segments) == Some(text)
    requires v.segments == [Segment(TEXT, text.vmaddr, text.vmsize, 0, 0),
                            Segment(DWARF, 0, |l.payload|, DataOffset(|l.placed|), |l.payload|)]
    ensures KeepsTextBase(item, v)
  {
    hide DataOffset;
    FirstTextMeans(item.segments);
  }

  lemma ZeroWithin(data: seq<byte>, off: nat, n: nat, i: nat)
    requires At(data, off, Zeros(n)) && off <= i < off + n
    ensures i < |data| && data[i] == 0
  {
    assert data[off..off + n][i - off] == 0;
  }

  lemma ImageZeros(data: seq<byte>, start: nat, l: Layout, v: Slice)
    requires var n := |l.placed|;
      && 200 + 80 * n <= DataOffset(n) < 208 + 80 * n && Compact(DataOffset(n), l)
      && At(data, start + 200 + 80 * n, Zeros(DataOffset(n) - (200 + 80 * n)))
      && At(data, start + DataOffset(n), l.payload)
      && v.offset == start && v.size == DataOffset(n) + |l.payload| && start + v.size <= |data|
      && v.sections == SectionsOf(start, l.placed) && |v.segments| == 2
      && v.segments[1] == Segment(DWARF, 0, |l.payload|, DataOffset(n), |l.payload|)
    ensures OnlySections(data, v)
  {
    hide AlignUp, DataOffset, Pow2, EndOf;
    var n := |l.placed|;
    forall i | start + 200 + 80 * n <= i < start + v.size ensures data[i] == 0 || InSection(v.sections, i) {
      if i < start + DataOffset(n) {
        ZeroWithin(data, start + 200 + 80 * n, DataOffset(n) - (200 + 80 * n), i);
      } else {
        var at := start + DataOffset(n);
        assert data[at..at + |l.payload|][i - at] == l.payload[i - at];
        if data[i] != 0 {
          assert Covered(l.placed, DataOffset(n) + (i - at));
          var k :| 0 <= k < n && l.placed[k].offset <= i - start < l.placed[k].offset + |l.placed[k].contents|;
          assert v.sections[k].offset <= i;
        }
      }
    }
  }

  lemma ShapeArchitecture(v: Slice, sourceSize: nat)
    requires SliceShape(v, sourceSize)
    ensures ArchitectureOf(v.cpuType) == Some(v.architecture)
  {
  }

  lemma AtSlice(data: seq<byte>, off: nat, piece: seq<byte>)
    requires At(data, off, piece)
    ensures off + |piece| <= |data| && data[off..off + |piece|] == piece
  {
  }

  // ----- The container -----

  /** The slices stand one after another, each on the first page boundary after what precedes it. */
  ghost predicate Spaced(content: seq<seq<byte>>, offsets: seq<nat>, cursor: nat) {
    && |offsets| == |content|
    && (forall i :: 0 <= i < |offsets| ==> cursor <= offsets[i] && offsets[i] % 4096 == 0)
    && (forall i, j :: 0 <= i < j < |offsets| ==> offsets[i] + |content[i]| <= offsets[j])
    && (offsets != [] ==> offsets[0] < cursor + 4096)
    && (forall i, j :: 0 <= i && j == i + 1 < |offsets| ==> offsets[j] < offsets[i] + |content[i]| + 4096)
  }

  lemma {:induction false} OffsetsSpaced(content: seq<seq<byte>>, cursor: nat)
    requires cursor % 4096 == 0
    ensures Spaced(content, Offsets(content, cursor), cursor)
    ensures content != [] ==> Offsets(content, cursor)[0] == cursor
  {
    if content != [] {
      hide AlignUp;
      AlignUpMeans(cursor + |content[0]|, 12);
      PageSize();
      OffsetsSpaced(content[1..], AlignUp(cursor + |content[0]|, 12));
    }
  }

  lemma PageSize()
    ensures Pow2(12) == 4096
  {
    assert Pow2(6) == 64;
    assert Pow2(8) == 4 * Pow2(6);
    assert Pow2(10) == 4 * Pow2(8);
    assert Pow2(12) == 4 * Pow2(10);
  }

  ghost predicate InPiece(content: seq<seq<byte>>, offsets: seq<nat>, n: nat, position: nat)
    requires n <= |content| == |offsets|
  {
    exists i :: 0 <= i < n && offsets[i] <= position < offsets[i] + |content[i]|
  }

  /** Appending keeps the header in front and puts each slice at its offset, with zeros between. */
  lemma {:induction false} SlicesStand(data: seq<byte>, content: seq<seq<byte>>, offsets: seq<nat>, n: nat)
    requires n <= |content| && Spaced(content, offsets, |data|)
    ensures var all := AppendSlices(data, content, offsets, n);
      && |all| == (if n == 0 then |data| else offsets[n - 1] + |content[n - 1]|)
      && At(all, 0, data)
      && (forall i :: 0 <= i < n ==> At(all, offsets[i], content[i]))
      && (forall j :: |data| <= j < |all| && all[j] != 0 ==> InPiece(content, offsets, n, j))
  {
    hide At, InPiece;
    if n == 0 {
      AtEnd([], data);
      assert [] + data == data;
    } else {
      SlicesStand(data, content, offsets, n - 1);
      var before := AppendSlices(data, content, offsets, n - 1);
      var pad := Zeros(offsets[n - 1] - |before|);
      var all := AppendSlices(data, content, offsets, n);
      assert all == before + (pad + content[n - 1]) == (before + pad) + content[n - 1];
      AtGrows(before, 0, data, pad + content[n - 1]);
      forall i | 0 <= i < n - 1 ensures At(all, offsets[i], content[i]) {
        AtGrows(before, offsets[i], content[i], pad + content[n - 1]);
      }
      AtEnd(before + pad, content[n - 1]);
      forall j | |data| <= j < |all| ensures all[j] == 0 || InPiece(content, offsets, n, j) {
        OnePieceMore(content, offsets, n, j);
        assert j < |before| ==> all[j] == before[j];
        assert |before| <= j < offsets[n - 1] ==> all[j] == 0;
      }
    }
  }

  lemma OnePieceMore(content: seq<seq<byte>>, offsets: seq<nat>, n: nat, position: nat)
    requires 0 < n <= |content| == |offsets|
    ensures InPiece(content, offsets, n, position) <==>
            InPiece(content, offsets, n - 1, position)
            || offsets[n - 1] <= position < offsets[n - 1] + |content[n - 1]|
  {
  }

  lemma {:induction false} FatRecordsStand(data: seq<byte>, items: seq<Slice>, content: seq<seq<byte>>,
                                           offsets: seq<nat>, n: nat)
    requires |items| == |content| == |offsets| && ContainerFits(items, content, offsets) && n <= |items|
    requires At(data, 0, FatHeader(items, content, offsets, n))
    ensures At(data, 0, Pack(Big, 4, 0xCAFE_BABE)) && At(data, 4, Pack(Big, 4, |items|))
    ensures forall i :: 0 <= i < n ==> At(data, 8 + 20 * i, FatRecord(items[i], offsets[i], |content[i]|))
  {
    hide FatRecord, At, Pack;
    if n == 0 {
      AtSplit(data, 0, Pack(Big, 4, 0xCAFE_BABE), Pack(Big, 4, |items|));
    } else {
      AtSplit(data, 0, FatHeader(items, content, offsets, n - 1),
          FatRecord(items[n - 1], offsets[n - 1], |content[n - 1]|));
      FatRecordsStand(data, items, content, offsets, n - 1);
    }
  }

  lemma FatRecordReads(data: seq<byte>, at: nat, item: Slice, offset: nat, size: nat)
    requires CpuFits(item.cpuType) && CpuFits(item.cpuSubtype) && offset < TWO_32 && size < TWO_32
    requires At(data, at, FatRecord(item, offset, size))
    ensures at + 20 <= |data|
    ensures UnpackFatEntry(data, Big, false, at) == FatEntry(item.cpuType, item.cpuSubtype, offset, size, 12)
  {
    hide U, Signed32;
    var f5 := Pack(Big, 4, 12);
    var f4 := Pack(Big, 4, size) + f5;
    var f3 := Pack(Big, 4, offset) + f4;
    var f2 := PackInt32(Big, item.cpuSubtype) + f3;
    AtSplit(data, at, PackInt32(Big, item.cpuType), f2);
    AtSplit(data, at + 4, PackInt32(Big, item.cpuSubtype), f3);
    AtSplit(data, at + 8, Pack(Big, 4, offset), f4);
    AtSplit(data, at + 12, Pack(Big, 4, size), f5);
    Pow256Values();
    ReadPackedInt32(Big, data, at, item.cpuType);
    ReadPackedInt32(Big, data, at + 4, item.cpuSubtype);
    ReadPacked(Big, data, at + 8, 4, offset);
    ReadPacked(Big, data, at + 12, 4, size);
    ReadPacked(Big, data, at + 16, 4, 12);
  }

  /** What both container readers need: the entry table, the spacing, and each slice readable where it stands. */
  ghost predicate Contains(data: seq<byte>, content: seq<seq<byte>>, offsets: seq<nat>, thins: seq<Slice>) {
    var n := |content|;
    && |thins| == |offsets| == n && 8 + 20 * n <= |data|
    && Spaced(content, offsets, 8 + 20 * n)
    && DistinctArchitectures(thins)
    && forall i :: 0 <= i < n ==>
         && content[i] != [] && offsets[i] + |content[i]| <= |data|
         && UnpackFatEntry(data, Big, false, 8 + 20 * i)
              == FatEntry(thins[i].cpuType, thins[i].cpuSubtype, offsets[i], |content[i]|, 12)
         && Thin(data, offsets[i], |content[i]|) == Ok(thins[i])
  }

  lemma {:induction false} FatReads(data: seq<byte>, content: seq<seq<byte>>, offsets: seq<nat>, thins: seq<Slice>,
                                    index: nat, ranges: seq<(nat, nat)>)
    requires Contains(data, content, offsets, thins) && index <= |content|
    requires ranges == seq(index, i requires 0 <= i < index => (offsets[i], offsets[i] + |content[i]|))
    ensures FatVariants(data, Big, false, |content|, index, thins[..index], ranges) == Ok(thins)
    decreases |content| - index
  {
    hide UnpackFatEntry, Thin, FatSlice, Contains;
    ContainsAsMany(data, content, offsets, thins);
    if index < |content| {
      FatTableIs(index, |content|);
      var next := (offsets[index], offsets[index] + |content[index]|);
      FatSliceReads(data, content, offsets, thins, index, ranges);
      FatReads(data, content, offsets, thins, index + 1, ranges + [next]);
      assert thins[..index] + [thins[index]] == thins[..index + 1];
    }
  }

  lemma ContainsAsMany(data: seq<byte>, content: seq<seq<byte>>, offsets: seq<nat>, thins: seq<Slice>)
    requires Contains(data, content, offsets, thins)
    ensures |thins| == |content| == |offsets| && 8 + FatTable(false, |content|) <= |data| && thins[..|content|] == thins
  {
    hide Thin, UnpackFatEntry;
    FatTableIs(0, |content|);
  }

  lemma FatTableIs(index: nat, count: nat)
    ensures FatTable(false, index) == 20 * index && FatTable(false, count) == 20 * count
  {
  }

  lemma FatSliceReads(data: seq<byte>, content: seq<seq<byte>>, offsets: seq<nat>, thins: seq<Slice>, index: nat,
                      ranges: seq<(nat, nat)>)
    requires Contains(data, content, offsets, thins) && index < |content|
    requires ranges == seq(index, i requires 0 <= i < index => (offsets[i], offsets[i] + |content[i]|))
    ensures var info := UnpackFatEntry(data, Big, false, 8 + 20 * index);
      && info.offset == offsets[index] && info.size == |content[index]|
      && FatSlice(data, 8 + 20 * |content|, info, thins[..index], ranges) == Ok(thins[index])
  {
    hide UnpackFatEntry, Thin;
    assert forall i :: 0 <= i < index ==> thins[..index][i].architecture != thins[index].architecture;
  }

  /** The stricter table reader agrees: alignments hold and no CPU is listed twice. */
  lemma {:induction false} FatEntriesRead(data: seq<byte>, content: seq<seq<byte>>, offsets: seq<nat>,
                                          thins: seq<Slice>, index: nat, accepted: seq<FatEntry>)
    requires Contains(data, content, offsets, thins) && index <= |content|
    requires forall i :: 0 <= i < |thins| ==> ArchitectureOf(thins[i].cpuType) == Some(thins[i].architecture)
    requires |accepted| == index && forall i :: 0 <= i < index ==>
               accepted[i] == FatEntry(thins[i].cpuType, thins[i].cpuSubtype, offsets[i], |content[i]|, 12)
    ensures FatEntriesFrom(data, Big, false, |content|, index, accepted).Ok?
    decreases |content| - index
  {
    hide UnpackFatEntry, Thin, ArchitectureOf;
    if index < |content| {
      assert FatTable(false, index) == 20 * index && FatTable(false, |content|) == 20 * |content|;
      PageSize();
      var info := UnpackFatEntry(data, Big, false, 8 + 20 * index);
      forall i | 0 <= i < index ensures CpuKey(accepted[i]) != CpuKey(info) {
        assert thins[i].architecture != thins[index].architecture;
      }
      FatEntriesRead(data, content, offsets, thins, index + 1, accepted + [info]);
    }
  }

  // ----- The theorems -----

  ghost predicate CopiesAll(inflate: Inflate, source: seq<byte>, items: seq<Slice>, data: seq<byte>,
                            variants: seq<Slice>) {
    |variants| == |items| && forall i :: 0 <= i < |items| ==>
      Copies(inflate, source, items[i], data, variants[i])
      && variants[i].architecture in {X86_64, Arm64} && |variants[i].uuid| == 16
  }

  lemma {:induction false} SlicesCopy(inflate: Inflate, source: seq<byte>, items: seq<Slice>, content: seq<seq<byte>>,
                                      data: seq<byte>, offsets: seq<nat>)
    returns (thins: seq<Slice>)
    requires VariantsShape(items, |source|) && SliceAll(inflate, source, items) == Ok(content)
    requires |offsets| == |content| && forall i :: 0 <= i < |content| ==> At(data, offsets[i], content[i])
    ensures CopiesAll(inflate, source, items, data, thins)
    ensures forall i :: 0 <= i < |items| ==> content[i] != [] && Thin(data, offsets[i], |content[i]|) == Ok(thins[i])
    ensures DistinctArchitectures(thins)
  {
    hide GoDebugSlice, SliceShape, Thin, Copies, At;
    forall i | 0 <= i < |items|
      ensures content[i] != [] && Thin(data, offsets[i], |content[i]|).Ok?
        && var v := Thin(data, offsets[i], |content[i]|).value;
           Copies(inflate, source, items[i], data, v) && v.architecture in {X86_64, Arm64} && |v.uuid| == 16
           && v.architecture == items[i].architecture
    {
      ImageCopies(inflate, source, items[i], data, offsets[i]);
      SameIdentity(inflate, source, items[i], data, Thin(data, offsets[i], |content[i]|).value);
    }
    thins := seq(|items|, i requires 0 <= i < |items| => Thin(data, offsets[i], |content[i]|).value);
  }

  lemma SameIdentity(inflate: Inflate, source: seq<byte>, item: Slice, data: seq<byte>, v: Slice)
    requires Copies(inflate, source, item, data, v)
    ensures v.architecture == item.architecture && v.uuid == item.uuid
    ensures v.cpuType == item.cpuType && v.cpuSubtype == item.cpuSubtype
    ensures DebugOnly(v) <==> !SelectsText(item)
  {
  }

  function SliceOffsets(content: seq<seq<byte>>): (r: seq<nat>)
    ensures |r| == |content|
  {
    Offsets(content, AlignUp(8 + 20 * |content|, 12))
  }

  /** Behind its table a container holds its slices, and zeros. */
  ghost predicate ZerosBetween(data: seq<byte>, content: seq<seq<byte>>, offsets: seq<nat>) {
    var n := |content|;
    && |offsets| == n && (n > 0 ==> |data| == offsets[n - 1] + |content[n - 1]|)
    && forall j :: 8 + 20 * n <= j < |data| && data[j] != 0 ==> InPiece(content, offsets, n, j)
  }

  lemma ContainerPieces(items: seq<Slice>, content: seq<seq<byte>>, data: seq<byte>)
    requires |items| == |content| && |items| != 1 && Container(items, content) == Ok(data)
    ensures var offsets := SliceOffsets(content);
      && ContainerFits(items, content, offsets) && Spaced(content, offsets, 8 + 20 * |items|)
      && 8 + 20 * |items| <= |data|
      && At(data, 0, Pack(Big, 4, 0xCAFE_BABE)) && At(data, 4, Pack(Big, 4, |items|))
      && (forall i :: 0 <= i < |items| ==>
            At(data, offsets[i], content[i]) && offsets[i] + |content[i]| <= |data|
            && At(data, 8 + 20 * i, FatRecord(items[i], offsets[i], |content[i]|)))
      && ZerosBetween(data, content, offsets)
  {
    hide At, FatRecord, AlignUp, Spaced, FatHeader, Offsets, AppendSlices, ContainerFits, InPiece;
    var n := |items|;
    AlignUpMeans(8 + 20 * n, 12);
    PageSize();
    var offsets := SliceOffsets(content);
    OffsetsSpaced(content, AlignUp(8 + 20 * n, 12));
    Loosen(content, offsets, AlignUp(8 + 20 * n, 12), 8 + 20 * n);
    var header := FatHeader(items, content, offsets, n);
    SlicesStand(header, content, offsets, n);
    Extent(data, 0, header);
    FatRecordsStand(data, items, content, offsets, n);
    forall i | 0 <= i < n ensures offsets[i] + |content[i]| <= |data| {
      Extent(data, offsets[i], content[i]);
    }
  }

  lemma ContainerEntries(items: seq<Slice>, content: seq<seq<byte>>, data: seq<byte>, thins: seq<Slice>, i: nat)
    requires |items| == |content| == |thins| && i < |items|
    requires ContainerFits(items, content, SliceOffsets(content))
    requires At(data, 8 + 20 * i, FatRecord(items[i], SliceOffsets(content)[i], |content[i]|))
    requires thins[i].cpuType == items[i].cpuType && thins[i].cpuSubtype == items[i].cpuSubtype
    ensures 8 + 20 * i + 20 <= |data|
    ensures UnpackFatEntry(data, Big, false, 8 + 20 * i)
         == FatEntry(thins[i].cpuType, thins[i].cpuSubtype, SliceOffsets(content)[i], |content[i]|, 12)
  {
    hide At, FatRecord, SliceOffsets, UnpackFatEntry;
    FatRecordReads(data, 8 + 20 * i, items[i], SliceOffsets(content)[i], |content[i]|);
  }

  lemma {:induction false} ContainerContains(inflate: Inflate, source: seq<byte>, items: seq<Slice>,
                                             content: seq<seq<byte>>, data: seq<byte>)
    returns (thins: seq<Slice>)
    requires VariantsShape(items, |source|) && SliceAll(inflate, source, items) == Ok(content)
    requires |items| >= 2 && Container(items, content) == Ok(data)
    ensures CopiesAll(inflate, source, items, data, thins)
    ensures Contains(data, content, SliceOffsets(content), thins)
    ensures forall i :: 0 <= i < |thins| ==> ArchitectureOf(thins[i].cpuType) == Some(thins[i].architecture)
    ensures At(data, 0, Pack(Big, 4, 0xCAFE_BABE)) && At(data, 4, Pack(Big, 4, |content|)) && |content| < TWO_32
    ensures OnPages(data, thins)
  {
    hide GoDebugSlice, SliceShape, Thin, Copies, At, FatRecord, UnpackFatEntry, SliceAll, Spaced, Container,
        SliceOffsets;
    var offsets := SliceOffsets(content);
    ContainerPieces(items, content, data);
    thins := SlicesCopy(inflate, source, items, content, data, offsets);
    forall i | 0 <= i < |items|
      ensures UnpackFatEntry(data, Big, false, 8 + 20 * i)
          == FatEntry(thins[i].cpuType, thins[i].cpuSubtype, offsets[i], |content[i]|, 12)
      ensures ArchitectureOf(thins[i].cpuType) == Some(thins[i].architecture)
    {
      SameIdentity(inflate, source, items[i], data, thins[i]);
      ContainerEntries(items, content, data, thins, i);
      ShapeArchitecture(items[i], |source|);
    }
    ThinsOnPages(data, content, offsets, thins);
  }

  ghost predicate InVariant(variants: seq<Slice>, position: nat) {
    exists i :: 0 <= i < |variants| && variants[i].offset <= position < variants[i].offset + variants[i].size
  }

  /** The images of a container stand on the first page boundaries behind the table and each other, the last one ends
      the file, and every other byte behind the table is zero. */
  ghost predicate OnPages(data: seq<byte>, variants: seq<Slice>) {
    var n := |variants|;
    && n > 0 && |data| == variants[n - 1].offset + variants[n - 1].size
    && (forall i :: 0 <= i < n ==> variants[i].offset % 4096 == 0)
    && 8 + 20 * n <= variants[0].offset < 8 + 20 * n + 4096
    && (forall i, j :: 0 <= i && j == i + 1 < n ==>
          variants[i].offset + variants[i].size <= variants[j].offset
          < variants[i].offset + variants[i].size + 4096)
    && (forall j :: 8 + 20 * n <= j < |data| && data[j] != 0 ==> InVariant(variants, j))
  }

  lemma ThinsOnPages(data: seq<byte>, content: seq<seq<byte>>, offsets: seq<nat>, thins: seq<Slice>)
    requires |thins| == |content| > 0 && Spaced(content, offsets, 8 + 20 * |content|)
    requires ZerosBetween(data, content, offsets)
    requires forall i :: 0 <= i < |thins| ==> Thin(data, offsets[i], |content[i]|) == Ok(thins[i])
    ensures OnPages(data, thins)
  {
    hide Thin;
    forall i | 0 <= i < |thins| ensures thins[i].offset == offsets[i] && thins[i].size == |content[i]| {
      ThinStands(data, offsets[i], |content[i]|);
    }
    forall j | 8 + 20 * |content| <= j < |data| && data[j] != 0 ensures InVariant(thins, j) {
      assert InPiece(content, offsets, |content|, j);
    }
  }

  lemma {:induction false} ContainerInspected(data: seq<byte>, content: seq<seq<byte>>, offsets: seq<nat>,
                                              thins: seq<Slice>)
    requires Contains(data, content, offsets, thins) && 0 < |content| <= 64
    requires forall i :: 0 <= i < |thins| ==> ArchitectureOf(thins[i].cpuType) == Some(thins[i].architecture)
    requires At(data, 0, Pack(Big, 4, 0xCAFE_BABE)) && At(data, 4, Pack(Big, 4, |content|))
    ensures Inspect(data) == Ok(Inventory(thins, true)) && FatEntries(data).Ok?
  {
    hide Thin, At, U, UnpackFatEntry, FatVariants, FatEntriesFrom, ThinMagic, FatMagic, Spaced, ArchitectureOf;
    assert thins[..0] == [];
    FatReads(data, content, offsets, thins, 0, []);
    FatEntriesRead(data, content, offsets, thins, 0, []);
    ContainerHeader(data, |content|);
    assert FatTable(false, |content|) == 20 * |content|;
  }

  lemma Loosen(content: seq<seq<byte>>, offsets: seq<nat>, cursor: nat, lower: nat)
    requires Spaced(content, offsets, cursor) && lower <= cursor && (offsets != [] ==> offsets[0] < lower + 4096)
    ensures Spaced(content, offsets, lower)
  {
  }

  lemma ContainerHeader(data: seq<byte>, n: nat)
    requires n < TWO_32 && At(data, 0, Pack(Big, 4, 0xCAFE_BABE)) && At(data, 4, Pack(Big, 4, n))
    ensures |data| >= 8 && ThinMagic(data, 0).None? && FatMagic(data) == Some((Big, false)) && U(Big, data, 4, 4) == n
  {
    MagicBytes();
    Pow256Values();
    ReadPacked(Big, data, 4, 4, n);
  }

  /** Round trip: whatever is emitted for a source image the reader accepts is itself accepted, and copies it. */
  lemma {:induction false} EmittedIsRead(inflate: Inflate, source: seq<byte>)
    requires Emit(inflate, source).Ok?
    ensures var data := Emit(inflate, source).value;
      && Inspect(source).Ok? && Inspect(data).Ok?
      && CopiesAll(inflate, source, Inspect(source).value.variants, data, Inspect(data).value.variants)
      && (Inspect(data).value.isFat <==> |Inspect(source).value.variants| > 1)
      && (if Inspect(data).value.isFat then FatEntries(data).Ok? && OnPages(data, Inspect(data).value.variants)
          else Inspect(data).value.variants[0].offset == 0 && Inspect(data).value.variants[0].size == |data|)
  {
    hide OnPages, GoDebugSlice, SliceShape, Thin, Copies, U, Offsets, FatVariants, FatEntries, At, SliceOffsets,
        Contains;
    InspectShape(source);
    var items := Inspect(source).value.variants;
    var content := SliceAll(inflate, source, items).value;
    var data := Emit(inflate, source).value;
    if |items| == 1 {
      AtEnd([], data);
      assert [] + data == data;
      var thins := SlicesCopy(inflate, source, items, content, data, [0]);
      ThinHasMagic(data, 0, |data|);
      ThinStands(data, 0, |data|);
    } else {
      var thins := ContainerContains(inflate, source, items, content, data);
      ContainerInspected(data, content, SliceOffsets(content), thins);
    }
  }

  lemma ThinHasMagic(data: seq<byte>, start: nat, size: nat)
    requires Thin(data, start, size).Ok?
    ensures ThinMagic(data, start).Some? && start + 28 <= |data|
  {
  }

  /** The final check of extract_go_dsym rejects an emitted image exactly when a copied section is named __text. */
  lemma {:induction false} ExtractAccepts(inflate: Inflate, source: seq<byte>)
    requires Emit(inflate, source).Ok?
    ensures var items := Inspect(source).value.variants;
      Extract(inflate, source)
        == if exists i :: 0 <= i < |items| && SelectsText(items[i]) then Err(ValidationFailed)
            else Emit(inflate, source)
  {
    hide Emit, Inspect, Copies, SelectsText;
    EmittedIsRead(inflate, source);
    var data := Emit(inflate, source).value;
    var items, copied := Inspect(source).value.variants, Inspect(data).value.variants;
    forall i | 0 <= i < |items|
      ensures copied[i].architecture == items[i].architecture && copied[i].uuid == items[i].uuid
      ensures DebugOnly(copied[i]) <==> !SelectsText(items[i])
    {
      SameIdentity(inflate, source, items[i], data, copied[i]);
    }
    assert Identities(items) == Identities(copied);
    assert Variants(source).Ok? && Variants(data).Ok?;
  }

  lemma {:induction false} NotTruncated(inflate: Inflate, source: seq<byte>, dataOffset: nat, sections: seq<Section>,
                                        l: Layout)
    requires forall k :: 0 <= k < |sections| ==> sections[k].offset + sections[k].size <= |source|
    ensures PlaceAll(inflate, source, dataOffset, sections, l) != Err(TruncatedDwarf)
  {
    hide U, AlignUp;
    if sections != [] {
      var next := PlaceSection(inflate, source, dataOffset, sections[0], l);
      if next.Ok? {
        NotTruncated(inflate, source, dataOffset, sections[1..], next.value);
      }
    }
  }

  /** The reader's bounds make the writer's truncation error unreachable. */
  lemma {:induction false} SourceIsNeverTruncated(inflate: Inflate, source: seq<byte>)
    ensures Emit(inflate, source) != Err(TruncatedDwarf)
  {
    hide Inspect, Offsets, ContainerFits, SliceAll, VariantsShape;
    InspectShape(source);
    if Inspect(source).Ok? {
      SlicesNotTruncated(inflate, source, Inspect(source).value.variants);
    }
  }

  lemma {:induction false} SlicesNotTruncated(inflate: Inflate, source: seq<byte>, items: seq<Slice>)
    requires VariantsShape(items, |source|)
    ensures SliceAll(inflate, source, items) != Err(TruncatedDwarf)
  {
    hide PlaceAll, DwarfSections, U, SliceBytes;
    if items != [] {
      var item := items[0];
      Selected(item.sections);
      var sections := DwarfSections(item.sections);
      forall k | 0 <= k < |sections| ensures sections[k].offset + sections[k].size <= |source| {
        assert SectionShape(sections[k], |source|);
      }
      NotTruncated(inflate, source, DataOffset(|sections|), sections, Layout([], []));
      SlicesNotTruncated(inflate, source, items[1..]);
    }
  }

  // ----- A source image on which the final check fails -----

  lemma AlignUpByte(c: nat)
    ensures AlignUp(c, 0) == c
  {
    assert Pow2(0) == 1;
  }

  /** One-byte sections that need no decompression are always placed. */
  lemma {:induction false} BytesArePlaced(inflate: Inflate, source: seq<byte>, dataOffset: nat, sections: seq<Section>,
                                          l: Layout)
    requires dataOffset < 1000 && |l.payload| + |sections| < 1000
    requires forall k :: 0 <= k < |sections| ==>
               sections[k].size == 1 && sections[k].align == 0 && sections[k].offset < |source|
               && IsAscii(sections[k].name) && !StartsWith(sections[k].name, ZDEBUG)
    ensures PlaceAll(inflate, source, dataOffset, sections, l).Ok?
  {
    hide IsAscii, StartsWith, U, AlignUp;
    if sections != [] {
      AlignUpByte(dataOffset + |l.payload|);
      var next := PlaceSection(inflate, source, dataOffset, sections[0], l);
      assert next.Ok? && |next.value.payload| == |l.payload| + 1;
      BytesArePlaced(inflate, source, dataOffset, sections[1..], next.value);
    }
  }

  function SampleText(): Segment { Segment(TEXT, 0, 0, 0, 0) }

  function SampleSlice(): Slice {
    Slice(Arm64, Zeros(16), 2, true, true, true, false, 0x0100000c, 0, Little, 0, 443, [], [])
  }

  /** Debug info, a line table, and a DWARF section that happens to be called __text. */
  function SampleLayout(): Layout {
    Layout([1, 2, 3],
        [Placed(DEBUG_INFO, [1], 440, 0), Placed(DEBUG_LINE, [2], 441, 0), Placed(TEXT_SECTION, [3], 442, 0)])
  }

  lemma {:induction false} SampleIsEmittable()
    ensures Emittable(SampleSlice(), SampleText(), SampleLayout()) && DataOffset(3) == 440
  {
    hide NameFits, LaidOut;
    assert Pow2(3) == 8;
    SampleNamesFit();
    SampleIsLaidOut();
  }

  lemma SampleNamesFit()
    ensures NameFits(DEBUG_INFO) && NameFits(DEBUG_LINE) && NameFits(TEXT_SECTION)
  {
  }

  lemma SampleIsLaidOut()
    ensures LaidOut(440, SampleLayout().payload, SampleLayout().placed)
  {
    hide Pow2, At;
    var payload, placed := SampleLayout().payload, SampleLayout().placed;
    assert At(payload, 0, [1]) && At(payload, 1, [2]) && At(payload, 2, [3]) by { BytesStand(); }
    forall k | 0 <= k < |placed| ensures placed[k].offset % Pow2(placed[k].alignment) == 0 {
      ByteAligned(placed[k].offset);
    }
    assert placed[0].offset == 440 && placed[1].offset == 441 && placed[2].offset == 442;
  }

  lemma BytesStand()
    ensures var payload: seq<byte> := [1, 2, 3]; At(payload, 0, [1]) && At(payload, 1, [2]) && At(payload, 2, [3])
  {
  }

  lemma ByteAligned(offset: nat)
    ensures offset % Pow2(0) == 0
  {
  }

  lemma {:induction false} AllAreSelected(sections: seq<Section>)
    requires forall k :: 0 <= k < |sections| ==> sections[k].segment == DWARF && sections[k].hasContents
    ensures DwarfSections(sections) == sections
  {
    if sections != [] {
      AllAreSelected(sections[1..]);
    }
  }

  lemma {:induction false} SampleIsEmitted(inflate: Inflate, source: seq<byte>, v: Slice)
    requires Inspect(source) == Ok(Inventory([v], false)) && |source| == 443
    requires Describes(v, 2, SampleSlice(), SampleText(), SampleLayout(), 0, 443) && v.hasDebugInfo && v.hasDebugLine
    ensures Emit(inflate, source).Ok? && SelectsText(v)
  {
    hide Inspect, PlaceAll, SliceBytes, IsAscii, StartsWith, DwarfSections, AlignUp, Emittable;
    SampleIsEmittable();
    assert v.sections == SectionsOf(0, SampleLayout().placed);
    AllAreSelected(v.sections);
    SampleNames();
    BytesArePlaced(inflate, source, 440, v.sections, Layout([], []));
    assert v.sections[2].name == TEXT_SECTION;
    PlacesEach(inflate, source, 440, v.sections, Layout([], []));
    assert GoDebugSlice(inflate, source, v).Ok?;
    assert [v][0] == v && [v][1..] == [];
    assert SliceAll(inflate, source, [v][1..]) == Ok([]);
    assert SliceAll(inflate, source, [v]).Ok?;
  }

  lemma SampleNames()
    ensures IsAscii(DEBUG_INFO) && IsAscii(DEBUG_LINE) && IsAscii(TEXT_SECTION)
    ensures !StartsWith(DEBUG_INFO, ZDEBUG) && !StartsWith(DEBUG_LINE, ZDEBUG) && !StartsWith(TEXT_SECTION, ZDEBUG)
  {
    assert DEBUG_INFO[..|ZDEBUG|][2] != ZDEBUG[2] && DEBUG_LINE[..|ZDEBUG|][2] != ZDEBUG[2];
  }

  /** Concretely: an accepted executable whose debug image is emitted, read back, and then turned down. */
  lemma {:induction false} TextSectionIsRejected(inflate: Inflate) returns (source: seq<byte>)
    ensures Inspect(source).Ok? && Emit(inflate, source).Ok?
    ensures Extract(inflate, source) == Err(ValidationFailed)
  {
    hide Thin, Emit, Extract, SliceBytes, At, Emittable, SelectsText;
    SampleIsEmittable();
    SampleIsPackable();
    var item, text, l := SampleSlice(), SampleText(), SampleLayout();
    source := SliceBytes(2, item, text, l);
    AtEnd([], source);
    assert [] + source == source;
    ImageReads(source, 0, 2, item, text, l);
    ImagePieces(source, 0, 2, item, text, l);
    ThinHasMagic(source, 0, |source|);
    var v := Thin(source, 0, |source|).value;
    assert l.placed[0].name == DEBUG_INFO && l.placed[1].name == DEBUG_LINE;
    SampleIsEmitted(inflate, source, v);
    ExtractAccepts(inflate, source);
    assert Inspect(source).value.variants[0] == v;
  }

  lemma SampleIsPackable()
    ensures Packable(SampleSlice(), SampleText(), SampleLayout())
  {
  }
}
