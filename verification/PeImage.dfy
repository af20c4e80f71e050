/** The two checks that an executable is a PE image of this build's architecture: the desktop's
    thorough one before it starts the daemon, and the core host's shorter one before it starts a
    core. Offsets and sizes come from 16- and 32-bit fields, so no sum here reaches 2^64 and the
    checked additions of the original never fail. */
module PeImage {
  import opened Basics
  import opened LittleEndian
  import opened PeFormat

  const MAX_PE_HEADER_BYTES := 1024 * 1024
  const MAX_OPTIONAL_HEADER := 4096
  const MAX_SECTIONS := 96
  const MAX_CORE_OFFSET := 16 * 1024 * 1024

  datatype Arch = X64 | X86 | Arm64 {
    function Machine(): nat {
      match this
      case X64 => 0x8664
      case X86 => 0x014c
      case Arm64 => 0xaa64
    }

    function OptionalMagic(): nat {
      if X86? then 0x010b else 0x020b
    }

    function FixedOptionalHeader(): nat {
      if X86? then 96 else 112
    }
  }

  // ----- Fields -----

  function U16(f: Bytes, at: nat): (r: nat)
    requires at + 2 <= |f|
    ensures r < 0x1_0000
  {
    var low: int, high: int := f[at], f[at + 1];
    low + 256 * high
  }

  function U32(f: Bytes, at: nat): (r: nat)
    requires at + 4 <= |f|
    ensures r < 0x1_0000_0000
  {
    U16(f, at) + 0x1_0000 * U16(f, at + 2)
  }

  /** Executable (bit 1) and not a library (bit 13). */
  predicate Program(characteristics: nat) {
    (characteristics / 2) % 2 == 1 && (characteristics / 0x2000) % 2 == 0
  }

  /** The signature and COFF header at `at`. */
  predicate CoffHeader(f: Bytes, at: nat, arch: Arch)
    requires at + 24 <= |f|
  {
    && f[at..at + 4] == [80, 69, 0, 0]
    && U16(f, at + 4) == arch.Machine()
    && Program(U16(f, at + 22))
  }

  predicate DosHeader(f: Bytes) {
    |f| >= 64 && f[..2] == [77, 90]
  }

  function PeOffset(f: Bytes): nat
    requires |f| >= 64
  {
    U32(f, 0x3c)
  }

  /** Where things are in an image whose COFF header lies in the file. */
  datatype Layout = Layout(optionalStart: nat, optionalEnd: nat, sections: nat, tableEnd: nat)

  function LayoutOf(f: Bytes, at: nat): Layout
    requires at + 24 <= |f|
  {
    var sections := U16(f, at + 6);
    var end := at + 24 + U16(f, at + 20);
    Layout(at + 24, end, sections, end + sections * 40)
  }

  predicate LayoutFine(f: Bytes, at: nat, arch: Arch)
    requires at + 24 <= |f|
  {
    var l := LayoutOf(f, at);
    && 1 <= l.sections <= MAX_SECTIONS
    && arch.FixedOptionalHeader() <= U16(f, at + 20) <= MAX_OPTIONAL_HEADER
    && l.tableEnd <= |f| && l.tableEnd <= MAX_PE_HEADER_BYTES
  }

  function SizeOfHeaders(f: Bytes, l: Layout): nat
    requires l.optionalStart + 64 <= |f|
  {
    U32(f, l.optionalStart + 60)
  }

  predicate OptionalFine(f: Bytes, l: Layout, arch: Arch)
    requires l.optionalStart + arch.FixedOptionalHeader() <= l.optionalEnd <= |f|
  {
    var fixed := arch.FixedOptionalHeader();
    var directories := U32(f, l.optionalStart + fixed - 4);
    && U16(f, l.optionalStart) == arch.OptionalMagic()
    && directories <= 16
    && fixed + directories * 8 <= l.optionalEnd - l.optionalStart
    && l.tableEnd <= SizeOfHeaders(f, l) <= |f|
    && SizeOfHeaders(f, l) <= MAX_PE_HEADER_BYTES
  }

  /** The file range of a section's data. */
  datatype Range = Range(start: nat, end: nat)

  function RawRange(f: Bytes, table: nat, i: nat): Range
    requires table + 40 * i + 40 <= |f|
  {
    var size := U32(f, table + 40 * i + 16);
    var start := U32(f, table + 40 * i + 20);
    Range(start, start + size)
  }

  predicate Empty(r: Range) {
    r.start == r.end
  }

  predicate Disjoint(a: Range, b: Range) {
    a.end <= b.start || b.end <= a.start
  }

  predicate Inside(r: Range, from: nat, to: nat) {
    from <= r.start && r.end <= to
  }

  /** All non-empty section data lies between the headers and the end of the file, and no two
      sections share a byte. */
  ghost predicate SectionsFine(f: Bytes, l: Layout, count: nat)
    requires l.optionalEnd + 40 * count <= |f| && l.optionalStart + 64 <= |f|
  {
    && (forall i :: 0 <= i < count && !Empty(RawRange(f, l.optionalEnd, i)) ==>
          Inside(RawRange(f, l.optionalEnd, i), SizeOfHeaders(f, l), |f|))
    && (forall i, j ::
          0 <= i < j < count && !Empty(RawRange(f, l.optionalEnd, i)) && !Empty(RawRange(f, l.optionalEnd, j)) ==>
          Disjoint(RawRange(f, l.optionalEnd, i), RawRange(f, l.optionalEnd, j)))
  }

  ghost predicate NativeImage(f: Bytes, arch: Arch) {
    && DosHeader(f)
    && var at := PeOffset(f);
       && 64 <= at <= MAX_PE_HEADER_BYTES && at + 24 <= |f|
       && CoffHeader(f, at, arch)
       && LayoutFine(f, at, arch)
       && var l := LayoutOf(f, at);
          OptionalFine(f, l, arch) && SectionsFine(f, l, l.sections)
  }

  // ----- The desktop's check -----

  /** Reads the headers in file order; accepts exactly the images that an acceptable header describes. */
  method ValidateNativePe(f: Bytes, arch: Arch) returns (ok: bool)
    ensures ok <==> NativeImage(f, arch)
    ensures ok <==> Accepted(f, match arch
                                case X64 => Build(0x8664, 0x20b, 112)
                                case X86 => Build(0x14c, 0x10b, 96)
                                case Arm64 => Build(0xaa64, 0x20b, 112))
  {
    NativeImageIff(f, arch);
    ok := CheckNativePe(f, arch);
  }

  method CheckNativePe(f: Bytes, arch: Arch) returns (ok: bool)
    ensures ok <==> NativeImage(f, arch)
  {
    hide U16, U32, RawRange, SectionsFine;
    if |f| < 64 || f[..2] != [77, 90] {
      return false;
    }
    var offset := U32(f, 0x3c);
    if !(64 <= offset <= MAX_PE_HEADER_BYTES) || offset + 24 > |f| {
      return false;
    }
    var machine := U16(f, offset + 4);
    var sections := U16(f, offset + 6);
    var optionalSize := U16(f, offset + 20);
    var characteristics := U16(f, offset + 22);
    if || f[offset..offset + 4] != [80, 69, 0, 0]
       || machine != arch.Machine()
       || sections == 0
       || sections > MAX_SECTIONS
       || (characteristics / 0x0002) % 2 == 0
       || (characteristics / 0x2000) % 2 != 0
       || !(arch.FixedOptionalHeader() <= optionalSize <= MAX_OPTIONAL_HEADER)
    {
      return false;
    }
    var optionalEnd := offset + 24 + optionalSize;
    var tableEnd := optionalEnd + sections * 40;
    if tableEnd > |f| || tableEnd > MAX_PE_HEADER_BYTES {
      return false;
    }
    var optionalStart := offset + 24;
    var fixed := arch.FixedOptionalHeader();
    var magic := U16(f, optionalStart);
    var headers := U32(f, optionalStart + 60);
    var directories := U32(f, optionalStart + fixed - 4);
    if || magic != arch.OptionalMagic()
       || directories > 16
       || fixed + directories * 8 > optionalSize
       || headers < tableEnd
       || headers > |f|
       || headers > MAX_PE_HEADER_BYTES
    {
      return false;
    }
    ok := CheckSections(f, Layout(optionalStart, optionalEnd, sections, tableEnd));
  }

  /** Goes through the section table, remembering the ranges seen. */
  method CheckSections(f: Bytes, l: Layout) returns (ok: bool)
    requires l.optionalEnd + 40 * l.sections <= |f| && l.optionalStart + 64 <= |f|
    ensures ok <==> SectionsFine(f, l, l.sections)
  {
    hide U16, U32, RawRange, SizeOfHeaders;
    var headers := SizeOfHeaders(f, l);
    var ranges: seq<Range> := [];
    ghost var which: seq<nat> := [];
    for i := 0 to l.sections
      invariant |ranges| == |which|
      invariant forall m :: 0 <= m < |which| ==>
          which[m] < i && ranges[m] == RawRange(f, l.optionalEnd, which[m]) && !Empty(ranges[m])
      invariant forall k :: 0 <= k < i && !Empty(RawRange(f, l.optionalEnd, k)) ==>
          RawRange(f, l.optionalEnd, k) in ranges
      invariant SectionsFine(f, l, i)
    {
      var range := RawRange(f, l.optionalEnd, i);
      if Empty(range) {
        continue;
      }
      if range.start < headers || range.end > |f| {
        return false;
      }
      if exists m :: 0 <= m < |ranges| && range.start < ranges[m].end && ranges[m].start < range.end {
        ghost var m :| 0 <= m < |ranges| && range.start < ranges[m].end && ranges[m].start < range.end;
        assert !Disjoint(RawRange(f, l.optionalEnd, which[m]), RawRange(f, l.optionalEnd, i));
        return false;
      }
      forall k | 0 <= k < i && !Empty(RawRange(f, l.optionalEnd, k))
        ensures Disjoint(RawRange(f, l.optionalEnd, k), range)
      {
        var m :| 0 <= m < |ranges| && ranges[m] == RawRange(f, l.optionalEnd, k);
      }
      ranges := ranges + [range];
      which := which + [i];
    }
    ok := true;
  }

  // ----- What acceptance is worth -----

  ghost function Interval(low: int, high: int): (r: set<int>)
    requires low <= high
    ensures |r| == high - low
    ensures forall x :: x in r <==> low <= x < high
    decreases high - low
  {
    if low == high then {} else Interval(low, high - 1) + {high - 1}
  }

  /** The file offsets the first `count` sections occupy. */
  ghost function Occupied(f: Bytes, l: Layout, count: nat): set<int>
    requires l.optionalEnd + 40 * count <= |f|
  {
    if count == 0 then {}
    else
      var r := RawRange(f, l.optionalEnd, count - 1);
      Occupied(f, l, count - 1) + Interval(r.start, r.end)
  }

  function RawBytes(f: Bytes, l: Layout, count: nat): nat
    requires l.optionalEnd + 40 * count <= |f|
  {
    if count == 0 then 0
    else
      var r := RawRange(f, l.optionalEnd, count - 1);
      RawBytes(f, l, count - 1) + (r.end - r.start)
  }

  lemma {:induction false} OccupiedIsSomeSection(f: Bytes, l: Layout, count: nat, x: int)
    requires l.optionalEnd + 40 * count <= |f| && l.optionalStart + 64 <= |f|
    requires x in Occupied(f, l, count)
    ensures exists i :: 0 <= i < count && RawRange(f, l.optionalEnd, i).start <= x < RawRange(f, l.optionalEnd, i).end
  {
    hide RawRange;
    var r := RawRange(f, l.optionalEnd, count - 1);
    RangeIsOrdered(f, l.optionalEnd, count - 1);
    if !(r.start <= x < r.end) {
      OccupiedIsSomeSection(f, l, count - 1, x);
    }
  }

  lemma LastSectionIsApart(f: Bytes, l: Layout, count: nat)
    requires 1 <= count && l.optionalEnd + 40 * count <= |f| && l.optionalStart + 64 <= |f|
    requires SectionsFine(f, l, count)
    ensures var r := RawRange(f, l.optionalEnd, count - 1);
            r.start <= r.end && Occupied(f, l, count - 1) !! Interval(r.start, r.end)
  {
    hide RawRange, SizeOfHeaders, Occupied;
    var r := RawRange(f, l.optionalEnd, count - 1);
    RangeIsOrdered(f, l.optionalEnd, count - 1);
    forall x | x in Occupied(f, l, count - 1)
      ensures x !in Interval(r.start, r.end)
    {
      OccupiedIsSomeSection(f, l, count - 1, x);
      var i :| 0 <= i < count - 1 && RawRange(f, l.optionalEnd, i).start <= x < RawRange(f, l.optionalEnd, i).end;
      assert Empty(r) || Disjoint(RawRange(f, l.optionalEnd, i), r);
    }
  }

  lemma FewerSections(f: Bytes, l: Layout, count: nat)
    requires 1 <= count && l.optionalEnd + 40 * count <= |f| && l.optionalStart + 64 <= |f|
    requires SectionsFine(f, l, count)
    ensures SectionsFine(f, l, count - 1)
    ensures var r := RawRange(f, l.optionalEnd, count - 1); Empty(r) || Inside(r, SizeOfHeaders(f, l), |f|)
  {
    hide RawRange;
  }

  lemma {:induction false} OccupiedSize(f: Bytes, l: Layout, count: nat)
    requires l.optionalEnd + 40 * count <= |f| && l.optionalStart + 64 <= |f|
    requires SectionsFine(f, l, count) && SizeOfHeaders(f, l) <= |f|
    ensures |Occupied(f, l, count)| == RawBytes(f, l, count)
    ensures Occupied(f, l, count) <= Interval(SizeOfHeaders(f, l), |f|)
  {
    hide RawRange, SizeOfHeaders, SectionsFine, Interval;
    if count > 0 {
      FewerSections(f, l, count);
      OccupiedSize(f, l, count - 1);
      LastSectionIsApart(f, l, count);
    }
  }

  lemma RangeIsOrdered(f: Bytes, table: nat, i: nat)
    requires table + 40 * i + 40 <= |f|
    ensures RawRange(f, table, i).start <= RawRange(f, table, i).end
  {
  }

  /** The sections of an accepted image together never claim more bytes than the file has after its
      headers, however many sections there are. */
  lemma SectionsFitTogether(f: Bytes, arch: Arch)
    requires NativeImage(f, arch)
    ensures var l := LayoutOf(f, PeOffset(f));
            RawBytes(f, l, l.sections) <= |f| - SizeOfHeaders(f, l)
  {
    var l := LayoutOf(f, PeOffset(f));
    var from := SizeOfHeaders(f, l);
    OccupiedSize(f, l, l.sections);
    SubsetIsSmaller(Occupied(f, l, l.sections), Interval(from, |f|));
  }

  lemma {:induction false} SubsetIsSmaller(a: set<int>, b: set<int>)
    requires a <= b
    ensures |a| <= |b|
  {
    assert b == a + (b - a);
  }

  // ----- What the fields mean -----

  function BuildOf(arch: Arch): Build {
    Build(arch.Machine(), arch.OptionalMagic(), arch.FixedOptionalHeader())
  }

  lemma U16Iff(f: Bytes, at: nat, n: nat)
    requires at + 2 <= |f|
    ensures Field(f, at, 2, n) <==> U16(f, at) == n
  {
    hide Field, FromLittle;
    FieldIff(f, at, 2, n);
    FromLittleInBytes(f[at..at + 2]);
  }

  lemma U32Iff(f: Bytes, at: nat, n: nat)
    requires at + 4 <= |f|
    ensures Field(f, at, 4, n) <==> U32(f, at) == n
  {
    hide Field, FromLittle;
    FieldIff(f, at, 4, n);
    FromLittleInBytes(f[at..at + 4]);
  }

  /** The range checked for a section is the one its header gives. */
  lemma RawRangeIs(f: Bytes, table: nat, i: nat, s: Section)
    requires table + 40 * i + 40 <= |f| && SectionFits(s)
    requires f[table + 40 * i..table + 40 * i + 40] == PrintSection(s)
    ensures RawRange(f, table, i) == Range(s.pointerToRawData, s.pointerToRawData + s.sizeOfRawData)
  {
    hide PrintSection, U32, Little, Power;
    Powers();
    SectionFields(s);
    var at := table + 40 * i;
    assert f[at + 16..at + 20] == f[at..at + 40][16..20];
    assert f[at + 20..at + 24] == f[at..at + 40][20..24];
    U32Iff(f, at + 16, s.sizeOfRawData);
    U32Iff(f, at + 20, s.pointerToRawData);
  }

  /** The fields of a described file read as its header says. */
  lemma DescribedReads(f: Bytes, h: Header, arch: Arch)
    requires Described(f, h, arch.FixedOptionalHeader())
    ensures DosHeader(f) && PeOffset(f) == h.offset && h.offset + 24 <= |f|
    ensures U16(f, h.offset + 4) == h.machine && U16(f, h.offset + 6) == |h.sections|
    ensures U16(f, h.offset + 20) == h.optionalSize && U16(f, h.offset + 22) == h.characteristics
    ensures h.offset + 88 <= |f| && U16(f, h.offset + 24) == h.magic && U32(f, h.offset + 84) == h.sizeOfHeaders
    ensures h.offset + 24 + arch.FixedOptionalHeader() <= |f|
    ensures U32(f, h.offset + 20 + arch.FixedOptionalHeader()) == h.directories
  {
    hide U16, U32, Little, Power, PrintSection;
    U32Iff(f, 60, h.offset);
    U16Iff(f, h.offset + 4, h.machine);
    U16Iff(f, h.offset + 6, |h.sections|);
    U16Iff(f, h.offset + 20, h.optionalSize);
    U16Iff(f, h.offset + 22, h.characteristics);
    U16Iff(f, h.offset + 24, h.magic);
    U32Iff(f, h.offset + 84, h.sizeOfHeaders);
    U32Iff(f, h.offset + 20 + arch.FixedOptionalHeader(), h.directories);
    assert f[..2] == [f[0], f[1]];
  }

  lemma SectionsAreFine(f: Bytes, h: Header, l: Layout)
    requires SectionsDescribed(f, h) && l.optionalEnd == h.offset + 24 + h.optionalSize
    requires l.optionalStart + 64 <= |f| && SizeOfHeaders(f, l) == h.sizeOfHeaders
    ensures SectionsFine(f, l, |h.sections|) <==> SectionsAcceptable(h, |f|)
  {
    hide RawRange, SizeOfHeaders, PrintSection, SectionFits;
    forall i | 0 <= i < |h.sections|
      ensures var s := h.sections[i];
              RawRange(f, l.optionalEnd, i) == Range(s.pointerToRawData, s.pointerToRawData + s.sizeOfRawData)
    {
      RawRangeIs(f, l.optionalEnd, i, h.sections[i]);
    }
    if SectionsFine(f, l, |h.sections|) {
      forall i, j | 0 <= i < j < |h.sections|
        ensures NoOverlap(h.sections[i], h.sections[j])
      {
        if h.sections[i].sizeOfRawData != 0 && h.sections[j].sizeOfRawData != 0 {
          assert Disjoint(RawRange(f, l.optionalEnd, i), RawRange(f, l.optionalEnd, j));
        }
      }
    }
    if SectionsAcceptable(h, |f|) {
      forall i, j |
        0 <= i < j < |h.sections| && !Empty(RawRange(f, l.optionalEnd, i)) && !Empty(RawRange(f, l.optionalEnd, j))
        ensures Disjoint(RawRange(f, l.optionalEnd, i), RawRange(f, l.optionalEnd, j))
      {
        assert NoOverlap(h.sections[i], h.sections[j]);
      }
    }
  }

  /** For a described file the check is a question about its header. */
  lemma DescribedIff(f: Bytes, h: Header, arch: Arch)
    requires Described(f, h, arch.FixedOptionalHeader())
    ensures NativeImage(f, arch) <==> Acceptable(h, |f|, BuildOf(arch))
  {
    hide U16, U32, SectionsFine, SectionsAcceptable, PrintSection, Field;
    DescribedReads(f, h, arch);
    var l := LayoutOf(f, h.offset);
    assert l == Layout(h.offset + 24, h.offset + 24 + h.optionalSize, |h.sections|, TableEnd(h));
    SectionsAreFine(f, h, l);
  }

  lemma SectionsOf(f: Bytes, table: nat, count: nat) returns (sections: seq<Section>)
    requires table + 40 * count <= |f|
    ensures |sections| == count
    ensures forall i :: 0 <= i < count ==>
              SectionFits(sections[i]) && f[table + 40 * i..table + 40 * i + 40] == PrintSection(sections[i])
  {
    hide PrintSection, SectionFits;
    sections := [];
    while |sections| < count
      invariant |sections| <= count
      invariant forall i :: 0 <= i < |sections| ==>
                  SectionFits(sections[i]) && f[table + 40 * i..table + 40 * i + 40] == PrintSection(sections[i])
    {
      var at := table + 40 * |sections|;
      var s := SectionOf(f[at..at + 40]);
      sections := sections + [s];
    }
  }

  /** Every accepted file has a header that describes it. */
  lemma HeaderOf(f: Bytes, arch: Arch) returns (h: Header)
    requires NativeImage(f, arch)
    ensures Described(f, h, arch.FixedOptionalHeader())
  {
    hide U16, U32, SectionsFine, PrintSection, SectionFits, Power, Little;
    var at := PeOffset(f);
    var l := LayoutOf(f, at);
    var fixed := arch.FixedOptionalHeader();
    var sections := SectionsOf(f, l.optionalEnd, l.sections);
    h := Header(at, U16(f, at + 4), U16(f, at + 20), U16(f, at + 22), U16(f, at + 24), U32(f, at + 84),
                U32(f, at + 20 + fixed), sections);
    U32Iff(f, 60, h.offset);
    U16Iff(f, at + 4, h.machine);
    U16Iff(f, at + 6, |h.sections|);
    U16Iff(f, at + 20, h.optionalSize);
    U16Iff(f, at + 22, h.characteristics);
    U16Iff(f, at + 24, h.magic);
    U32Iff(f, at + 84, h.sizeOfHeaders);
    U32Iff(f, at + 20 + fixed, h.directories);
    assert f[..2][0] == 77 && f[..2][1] == 90;
  }

  /** The native images are exactly the files that an acceptable header describes. */
  lemma NativeImageIff(f: Bytes, arch: Arch)
    ensures NativeImage(f, arch) <==> Accepted(f, BuildOf(arch))
  {
    hide NativeImage, Described, Acceptable;
    if NativeImage(f, arch) {
      var h := HeaderOf(f, arch);
      DescribedIff(f, h, arch);
    }
    if h :| Described(f, h, arch.FixedOptionalHeader()) && Acceptable(h, |f|, BuildOf(arch)) {
      DescribedIff(f, h, arch);
    }
  }

  // ----- The core host's check -----

  ghost predicate CoreImage(f: Bytes, arch: Arch) {
    && DosHeader(f)
    && var at := PeOffset(f);
       && 64 <= at <= MAX_CORE_OFFSET && at + 26 <= |f|
       && CoffHeader(f, at, arch)
       && U16(f, at + 24) == arch.OptionalMagic()
  }

  lemma CoreHeaderOf(f: Bytes, arch: Arch)
    requires CoreImage(f, arch)
    ensures CoreAccepted(f, BuildOf(arch))
  {
    hide U16, U32, Field;
    var at := PeOffset(f);
    var any := Section([], 0, 0, 0, 0, []);
    var h := Header(at, U16(f, at + 4), U16(f, at + 20), U16(f, at + 22), U16(f, at + 24), 0, 0,
                    seq(U16(f, at + 6), _ => any));
    U32Iff(f, 60, h.offset);
    U16Iff(f, at + 4, h.machine);
    U16Iff(f, at + 6, |h.sections|);
    U16Iff(f, at + 20, h.optionalSize);
    U16Iff(f, at + 22, h.characteristics);
    U16Iff(f, at + 24, h.magic);
    assert f[..2][0] == 77 && f[..2][1] == 90;
    assert DosDescribed(f, h.offset) && CoffDescribed(f, h);
  }

  lemma CoreHeaderSuffices(f: Bytes, arch: Arch, h: Header)
    requires DosDescribed(f, h.offset) && CoffDescribed(f, h)
    requires h.offset + 26 <= |f| && Field(f, h.offset + 24, 2, h.magic)
    requires 64 <= h.offset <= 16_777_216
    requires h.machine == arch.Machine() && h.magic == arch.OptionalMagic() && IsProgram(h.characteristics)
    ensures CoreImage(f, arch)
  {
    hide U16, U32, Field;
    U32Iff(f, 60, h.offset);
    U16Iff(f, h.offset + 4, h.machine);
    U16Iff(f, h.offset + 22, h.characteristics);
    U16Iff(f, h.offset + 24, h.magic);
    assert f[..2] == [f[0], f[1]];
  }

  lemma CoreImageIff(f: Bytes, arch: Arch)
    ensures CoreImage(f, arch) <==> CoreAccepted(f, BuildOf(arch))
  {
    hide CoreImage, DosDescribed, CoffDescribed, IsProgram;
    if CoreImage(f, arch) {
      CoreHeaderOf(f, arch);
    }
    if h: Header :|
      && DosDescribed(f, h.offset) && CoffDescribed(f, h) && Field(f, h.offset + 24, 2, h.magic)
      && 64 <= h.offset <= 16_777_216
      && h.machine == arch.Machine() && h.magic == arch.OptionalMagic() && IsProgram(h.characteristics)
    {
      CoreHeaderSuffices(f, arch, h);
    }
  }

  method ValidateCorePe(f: Bytes, arch: Arch) returns (ok: bool)
    ensures ok <==> CoreImage(f, arch)
    ensures ok <==> CoreAccepted(f, match arch
                                    case X64 => Build(0x8664, 0x20b, 112)
                                    case X86 => Build(0x14c, 0x10b, 96)
                                    case Arm64 => Build(0xaa64, 0x20b, 112))
  {
    hide U16, U32, CoreAccepted;
    CoreImageIff(f, arch);
    if |f| < 64 || f[..2] != [77, 90] {
      return false;
    }
    var offset := U32(f, 0x3c);
    if !(64 <= offset <= MAX_CORE_OFFSET) || offset + 26 > |f| {
      return false;
    }
    var machine := U16(f, offset + 4);
    var characteristics := U16(f, offset + 22);
    var magic := U16(f, offset + 24);
    ok := && f[offset..offset + 4] == [80, 69, 0, 0]
          && machine == arch.Machine()
          && magic == arch.OptionalMagic()
          && (characteristics / 0x0002) % 2 != 0
          && (characteristics / 0x2000) % 2 == 0;
  }

  /** Whatever the desktop accepts, the core host accepts too. */
  lemma NativeImageIsCoreImage(f: Bytes, arch: Arch)
    requires NativeImage(f, arch)
    ensures CoreImage(f, arch)
  {
    hide U16, U32;
    var at := PeOffset(f);
    var l := LayoutOf(f, at);
    assert l.optionalEnd >= at + 24 + 96;
    assert OptionalFine(f, l, arch);
  }
}
