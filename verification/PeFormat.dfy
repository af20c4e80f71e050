/** The headers of a PE image as the Microsoft PE format writes them, field by field in little-endian
    bytes, and what of them makes an executable acceptable. Nothing here reads a file. */
module PeFormat {
  import opened Basics
  import opened LittleEndian

  /** What an image of one architecture must say, and the size of its optional header's fixed part. */
  datatype Build = Build(machine: nat, magic: nat, fixed: nat)

  /** A section header: 40 bytes. */
  datatype Section = Section(
    name: Bytes, virtualSize: nat, virtualAddress: nat, sizeOfRawData: nat, pointerToRawData: nat, rest: Bytes)

  predicate SectionFits(s: Section) {
    && |s.name| == 8 && |s.rest| == 16
    && s.virtualSize < 0x1_0000_0000 && s.virtualAddress < 0x1_0000_0000
    && s.sizeOfRawData < 0x1_0000_0000 && s.pointerToRawData < 0x1_0000_0000
  }

  function PrintSection(s: Section): Bytes {
    s.name + Little(s.virtualSize, 4) + Little(s.virtualAddress, 4) + Little(s.sizeOfRawData, 4) +
    Little(s.pointerToRawData, 4) + s.rest
  }

  /** The fields the checks look at. */
  datatype Header = Header(
    offset: nat, machine: nat, optionalSize: nat, characteristics: nat,
    magic: nat, sizeOfHeaders: nat, directories: nat, sections: seq<Section>)

  /** The number `n` stands at `at` in `k` bytes. */
  predicate Field(f: Bytes, at: int, k: nat, n: nat) {
    0 <= at && at + k <= |f| && n < Power(k) && f[at..at + k] == Little(n, k)
  }

  /** MZ, and the offset of the PE header at 60. */
  predicate DosDescribed(f: Bytes, offset: nat) {
    |f| >= 64 && f[0] == 77 && f[1] == 90 && Field(f, 60, 4, offset)
  }

  /** The signature PE00 and the COFF header behind it. */
  predicate CoffDescribed(f: Bytes, h: Header) {
    && h.offset + 24 <= |f| && f[h.offset..h.offset + 4] == [80, 69, 0, 0]
    && Field(f, h.offset + 4, 2, h.machine)
    && Field(f, h.offset + 6, 2, |h.sections|)
    && Field(f, h.offset + 20, 2, h.optionalSize)
    && Field(f, h.offset + 22, 2, h.characteristics)
  }

  predicate OptionalDescribed(f: Bytes, h: Header, fixed: nat) {
    && Field(f, h.offset + 24, 2, h.magic)
    && Field(f, h.offset + 84, 4, h.sizeOfHeaders)
    && Field(f, h.offset + 20 + fixed, 4, h.directories)
  }

  predicate SectionsDescribed(f: Bytes, h: Header) {
    var table := h.offset + 24 + h.optionalSize;
    && table + 40 * |h.sections| <= |f|
    && forall i :: 0 <= i < |h.sections| ==>
         SectionFits(h.sections[i]) && f[table + 40 * i..table + 40 * i + 40] == PrintSection(h.sections[i])
  }

  /** The file is an image with this header. */
  predicate Described(f: Bytes, h: Header, fixed: nat) {
    DosDescribed(f, h.offset) && CoffDescribed(f, h) && OptionalDescribed(f, h, fixed) && SectionsDescribed(f, h)
  }

  /** Executable (bit 1) and no library (bit 13). */
  predicate IsProgram(characteristics: nat) {
    characteristics / 2 % 2 == 1 && characteristics / 8192 % 2 == 0
  }

  function TableEnd(h: Header): nat {
    h.offset + 24 + h.optionalSize + 40 * |h.sections|
  }

  predicate NoOverlap(a: Section, b: Section) {
    || a.sizeOfRawData == 0 || b.sizeOfRawData == 0
    || a.pointerToRawData + a.sizeOfRawData <= b.pointerToRawData
    || b.pointerToRawData + b.sizeOfRawData <= a.pointerToRawData
  }

  /** The data of all sections lies between the headers and the end of the file, without overlaps. */
  ghost predicate SectionsAcceptable(h: Header, length: nat) {
    && (forall i :: 0 <= i < |h.sections| && h.sections[i].sizeOfRawData != 0 ==>
          && h.sizeOfHeaders <= h.sections[i].pointerToRawData
          && h.sections[i].pointerToRawData + h.sections[i].sizeOfRawData <= length)
    && (forall i, j :: 0 <= i < j < |h.sections| ==> NoOverlap(h.sections[i], h.sections[j]))
  }

  ghost predicate Acceptable(h: Header, length: nat, build: Build) {
    && 64 <= h.offset <= 1_048_576
    && h.machine == build.machine && IsProgram(h.characteristics)
    && 1 <= |h.sections| <= 96
    && build.fixed <= h.optionalSize <= 4096
    && TableEnd(h) <= 1_048_576
    && h.magic == build.magic
    && h.directories <= 16 && build.fixed + 8 * h.directories <= h.optionalSize
    && TableEnd(h) <= h.sizeOfHeaders <= length && h.sizeOfHeaders <= 1_048_576
    && SectionsAcceptable(h, length)
  }

  /** The file is an image that an acceptable header describes. */
  ghost predicate Accepted(f: Bytes, build: Build) {
    exists h :: Described(f, h, build.fixed) && Acceptable(h, |f|, build)
  }

  /** What the shorter check asks for. */
  ghost predicate CoreAccepted(f: Bytes, build: Build) {
    exists h: Header ::
      && DosDescribed(f, h.offset) && CoffDescribed(f, h) && Field(f, h.offset + 24, 2, h.magic)
      && 64 <= h.offset <= 16_777_216
      && h.machine == build.machine && h.magic == build.magic && IsProgram(h.characteristics)
  }

  // ----- Fields of a section header -----

  /** The four numbers of a printed section header, at their places. */
  lemma SectionFields(s: Section)
    requires SectionFits(s)
    ensures var b := PrintSection(s);
            && |b| == 40 && b[..8] == s.name && b[24..] == s.rest
            && b[8..12] == Little(s.virtualSize, 4) && b[12..16] == Little(s.virtualAddress, 4)
            && b[16..20] == Little(s.sizeOfRawData, 4) && b[20..24] == Little(s.pointerToRawData, 4)
  {
    hide Little;
  }

  /** Any 40 bytes are a section header. */
  lemma SectionOf(b: Bytes) returns (s: Section)
    requires |b| == 40
    ensures SectionFits(s) && PrintSection(s) == b
  {
    hide Little, FromLittle, Power;
    Powers();
    LittleIsOnto(b[8..12]);
    LittleIsOnto(b[12..16]);
    LittleIsOnto(b[16..20]);
    LittleIsOnto(b[20..24]);
    s := Section(b[..8], FromLittle(b[8..12]), FromLittle(b[12..16]), FromLittle(b[16..20]), FromLittle(b[20..24]),
                 b[24..]);
    assert b == b[..8] + b[8..12] + b[12..16] + b[16..20] + b[20..24] + b[24..];
  }

  /** A field holds the number its bytes make. */
  lemma FieldIff(f: Bytes, at: nat, k: nat, n: nat)
    requires at + k <= |f|
    ensures Field(f, at, k, n) <==> FromLittle(f[at..at + k]) == n
  {
    hide Little, FromLittle, Power;
    LittleIsOnto(f[at..at + k]);
    if Field(f, at, k, n) {
      LittleReadBack(n, k);
    }
  }
}
