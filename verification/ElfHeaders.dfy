/** The headers of an ELF file as the ELF specification lays them out, field by field in either class and byte order, and
    the proof that every reader takes each field from its own place (artefact_store.py:674-721, consumer_verdict.py:114-142). */
module ElfHeaders {
  import opened Options
  import opened ElfBytes
  import opened DynamicSection
  import opened PublishedForm

  /* ---------------------------------------------------------------- a record of fields */

  datatype Part = Part(value: nat, size: nat)

  function Packed(parts: seq<Part>, little: bool): seq<Byte> {
    if parts == [] then [] else Encoded(parts[0].value, parts[0].size, little) + Packed(parts[1..], little)
  }

  predicate Fits(parts: seq<Part>) {
    forall part <- parts :: part.size <= 8 && part.value < Limit(part.size)
  }

  /** Where the field of an index starts. */
  function Before(parts: seq<Part>, k: nat): nat
    requires k <= |parts|
  {
    if k == 0 then 0 else Before(parts, k - 1) + parts[k - 1].size
  }

  lemma {:induction false} BeforeRest(parts: seq<Part>, k: nat)
    requires 0 < k <= |parts|
    ensures Before(parts, k) == parts[0].size + Before(parts[1..], k - 1)
  {
    if k > 1 { BeforeRest(parts, k - 1); }
  }

  /** A field of a record is read at its place. */
  lemma {:induction false} PartReads(data: seq<Byte>, pos: nat, parts: seq<Part>, little: bool, k: nat)
    requires At(data, pos, Packed(parts, little)) && Fits(parts) && k < |parts|
    ensures Field(data, pos + Before(parts, k), parts[k].size, little) == Some(parts[k].value)
    decreases |parts|
  {
    hide Field, At, Encoded;
    var first, rest := parts[0], parts[1..];
    assert first in parts && forall part <- rest :: part in parts;
    AtSplit(data, pos, Encoded(first.value, first.size, little), Packed(rest, little), pos + first.size);
    if k == 0 {
      FieldReadsBack(data, pos, first.value, first.size, little);
    } else {
      PartReads(data, pos + first.size, rest, little, k - 1);
      BeforeRest(parts, k);
    }
  }

  /* ---------------------------------------------------------------- the file header */

  /** The fields of the file header behind its identification. */
  datatype FileHeader = FileHeader(kind: nat, machine: nat, version: nat, entry: nat, phoff: nat, shoff: nat, flags: nat,
                                   ehsize: nat, phentsize: nat, phnum: nat, shentsize: nat, shnum: nat, shstrndx: nat)

  function FileParts(f: FileHeader, word: nat): seq<Part> {
    [Part(f.kind, 2), Part(f.machine, 2), Part(f.version, 4), Part(f.entry, word), Part(f.phoff, word), Part(f.shoff, word),
     Part(f.flags, 4), Part(f.ehsize, 2), Part(f.phentsize, 2), Part(f.phnum, 2), Part(f.shentsize, 2), Part(f.shnum, 2),
     Part(f.shstrndx, 2)]
  }

  /** The identification: the magic number, the class, the byte order, and ten bytes more. */
  predicate Identified(data: seq<Byte>, wide: bool, little: bool) {
    |data| >= 64 && At(data, 0, ELF_MAGIC) && data[4] == (if wide then 2 else 1) && data[5] == (if little then 1 else 2)
  }

  lemma FilePlaces(f: FileHeader, word: nat)
    ensures var parts := FileParts(f, word);
            Before(parts, 0) == 0 && Before(parts, 4) == 8 + word && Before(parts, 5) == 8 + 2 * word
            && Before(parts, 8) == 14 + 3 * word && Before(parts, 9) == 16 + 3 * word && Before(parts, 10) == 18 + 3 * word
            && Before(parts, 11) == 20 + 3 * word && Before(parts, 12) == 22 + 3 * word
  {
    var parts := FileParts(f, word);
    assert Before(parts, 1) == 2;
    assert Before(parts, 2) == 4;
    assert Before(parts, 3) == 8;
    assert Before(parts, 4) == 8 + word;
    assert Before(parts, 5) == 8 + 2 * word;
    assert Before(parts, 6) == 8 + 3 * word;
    assert Before(parts, 7) == 12 + 3 * word;
    assert Before(parts, 8) == 14 + 3 * word;
    assert Before(parts, 9) == 16 + 3 * word;
    assert Before(parts, 10) == 18 + 3 * word;
    assert Before(parts, 11) == 20 + 3 * word;
  }

  /** THE FILE HEADER READS BACK: its class and byte order, and each field that any reader takes. */
  lemma FileHeaderReads(data: seq<Byte>, wide: bool, little: bool, f: FileHeader)
    requires Identified(data, wide, little)
    requires At(data, 16, Packed(FileParts(f, if wide then 8 else 4), little)) && Fits(FileParts(f, if wide then 8 else 4))
    ensures IsElf(data) && HeaderOf(data) == Header(wide, little, f.kind, f.phoff, f.phentsize, f.phnum)
    ensures TableOf(data) == Table(f.shoff, f.shentsize, f.shnum, f.shstrndx)
  {
    hide Field, At, Packed, Fits, Before;
    var parts := FileParts(f, if wide then 8 else 4);
    FilePlaces(f, if wide then 8 else 4);
    PartReads(data, 16, parts, little, 0);
    PartReads(data, 16, parts, little, 4);
    PartReads(data, 16, parts, little, 5);
    PartReads(data, 16, parts, little, 8);
    PartReads(data, 16, parts, little, 9);
    PartReads(data, 16, parts, little, 10);
    PartReads(data, 16, parts, little, 11);
    PartReads(data, 16, parts, little, 12);
  }

  /* ---------------------------------------------------------------- a program header */

  datatype ProgramHeader = ProgramHeader(kind: nat, flags: nat, offset: nat, vaddr: nat, paddr: nat, filesz: nat,
                                         memsz: nat, align: nat)

  /** The flags come second in the wide class, and second to last in the narrow one. */
  function ProgramParts(p: ProgramHeader, wide: bool): seq<Part> {
    if wide then
      [Part(p.kind, 4), Part(p.flags, 4), Part(p.offset, 8), Part(p.vaddr, 8), Part(p.paddr, 8), Part(p.filesz, 8),
       Part(p.memsz, 8), Part(p.align, 8)]
    else
      [Part(p.kind, 4), Part(p.offset, 4), Part(p.vaddr, 4), Part(p.paddr, 4), Part(p.filesz, 4), Part(p.memsz, 4),
       Part(p.flags, 4), Part(p.align, 4)]
  }

  lemma ProgramPlaces(p: ProgramHeader)
    ensures var wide, narrow := ProgramParts(p, true), ProgramParts(p, false);
            Before(wide, 0) == 0 && Before(wide, 2) == 8 && Before(wide, 3) == 16 && Before(wide, 5) == 32
            && Before(narrow, 0) == 0 && Before(narrow, 1) == 4 && Before(narrow, 2) == 8 && Before(narrow, 4) == 16
  {
    var wide, narrow := ProgramParts(p, true), ProgramParts(p, false);
    assert Before(wide, 1) == 4 && Before(narrow, 1) == 4;
    assert Before(wide, 2) == 8 && Before(narrow, 2) == 8;
    assert Before(wide, 3) == 16 && Before(narrow, 3) == 12;
    assert Before(wide, 4) == 24;
  }

  /** A PROGRAM HEADER READS BACK: its kind, its address, and the offset and size of what it covers in the file. */
  lemma ProgramHeaderReads(data: seq<Byte>, h: Header, base: nat, p: ProgramHeader)
    requires At(data, base, Packed(ProgramParts(p, h.wide), h.little)) && Fits(ProgramParts(p, h.wide))
    ensures SegmentAt(data, h, base) == Some(Segment(p.kind, p.vaddr, Range(p.offset, p.filesz)))
    ensures RangeAt(data, h, base) == Some(Range(p.offset, p.filesz)) && Field(data, base, 4, h.little) == Some(p.kind)
  {
    hide Field, At, Packed, Fits, Before;
    var parts := ProgramParts(p, h.wide);
    ProgramPlaces(p);
    PartReads(data, base, parts, h.little, 0);
    if h.wide {
      PartReads(data, base, parts, h.little, 2);
      PartReads(data, base, parts, h.little, 3);
      PartReads(data, base, parts, h.little, 5);
    } else {
      PartReads(data, base, parts, h.little, 1);
      PartReads(data, base, parts, h.little, 2);
      PartReads(data, base, parts, h.little, 4);
    }
  }

  /* ---------------------------------------------------------------- a section header */

  datatype SectionHeader = SectionHeader(name: nat, kind: nat, flags: nat, addr: nat, offset: nat)

  function SectionParts(s: SectionHeader, word: nat): seq<Part> {
    [Part(s.name, 4), Part(s.kind, 4), Part(s.flags, word), Part(s.addr, word), Part(s.offset, word)]
  }

  /** A SECTION HEADER READS BACK: its name's place, its kind and its offset. */
  lemma SectionHeaderReads(data: seq<Byte>, h: Header, base: nat, s: SectionHeader)
    requires At(data, base, Packed(SectionParts(s, Word(h)), h.little)) && Fits(SectionParts(s, Word(h)))
    ensures SectionAt(data, h, base) == Some(Section(s.name, s.kind, s.offset))
  {
    hide Field, At, Packed, Fits;
    var parts := SectionParts(s, Word(h));
    assert Before(parts, 1) == 4;
    assert Before(parts, 2) == 8;
    assert Before(parts, 3) == 8 + Word(h);
    assert Before(parts, 4) == 8 + 2 * Word(h);
    PartReads(data, base, parts, h.little, 0);
    PartReads(data, base, parts, h.little, 1);
    PartReads(data, base, parts, h.little, 4);
  }
}
