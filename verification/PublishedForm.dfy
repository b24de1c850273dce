/** What keeps a linked ELF file from its published form (artefact_store.py:674-721): the walk over section headers for a
    symbol table, the walk over dynamic segments for a runpath, and what the two find. */
module PublishedForm {
  import opened Options
  import opened ElfBytes
  import opened DynamicSection

  const SHT_SYMTAB := 2

  /** ".symtab" and ".debug". */
  const SYMTAB := ".symtab"
  const DEBUG := ".debug"

  /** What the file header says of the section headers. */
  datatype Table = Table(shoff: nat, shentsize: nat, shnum: nat, shstrndx: nat)

  function TableOf(data: seq<Byte>): Table
    requires IsElf(data)
  {
    var little := data[5] == 1;
    if data[4] == 2 then
      Table(HeaderField(data, 40, 8, little), HeaderField(data, 58, 2, little), HeaderField(data, 60, 2, little),
            HeaderField(data, 62, 2, little))
    else
      Table(HeaderField(data, 32, 4, little), HeaderField(data, 46, 2, little), HeaderField(data, 48, 2, little),
            HeaderField(data, 50, 2, little))
  }

  datatype Section = Section(name: nat, kind: nat, offset: nat)

  function SectionAt(data: seq<Byte>, h: Header, base: nat): Option<Section> {
    var name, kind := Field(data, base, 4, h.little), Field(data, base + 4, 4, h.little);
    var offset := Field(data, base + (if h.wide then 24 else 16), Word(h), h.little);
    if name.Some? && kind.Some? && offset.Some? then Some(Section(name.value, kind.value, offset.value)) else None
  }

  /** A file with no section headers at all names none, whatever its count says. */
  function SectionCount(t: Table): nat {
    if t.shoff == 0 then 0 else t.shnum
  }

  /** The first `count` section headers; None where the file is too short for one. */
  function SectionsUpto(data: seq<Byte>, h: Header, t: Table, count: nat): Option<seq<Section>> {
    if count == 0 then Some([])
    else
      var before, own := SectionsUpto(data, h, t, count - 1), SectionAt(data, h, t.shoff + (count - 1) * t.shentsize);
      if before.Some? && own.Some? then Some(before.value + [own.value]) else None
  }

  /** Where the section names stand in the file, if a section holds them. */
  function NamesAt(sections: seq<Section>, t: Table): Option<nat> {
    if 0 < t.shstrndx < |sections| then Some(sections[t.shstrndx].offset) else None
  }

  /** `section_name`; None where the name does not end in the file. */
  function SectionName(data: seq<Byte>, names: Option<nat>, section: Section): Option<Name> {
    if names.None? then Some(Name("")) else NameAt(data, names.value + section.name)
  }

  predicate SymbolName(name: Name) {
    name.text == SYMTAB || (|name.text| >= |DEBUG| && name.text[..|DEBUG|] == DEBUG)
  }

  /** The first section, from `i` on, that is a symbol table or is named as one, the names of those before it read. */
  function SymbolsFrom(data: seq<Byte>, names: Option<nat>, sections: seq<Section>, i: nat): Option<bool>
    decreases |sections| - i
  {
    if i >= |sections| then Some(false)
    else if sections[i].kind == SHT_SYMTAB then Some(true)
    else
      match SectionName(data, names, sections[i])
      case None => None
      case Some(name) => if SymbolName(name) then Some(true) else SymbolsFrom(data, names, sections, i + 1)
  }

  function SymbolsOf(data: seq<Byte>): Option<bool>
    requires IsElf(data)
  {
    var t := TableOf(data);
    match SectionsUpto(data, HeaderOf(data), t, SectionCount(t))
    case None => None
    case Some(sections) => SymbolsFrom(data, NamesAt(sections, t), sections, 0)
  }

  /** The defects, `symbol table` at most once and `runpath` once for each dynamic segment that has one. */
  datatype Defects = Defects(symbols: bool, runpaths: nat)

  /** `elf_published_defects`; None where the source raises. */
  function DefectsOf(data: seq<Byte>): Option<Defects> {
    if !IsElf(data) || !Linked(HeaderOf(data)) then Some(Defects(false, 0))
    else
      var symbols, runpaths := SymbolsOf(data), PublishedRunpaths(data);
      if symbols.Some? && runpaths.Some? then Some(Defects(symbols.value, runpaths.value)) else None
  }

  /* ---------------------------------------------------------------- the loops */

  method ReadSections(data: seq<Byte>, h: Header, t: Table) returns (sections: Option<seq<Section>>)
    ensures sections == SectionsUpto(data, h, t, SectionCount(t))
  {
    var sofar: seq<Section> := [];
    for index := 0 to SectionCount(t)
      invariant SectionsUpto(data, h, t, index) == Some(sofar)
    {
      var own := SectionAt(data, h, t.shoff + index * t.shentsize);
      if own.None? {
        CutStays(data, h, t, index + 1, SectionCount(t));
        return None;
      }
      sofar := sofar + [own.value];
    }
    return Some(sofar);
  }

  lemma {:induction false} CutStays(data: seq<Byte>, h: Header, t: Table, count: nat, more: nat)
    requires SectionsUpto(data, h, t, count).None? && count <= more
    ensures SectionsUpto(data, h, t, more).None?
    decreases more
  {
    if count < more { CutStays(data, h, t, count, more - 1); }
  }

  method FindSymbols(data: seq<Byte>, names: Option<nat>, sections: seq<Section>) returns (found: Option<bool>)
    ensures found == SymbolsFrom(data, names, sections, 0)
  {
    for i := 0 to |sections|
      invariant SymbolsFrom(data, names, sections, i) == SymbolsFrom(data, names, sections, 0)
    {
      if sections[i].kind == SHT_SYMTAB { return Some(true); }
      var name := SectionName(data, names, sections[i]);
      if name.None? { return None; }
      if SymbolName(name.value) { return Some(true); }
    }
    return Some(false);
  }

  /** The loop over the tags of one dynamic segment. */
  method FindRunpath(data: seq<Byte>, h: Header, start: nat, end: nat) returns (found: Option<bool>)
    ensures found == RunpathFrom(data, h, start, end)
  {
    var cursor := start;
    while cursor + EntrySize(h) <= end
      invariant RunpathFrom(data, h, cursor, end) == RunpathFrom(data, h, start, end)
      decreases end - cursor
    {
      var tag := Field(data, cursor, Word(h), h.little);
      if tag.None? { return None; }
      if tag.value == DT_NULL { return Some(false); }
      if IsRunpath(tag.value) { return Some(true); }
      cursor := cursor + EntrySize(h);
    }
    return Some(false);
  }

  /** The loop over program headers. */
  method CountRunpaths(data: seq<Byte>, h: Header) returns (count: Option<nat>)
    ensures count == RunpathsUpto(data, h, h.phnum)
  {
    var sofar: nat := 0;
    for index := 0 to h.phnum
      invariant RunpathsUpto(data, h, index) == Some(sofar)
    {
      var own := SearchSegment(data, h, EntryAt(h, index));
      if own.None? {
        UncountedStays(data, h, index + 1, h.phnum);
        return None;
      }
      if own.value { sofar := sofar + 1; }
    }
    return Some(sofar);
  }

  method SearchSegment(data: seq<Byte>, h: Header, base: nat) returns (found: Option<bool>)
    ensures found == RunpathAt(data, h, base)
  {
    var kind := Field(data, base, 4, h.little);
    if kind.None? { return None; }
    if kind.value != PT_DYNAMIC { return Some(false); }
    var range := RangeAt(data, h, base);
    if range.None? { return None; }
    found := FindRunpath(data, h, range.value.offset, range.value.offset + range.value.size);
  }

  lemma {:induction false} UncountedStays(data: seq<Byte>, h: Header, count: nat, more: nat)
    requires RunpathsUpto(data, h, count).None? && count <= more
    ensures RunpathsUpto(data, h, more).None?
    decreases more
  {
    if count < more { UncountedStays(data, h, count, more - 1); }
  }

  method PublishedDefects(data: seq<Byte>) returns (defects: Option<Defects>)
    ensures defects == DefectsOf(data)
  {
    if !IsElf(data) || !Linked(HeaderOf(data)) { return Some(Defects(false, 0)); }
    var h, t := HeaderOf(data), TableOf(data);
    var sections := ReadSections(data, h, t);
    if sections.None? { return None; }
    var symbols := FindSymbols(data, NamesAt(sections.value, t), sections.value);
    if symbols.None? { return None; }
    var runpaths := CountRunpaths(data, h);
    if runpaths.None? { return None; }
    return Some(Defects(symbols.value, runpaths.value));
  }

  /* ---------------------------------------------------------------- what the two walks find */

  /** A section that makes the file unpublishable. */
  predicate IsSymbols(data: seq<Byte>, names: Option<nat>, section: Section) {
    section.kind == SHT_SYMTAB
    || (SectionName(data, names, section).Some? && SymbolName(SectionName(data, names, section).value))
  }

  predicate NameReadable(data: seq<Byte>, names: Option<nat>, section: Section) {
    section.kind == SHT_SYMTAB || SectionName(data, names, section).Some?
  }

  /** The first section at which the search ends: it is a symbol table, or its name does not end in the file. */
  ghost predicate Ends(data: seq<Byte>, names: Option<nat>, sections: seq<Section>, i: nat, k: int) {
    i <= k < |sections| && (IsSymbols(data, names, sections[k]) || !NameReadable(data, names, sections[k]))
    && forall j :: i <= j < k ==> !IsSymbols(data, names, sections[j]) && NameReadable(data, names, sections[j])
  }

  /** THE SEARCH: a symbol table is reported exactly when one comes before every unreadable name, and the reading fails
      exactly when an unreadable name comes before every symbol table. */
  lemma {:induction false} SymbolsAre(data: seq<Byte>, names: Option<nat>, sections: seq<Section>, i: nat)
    requires i <= |sections|
    ensures SymbolsFrom(data, names, sections, i) == Some(true) <==>
            exists k :: Ends(data, names, sections, i, k) && IsSymbols(data, names, sections[k])
    ensures SymbolsFrom(data, names, sections, i) == None <==>
            exists k :: Ends(data, names, sections, i, k) && !NameReadable(data, names, sections[k])
    decreases |sections| - i
  {
    if i < |sections| {
      if IsSymbols(data, names, sections[i]) || !NameReadable(data, names, sections[i]) {
        assert Ends(data, names, sections, i, i);
      } else {
        SymbolsAre(data, names, sections, i + 1);
        forall k | k > i ensures Ends(data, names, sections, i, k) <==> Ends(data, names, sections, i + 1, k) {}
      }
    }
  }

  /** THE WHOLE PUBLISHED READING, beside `dynamic`: on a linked image with exactly one dynamic segment that `dynamic`
      accepts, it fails exactly when the section walk does, and otherwise reports one runpath or none as `dynamic` says. */
  lemma DefectsAgree(data: seq<Byte>, only: nat)
    requires OnlyDynamic(data, only) && Linked(HeaderOf(data)) && DynamicOf(data).Accepted?
    ensures DefectsOf(data).None? <==> SymbolsOf(data).None?
    ensures DefectsOf(data).Some? ==>
              DefectsOf(data).value == Defects(SymbolsOf(data).value, if DynamicOf(data).section.runpath then 1 else 0)
  {
    ReadersAgree(data, only);
  }
}
