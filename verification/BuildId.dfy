/** The GNU build-id of a linked ELF file (artefact_store.py:617-656): the walk over program headers and notes, and the
    proof that it finds what a note encoder wrote, in either class and byte order (System V gABI, chapter 5, Note
    Section). */
module BuildId {
  import opened Options
  import opened ElfBytes

  const PT_NOTE := 4
  const NT_GNU_BUILD_ID := 3
  const GNU_NOTE_NAME: seq<Byte> := [0x47, 0x4E, 0x55, 0x00]

  /** `Cut` is where the source's `struct.unpack_from` raises: the file is too short for what it says of itself. */
  datatype Search = Hit(id: seq<Byte>) | Nothing | Cut

  /** `NotLinked` is None; `NoBuildId` is the error of that name. */
  datatype Outcome = BuildId(id: seq<Byte>) | NotLinked | NoBuildId | Broken

  function Aligned(n: nat): (r: nat)
    ensures n <= r < n + 4 && r % 4 == 0
  {
    (n + 3) / 4 * 4
  }

  /** The three words of a note's header. */
  datatype NoteHead = NoteHead(namesz: nat, descsz: nat, kind: nat)

  function NoteHeadAt(data: seq<Byte>, pos: nat, little: bool): Option<NoteHead> {
    var namesz, descsz := Field(data, pos, 4, little), Field(data, pos + 4, 4, little);
    var kind := Field(data, pos + 8, 4, little);
    if namesz.Some? && descsz.Some? && kind.Some? then Some(NoteHead(namesz.value, descsz.value, kind.value)) else None
  }

  function NextNote(pos: nat, head: NoteHead): nat {
    pos + 12 + Aligned(head.namesz) + Aligned(head.descsz)
  }

  predicate IsBuildId(data: seq<Byte>, pos: nat, head: NoteHead) {
    head.kind == NT_GNU_BUILD_ID && Slice(data, pos + 12, pos + 12 + head.namesz) == GNU_NOTE_NAME
  }

  function DescAt(data: seq<Byte>, pos: nat, head: NoteHead): seq<Byte> {
    var at := pos + 12 + Aligned(head.namesz);
    Slice(data, at, at + head.descsz)
  }

  /** The notes from `cursor` up to `end`. */
  function Notes(data: seq<Byte>, little: bool, cursor: nat, end: nat): Search
    decreases end - cursor
  {
    if cursor + 12 > end then Nothing
    else
      var head := NoteHeadAt(data, cursor, little);
      if head.None? then Cut
      else if IsBuildId(data, cursor, head.value) then Hit(DescAt(data, cursor, head.value))
      else Notes(data, little, NextNote(cursor, head.value), end)
  }

  /** The notes of the program header at `base`. */
  function SegmentNotes(data: seq<Byte>, h: Header, base: nat): Search {
    var kind := Field(data, base, 4, h.little);
    if kind.None? then Cut
    else if kind.value != PT_NOTE then Nothing
    else
      match RangeAt(data, h, base)
      case None => Cut
      case Some(range) => Notes(data, h.little, range.offset, range.offset + range.size)
  }

  function Segments(data: seq<Byte>, h: Header, index: nat): Search
    decreases h.phnum - index
  {
    if index >= h.phnum then Nothing
    else
      var found := SegmentNotes(data, h, EntryAt(h, index));
      if found.Nothing? then Segments(data, h, index + 1) else found
  }

  /** `elf_build_id`. */
  function BuildIdOf(data: seq<Byte>): Outcome {
    if !IsElf(data) || !Linked(HeaderOf(data)) then NotLinked
    else
      match Segments(data, HeaderOf(data), 0)
      case Hit(id) => BuildId(id)
      case Nothing => NoBuildId
      case Cut => Broken
  }

  /* ---------------------------------------------------------------- the loops */

  method WalkNotes(data: seq<Byte>, little: bool, offset: nat, end: nat) returns (found: Search)
    ensures found == Notes(data, little, offset, end)
  {
    var cursor := offset;
    while cursor + 12 <= end
      invariant Notes(data, little, cursor, end) == Notes(data, little, offset, end)
      decreases end - cursor
    {
      var head := NoteHeadAt(data, cursor, little);
      if head.None? { return Cut; }
      if IsBuildId(data, cursor, head.value) { return Hit(DescAt(data, cursor, head.value)); }
      cursor := NextNote(cursor, head.value);
    }
    return Nothing;
  }

  /** The body of the loop over program headers. */
  method SearchSegment(data: seq<Byte>, h: Header, base: nat) returns (found: Search)
    ensures found == SegmentNotes(data, h, base)
  {
    var kind := Field(data, base, 4, h.little);
    if kind.None? { return Cut; }
    if kind.value != PT_NOTE { return Nothing; }
    var range := RangeAt(data, h, base);
    if range.None? { return Cut; }
    found := WalkNotes(data, h.little, range.value.offset, range.value.offset + range.value.size);
  }

  method ElfBuildId(data: seq<Byte>) returns (outcome: Outcome)
    ensures outcome == BuildIdOf(data)
  {
    if !IsElf(data) { return NotLinked; }
    var h := HeaderOf(data);
    if !Linked(h) { return NotLinked; }
    var index := 0;
    while index < h.phnum
      invariant index <= h.phnum && Segments(data, h, index) == Segments(data, h, 0)
    {
      var found := SearchSegment(data, h, EntryAt(h, index));
      if found.Cut? { return Broken; }
      if found.Hit? { return BuildId(found.id); }
      index := index + 1;
    }
    return NoBuildId;
  }

  /* ---------------------------------------------------------------- the encoder */

  datatype Note = Note(name: seq<Byte>, kind: nat, desc: seq<Byte>)

  datatype Segment = Segment(kind: nat, offset: nat, filesz: nat, notes: seq<Note>)

  function Zeros(n: nat): (s: seq<Byte>)
    ensures |s| == n
  {
    if n == 0 then [] else [0] + Zeros(n - 1)
  }

  function Padded(s: seq<Byte>): (r: seq<Byte>)
    ensures |r| == Aligned(|s|)
  {
    s + Zeros(Aligned(|s|) - |s|)
  }

  function NoteBytes(note: Note, little: bool): seq<Byte> {
    Encoded(|note.name|, 4, little)
    + (Encoded(|note.desc|, 4, little)
       + (Encoded(note.kind, 4, little)
          + (Padded(note.name) + Padded(note.desc))))
  }

  function NotesBytes(notes: seq<Note>, little: bool): seq<Byte> {
    if notes == [] then [] else NoteBytes(notes[0], little) + NotesBytes(notes[1..], little)
  }

  predicate LegalNote(note: Note) {
    |note.name| < Limit(4) && |note.desc| < Limit(4) && note.kind < Limit(4)
  }

  predicate LegalNotes(notes: seq<Note>) {
    notes == [] || (LegalNote(notes[0]) && LegalNotes(notes[1..]))
  }

  /** The program header at `base`, and the notes it covers, stand as the segment says. */
  predicate SegmentStands(data: seq<Byte>, h: Header, base: nat, segment: Segment) {
    && segment.kind < Limit(4) && At(data, base, Encoded(segment.kind, 4, h.little))
    && (segment.kind == PT_NOTE ==>
          segment.offset < Limit(Word(h)) && segment.filesz < Limit(Word(h))
          && At(data, base + OffsetAt(h), Encoded(segment.offset, Word(h), h.little))
          && At(data, base + SizeAt(h), Encoded(segment.filesz, Word(h), h.little))
          && LegalNotes(segment.notes) && segment.filesz == |NotesBytes(segment.notes, h.little)|
          && At(data, segment.offset, NotesBytes(segment.notes, h.little)))
  }

  /** A linked image whose program headers are the segments. */
  predicate WellFormed(data: seq<Byte>, segments: seq<Segment>) {
    IsElf(data) && Linked(HeaderOf(data)) && HeaderOf(data).phnum == |segments|
    && forall i :: 0 <= i < |segments| ==> SegmentStands(data, HeaderOf(data), EntryAt(HeaderOf(data), i), segments[i])
  }

  /** The first GNU build-id among notes, and among segments in program-header order. */
  function FirstNote(notes: seq<Note>): Option<seq<Byte>> {
    if notes == [] then None
    else if HoldsBuildId(notes[0]) then Some(notes[0].desc)
    else FirstNote(notes[1..])
  }

  function FirstBuildId(segments: seq<Segment>): Option<seq<Byte>> {
    if segments == [] then None
    else
      var own := if segments[0].kind == PT_NOTE then FirstNote(segments[0].notes) else None;
      if own.Some? then own else FirstBuildId(segments[1..])
  }

  /* ---------------------------------------------------------------- the walk inverts the encoder */

  /** Where the parts of an encoded note stand. */
  lemma NoteParts(data: seq<Byte>, pos: nat, note: Note, little: bool, nameAt: nat, descAt: nat)
    requires At(data, pos, NoteBytes(note, little)) && nameAt == pos + 12 && descAt == nameAt + Aligned(|note.name|)
    ensures At(data, pos, Encoded(|note.name|, 4, little)) && At(data, pos + 4, Encoded(|note.desc|, 4, little))
    ensures At(data, pos + 8, Encoded(note.kind, 4, little))
    ensures At(data, nameAt, note.name) && At(data, descAt, note.desc)
    ensures |NoteBytes(note, little)| == 12 + Aligned(|note.name|) + Aligned(|note.desc|)
  {
    var name, desc := Padded(note.name), Padded(note.desc);
    var kind := Encoded(note.kind, 4, little);
    AtSplit(data, pos, Encoded(|note.name|, 4, little), Encoded(|note.desc|, 4, little) + (kind + (name + desc)), pos + 4);
    AtSplit(data, pos + 4, Encoded(|note.desc|, 4, little), kind + (name + desc), pos + 8);
    AtSplit(data, pos + 8, kind, name + desc, nameAt);
    AtSplit(data, nameAt, name, desc, descAt);
    AtSplit(data, nameAt, note.name, Zeros(Aligned(|note.name|) - |note.name|), nameAt + |note.name|);
    AtSplit(data, descAt, note.desc, Zeros(Aligned(|note.desc|) - |note.desc|), descAt + |note.desc|);
  }

  function HeadOf(note: Note): NoteHead {
    NoteHead(|note.name|, |note.desc|, note.kind)
  }

  lemma HeadReads(data: seq<Byte>, pos: nat, little: bool, head: NoteHead)
    requires head.namesz < Limit(4) && head.descsz < Limit(4) && head.kind < Limit(4)
    requires At(data, pos, Encoded(head.namesz, 4, little)) && At(data, pos + 4, Encoded(head.descsz, 4, little))
    requires At(data, pos + 8, Encoded(head.kind, 4, little))
    ensures NoteHeadAt(data, pos, little) == Some(head)
  {
    FieldReadsBack(data, pos, head.namesz, 4, little);
    FieldReadsBack(data, pos + 4, head.descsz, 4, little);
    FieldReadsBack(data, pos + 8, head.kind, 4, little);
  }

  lemma DescReads(data: seq<Byte>, pos: nat, note: Note, descAt: nat)
    requires descAt == pos + 12 + Aligned(|note.name|) && At(data, descAt, note.desc)
    ensures DescAt(data, pos, HeadOf(note)) == note.desc
  {
    SliceAt(data, descAt, note.desc);
  }

  /** An encoded note is read as it was written. */
  lemma NoteReads(data: seq<Byte>, pos: nat, note: Note, little: bool, next: nat)
    requires At(data, pos, NoteBytes(note, little)) && LegalNote(note) && next == pos + |NoteBytes(note, little)|
    ensures NoteHeadAt(data, pos, little) == Some(HeadOf(note)) && NextNote(pos, HeadOf(note)) == next >= pos + 12
    ensures Slice(data, pos + 12, pos + 12 + |note.name|) == note.name && DescAt(data, pos, HeadOf(note)) == note.desc
  {
    hide At, NoteBytes, NoteHeadAt, Slice, Encoded;
    var nameAt, descAt := pos + 12, pos + 12 + Aligned(|note.name|);
    NoteParts(data, pos, note, little, nameAt, descAt);
    HeadReads(data, pos, little, HeadOf(note));
    SliceAt(data, nameAt, note.name);
    DescReads(data, pos, note, descAt);
  }

  predicate HoldsBuildId(note: Note) {
    note.kind == NT_GNU_BUILD_ID && note.name == GNU_NOTE_NAME
  }

  /** One turn of the walk over a note that was read. */
  lemma NoteTurn(data: seq<Byte>, pos: nat, note: Note, little: bool, next: nat, end: nat)
    requires NoteHeadAt(data, pos, little) == Some(HeadOf(note)) && NextNote(pos, HeadOf(note)) == next
    requires Slice(data, pos + 12, pos + 12 + |note.name|) == note.name && DescAt(data, pos, HeadOf(note)) == note.desc
    requires pos + 12 <= end
    ensures Notes(data, little, pos, end) == if HoldsBuildId(note) then Hit(note.desc) else Notes(data, little, next, end)
  {
  }

  lemma NotesOpen(notes: seq<Note>, little: bool)
    requires notes != [] && LegalNotes(notes)
    ensures NotesBytes(notes, little) == NoteBytes(notes[0], little) + NotesBytes(notes[1..], little)
    ensures LegalNote(notes[0]) && LegalNotes(notes[1..])
  {
  }

  lemma {:induction false} NotesRead(data: seq<Byte>, pos: nat, notes: seq<Note>, little: bool, end: nat)
    requires At(data, pos, NotesBytes(notes, little)) && LegalNotes(notes)
    requires end == pos + |NotesBytes(notes, little)|
    ensures Notes(data, little, pos, end) == FoundIn(notes)
    decreases |notes|
  {
    if notes != [] {
      hide At, Notes, NoteBytes, NotesBytes, FoundIn, LegalNote, LegalNotes, NoteHeadAt, Slice, DescAt;
      NotesOpen(notes, little);
      var first, rest := NoteBytes(notes[0], little), NotesBytes(notes[1..], little);
      var next := pos + |first|;
      AtSplit(data, pos, first, rest, next);
      NoteReads(data, pos, notes[0], little, next);
      NotesRead(data, next, notes[1..], little, end);
      NoteTurn(data, pos, notes[0], little, next, end);
      FirstOfNotes(notes);
    }
  }

  function FoundIn(notes: seq<Note>): Search {
    if FirstNote(notes).Some? then Hit(FirstNote(notes).value) else Nothing
  }

  lemma FirstOfNotes(notes: seq<Note>)
    requires notes != []
    ensures FoundIn(notes) == if HoldsBuildId(notes[0]) then Hit(notes[0].desc) else FoundIn(notes[1..])
  {
  }

  lemma SegmentReads(data: seq<Byte>, h: Header, base: nat, segment: Segment)
    requires SegmentStands(data, h, base, segment)
    ensures SegmentNotes(data, h, base)
            == if segment.kind == PT_NOTE then FoundIn(segment.notes) else Nothing
  {
    hide At, Encoded, Field, RangeAt, Notes, NotesBytes, LegalNotes, FoundIn;
    FieldReadsBack(data, base, segment.kind, 4, h.little);
    if segment.kind == PT_NOTE {
      RangeReadsBack(data, h, base, segment.offset, segment.filesz);
      NotesRead(data, segment.offset, segment.notes, h.little, segment.offset + segment.filesz);
    }
  }

  lemma {:induction false} SegmentsRead(data: seq<Byte>, h: Header, segments: seq<Segment>, index: nat)
    requires h.phnum == |segments| && index <= |segments|
    requires forall i :: 0 <= i < |segments| ==> SegmentStands(data, h, EntryAt(h, i), segments[i])
    ensures Segments(data, h, index)
            == if FirstBuildId(segments[index..]).Some? then Hit(FirstBuildId(segments[index..]).value) else Nothing
    decreases |segments| - index
  {
    if index < |segments| {
      SegmentReads(data, h, EntryAt(h, index), segments[index]);
      SegmentsRead(data, h, segments, index + 1);
      assert segments[index..][0] == segments[index] && segments[index..][1..] == segments[index + 1..];
    }
  }

  /** THE WALK INVERTS THE ENCODER: on a well-formed linked image, of either class and byte order, the build-id is the
      descriptor of the first GNU build-id note in program-header order, and NoBuildId is raised exactly when there is
      none. */
  lemma BuildIdIsTheFirst(data: seq<Byte>, segments: seq<Segment>)
    requires WellFormed(data, segments)
    ensures BuildIdOf(data)
            == if FirstBuildId(segments).Some? then BuildId(FirstBuildId(segments).value) else NoBuildId
  {
    SegmentsRead(data, HeaderOf(data), segments, 0);
    assert segments[0..] == segments;
  }
}
