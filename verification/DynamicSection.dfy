/** Two readers of the dynamic section of an ELF file: `dynamic` (consumer_verdict.py:114-180) and the runpath reading of
    `elf_published_defects` (artefact_store.py:706-721). */
module DynamicSection {
  import opened Options
  import opened ElfBytes
  import opened Sorting

  const PT_LOAD := 1
  const PT_DYNAMIC := 2
  const DT_NULL := 0
  const DT_NEEDED := 1
  const DT_STRTAB := 5
  const DT_RPATH := 15
  const DT_RUNPATH := 29
  const DT_VERNEED := 0x6FFF_FFFE
  const DT_VERNEEDNUM := 0x6FFF_FFFF

  /** A name as text, without the null byte that ends it. */
  datatype Name = Name(text: string)

  /** Names read one after the other, or a failure to read one. */
  datatype Names = Names(list: seq<Name>) | Unreadable

  datatype Dynamic = Dynamic(needed: seq<Name>, versionNeeds: seq<Name>, runpath: bool)

  /** `Refused` is the error of that name; `Broken` is where the source's own readers of bytes raise. */
  datatype Outcome = Accepted(section: Dynamic) | Refused | Broken

  datatype Load = Load(vaddr: nat, offset: nat, size: nat)

  datatype Tag = Tag(tag: nat, value: nat)

  /** What was read, then the rest, if that can be read. */
  function Joined<T>(front: seq<T>, rest: Option<seq<T>>): Option<seq<T>> {
    if rest.None? then None else Some(front + rest.value)
  }

  lemma JoinedNone<T>(rest: Option<seq<T>>)
    ensures Joined([], rest) == rest
  {
    if rest.Some? { assert [] + rest.value == rest.value; }
  }

  lemma JoinedMore<T>(front: seq<T>, one: T, rest: Option<seq<T>>)
    ensures Joined(front, Joined([one], rest)) == Joined(front + [one], rest)
  {
    if rest.Some? { assert front + ([one] + rest.value) == (front + [one]) + rest.value; }
  }

  function Following(front: seq<Name>, rest: Names): Names {
    if rest.Unreadable? then Unreadable else Names(front + rest.list)
  }

  lemma FollowingNone(rest: Names)
    ensures Following([], rest) == rest
  {
    if rest.Names? { assert [] + rest.list == rest.list; }
  }

  lemma FollowingAll(front: seq<Name>, more: seq<Name>, rest: Names)
    ensures Following(front, Following(more, rest)) == Following(front + more, rest)
  {
    if rest.Names? { assert front + (more + rest.list) == (front + more) + rest.list; }
  }

  predicate IsRunpath(tag: nat) {
    tag == DT_RPATH || tag == DT_RUNPATH
  }

  /* ---------------------------------------------------------------- the program headers */

  /** What `dynamic` takes from one program header. */
  datatype Segment = Segment(kind: nat, vaddr: nat, range: Range)

  function SegmentAt(data: seq<Byte>, h: Header, base: nat): Option<Segment> {
    var kind, range := Field(data, base, 4, h.little), RangeAt(data, h, base);
    var vaddr := Field(data, base + OffsetAt(h) + Word(h), Word(h), h.little);
    if kind.Some? && range.Some? && vaddr.Some? then Some(Segment(kind.value, vaddr.value, range.value)) else None
  }

  /** What the loop over program headers has gathered: the loads, and the last dynamic segment. */
  datatype Gathered = Gathered(loads: seq<Load>, dyn: Option<Range>)

  function Gather(g: Gathered, s: Segment): Gathered {
    if s.kind == PT_LOAD then g.(loads := g.loads + [Load(s.vaddr, s.range.offset, s.range.size)])
    else if s.kind == PT_DYNAMIC then g.(dyn := Some(s.range))
    else g
  }

  /** After the first `count` program headers. */
  function GatheredUpto(data: seq<Byte>, h: Header, count: nat): Option<Gathered> {
    if count == 0 then Some(Gathered([], None))
    else
      var before, s := GatheredUpto(data, h, count - 1), SegmentAt(data, h, EntryAt(h, count - 1));
      if before.Some? && s.Some? then Some(Gather(before.value, s.value)) else None
  }

  /** Where the file holds an address: through the first load that maps it. */
  function Mapped(loads: seq<Load>, address: nat): Option<nat> {
    if loads == [] then None
    else if loads[0].vaddr <= address < loads[0].vaddr + loads[0].size then
      Some(loads[0].offset + address - loads[0].vaddr)
    else Mapped(loads[1..], address)
  }

  /* ---------------------------------------------------------------- the tags */

  function EntrySize(h: Header): nat {
    2 * Word(h)
  }

  /** The tags from `cursor` up to the null tag or the end of the segment. */
  function Tags(data: seq<Byte>, h: Header, cursor: nat, end: nat): Option<seq<Tag>>
    decreases end - cursor
  {
    if cursor + EntrySize(h) > end then Some([])
    else
      var tag, value := Field(data, cursor, Word(h), h.little), Field(data, cursor + Word(h), Word(h), h.little);
      if tag.None? || value.None? then None
      else if tag.value == DT_NULL then Some([])
      else Joined([Tag(tag.value, value.value)], Tags(data, h, cursor + EntrySize(h), end))
  }

  /** `dict(tags).get(tag)`: the last value of a tag. */
  function Last(tags: seq<Tag>, tag: nat): Option<nat> {
    if tags == [] then None
    else if tags[|tags| - 1].tag == tag then Some(tags[|tags| - 1].value)
    else Last(tags[..|tags| - 1], tag)
  }

  predicate Carries(tags: seq<Tag>) {
    exists t <- tags :: IsRunpath(t.tag)
  }

  /* ---------------------------------------------------------------- names */

  /** Where the first null byte from `pos` on stands. */
  function NulAt(data: seq<Byte>, pos: nat): Option<nat>
    decreases |data| - pos
  {
    if pos >= |data| then None else if data[pos] == 0 then Some(pos) else NulAt(data, pos + 1)
  }

  const REPLACEMENT := 0xFFFD as char

  /** `decode("ascii", "replace")`. */
  function Decoded(bytes: seq<Byte>): string {
    seq(|bytes|, k requires 0 <= k < |bytes| => if bytes[k] < 128 then bytes[k] as char else REPLACEMENT)
  }

  function NameAt(data: seq<Byte>, pos: nat): Option<Name> {
    var nul := NulAt(data, pos);
    if nul.None? then None else Some(Name(Decoded(Slice(data, pos, nul.value))))
  }

  function NeededNames(data: seq<Byte>, strtab: nat, tags: seq<Tag>): Names {
    if tags == [] then Names([])
    else
      var before, last := NeededNames(data, strtab, tags[..|tags| - 1]), tags[|tags| - 1];
      if before.Unreadable? || last.tag != DT_NEEDED then before
      else
        match NameAt(data, strtab + last.value)
        case None => Unreadable
        case Some(name) => Names(before.list + [name])
  }

  /* ---------------------------------------------------------------- version needs */

  /** The fields the reader takes of a version need's entry: where its name is, and how far the next one. */
  datatype AuxHead = AuxHead(name: nat, next: nat)

  function AuxHeadAt(data: seq<Byte>, pos: nat, little: bool): Option<AuxHead> {
    var name, next := Field(data, pos + 8, 4, little), Field(data, pos + 12, 4, little);
    if name.Some? && next.Some? then Some(AuxHead(name.value, next.value)) else None
  }

  function AuxNames(data: seq<Byte>, little: bool, strtab: nat, pos: nat, count: nat): Names
    decreases count
  {
    if count == 0 then Names([])
    else
      match AuxHeadAt(data, pos, little)
      case None => Unreadable
      case Some(head) =>
        match NameAt(data, strtab + head.name)
        case None => Unreadable
        case Some(name) => Following([name], AuxNames(data, little, strtab, pos + head.next, count - 1))
  }

  /** The fields it takes of a need: how many entries, where they are, and how far the next need, none when zero. */
  datatype NeedHead = NeedHead(count: nat, aux: nat, next: nat)

  function NeedHeadAt(data: seq<Byte>, pos: nat, little: bool): Option<NeedHead> {
    var count, aux := Field(data, pos + 2, 2, little), Field(data, pos + 8, 4, little);
    var next := Field(data, pos + 12, 4, little);
    if count.Some? && aux.Some? && next.Some? then Some(NeedHead(count.value, aux.value, next.value)) else None
  }

  function NeedNames(data: seq<Byte>, little: bool, strtab: nat, cursor: nat, files: nat): Names
    decreases files
  {
    if files == 0 then Names([])
    else
      match NeedHeadAt(data, cursor, little)
      case None => Unreadable
      case Some(head) =>
        var own := AuxNames(data, little, strtab, cursor + head.aux, head.count);
        if own.Unreadable? || head.next == 0 then own
        else Following(own.list, NeedNames(data, little, strtab, cursor + head.next, files - 1))
  }

  predicate NameBefore(a: Name, b: Name) {
    Before(a.text, b.text)
  }

  function Distinct(names: seq<Name>): seq<Name> {
    if names == [] then []
    else (if names[0] in names[1..] then [] else [names[0]]) + Distinct(names[1..])
  }

  /** `sorted(set(names))`. */
  function SortedSet(names: seq<Name>): seq<Name> {
    Sort(NameBefore, Distinct(names))
  }

  function OrZero(value: Option<nat>): nat {
    if value.Some? then value.value else 0
  }

  /** The section its tags describe. */
  function SectionOf(data: seq<Byte>, h: Header, loads: seq<Load>, tags: seq<Tag>): Outcome {
    var table := Last(tags, DT_STRTAB);
    var strtab := if table.Some? then Mapped(loads, table.value) else None;
    if strtab.None? then Refused
    else
      var needed := NeededNames(data, strtab.value, tags);
      if needed.Unreadable? then Broken
      else
        var verneed := Last(tags, DT_VERNEED);
        if verneed.None? then Accepted(Dynamic(needed.list, [], Carries(tags)))
        else
          var start := Mapped(loads, verneed.value);
          if start.None? then Refused
          else
            var names := NeedNames(data, h.little, strtab.value, start.value, OrZero(Last(tags, DT_VERNEEDNUM)));
            if names.Unreadable? then Broken else Accepted(Dynamic(needed.list, SortedSet(names.list), Carries(tags)))
  }

  /** From what the program headers gave. */
  function SectionFrom(data: seq<Byte>, h: Header, g: Gathered): Outcome {
    match g.dyn
    case None => Refused
    case Some(range) =>
      match Tags(data, h, range.offset, range.offset + range.size)
      case None => Broken
      case Some(tags) => SectionOf(data, h, g.loads, tags)
  }

  function SectionIn(data: seq<Byte>, h: Header): Outcome {
    match GatheredUpto(data, h, h.phnum)
    case None => Broken
    case Some(g) => SectionFrom(data, h, g)
  }

  /** `dynamic`. */
  function DynamicOf(data: seq<Byte>): Outcome {
    if IsElf(data) then SectionIn(data, HeaderOf(data)) else Refused
  }

  /* ---------------------------------------------------------------- the published reading */

  /** Whether the tags from `cursor` on, up to the null tag, hold a runpath. */
  function RunpathFrom(data: seq<Byte>, h: Header, cursor: nat, end: nat): Option<bool>
    decreases end - cursor
  {
    if cursor + EntrySize(h) > end then Some(false)
    else
      var tag := Field(data, cursor, Word(h), h.little);
      if tag.None? then None
      else if tag.value == DT_NULL then Some(false)
      else if IsRunpath(tag.value) then Some(true)
      else RunpathFrom(data, h, cursor + EntrySize(h), end)
  }

  /** Whether the program header at `base` is a dynamic segment that holds a runpath. */
  function RunpathAt(data: seq<Byte>, h: Header, base: nat): Option<bool> {
    var kind := Field(data, base, 4, h.little);
    if kind.None? then None
    else if kind.value != PT_DYNAMIC then Some(false)
    else
      var range := RangeAt(data, h, base);
      if range.None? then None
      else RunpathFrom(data, h, range.value.offset, range.value.offset + range.value.size)
  }

  /** How many `runpath` defects the first program headers add. */
  function RunpathsUpto(data: seq<Byte>, h: Header, count: nat): Option<nat> {
    if count == 0 then Some(0)
    else
      var before, own := RunpathsUpto(data, h, count - 1), RunpathAt(data, h, EntryAt(h, count - 1));
      if before.None? || own.None? then None else Some(before.value + if own.value then 1 else 0)
  }

  /** The number of `runpath` entries in the defects; None where the source raises. */
  function PublishedRunpaths(data: seq<Byte>): Option<nat> {
    if !IsElf(data) || !Linked(HeaderOf(data)) then Some(0)
    else RunpathsUpto(data, HeaderOf(data), HeaderOf(data).phnum)
  }

  /* ---------------------------------------------------------------- the loops of `dynamic` */

  method GatherSegments(data: seq<Byte>, h: Header) returns (g: Option<Gathered>)
    ensures g == GatheredUpto(data, h, h.phnum)
  {
    var sofar := Gathered([], None);
    for index := 0 to h.phnum
      invariant GatheredUpto(data, h, index) == Some(sofar)
    {
      var s := SegmentAt(data, h, EntryAt(h, index));
      if s.None? {
        BrokenStays(data, h, index + 1, h.phnum);
        return None;
      }
      sofar := Gather(sofar, s.value);
    }
    return Some(sofar);
  }

  lemma {:induction false} BrokenStays(data: seq<Byte>, h: Header, count: nat, more: nat)
    requires GatheredUpto(data, h, count).None? && count <= more
    ensures GatheredUpto(data, h, more).None?
    decreases more
  {
    if count < more { BrokenStays(data, h, count, more - 1); }
  }

  method ReadTags(data: seq<Byte>, h: Header, start: nat, end: nat) returns (tags: Option<seq<Tag>>)
    ensures tags == Tags(data, h, start, end)
  {
    var cursor: nat, sofar: seq<Tag> := start, [];
    JoinedNone(Tags(data, h, start, end));
    while cursor + EntrySize(h) <= end
      invariant Tags(data, h, start, end) == Joined(sofar, Tags(data, h, cursor, end))
      decreases end - cursor
    {
      var tag, value := Field(data, cursor, Word(h), h.little), Field(data, cursor + Word(h), Word(h), h.little);
      if tag.None? || value.None? { return None; }
      if tag.value == DT_NULL {
        assert sofar + [] == sofar;
        return Some(sofar);
      }
      JoinedMore(sofar, Tag(tag.value, value.value), Tags(data, h, cursor + EntrySize(h), end));
      sofar := sofar + [Tag(tag.value, value.value)];
      cursor := cursor + EntrySize(h);
    }
    assert sofar + [] == sofar;
    return Some(sofar);
  }

  /** One turn of the loop over a need's entries. */
  lemma AuxTurn(data: seq<Byte>, little: bool, strtab: nat, pos: nat, left: nat, head: AuxHead, name: Name, next: nat)
    requires left > 0 && AuxHeadAt(data, pos, little) == Some(head) && next == pos + head.next
    requires NameAt(data, strtab + head.name) == Some(name)
    ensures AuxNames(data, little, strtab, pos, left) == Following([name], AuxNames(data, little, strtab, next, left - 1))
  {
  }

  method ReadAuxes(data: seq<Byte>, little: bool, strtab: nat, start: nat, count: nat) returns (names: Names)
    ensures names == AuxNames(data, little, strtab, start, count)
  {
    hide AuxHeadAt, NameAt;
    var at: nat, sofar: seq<Name>, left: nat := start, [], count;
    ghost var whole := AuxNames(data, little, strtab, start, count);
    FollowingNone(whole);
    while left > 0
      invariant whole == Following(sofar, AuxNames(data, little, strtab, at, left))
    {
      match AuxHeadAt(data, at, little) {
        case None => return Unreadable;
        case Some(head) =>
          match NameAt(data, strtab + head.name) {
            case None => return Unreadable;
            case Some(name) =>
              var next := at + head.next;
              AuxTurn(data, little, strtab, at, left, head, name, next);
              FollowingAll(sofar, [name], AuxNames(data, little, strtab, next, left - 1));
              sofar, at, left := sofar + [name], next, left - 1;
          }
      }
    }
    assert sofar + [] == sofar;
    return Names(sofar);
  }

  /** What is read in all when a need gave its own names, and the next is `far` away, or none when zero. */
  function NeedThen(own: Names, far: nat, rest: Names): Names {
    if own.Unreadable? || far == 0 then own else Following(own.list, rest)
  }

  lemma NeedTurn(data: seq<Byte>, little: bool, strtab: nat, cursor: nat, left: nat, head: NeedHead, own: Names, next: nat)
    requires left > 0 && NeedHeadAt(data, cursor, little) == Some(head) && next == cursor + head.next
    requires AuxNames(data, little, strtab, cursor + head.aux, head.count) == own
    ensures NeedNames(data, little, strtab, cursor, left)
            == NeedThen(own, head.next, NeedNames(data, little, strtab, next, left - 1))
  {
    hide AuxNames, NeedHeadAt;
  }

  /** What a need's own names make of all that is to be read. */
  lemma Turned(whole: Names, sofar: seq<Name>, own: Names, far: nat, here: Names, rest: Names)
    requires whole == Following(sofar, here) && here == NeedThen(own, far, rest)
    ensures own.Unreadable? ==> whole == Unreadable
    ensures own.Names? && far == 0 ==> whole == Names(sofar + own.list)
    ensures own.Names? && far != 0 ==> whole == Following(sofar + own.list, rest)
  {
    if own.Names? { FollowingAll(sofar, own.list, rest); }
  }

  /** One version need: its names after those read so far, and how far the next. */
  method ReadNeed(data: seq<Byte>, little: bool, strtab: nat, cursor: nat, ghost left: nat, sofar: seq<Name>,
                  ghost whole: Names)
    returns (more: Names, far: nat)
    requires left > 0 && whole == Following(sofar, NeedNames(data, little, strtab, cursor, left))
    ensures more.Unreadable? || far == 0 ==> whole == more
    ensures more.Names? && far != 0 ==>
              whole == Following(more.list, NeedNames(data, little, strtab, cursor + far, left - 1))
  {
    hide AuxNames, NeedHeadAt, NameAt;
    match NeedHeadAt(data, cursor, little) {
      case None => return Unreadable, 0;
      case Some(head) =>
        var own := ReadAuxes(data, little, strtab, cursor + head.aux, head.count);
        var next := cursor + head.next;
        NeedTurn(data, little, strtab, cursor, left, head, own, next);
        Turned(whole, sofar, own, head.next, NeedNames(data, little, strtab, cursor, left),
               NeedNames(data, little, strtab, next, left - 1));
        far := head.next;
        more := if own.Names? then Names(sofar + own.list) else Unreadable;
    }
  }

  method ReadNeeds(data: seq<Byte>, little: bool, strtab: nat, start: nat, files: nat) returns (names: Names)
    ensures names == NeedNames(data, little, strtab, start, files)
  {
    hide AuxNames, NeedHeadAt;
    var cursor: nat, left: nat := start, files;
    names := Names([]);
    ghost var whole := NeedNames(data, little, strtab, start, files);
    FollowingNone(whole);
    while left > 0
      invariant names.Names? && whole == Following(names.list, NeedNames(data, little, strtab, cursor, left))
    {
      var far;
      names, far := ReadNeed(data, little, strtab, cursor, left, names.list, whole);
      if names.Unreadable? || far == 0 { return; }
      cursor, left := cursor + far, left - 1;
    }
    assert names.list + [] == names.list;
  }

  method ReadNeeded(data: seq<Byte>, strtab: nat, tags: seq<Tag>) returns (names: Names)
    ensures names == NeededNames(data, strtab, tags)
  {
    var sofar := [];
    for i := 0 to |tags|
      invariant NeededNames(data, strtab, tags[..i]) == Names(sofar)
    {
      assert tags[..i + 1][..i] == tags[..i];
      if tags[i].tag == DT_NEEDED {
        var name := NameAt(data, strtab + tags[i].value);
        if name.None? {
          BrokenNames(data, strtab, tags, i + 1);
          return Unreadable;
        }
        sofar := sofar + [name.value];
      }
    }
    assert tags[..|tags|] == tags;
    return Names(sofar);
  }

  lemma {:induction false} BrokenNames(data: seq<Byte>, strtab: nat, tags: seq<Tag>, count: nat)
    requires count <= |tags| && NeededNames(data, strtab, tags[..count]).Unreadable?
    ensures NeededNames(data, strtab, tags).Unreadable?
    decreases |tags| - count
  {
    if count < |tags| {
      assert tags[..count + 1][..count] == tags[..count];
      BrokenNames(data, strtab, tags, count + 1);
    } else {
      assert tags[..count] == tags;
    }
  }

  method ReadSection(data: seq<Byte>, h: Header, loads: seq<Load>, tags: seq<Tag>) returns (outcome: Outcome)
    ensures outcome == SectionOf(data, h, loads, tags)
  {
    var table := Last(tags, DT_STRTAB);
    if table.None? { return Refused; }
    var strtab := Mapped(loads, table.value);
    if strtab.None? { return Refused; }
    var needed := ReadNeeded(data, strtab.value, tags);
    if needed.Unreadable? { return Broken; }
    var names: seq<Name> := [];
    var verneed := Last(tags, DT_VERNEED);
    if verneed.Some? {
      var start := Mapped(loads, verneed.value);
      if start.None? { return Refused; }
      var read := ReadNeeds(data, h.little, strtab.value, start.value, OrZero(Last(tags, DT_VERNEEDNUM)));
      if read.Unreadable? { return Broken; }
      names := read.list;
    }
    outcome := Accepted(Dynamic(needed.list, SortedSet(names), Carries(tags)));
  }

  method ReadFrom(data: seq<Byte>, h: Header, g: Gathered) returns (outcome: Outcome)
    ensures outcome == SectionFrom(data, h, g)
  {
    if g.dyn.None? { return Refused; }
    var range := g.dyn.value;
    var tags := ReadTags(data, h, range.offset, range.offset + range.size);
    if tags.None? { return Broken; }
    outcome := ReadSection(data, h, g.loads, tags.value);
  }

  method ReadDynamic(data: seq<Byte>) returns (outcome: Outcome)
    ensures outcome == DynamicOf(data)
  {
    if !IsElf(data) { return Refused; }
    var h := HeaderOf(data);
    var g := GatherSegments(data, h);
    if g.None? { return Broken; }
    outcome := ReadFrom(data, h, g.value);
  }

  /* ---------------------------------------------------------------- the two readers agree */

  /** Where the tags are readable, the shorter scan finds a runpath exactly when one is among them. */
  lemma {:induction false} ScanFindsRunpath(data: seq<Byte>, h: Header, cursor: nat, end: nat)
    requires Tags(data, h, cursor, end).Some?
    ensures RunpathFrom(data, h, cursor, end) == Some(Carries(Tags(data, h, cursor, end).value))
    decreases end - cursor
  {
    if cursor + EntrySize(h) <= end {
      var tag, value := Field(data, cursor, Word(h), h.little).value, Field(data, cursor + Word(h), Word(h), h.little).value;
      if tag != DT_NULL {
        var rest := Tags(data, h, cursor + EntrySize(h), end).value;
        ScanFindsRunpath(data, h, cursor + EntrySize(h), end);
        CarriesMore(Tag(tag, value), rest);
      }
    }
  }

  lemma CarriesMore(t: Tag, rest: seq<Tag>)
    ensures Carries([t] + rest) <==> IsRunpath(t.tag) || Carries(rest)
  {
    assert t in [t] + rest && forall u <- rest :: u in [t] + rest;
  }

  predicate DynamicAt(data: seq<Byte>, h: Header, index: nat) {
    Field(data, EntryAt(h, index), 4, h.little) == Some(PT_DYNAMIC)
  }

  /** The dynamic segment of the program header at an index carries a runpath. */
  predicate CarriesAt(data: seq<Byte>, h: Header, index: nat) {
    RunpathAt(data, h, EntryAt(h, index)) == Some(true)
  }

  /** What the gathering keeps: the last dynamic segment of the headers so far. */
  lemma {:induction false} GatheredLast(data: seq<Byte>, h: Header, count: nat)
    requires GatheredUpto(data, h, count).Some?
    ensures var g := GatheredUpto(data, h, count).value;
            (g.dyn.None? <==> forall i: nat :: i < count ==> !DynamicAt(data, h, i))
            && (g.dyn.Some? ==> exists i: nat :: i < count && LastDynamic(data, h, i, count)
                                                && RangeAt(data, h, EntryAt(h, i)) == g.dyn)
  {
    if count > 0 {
      GatheredLast(data, h, count - 1);
      var g := GatheredUpto(data, h, count - 1).value;
      if DynamicAt(data, h, count - 1) {
        assert LastDynamic(data, h, count - 1, count);
      } else if g.dyn.Some? {
        var i: nat :| i < count - 1 && LastDynamic(data, h, i, count - 1) && RangeAt(data, h, EntryAt(h, i)) == g.dyn;
        assert LastDynamic(data, h, i, count);
      }
    }
  }

  /** The dynamic segment at `i` is the last among the first `count` headers. */
  predicate LastDynamic(data: seq<Byte>, h: Header, i: nat, count: nat) {
    DynamicAt(data, h, i) && forall j: nat :: i < j < count ==> !DynamicAt(data, h, j)
  }

  /** The last dynamic segment's range is the one gathered. */
  lemma LastIsGathered(data: seq<Byte>, h: Header, i: nat)
    requires GatheredUpto(data, h, h.phnum).Some? && i < h.phnum && LastDynamic(data, h, i, h.phnum)
    ensures GatheredUpto(data, h, h.phnum).value.dyn.Some?
    ensures RangeAt(data, h, EntryAt(h, i)) == GatheredUpto(data, h, h.phnum).value.dyn
  {
    GatheredLast(data, h, h.phnum);
    var range := GatheredUpto(data, h, h.phnum).value.dyn;
    var j: nat :| j < h.phnum && LastDynamic(data, h, j, h.phnum) && RangeAt(data, h, EntryAt(h, j)) == range;
    assert i == j;
  }

  /** What an accepted file's reading went through. */
  lemma AcceptedParts(data: seq<Byte>) returns (range: Range, tags: seq<Tag>)
    requires IsElf(data) && DynamicOf(data).Accepted?
    ensures var h := HeaderOf(data);
            GatheredUpto(data, h, h.phnum).Some? && GatheredUpto(data, h, h.phnum).value.dyn == Some(range)
            && Tags(data, h, range.offset, range.offset + range.size) == Some(tags)
    ensures DynamicOf(data).section.runpath <==> Carries(tags)
  {
    var h := HeaderOf(data);
    range := GatheredUpto(data, h, h.phnum).value.dyn.value;
    tags := Tags(data, h, range.offset, range.offset + range.size).value;
  }

  /** `dynamic` sees the runpath of the last dynamic segment, and of no other. */
  lemma DynamicSeesTheLast(data: seq<Byte>, i: nat)
    requires IsElf(data) && DynamicOf(data).Accepted?
    requires i < HeaderOf(data).phnum && LastDynamic(data, HeaderOf(data), i, HeaderOf(data).phnum)
    ensures RunpathAt(data, HeaderOf(data), EntryAt(HeaderOf(data), i)) == Some(DynamicOf(data).section.runpath)
  {
    var range, tags := AcceptedParts(data);
    LastIsGathered(data, HeaderOf(data), i);
    ScanFindsRunpath(data, HeaderOf(data), range.offset, range.offset + range.size);
    RunpathIs(data, HeaderOf(data), EntryAt(HeaderOf(data), i), range);
  }

  lemma RunpathIs(data: seq<Byte>, h: Header, base: nat, range: Range)
    requires Field(data, base, 4, h.little) == Some(PT_DYNAMIC) && RangeAt(data, h, base) == Some(range)
    ensures RunpathAt(data, h, base) == RunpathFrom(data, h, range.offset, range.offset + range.size)
  {
  }

  ghost predicate AnyCarries(data: seq<Byte>, h: Header, count: nat) {
    exists i: nat :: i < count && CarriesAt(data, h, i)
  }

  lemma AnyCarriesNext(data: seq<Byte>, h: Header, count: nat)
    requires count > 0
    ensures AnyCarries(data, h, count) <==> AnyCarries(data, h, count - 1) || CarriesAt(data, h, count - 1)
  {
    if AnyCarries(data, h, count) {
      var i: nat :| i < count && CarriesAt(data, h, i);
      assert i < count - 1 || CarriesAt(data, h, count - 1);
    }
  }

  /** The published reading sees a runpath in any dynamic segment. */
  lemma {:induction false} PublishedSeesAny(data: seq<Byte>, h: Header, count: nat)
    requires RunpathsUpto(data, h, count).Some?
    ensures RunpathsUpto(data, h, count).value > 0 <==> AnyCarries(data, h, count)
  {
    if count > 0 {
      PublishedSeesAny(data, h, count - 1);
      AnyCarriesNext(data, h, count);
    }
  }

  /** WHEN THE TWO READERS AGREE: on a linked image both can read, exactly when its last dynamic segment carries a
      runpath or none of them does. */
  lemma ReadersAgreeIff(data: seq<Byte>, last: nat)
    requires IsElf(data) && Linked(HeaderOf(data)) && DynamicOf(data).Accepted? && PublishedRunpaths(data).Some?
    requires last < HeaderOf(data).phnum && LastDynamic(data, HeaderOf(data), last, HeaderOf(data).phnum)
    ensures (PublishedRunpaths(data).value > 0 <==> DynamicOf(data).section.runpath) <==>
            CarriesAt(data, HeaderOf(data), last) || !AnyCarries(data, HeaderOf(data), HeaderOf(data).phnum)
  {
    hide IsElf, HeaderOf, DynamicOf, RunpathsUpto, RunpathAt, LastDynamic;
    var h := HeaderOf(data);
    DynamicSeesTheLast(data, last);
    PublishedSeesAny(data, h, h.phnum);
    assert CarriesAt(data, h, last) <==> DynamicOf(data).section.runpath;
    if CarriesAt(data, h, last) { assert AnyCarries(data, h, h.phnum); }
  }

  /** No program header but `only` is a dynamic segment. */
  predicate OnlyDynamic(data: seq<Byte>, only: nat) {
    IsElf(data) && only < HeaderOf(data).phnum && DynamicAt(data, HeaderOf(data), only)
    && forall i: nat :: i < HeaderOf(data).phnum && DynamicAt(data, HeaderOf(data), i) ==> i == only
  }

  /** THE TWO READERS AGREE on every linked image with exactly one dynamic segment that `dynamic` accepts: the published
      reading does not fail, and it reports one runpath or none as `dynamic` says. */
  lemma ReadersAgree(data: seq<Byte>, only: nat)
    requires OnlyDynamic(data, only) && Linked(HeaderOf(data)) && DynamicOf(data).Accepted?
    ensures PublishedRunpaths(data) == Some(if DynamicOf(data).section.runpath then 1 else 0)
  {
    var h := HeaderOf(data);
    assert LastDynamic(data, h, only, h.phnum);
    var range, tags := AcceptedParts(data);
    DynamicSeesTheLast(data, only);
    OneRunpath(data, h, only, h.phnum);
  }

  lemma {:induction false} OneRunpath(data: seq<Byte>, h: Header, only: nat, count: nat)
    requires GatheredUpto(data, h, count).Some? && RunpathAt(data, h, EntryAt(h, only)).Some?
    requires forall i: nat :: i < count && DynamicAt(data, h, i) ==> i == only
    ensures RunpathsUpto(data, h, count) == Some(if only < count && CarriesAt(data, h, only) then 1 else 0)
  {
    if count > 0 {
      OneRunpath(data, h, only, count - 1);
      if count - 1 != only { assert !DynamicAt(data, h, count - 1); }
    }
  }

  /* ---------------------------------------------------------------- an encoded version-need chain */

  /** An entry of a version need, with the bytes of its name. */
  datatype Aux = Aux(hash: nat, flags: nat, other: nat, name: nat, next: nat, text: seq<Byte>)

  datatype Need = Need(version: nat, file: nat, aux: nat, next: nat, entries: seq<Aux>)

  function AuxBytes(aux: Aux, little: bool): seq<Byte> {
    Encoded(aux.hash, 4, little)
    + (Encoded(aux.flags, 2, little)
       + (Encoded(aux.other, 2, little) + (Encoded(aux.name, 4, little) + Encoded(aux.next, 4, little))))
  }

  function NeedBytes(need: Need, little: bool): seq<Byte> {
    Encoded(need.version, 2, little)
    + (Encoded(|need.entries|, 2, little)
       + (Encoded(need.file, 4, little) + (Encoded(need.aux, 4, little) + Encoded(need.next, 4, little))))
  }

  /** A name stands at `pos`, ended by its first null byte. */
  predicate NameStands(data: seq<Byte>, pos: nat, text: seq<Byte>) {
    0 !in text && At(data, pos, text + [0])
  }

  predicate AuxesStand(data: seq<Byte>, little: bool, strtab: nat, pos: nat, entries: seq<Aux>)
    decreases |entries|
  {
    entries == []
    || (entries[0].name < Limit(4) && entries[0].next < Limit(4) && At(data, pos, AuxBytes(entries[0], little))
        && NameStands(data, strtab + entries[0].name, entries[0].text)
        && AuxesStand(data, little, strtab, pos + entries[0].next, entries[1..]))
  }

  /** A chain of needs stands at `cursor`, each leading to the next. */
  predicate NeedsStand(data: seq<Byte>, little: bool, strtab: nat, cursor: nat, needs: seq<Need>)
    decreases |needs|
  {
    needs == []
    || (|needs[0].entries| < Limit(2) && needs[0].aux < Limit(4) && needs[0].next < Limit(4)
        && At(data, cursor, NeedBytes(needs[0], little))
        && AuxesStand(data, little, strtab, cursor + needs[0].aux, needs[0].entries)
        && (|needs| > 1 ==> needs[0].next != 0)
        && NeedsStand(data, little, strtab, cursor + needs[0].next, needs[1..]))
  }

  function TextsOf(entries: seq<Aux>): seq<Name> {
    if entries == [] then [] else [Name(Decoded(entries[0].text))] + TextsOf(entries[1..])
  }

  function ChainTexts(needs: seq<Need>): seq<Name> {
    if needs == [] then [] else TextsOf(needs[0].entries) + ChainTexts(needs[1..])
  }

  lemma {:induction false} NulIsFirst(data: seq<Byte>, pos: nat, text: seq<Byte>)
    requires NameStands(data, pos, text)
    ensures NulAt(data, pos) == Some(pos + |text|)
    decreases |text|
  {
    assert text == [] ==> text + [0] == [0];
    if text != [] {
      assert (text + [0])[0] == text[0] && (text + [0])[1..] == text[1..] + [0] && text[0] in text;
      assert forall b <- text[1..] :: b in text;
      NulIsFirst(data, pos + 1, text[1..]);
    }
  }

  lemma NameReads(data: seq<Byte>, pos: nat, text: seq<Byte>)
    requires NameStands(data, pos, text)
    ensures NameAt(data, pos) == Some(Name(Decoded(text)))
  {
    NulIsFirst(data, pos, text);
    AtSplit(data, pos, text, [0], pos + |text|);
    SliceAt(data, pos, text);
  }

  lemma FiveParts(data: seq<Byte>, pos: nat, a: seq<Byte>, b: seq<Byte>, c: seq<Byte>, d: seq<Byte>, e: seq<Byte>,
                  p: nat, q: nat, r: nat, s: nat)
    requires At(data, pos, a + (b + (c + (d + e))))
    requires p == pos + |a| && q == p + |b| && r == q + |c| && s == r + |d|
    ensures At(data, p, b) && At(data, r, d) && At(data, s, e)
  {
    AtSplit(data, pos, a, b + (c + (d + e)), p);
    AtSplit(data, p, b, c + (d + e), q);
    AtSplit(data, q, c, d + e, r);
    AtSplit(data, r, d, e, s);
  }

  lemma AuxReads(data: seq<Byte>, little: bool, pos: nat, aux: Aux)
    requires At(data, pos, AuxBytes(aux, little)) && aux.name < Limit(4) && aux.next < Limit(4)
    ensures AuxHeadAt(data, pos, little) == Some(AuxHead(aux.name, aux.next))
  {
    FiveParts(data, pos, Encoded(aux.hash, 4, little), Encoded(aux.flags, 2, little), Encoded(aux.other, 2, little),
              Encoded(aux.name, 4, little), Encoded(aux.next, 4, little), pos + 4, pos + 6, pos + 8, pos + 12);
    FieldReadsBack(data, pos + 8, aux.name, 4, little);
    FieldReadsBack(data, pos + 12, aux.next, 4, little);
  }

  lemma NeedReads(data: seq<Byte>, little: bool, pos: nat, need: Need)
    requires At(data, pos, NeedBytes(need, little))
    requires |need.entries| < Limit(2) && need.aux < Limit(4) && need.next < Limit(4)
    ensures NeedHeadAt(data, pos, little) == Some(NeedHead(|need.entries|, need.aux, need.next))
  {
    FiveParts(data, pos, Encoded(need.version, 2, little), Encoded(|need.entries|, 2, little), Encoded(need.file, 4, little),
              Encoded(need.aux, 4, little), Encoded(need.next, 4, little), pos + 2, pos + 4, pos + 8, pos + 12);
    FieldReadsBack(data, pos + 2, |need.entries|, 2, little);
    FieldReadsBack(data, pos + 8, need.aux, 4, little);
    FieldReadsBack(data, pos + 12, need.next, 4, little);
  }

  lemma {:induction false} AuxesRead(data: seq<Byte>, little: bool, strtab: nat, pos: nat, entries: seq<Aux>)
    requires AuxesStand(data, little, strtab, pos, entries)
    ensures AuxNames(data, little, strtab, pos, |entries|) == Names(TextsOf(entries))
    decreases |entries|
  {
    hide AuxHeadAt, NameAt, NameStands, AuxBytes, At;
    if entries != [] {
      var first, next := entries[0], pos + entries[0].next;
      AuxReads(data, little, pos, first);
      NameReads(data, strtab + first.name, first.text);
      AuxesRead(data, little, strtab, next, entries[1..]);
      AuxTurn(data, little, strtab, pos, |entries|, AuxHead(first.name, first.next), Name(Decoded(first.text)), next);
    }
  }

  /** The first need of a chain, read. */
  lemma FirstNeed(data: seq<Byte>, little: bool, strtab: nat, cursor: nat, needs: seq<Need>, files: nat, next: nat)
    requires needs != [] && NeedsStand(data, little, strtab, cursor, needs) && 0 < files && next == cursor + needs[0].next
    ensures NeedsStand(data, little, strtab, next, needs[1..]) && (needs[0].next == 0 ==> |needs| == 1)
    ensures NeedNames(data, little, strtab, cursor, files)
            == NeedThen(Names(TextsOf(needs[0].entries)), needs[0].next, NeedNames(data, little, strtab, next, files - 1))
  {
    hide AuxNames, NeedHeadAt, NeedNames, At;
    var first := needs[0];
    NeedReads(data, little, cursor, first);
    AuxesRead(data, little, strtab, cursor + first.aux, first.entries);
    NeedTurn(data, little, strtab, cursor, files, NeedHead(|first.entries|, first.aux, first.next),
             Names(TextsOf(first.entries)), next);
  }

  /** How a chain can end: with its count, or with a need that names no next. */
  predicate EndsBy(needs: seq<Need>, files: nat) {
    |needs| <= files && (files == |needs| || (needs != [] && needs[|needs| - 1].next == 0))
  }

  lemma EndsByRest(needs: seq<Need>, files: nat)
    requires EndsBy(needs, files) && needs != [] && needs[0].next != 0
    ensures EndsBy(needs[1..], files - 1)
  {
  }

  /** The chain is read whole, whether its count or its last link ends it. */
  lemma {:induction false} NeedsRead(data: seq<Byte>, little: bool, strtab: nat, cursor: nat, needs: seq<Need>, files: nat)
    requires NeedsStand(data, little, strtab, cursor, needs) && EndsBy(needs, files)
    ensures NeedNames(data, little, strtab, cursor, files) == Names(ChainTexts(needs))
    decreases |needs|
  {
    hide AuxNames, NeedHeadAt;
    if needs != [] {
      var next := cursor + needs[0].next;
      FirstNeed(data, little, strtab, cursor, needs, files, next);
      ChainThen(needs);
      if needs[0].next != 0 {
        EndsByRest(needs, files);
        NeedsRead(data, little, strtab, next, needs[1..], files - 1);
      }
    }
  }

  lemma ChainThen(needs: seq<Need>)
    requires needs != [] && (needs[0].next == 0 ==> |needs| == 1)
    ensures Names(ChainTexts(needs))
            == NeedThen(Names(TextsOf(needs[0].entries)), needs[0].next, Names(ChainTexts(needs[1..])))
  {
    if needs[0].next == 0 {
      assert needs[1..] == [];
      assert TextsOf(needs[0].entries) + [] == TextsOf(needs[0].entries);
    }
  }

  lemma NameBeforeIsTotalOrder()
    ensures TotalOrder(NameBefore)
  {
    BeforeIsTotalOrder();
    hide Before;
    assert forall a: Name, b: Name :: NameBefore(a, b) && NameBefore(b, a) ==> a.text == b.text;
  }

  lemma {:induction false} DistinctIs(names: seq<Name>)
    ensures forall name :: name in Distinct(names) <==> name in names
    ensures forall name <- names :: multiset(Distinct(names))[name] == 1
  {
    if names != [] {
      DistinctIs(names[1..]);
      assert names == [names[0]] + names[1..];
      assert names[0] !in names[1..] ==> multiset(Distinct(names[1..]))[names[0]] == 0;
    }
  }

  /** The sorted set of some names: each of them once, in ascending order. */
  lemma SortedSetIs(names: seq<Name>)
    ensures var sorted := SortedSet(names);
            (forall name :: name in sorted <==> name in names)
            && forall i, j :: 0 <= i < j < |sorted| ==> NameBefore(sorted[i], sorted[j]) && sorted[i] != sorted[j]
  {
    hide NameBefore, Distinct;
    var sorted := SortedSet(names);
    NameBeforeIsTotalOrder();
    DistinctIs(names);
    SortIsOrdered(NameBefore, Distinct(names));
    SortIsPermutation(NameBefore, Distinct(names));
    forall name ensures name in sorted <==> name in names {
      assert name in sorted <==> name in multiset(sorted);
      assert name in Distinct(names) <==> name in multiset(Distinct(names));
    }
    forall i, j | 0 <= i < j < |sorted| ensures sorted[i] != sorted[j] {
      OnceEach(sorted, i, j);
    }
  }

  lemma OnceEach(names: seq<Name>, i: nat, j: nat)
    requires i < j < |names| && multiset(names)[names[i]] == 1
    ensures names[i] != names[j]
  {
    assert names == names[..j] + names[j..];
    assert names[i] == names[..j][i] && names[j] == names[j..][0];
    assert names[i] in multiset(names[..j]) && names[j] in multiset(names[j..]);
  }

  /** What `dynamic` reads of a file before the names: its program headers gathered, the tags of its last dynamic
      segment, and its string table. */
  predicate Leads(data: seq<Byte>, g: Gathered, tags: seq<Tag>, strtab: nat) {
    IsElf(data)
    && var h := HeaderOf(data);
       GatheredUpto(data, h, h.phnum) == Some(g) && g.dyn.Some?
       && Tags(data, h, g.dyn.value.offset, g.dyn.value.offset + g.dyn.value.size) == Some(tags)
       && Last(tags, DT_STRTAB).Some? && Mapped(g.loads, Last(tags, DT_STRTAB).value) == Some(strtab)
  }

  /** The file's tags lead to an encoded chain of needs, whether their count or the last link ends it. */
  predicate LeadsToChain(data: seq<Byte>, g: Gathered, tags: seq<Tag>, strtab: nat, start: nat, needs: seq<Need>) {
    Leads(data, g, tags, strtab) && Last(tags, DT_VERNEED).Some?
    && Mapped(g.loads, Last(tags, DT_VERNEED).value) == Some(start)
    && NeedsStand(data, HeaderOf(data).little, strtab, start, needs) && EndsBy(needs, OrZero(Last(tags, DT_VERNEEDNUM)))
  }

  /** THE VERSION NEEDS ARE THE CHAIN'S: a file whose tags lead to an encoded chain is accepted exactly when its needed
      names can be read, and its version needs are then exactly the names in the chain, each once, in order. */
  lemma VersionNeedsAreTheChains(data: seq<Byte>, g: Gathered, tags: seq<Tag>, strtab: nat, start: nat, needs: seq<Need>)
    requires LeadsToChain(data, g, tags, strtab, start, needs)
    ensures DynamicOf(data).Accepted? <==> NeededNames(data, strtab, tags).Names?
    ensures DynamicOf(data).Accepted? ==>
              var read := DynamicOf(data).section.versionNeeds;
              (forall name :: name in read <==> name in ChainTexts(needs))
              && forall i, j :: 0 <= i < j < |read| ==> NameBefore(read[i], read[j]) && read[i] != read[j]
  {
    hide IsElf, HeaderOf, GatheredUpto, Tags, Mapped, NeedsStand, EndsBy, NeedNames, NeededNames, Last, Carries,
      SortedSet, NameBefore;
    SortedSetIs(ChainTexts(needs));
    NeedsRead(data, HeaderOf(data).little, strtab, start, needs, OrZero(Last(tags, DT_VERNEEDNUM)));
  }

  /** The names the DT_NEEDED tags lead to, in the order of the tags: each stands in the string table at its tag's value. */
  predicate NamedBy(data: seq<Byte>, strtab: nat, tags: seq<Tag>, texts: seq<seq<Byte>>)
    decreases |tags|
  {
    if tags == [] then texts == []
    else
      var front, last := tags[..|tags| - 1], tags[|tags| - 1];
      if last.tag != 1 then NamedBy(data, strtab, front, texts)
      else texts != [] && NameStands(data, strtab + last.value, texts[|texts| - 1])
           && NamedBy(data, strtab, front, texts[..|texts| - 1])
  }

  function NamesOf(texts: seq<seq<Byte>>): seq<Name> {
    if texts == [] then [] else NamesOf(texts[..|texts| - 1]) + [Name(Decoded(texts[|texts| - 1]))]
  }

  lemma {:induction false} NeededRead(data: seq<Byte>, strtab: nat, tags: seq<Tag>, texts: seq<seq<Byte>>)
    requires NamedBy(data, strtab, tags, texts)
    ensures NeededNames(data, strtab, tags) == Names(NamesOf(texts))
    decreases |tags|
  {
    hide NameAt, NameStands, Decoded;
    if tags != [] {
      var front, last := tags[..|tags| - 1], tags[|tags| - 1];
      if last.tag != DT_NEEDED {
        NeededRead(data, strtab, front, texts);
      } else {
        NeededRead(data, strtab, front, texts[..|texts| - 1]);
        NameReads(data, strtab + last.value, texts[|texts| - 1]);
      }
    }
  }

  /** THE NEEDED NAMES ARE THE TAGS': of an accepted file whose DT_NEEDED tags lead to names, exactly those, in order. */
  lemma NeededAreTheTags(data: seq<Byte>, g: Gathered, tags: seq<Tag>, strtab: nat, texts: seq<seq<Byte>>)
    requires Leads(data, g, tags, strtab) && NamedBy(data, strtab, tags, texts) && DynamicOf(data).Accepted?
    ensures DynamicOf(data).section.needed == NamesOf(texts)
  {
    hide IsElf, HeaderOf, GatheredUpto, Tags, Mapped, NeedNames, NeededNames, Last, Carries, NamedBy, SortedSet;
    NeededRead(data, strtab, tags, texts);
  }
}
