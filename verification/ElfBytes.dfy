/** Unsigned fields of a file's bytes in either byte order, as `struct.unpack_from` reads them: the readers and the
    encoders, and the proof that each undoes the other. */
module ElfBytes {
  import opened Options

  type Byte = x: int | 0 <= x < 256

  /** The number in the `size` bytes at `pos`. */
  function Number(data: seq<Byte>, pos: nat, size: nat, little: bool): nat
    requires pos + size <= |data|
    decreases |data| + size
  {
    if size == 0 then 0
    else if little then data[pos] + 256 * Number(data, pos + 1, size - 1, little)
    else 256 * Number(data, pos, size - 1, little) + data[pos + size - 1]
  }

  /** The field of `size` bytes at `pos`; None when the data is too short, where the source raises. */
  function Field(data: seq<Byte>, pos: nat, size: nat, little: bool): Option<nat> {
    if pos + size > |data| then None else Some(Number(data, pos, size, little))
  }

  /** One more than the largest number in `size` bytes. */
  function Limit(size: nat): nat {
    match size
    case 0 => 1
    case 1 => 0x100
    case 2 => 0x1_0000
    case 3 => 0x100_0000
    case 4 => 0x1_0000_0000
    case 5 => 0x100_0000_0000
    case 6 => 0x1_0000_0000_0000
    case 7 => 0x100_0000_0000_0000
    case _ => 0x1_0000_0000_0000_0000
  }

  function Encoded(value: nat, size: nat, little: bool): (s: seq<Byte>)
    ensures |s| == size
    decreases value + size
  {
    if size == 0 then []
    else if little then [value % 256] + Encoded(value / 256, size - 1, little)
    else Encoded(value / 256, size - 1, little) + [value % 256]
  }

  /** `part` stands at `pos`. */
  predicate At(data: seq<Byte>, pos: nat, part: seq<Byte>)
    ensures At(data, pos, part) ==> pos + |part| <= |data|
    decreases |part|
  {
    if part == [] then pos <= |data| else pos < |data| && data[pos] == part[0] && At(data, pos + 1, part[1..])
  }

  lemma {:induction false} AtSplit(data: seq<Byte>, pos: nat, a: seq<Byte>, b: seq<Byte>, mid: nat)
    requires At(data, pos, a + b) && mid == pos + |a|
    ensures At(data, pos, a) && At(data, mid, b) && |a + b| == |a| + |b|
    decreases |a|
  {
    if a == [] {
      assert a + b == b;
    } else {
      assert (a + b)[0] == a[0] && (a + b)[1..] == a[1..] + b;
      AtSplit(data, pos + 1, a[1..], b, mid);
    }
  }

  /** A FIELD READS BACK in the byte order it was written in. */
  lemma FieldReadsBack(data: seq<Byte>, pos: nat, value: nat, size: nat, little: bool)
    requires At(data, pos, Encoded(value, size, little)) && value < Limit(size) && size <= 8
    ensures Field(data, pos, size, little) == Some(value)
  {
    NumberReadsBack(data, pos, value, size, little);
  }

  lemma {:induction false} NumberReadsBack(data: seq<Byte>, pos: nat, value: nat, size: nat, little: bool)
    requires At(data, pos, Encoded(value, size, little)) && value < Limit(size) && size <= 8
    ensures Number(data, pos, size, little) == value
    decreases size
  {
    if size > 0 {
      var rest := Encoded(value / 256, size - 1, little);
      if little {
        AtSplit(data, pos, [value % 256], rest, pos + 1);
        NumberReadsBack(data, pos + 1, value / 256, size - 1, little);
      } else {
        AtSplit(data, pos, rest, [value % 256], pos + size - 1);
        NumberReadsBack(data, pos, value / 256, size - 1, little);
      }
    }
  }

  /** `data[start:end]`, cut at the end of the data. */
  function Slice(data: seq<Byte>, start: nat, end: nat): seq<Byte>
    decreases |data| - start
  {
    if start >= |data| || start >= end then [] else [data[start]] + Slice(data, start + 1, end)
  }

  lemma {:induction false} SliceAt(data: seq<Byte>, pos: nat, part: seq<Byte>)
    requires At(data, pos, part)
    ensures Slice(data, pos, pos + |part|) == part
    decreases |part|
  {
    if part != [] {
      SliceAt(data, pos + 1, part[1..]);
      assert part == [part[0]] + part[1..];
    }
  }

  /* ---------------------------------------------------------------- the file header */

  const ELF_MAGIC: seq<Byte> := [0x7F, 0x45, 0x4C, 0x46]

  /** What every reader takes from the file header: the class, the byte order, the type, the program headers. */
  datatype Header = Header(wide: bool, little: bool, kind: nat, phoff: nat, phentsize: nat, phnum: nat)

  predicate IsElf(data: seq<Byte>) {
    |data| >= 64 && At(data, 0, ELF_MAGIC)
  }

  /** A field of the header, all of which the 64 bytes hold. */
  function HeaderField(data: seq<Byte>, pos: nat, size: nat, little: bool): nat
    requires pos + size <= |data|
  {
    Field(data, pos, size, little).value
  }

  function HeaderOf(data: seq<Byte>): Header
    requires IsElf(data)
  {
    var wide, little := data[4] == 2, data[5] == 1;
    if wide then
      Header(wide, little, HeaderField(data, 16, 2, little), HeaderField(data, 32, 8, little),
             HeaderField(data, 54, 2, little), HeaderField(data, 56, 2, little))
    else
      Header(wide, little, HeaderField(data, 16, 2, little), HeaderField(data, 28, 4, little),
             HeaderField(data, 42, 2, little), HeaderField(data, 44, 2, little))
  }

  /** An executable or a shared object, not a relocatable object or a core. */
  predicate Linked(header: Header) {
    header.kind == 2 || header.kind == 3
  }

  /** The size of an address in the file's class. */
  function Word(header: Header): nat {
    if header.wide then 8 else 4
  }

  /** Where a program header's fields stand from its start. */
  function OffsetAt(header: Header): nat {
    if header.wide then 8 else 4
  }

  function SizeAt(header: Header): nat {
    if header.wide then 32 else 16
  }

  /** The offset and size of what the program header at `base` covers. */
  datatype Range = Range(offset: nat, size: nat)

  function RangeAt(data: seq<Byte>, h: Header, base: nat): Option<Range> {
    var offset := Field(data, base + OffsetAt(h), Word(h), h.little);
    var size := Field(data, base + SizeAt(h), Word(h), h.little);
    if offset.Some? && size.Some? then Some(Range(offset.value, size.value)) else None
  }

  lemma RangeReadsBack(data: seq<Byte>, h: Header, base: nat, offset: nat, size: nat)
    requires offset < Limit(Word(h)) && size < Limit(Word(h))
    requires At(data, base + OffsetAt(h), Encoded(offset, Word(h), h.little))
    requires At(data, base + SizeAt(h), Encoded(size, Word(h), h.little))
    ensures RangeAt(data, h, base) == Some(Range(offset, size))
  {
    FieldReadsBack(data, base + OffsetAt(h), offset, Word(h), h.little);
    FieldReadsBack(data, base + SizeAt(h), size, Word(h), h.little);
  }

  /** Where the program header of an index stands. */
  function EntryAt(header: Header, index: nat): nat {
    header.phoff + index * header.phentsize
  }
}
