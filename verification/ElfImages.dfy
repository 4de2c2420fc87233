/** ELF images: an image that holds a header and program headers, packed field by field, is read as what they say. */
module ElfImages {
  import opened NoteScanner
  import opened Wrappers

  /* ---- Packed fields, in little-endian order ---- */

  function Pow256(n: nat): (p: nat)
    ensures p > 0
  {
    if n == 0 then 1 else 0x100 * Pow256(n - 1)
  }

  /** The lowest `width` bytes of a number. */
  function Little(n: nat, width: nat): (b: Bytes)
    ensures |b| == width
  {
    if width == 0 then [] else [n % 0x100] + Little(n / 0x100, width - 1)
  }

  /** The number in `width` bytes. */
  function Number(b: Bytes): nat {
    if b == [] then 0 else b[0] as int + 0x100 * Number(b[1..])
  }

  lemma {:induction false} LittleNumber(n: nat, width: nat)
    requires n < Pow256(width)
    ensures Number(Little(n, width)) == n
  {
    if width > 0 {
      LittleNumber(n / 0x100, width - 1);
      assert Little(n, width)[1..] == Little(n / 0x100, width - 1);
    }
  }

  /** The place of field `i` in a structure whose fields have these widths. */
  function Offset(widths: seq<nat>, i: nat): nat
    requires i <= |widths|
  {
    if i == 0 then 0 else Offset(widths, i - 1) + widths[i - 1]
  }

  /** The bytes of the first `n` fields. */
  function Pack(widths: seq<nat>, values: seq<nat>, n: nat): (b: Bytes)
    requires n <= |widths| == |values|
    ensures |b| == Offset(widths, n)
  {
    if n == 0 then [] else Pack(widths, values, n - 1) + Little(values[n - 1], widths[n - 1])
  }

  /** The values of a structure fit its fields. */
  predicate Fit(widths: seq<nat>, values: seq<nat>) {
    |widths| == |values| && forall i :: 0 <= i < |widths| ==> values[i] < Pow256(widths[i])
  }

  lemma {:induction false} FieldPacked(widths: seq<nat>, values: seq<nat>, n: nat, i: nat)
    requires |widths| == |values| && i < n <= |widths|
    ensures Offset(widths, i) + widths[i] <= Offset(widths, n)
    ensures Pack(widths, values, n)[Offset(widths, i)..Offset(widths, i) + widths[i]] == Little(values[i], widths[i])
  {
    if i < n - 1 {
      FieldPacked(widths, values, n - 1, i);
      var o, w := Offset(widths, i), widths[i];
      assert Pack(widths, values, n)[o..o + w] == Pack(widths, values, n - 1)[o..o + w];
    }
  }

  /** The structure is at a position of the image. */
  predicate Packed(data: Bytes, at: nat, widths: seq<nat>, values: seq<nat>) {
    Fit(widths, values) && Holds(data, at, Pack(widths, values, |widths|))
  }

  /** A field of a packed structure is read back. */
  lemma FieldRead(data: Bytes, at: nat, widths: seq<nat>, values: seq<nat>, i: nat, o: nat)
    requires Packed(data, at, widths, values) && i < |widths| && o == at + Offset(widths, i)
    ensures o + widths[i] <= |data| && Number(data[o..o + widths[i]]) == values[i]
  {
    hide Pack, Offset, Number, Little, Holds, Pow256;
    var n, w := |widths|, widths[i];
    FieldPacked(widths, values, n, i);
    SliceWithin(data, at, Pack(widths, values, n), Offset(widths, i), Offset(widths, i) + w);
    LittleNumber(values[i], w);
  }

  lemma ShortNumber(d: Bytes, o: nat)
    requires o + 2 <= |d|
    ensures U16(d, o) == Number(d[o..o + 2])
  {
    var b := d[o..o + 2];
    assert b[1..] == [b[1]] && b[1..][1..] == [];
    assert Number(b[1..]) == b[1] as int;
  }

  lemma {:induction false} NumberJoined(a: Bytes, b: Bytes)
    ensures Number(a + b) == Number(a) + Pow256(|a|) * Number(b)
  {
    if a == [] {
      assert a + b == b;
    } else {
      NumberJoined(a[1..], b);
      assert (a + b)[1..] == a[1..] + b;
      Larger(Number(a[1..]), Pow256(|a| - 1), Number(b));
    }
  }

  lemma Larger(x: nat, p: nat, y: nat)
    ensures 0x100 * (x + p * y) == 0x100 * x + (0x100 * p) * y
  {
  }

  lemma WordNumber(d: Bytes, o: nat)
    requires o + 4 <= |d|
    ensures U32(d, o) == Number(d[o..o + 4])
  {
    ShortNumber(d, o);
    ShortNumber(d, o + 2);
    var a, b := d[o..o + 2], d[o + 2..o + 4];
    NumberJoined(a, b);
    assert d[o..o + 4] == a + b;
    assert Pow256(2) == 0x100 * Pow256(1) == 0x1_0000;
  }

  lemma LongNumber(d: Bytes, o: nat)
    requires o + 8 <= |d|
    ensures U64(d, o) == Number(d[o..o + 8])
  {
    WordNumber(d, o);
    WordNumber(d, o + 4);
    var a, b := d[o..o + 4], d[o + 4..o + 8];
    NumberJoined(a, b);
    assert d[o..o + 8] == a + b;
    assert Pow256(4) == 0x100 * Pow256(3) && Pow256(3) == 0x100 * Pow256(2) && Pow256(2) == 0x100 * Pow256(1);
  }

  /* ---- Headers ("Object Files" and "Program Loading" of the System V gABI, chapters 4 and 5) ---- */

  datatype ElfHeader = ElfHeader(
    typ: nat, machine: nat, version: nat, entry: nat, phoff: nat, shoff: nat, flags: nat, ehsize: nat, phentsize: nat,
    phnum: nat, shentsize: nat, shnum: nat, shstrndx: nat)

  datatype ProgramHeader = ProgramHeader(
    typ: nat, flags: nat, offset: nat, vaddr: nat, paddr: nat, filesz: nat, memsz: nat, align: nat)

  function HeaderWidths(elf64: bool): seq<nat> {
    if elf64 then [2, 2, 4, 8, 8, 8, 4, 2, 2, 2, 2, 2, 2] else [2, 2, 4, 4, 4, 4, 4, 2, 2, 2, 2, 2, 2]
  }

  function HeaderFields(h: ElfHeader): seq<nat> {
    [h.typ, h.machine, h.version, h.entry, h.phoff, h.shoff, h.flags, h.ehsize, h.phentsize, h.phnum, h.shentsize,
     h.shnum, h.shstrndx]
  }

  function ProgramWidths(elf64: bool): seq<nat> {
    if elf64 then [4, 4, 8, 8, 8, 8, 8, 8] else [4, 4, 4, 4, 4, 4, 4, 4]
  }

  function ProgramFields(elf64: bool, p: ProgramHeader): seq<nat> {
    if elf64 then [p.typ, p.flags, p.offset, p.vaddr, p.paddr, p.filesz, p.memsz, p.align]
    else [p.typ, p.offset, p.vaddr, p.paddr, p.filesz, p.memsz, p.flags, p.align]
  }

  /** The identification and the header of an image with little-endian fields. */
  predicate IsElf(data: Bytes, elf64: bool, h: ElfHeader) {
    && |data| >= 16 && data[..4] == [0x7f, 0x45, 0x4c, 0x46] && data[4] == (if elf64 then 2 else 1) && data[5] == 1
    && Packed(data, 16, HeaderWidths(elf64), HeaderFields(h))
  }

  lemma HeaderOffsets(elf64: bool)
    ensures var w := HeaderWidths(elf64);
      && Offset(w, 4) == (if elf64 then 16 else 12) && Offset(w, 5) == (if elf64 then 24 else 16)
      && Offset(w, 8) == (if elf64 then 38 else 26) && Offset(w, 9) == (if elf64 then 40 else 28)
      && Offset(w, 13) == (if elf64 then 48 else 36)
  {
    var w := HeaderWidths(elf64);
    assert Offset(w, 1) == 2;
    assert Offset(w, 2) == 4;
    assert Offset(w, 3) == 8;
    assert Offset(w, 6) == Offset(w, 5) + w[5] && Offset(w, 7) == Offset(w, 6) + 4 && Offset(w, 8) == Offset(w, 7) + 2;
    assert Offset(w, 10) == Offset(w, 9) + 2 && Offset(w, 11) == Offset(w, 10) + 2
      && Offset(w, 12) == Offset(w, 11) + 2;
  }

  lemma ProgramOffsets(elf64: bool)
    ensures var w := ProgramWidths(elf64);
      if elf64 then
        Offset(w, 0) == 0 && Offset(w, 2) == 8 && Offset(w, 5) == 32 && Offset(w, 7) == 48 && Offset(w, 8) == 56
      else Offset(w, 0) == 0 && Offset(w, 1) == 4 && Offset(w, 4) == 16 && Offset(w, 7) == 28 && Offset(w, 8) == 32
  {
    var w := ProgramWidths(elf64);
    assert Offset(w, 1) == 4;
    assert Offset(w, 3) == Offset(w, 2) + w[2];
    assert Offset(w, 4) == Offset(w, 3) + w[3];
    assert Offset(w, 5) == Offset(w, 4) + w[4];
    assert Offset(w, 6) == Offset(w, 5) + w[5];
    assert Offset(w, 7) == Offset(w, 6) + w[6];
  }

  /** The structure ends inside the image. */
  lemma PackedInside(data: Bytes, at: nat, widths: seq<nat>, values: seq<nat>)
    requires Packed(data, at, widths, values)
    ensures at + Offset(widths, |widths|) <= |data|
  {
  }

  /** The fields of the header that the scan reads. */
  lemma HeaderRead(data: Bytes, elf64: bool, h: ElfHeader)
    requires IsElf(data, elf64, h)
    ensures |data| >= if elf64 then 64 else 52
    ensures (if elf64 then U64(data, 32) else U32(data, 28)) == h.phoff
    ensures (if elf64 then U64(data, 40) else U32(data, 32)) == h.shoff
    ensures U16(data, if elf64 then 54 else 42) == h.phentsize && U16(data, if elf64 then 56 else 44) == h.phnum
  {
    var w, v := HeaderWidths(elf64), HeaderFields(h);
    HeaderOffsets(elf64);
    PackedInside(data, 16, w, v);
    hide Offset, Packed, U16, U32, U64, Number;
    var phoff, shoff := if elf64 then 32 else 28, if elf64 then 40 else 32;
    FieldRead(data, 16, w, v, 4, phoff);
    FieldRead(data, 16, w, v, 5, shoff);
    if elf64 {
      LongNumber(data, phoff);
      LongNumber(data, shoff);
    } else {
      WordNumber(data, phoff);
      WordNumber(data, shoff);
    }
    var size, count := if elf64 then 54 else 42, if elf64 then 56 else 44;
    FieldRead(data, 16, w, v, 8, size);
    FieldRead(data, 16, w, v, 9, count);
    ShortNumber(data, size);
    ShortNumber(data, count);
  }

  /** The layout that the header tells, unless it has no program headers or these leave the image. */
  lemma LayoutRead(data: Bytes, elf64: bool, h: ElfHeader)
    requires IsElf(data, elf64, h) && h.phnum != PN_XNUM
    ensures LayoutOf(data) ==
      if h.phnum == 0 then NoHeaders
      else if h.phentsize < (if elf64 then 56 else 32) || h.phoff + h.phnum * h.phentsize > |data| then Truncated
      else Headers(elf64, h.phoff, h.phentsize, h.phnum)
  {
    HeaderRead(data, elf64, h);
    hide U16, U32, U64, Packed;
  }

  function SectionWidths(elf64: bool): seq<nat> {
    if elf64 then [4, 4, 8, 8, 8, 8, 4, 4, 8, 8] else [4, 4, 4, 4, 4, 4, 4, 4, 4, 4]
  }

  lemma SectionOffset(elf64: bool)
    ensures Offset(SectionWidths(elf64), 7) == if elf64 then 44 else 28
  {
    var w := SectionWidths(elf64);
    assert Offset(w, 1) == 4;
    assert Offset(w, 3) == Offset(w, 2) + w[2];
    assert Offset(w, 5) == Offset(w, 4) + w[4] && Offset(w, 4) == Offset(w, 3) + w[3];
    assert Offset(w, 6) == Offset(w, 5) + w[5];
  }

  /** With PN_XNUM program headers their number is the sh_info field of the first section header. */
  lemma ManyHeaders(data: Bytes, elf64: bool, h: ElfHeader, section: seq<nat>)
    requires IsElf(data, elf64, h) && h.phnum == PN_XNUM && Packed(data, h.shoff, SectionWidths(elf64), section)
    ensures LayoutOf(data) ==
      if h.phentsize < (if elf64 then 56 else 32) || h.phoff + section[7] * h.phentsize > |data| then Truncated
      else Headers(elf64, h.phoff, h.phentsize, section[7])
  {
    HeaderRead(data, elf64, h);
    SectionOffset(elf64);
    var info := h.shoff + if elf64 then 44 else 28;
    assert |section| == 10;
    hide U16, U32, U64, IsElf, Offset, Number, Pow256, Holds;
    FieldRead(data, h.shoff, SectionWidths(elf64), section, 7, info);
    WordNumber(data, info);
    hide Packed;
  }

  /** The fields of a program header that the scan reads. */
  lemma ProgramFieldsRead(data: Bytes, elf64: bool, at: nat, p: ProgramHeader)
    requires Packed(data, at, ProgramWidths(elf64), ProgramFields(elf64, p))
    ensures at + (if elf64 then 56 else 32) <= |data| && U32(data, at) == p.typ
    ensures (if elf64 then U64(data, at + 8) else U32(data, at + 4)) == p.offset
    ensures (if elf64 then U64(data, at + 32) else U32(data, at + 16)) == p.filesz
    ensures (if elf64 then U64(data, at + 48) else U32(data, at + 28)) == p.align
  {
    var w, v := ProgramWidths(elf64), ProgramFields(elf64, p);
    ProgramOffsets(elf64);
    PackedInside(data, at, w, v);
    hide Offset, Packed, U32, U64, Number;
    FieldRead(data, at, w, v, 0, at);
    WordNumber(data, at);
    if elf64 {
      FieldRead(data, at, w, v, 2, at + 8);
      FieldRead(data, at, w, v, 5, at + 32);
      FieldRead(data, at, w, v, 7, at + 48);
      LongNumber(data, at + 8);
      LongNumber(data, at + 32);
      LongNumber(data, at + 48);
    } else {
      FieldRead(data, at, w, v, 1, at + 4);
      FieldRead(data, at, w, v, 4, at + 16);
      FieldRead(data, at, w, v, 7, at + 28);
      WordNumber(data, at + 4);
      WordNumber(data, at + 16);
      WordNumber(data, at + 28);
    }
  }

  /** A program header is read as the segment that it tells. */
  lemma ProgramRead(data: Bytes, elf64: bool, at: nat, p: ProgramHeader)
    requires Packed(data, at, ProgramWidths(elf64), ProgramFields(elf64, p))
    ensures at + (if elf64 then 56 else 32) <= |data|
    ensures EntryFrom(data, elf64, at) ==
      if p.typ != PT_NOTE then OtherSegment
      else if p.offset + p.filesz > |data| then OutsideImage
      else NoteSegment(data[p.offset..p.offset + p.filesz], if p.align == 8 then 8 else 4)
  {
    ProgramFieldsRead(data, elf64, at, p);
    hide Packed, ProgramWidths, ProgramFields, U32, U64;
  }

  /* ---- Whole images ---- */

  /** The image has these program headers, and the notes are in the segments of type PT_NOTE. */
  predicate IsImage(data: Bytes, elf64: bool, h: ElfHeader, programs: seq<ProgramHeader>,
                    notes: seq<Option<seq<Note>>>)
  {
    && IsElf(data, elf64, h) && 0 < h.phnum == |programs| == |notes| && h.phnum < PN_XNUM
    && h.phentsize >= (if elf64 then 56 else 32) && h.phoff + h.phnum * h.phentsize <= |data|
    && forall i :: 0 <= i < |programs| ==> IsProgram(data, elf64, h.phoff + i * h.phentsize, programs[i], notes[i])
  }

  predicate IsProgram(data: Bytes, elf64: bool, at: nat, p: ProgramHeader, notes: Option<seq<Note>>) {
    && Packed(data, at, ProgramWidths(elf64), ProgramFields(elf64, p))
    && (notes.Some? <==> p.typ == PT_NOTE)
    && (notes.Some? ==>
          && (forall k :: 0 <= k < |notes.value| ==> ValidNote(notes.value[k]))
          && p.offset + p.filesz <= |data|
          && data[p.offset..p.offset + p.filesz] == EncodeNotes(notes.value, if p.align == 8 then 8 else 4))
  }

  /** A program header is read with its notes. */
  lemma EntryHolds(data: Bytes, elf64: bool, at: nat, p: ProgramHeader, notes: Option<seq<Note>>)
    requires IsProgram(data, elf64, at, p, notes)
    ensures at + EntrySize(elf64) <= |data|
    ensures match EntryFrom(data, elf64, at)
      case OtherSegment => notes == None
      case OutsideImage => false
      case NoteSegment(segment, alignment) =>
        && notes.Some? && (forall k :: 0 <= k < |notes.value| ==> ValidNote(notes.value[k]))
        && segment == EncodeNotes(notes.value, alignment)
  {
    ProgramRead(data, elf64, at, p);
    hide EntryFrom, EncodeNotes, Packed, ValidNote, ProgramWidths, ProgramFields;
  }

  lemma EntryThere(data: Bytes, l: Layout, i: nat)
    requires Inside(l, |data|) && i < l.phnum
    ensures var at := l.phoff + i * l.phentsize;
      at + EntrySize(l.elf64) <= |data| && EntryAt(data, l, i) == EntryFrom(data, l.elf64, at)
  {
    hide EntryFrom;
    EntryInside(l, |data|, i);
  }

  lemma SegmentsHold(data: Bytes, elf64: bool, h: ElfHeader, programs: seq<ProgramHeader>,
                     notes: seq<Option<seq<Note>>>, l: Layout)
    requires IsImage(data, elf64, h, programs, notes) && l == Headers(elf64, h.phoff, h.phentsize, h.phnum)
    ensures Inside(l, |data|) && HoldsNotes(data, l, notes, l.phnum)
  {
    hide IsElf, EntryAt, EncodeNotes, ValidNote;
    assert Inside(l, |data|);
    forall i | 0 <= i < l.phnum
      ensures match EntryAt(data, l, i)
        case OtherSegment => notes[i] == None
        case OutsideImage => false
        case NoteSegment(segment, alignment) =>
          && notes[i].Some? && (forall k :: 0 <= k < |notes[i].value| ==> ValidNote(notes[i].value[k]))
          && segment == EncodeNotes(notes[i].value, alignment)
    {
      assert IsProgram(data, elf64, h.phoff + i * h.phentsize, programs[i], notes[i]);
      hide IsProgram, Inside, EntryFrom;
      EntryThere(data, l, i);
      EntryHolds(data, elf64, h.phoff + i * h.phentsize, programs[i], notes[i]);
    }
  }

  /** The record of an image is the descriptor of its one metadata note, empty without one, and an error for several. */
  lemma ImageRead(data: Bytes, elf64: bool, h: ElfHeader, programs: seq<ProgramHeader>, notes: seq<Option<seq<Note>>>)
    requires IsImage(data, elf64, h, programs, notes)
    ensures var records := AllRecords(notes, |notes|);
      ModuleInfo(data) == if |records| > 1 then None else if records == [] then Some([]) else Some(records[0])
  {
    var l := Headers(elf64, h.phoff, h.phentsize, h.phnum);
    LayoutRead(data, elf64, h);
    SegmentsHold(data, elf64, h, programs, notes, l);
    hide IsElf, IsProgram, LayoutOf, HoldsNotes, RecordsUpTo, AllRecords, Inside;
    ImageRecords(data, l, notes, l.phnum);
  }
}
