/** The packaging helper: finding the module metadata note in an ELF image, and checking that an ELF editing command
    keeps it. */
module NoteScanner {
  import opened Wrappers

  type Byte = x: int | 0 <= x < 256
  type Bytes = seq<Byte>

  const NOTE_NAME: Bytes := [0x51, 0x6f, 0x72, 0x65, 0] // "Qore" and its terminator
  const NOTE_TYPE: nat := 0x494D4151
  const PT_NOTE: nat := 4
  const PN_XNUM: nat := 0xFFFF

  /* ---- Little-endian fields ---- */

  function U16(d: Bytes, o: nat): nat
    requires o + 2 <= |d|
  {
    d[o] as int + 0x100 * d[o + 1] as int
  }

  function U32(d: Bytes, o: nat): (n: nat)
    requires o + 4 <= |d|
    ensures n < 0x1_0000_0000
  {
    d[o] as int + 0x100 * d[o + 1] as int + 0x1_0000 * d[o + 2] as int + 0x100_0000 * d[o + 3] as int
  }

  function U64(d: Bytes, o: nat): nat
    requires o + 8 <= |d|
  {
    U32(d, o) + 0x1_0000_0000 * U32(d, o + 4)
  }

  function Encode32(n: nat): (b: Bytes)
    requires n < 0x1_0000_0000
    ensures |b| == 4
  {
    [n % 0x100, n / 0x100 % 0x100, n / 0x1_0000 % 0x100, n / 0x100_0000]
  }

  lemma Encode32Value(n: nat)
    requires n < 0x1_0000_0000
    ensures U32(Encode32(n), 0) == n
  {
    var a, b, c := n / 0x100, n / 0x1_0000, n / 0x100_0000;
    assert n == 0x100 * a + n % 0x100;
    assert a / 0x100 == b && b / 0x100 == c;
    assert a == 0x100 * b + a % 0x100 && b == 0x100 * c + b % 0x100;
  }

  predicate Aligned(value: nat, alignment: nat) {
    if alignment == 8 then value % 8 == 0 else value % 4 == 0
  }

  /** The next multiple of the alignment, which is 4 or 8. */
  function Align(value: nat, alignment: nat): (r: nat)
    requires alignment == 4 || alignment == 8
    ensures value <= r < value + alignment && Aligned(r, alignment)
  {
    if alignment == 8 then (value + 7) / 8 * 8 else (value + 3) / 4 * 4
  }

  lemma AlignBehind(base: nat, value: nat, alignment: nat)
    requires (alignment == 4 || alignment == 8) && Aligned(base, alignment)
    ensures Align(base + value, alignment) == base + Align(value, alignment)
    ensures Aligned(value, alignment) ==> Aligned(base + value, alignment)
  {
    if alignment == 8 {
      EightsBehind(base / 8, value);
      EightsBehind(base / 8, value + 7);
    } else {
      FoursBehind(base / 4, value);
      FoursBehind(base / 4, value + 3);
    }
  }

  lemma EightsBehind(k: nat, n: nat)
    ensures (8 * k + n) / 8 == k + n / 8 && (8 * k + n) % 8 == n % 8
  {
  }

  lemma FoursBehind(k: nat, n: nat)
    ensures (4 * k + n) / 4 == k + n / 4 && (4 * k + n) % 4 == n % 4
  {
  }

  /* ---- Notes ("Note Section" of the System V gABI, chapter 5) ---- */

  datatype Note = Note(name: Bytes, typ: nat, desc: Bytes)

  predicate ValidNote(n: Note) {
    |n.name| < 0x1_0000_0000 && |n.desc| < 0x1_0000_0000 && n.typ < 0x1_0000_0000
  }

  function Padding(n: nat): Bytes {
    seq(n, _ => 0)
  }

  /** The bytes of a note that starts at an aligned position. */
  function EncodeNote(n: Note, alignment: nat): (b: Bytes)
    requires ValidNote(n) && (alignment == 4 || alignment == 8)
    ensures |b| == Align(Align(12 + |n.name|, alignment) + |n.desc|, alignment)
  {
    var start := Align(12 + |n.name|, alignment);
    Encode32(|n.name|) + Encode32(|n.desc|) + Encode32(n.typ) + n.name + Padding(start - 12 - |n.name|)
    + n.desc + Padding(Align(start + |n.desc|, alignment) - start - |n.desc|)
  }

  function EncodeNotes(notes: seq<Note>, alignment: nat): (b: Bytes)
    requires (alignment == 4 || alignment == 8) && forall i :: 0 <= i < |notes| ==> ValidNote(notes[i])
    ensures Aligned(|b|, alignment)
  {
    if notes == [] then [] 
    else
      AlignBehind(|EncodeNote(notes[0], alignment)|, |EncodeNotes(notes[1..], alignment)|, alignment);
      EncodeNote(notes[0], alignment) + EncodeNotes(notes[1..], alignment)
  }

  predicate IsRecord(n: Note) {
    n.typ == NOTE_TYPE && n.name == NOTE_NAME
  }

  /** The descriptors of the metadata notes. */
  function Records(notes: seq<Note>): seq<Bytes> {
    if notes == [] then []
    else (if IsRecord(notes[0]) then [notes[0].desc] else []) + Records(notes[1..])
  }

  /* ---- The scan of a segment ---- */

  /** The note at a position of a segment, and the position behind it; None without a whole note there. */
  function NoteAt(segment: Bytes, alignment: nat, position: nat): (r: Option<(Note, nat)>)
    requires (alignment == 4 || alignment == 8) && position <= |segment|
    ensures r.Some? ==> position + 12 <= r.value.1 <= |segment|
  {
    if |segment| - position < 12 then None
    else
      var nameSize, descSize, typ := U32(segment, position), U32(segment, position + 4), U32(segment, position + 8);
      var name := position + 12;
      var desc := Align(name + nameSize, alignment);
      if desc + descSize > |segment| then None
      else
        var next := Align(desc + descSize, alignment);
        Some((Note(segment[name..name + nameSize], typ, segment[desc..desc + descSize]),
              if next < |segment| then next else |segment|))
  }

  function Scan(segment: Bytes, alignment: nat, position: nat): seq<Bytes>
    requires (alignment == 4 || alignment == 8) && position <= |segment|
    decreases |segment| - position
  {
    match NoteAt(segment, alignment, position)
    case None => []
    case Some((note, next)) =>
      (if IsRecord(note) then [note.desc] else []) + Scan(segment, alignment, next)
  }

  /** What the scan adds at a position. */
  function Found(note: Note): seq<Bytes> {
    if IsRecord(note) then [note.desc] else []
  }

  lemma ScanStep(segment: Bytes, alignment: nat, position: nat, records: seq<Bytes>)
    requires (alignment == 4 || alignment == 8) && position <= |segment|
    ensures match NoteAt(segment, alignment, position)
      case None => Scan(segment, alignment, position) == []
      case Some((note, next)) =>
        records + Scan(segment, alignment, position) == (records + Found(note)) + Scan(segment, alignment, next)
  {
    hide NoteAt, IsRecord;
  }

  /** Scans a segment for metadata notes; it reads inside the segment only, and ends. */
  method ScanSegment(segment: Bytes, alignment: nat, records: seq<Bytes>) returns (r: seq<Bytes>)
    requires alignment == 4 || alignment == 8
    ensures r == records + Scan(segment, alignment, 0)
  {
    hide Scan, U32, Align;
    r := records;
    var position: nat := 0;
    var done := false;
    while !done && |segment| - position >= 12
      invariant position <= |segment|
      invariant records + Scan(segment, alignment, 0) == if done then r else r + Scan(segment, alignment, position)
      decreases !done, |segment| - position
    {
      ScanStep(segment, alignment, position, r);
      var nameSize, descSize, noteType :=
        U32(segment, position), U32(segment, position + 4), U32(segment, position + 8);
      var name := position + 12;
      var desc := Align(name + nameSize, alignment);
      if desc + descSize > |segment| {
        done := true; // the notes of other owners are not checked
      } else {
        if noteType == NOTE_TYPE && segment[name..name + nameSize] == NOTE_NAME {
          r := r + [segment[desc..desc + descSize]];
        }
        var next := Align(desc + descSize, alignment);
        position := if next < |segment| then next else |segment|;
      }
    }
    ScanStep(segment, alignment, position, r);
  }

  lemma Word(s: Bytes, o: nat, n: nat)
    requires o + 4 <= |s| && n < 0x1_0000_0000 && s[o..o + 4] == Encode32(n)
    ensures U32(s, o) == n
  {
    Encode32Value(n);
    assert s[o] == s[o..o + 4][0] && s[o + 1] == s[o..o + 4][1] && s[o + 2] == s[o..o + 4][2]
      && s[o + 3] == s[o..o + 4][3];
  }

  /** The bytes start with the fields of a note, and end where the next note may start. */
  predicate IsNote(e: Bytes, n: Note, desc: nat, alignment: nat)
    requires alignment == 4 || alignment == 8
  {
    && 12 <= |e| && U32(e, 0) == |n.name| && U32(e, 4) == |n.desc| && U32(e, 8) == n.typ
    && desc == Align(12 + |n.name|, alignment) && desc + |n.desc| <= |e| == Align(desc + |n.desc|, alignment)
    && e[12..12 + |n.name|] == n.name && e[desc..desc + |n.desc|] == n.desc
  }

  lemma EncodedIsNote(n: Note, alignment: nat)
    requires ValidNote(n) && (alignment == 4 || alignment == 8)
    ensures IsNote(EncodeNote(n, alignment), n, Align(12 + |n.name|, alignment), alignment)
  {
    hide Align, U32;
    EncodedWords(EncodeNote(n, alignment), n);
  }

  lemma EncodedWords(e: Bytes, n: Note)
    requires ValidNote(n) && 12 <= |e| && e[..12] == Encode32(|n.name|) + Encode32(|n.desc|) + Encode32(n.typ)
    ensures U32(e, 0) == |n.name| && U32(e, 4) == |n.desc| && U32(e, 8) == n.typ
  {
    hide Encode32, U32;
    var h := e[..12];
    assert e[0..4] == h[0..4] && e[4..8] == h[4..8] && e[8..12] == h[8..12];
    Word(e, 0, |n.name|);
    Word(e, 4, |n.desc|);
    Word(e, 8, n.typ);
  }

  /** The bytes `e` are at position `p`. */
  predicate Holds(s: Bytes, p: nat, e: Bytes) {
    p + |e| <= |s| && forall k :: 0 <= k < |e| ==> s[p + k] == e[k]
  }

  lemma SliceWithin(s: Bytes, p: nat, e: Bytes, i: nat, j: nat)
    requires i <= j <= |e| && Holds(s, p, e)
    ensures p + j <= |s| && s[p + i..p + j] == e[i..j]
  {
    var a, b := s[p + i..p + j], e[i..j];
    forall k | 0 <= k < j - i ensures a[k] == b[k] {
      assert s[p + (i + k)] == e[i + k];
    }
  }

  lemma WordWithin(s: Bytes, p: nat, e: Bytes, i: nat)
    requires i + 4 <= |e| && Holds(s, p, e)
    ensures p + i + 4 <= |s| && U32(s, p + i) == U32(e, i)
  {
    assert s[p + (i + 1)] == e[i + 1] && s[p + (i + 2)] == e[i + 2] && s[p + (i + 3)] == e[i + 3];
  }

  lemma Fits(s: Bytes, p: nat, e: Bytes)
    requires Holds(s, p, e)
    ensures p + |e| <= |s|
  {
  }

  lemma NoteFrom(s: Bytes, alignment: nat, p: nat, n: Note, desc: nat, next: nat)
    requires (alignment == 4 || alignment == 8) && p + 12 <= |s| && next <= |s|
    requires U32(s, p) == |n.name| && U32(s, p + 4) == |n.desc| && U32(s, p + 8) == n.typ
    requires desc == Align(p + 12 + |n.name|, alignment) && desc + |n.desc| <= |s|
    requires next == Align(desc + |n.desc|, alignment)
    requires s[p + 12..p + 12 + |n.name|] == n.name && s[desc..desc + |n.desc|] == n.desc
    ensures NoteAt(s, alignment, p) == Some((n, next))
  {
    hide U32, Align;
  }

  lemma NoteRead(s: Bytes, p: nat, e: Bytes, n: Note, desc: nat, alignment: nat)
    requires (alignment == 4 || alignment == 8) && Aligned(p, alignment) && Holds(s, p, e)
      && IsNote(e, n, desc, alignment)
    ensures p <= |s| && NoteAt(s, alignment, p) == Some((n, p + |e|))
  {
    hide U32, Align, Aligned, NoteAt, Holds;
    Fits(s, p, e);
    AlignBehind(p, 12 + |n.name|, alignment);
    AlignBehind(p, desc + |n.desc|, alignment);
    SliceWithin(s, p, e, 12, 12 + |n.name|);
    SliceWithin(s, p, e, desc, desc + |n.desc|);
    WordWithin(s, p, e, 0);
    WordWithin(s, p, e, 4);
    WordWithin(s, p, e, 8);
    NoteFrom(s, alignment, p, n, p + desc, p + |e|);
  }

  /** A position that holds an encoded note is read as that note. */
  lemma NoteFound(s: Bytes, p: nat, n: Note, alignment: nat)
    requires ValidNote(n) && (alignment == 4 || alignment == 8) && Aligned(p, alignment)
    requires Holds(s, p, EncodeNote(n, alignment))
    ensures p <= |s| && NoteAt(s, alignment, p) == Some((n, p + |EncodeNote(n, alignment)|))
  {
    hide *;
    EncodedIsNote(n, alignment);
    NoteRead(s, p, EncodeNote(n, alignment), n, Align(12 + |n.name|, alignment), alignment);
  }

  /** Scanning any notes at either alignment finds exactly the descriptors of the metadata notes, in order. */
  lemma {:induction false} ScanFindsRecords(s: Bytes, p: nat, notes: seq<Note>, alignment: nat)
    requires (alignment == 4 || alignment == 8) && Aligned(p, alignment) && p <= |s|
    requires forall i :: 0 <= i < |notes| ==> ValidNote(notes[i])
    requires s[p..] == EncodeNotes(notes, alignment)
    ensures Scan(s, alignment, p) == Records(notes)
    decreases notes
  {
    hide *;
    if notes == [] {
      NothingLeft(s, p, alignment);
    } else {
      var e, rest := EncodeNote(notes[0], alignment), EncodeNotes(notes[1..], alignment);
      NotesStart(notes, alignment);
      AlignBehind(p, |e|, alignment);
      NextNote(s, p, e, rest);
      NoteFound(s, p, notes[0], alignment);
      ScanFindsRecords(s, p + |e|, notes[1..], alignment);
      ScanOne(s, alignment, p, notes[0], p + |e|);
    }
  }

  lemma NothingLeft(s: Bytes, p: nat, alignment: nat)
    requires (alignment == 4 || alignment == 8) && p <= |s| && s[p..] == EncodeNotes([], alignment)
    ensures Scan(s, alignment, p) == Records([])
  {
    assert |s[p..]| == 0;
    hide U32, Align;
  }

  lemma NotesStart(notes: seq<Note>, alignment: nat)
    requires (alignment == 4 || alignment == 8) && notes != [] && forall i :: 0 <= i < |notes| ==> ValidNote(notes[i])
    ensures EncodeNotes(notes, alignment) == EncodeNote(notes[0], alignment) + EncodeNotes(notes[1..], alignment)
    ensures Aligned(|EncodeNote(notes[0], alignment)|, alignment)
    ensures Records(notes) == Found(notes[0]) + Records(notes[1..])
  {
    hide EncodeNote, Align, Aligned, ValidNote;
  }

  lemma ScanOne(s: Bytes, alignment: nat, p: nat, n: Note, next: nat)
    requires (alignment == 4 || alignment == 8) && p <= |s| && NoteAt(s, alignment, p) == Some((n, next))
    ensures Scan(s, alignment, p) == Found(n) + Scan(s, alignment, next)
  {
    hide NoteAt, IsRecord;
  }

  lemma NextNote(s: Bytes, p: nat, e: Bytes, rest: Bytes)
    requires p <= |s| && s[p..] == e + rest
    ensures p + |e| <= |s| && Holds(s, p, e) && s[p + |e|..] == rest
  {
    assert |s| == p + |e| + |rest|;
    forall k | 0 <= k < |e| ensures s[p + k] == e[k] {
      assert s[p..][k] == e[k];
    }
    var r := s[p + |e|..];
    forall k | 0 <= k < |rest| ensures r[k] == rest[k] {
      assert s[p..][|e| + k] == rest[k];
    }
  }

  /* ---- The image ---- */

  /** Where an image has its program headers; NoHeaders for what is not an ELF image or has none. */
  datatype Layout = NoHeaders | Truncated | Headers(elf64: bool, phoff: nat, phentsize: nat, phnum: nat)

  /** A program header: a note segment with its alignment, one that leaves the image, or another kind. */
  datatype Entry = NoteSegment(segment: Bytes, alignment: nat) | OutsideImage | OtherSegment

  function EntrySize(elf64: bool): nat {
    if elf64 then 56 else 32
  }

  /** The program headers lie inside an image of a size. */
  predicate Inside(l: Layout, size: nat) {
    l.Headers? && l.phentsize >= EntrySize(l.elf64) && l.phoff + l.phnum * l.phentsize <= size
  }

  function LayoutOf(data: Bytes): (r: Layout)
    ensures r.Headers? ==> Inside(r, |data|)
  {
    if |data| < 16 || data[..4] != [0x7f, 0x45, 0x4c, 0x46] || data[5] != 1 || data[4] !in {1, 2} then NoHeaders
    else
      var elf64 := data[4] == 2;
      if |data| < (if elf64 then 64 else 52) then Truncated
      else
        var phoff := if elf64 then U64(data, 32) else U32(data, 28);
        var shoff := if elf64 then U64(data, 40) else U32(data, 32);
        var phentsize, count := U16(data, if elf64 then 54 else 42), U16(data, if elf64 then 56 else 44);
        if count == 0 then NoHeaders
        else
          var info := shoff + if elf64 then 44 else 28;
          if count == PN_XNUM && info + 4 > |data| then Truncated
          else
            var phnum := if count == PN_XNUM then U32(data, info) else count;
            if phentsize < EntrySize(elf64) || phoff + phnum * phentsize > |data| then Truncated
            else Headers(elf64, phoff, phentsize, phnum)
  }

  /** The entries of the program headers lie inside the image. */
  lemma EntryInside(l: Layout, size: nat, index: nat)
    requires Inside(l, size) && index < l.phnum
    ensures l.phoff + index * l.phentsize + EntrySize(l.elf64) <= size
  {
    assert (index + 1) * l.phentsize <= l.phnum * l.phentsize;
  }

  function EntryFrom(data: Bytes, elf64: bool, at: nat): (r: Entry)
    requires at + EntrySize(elf64) <= |data|
    ensures r.NoteSegment? ==> r.alignment == 4 || r.alignment == 8
  {
    if U32(data, at) != PT_NOTE then OtherSegment
    else
      var offset := if elf64 then U64(data, at + 8) else U32(data, at + 4);
      var size := if elf64 then U64(data, at + 32) else U32(data, at + 16);
      var alignment := if elf64 then U64(data, at + 48) else U32(data, at + 28);
      if offset + size > |data| then OutsideImage
      else NoteSegment(data[offset..offset + size], if alignment == 8 then 8 else 4)
  }

  function EntryAt(data: Bytes, l: Layout, index: nat): (r: Entry)
    requires Inside(l, |data|) && index < l.phnum
    ensures r.NoteSegment? ==> r.alignment == 4 || r.alignment == 8
  {
    EntryInside(l, |data|, index);
    EntryFrom(data, l.elf64, l.phoff + index * l.phentsize)
  }

  /** The records of the first `n` program headers; None if one of them leaves the image. */
  function RecordsUpTo(data: Bytes, l: Layout, n: nat): Option<seq<Bytes>>
    requires Inside(l, |data|) && n <= l.phnum
  {
    if n == 0 then Some([])
    else
      match RecordsUpTo(data, l, n - 1)
      case None => None
      case Some(records) =>
        match EntryAt(data, l, n - 1)
        case OtherSegment => Some(records)
        case OutsideImage => None
        case NoteSegment(segment, alignment) => Some(records + Scan(segment, alignment, 0))
  }

  /** The record of a module, empty without one; None for a truncated image or more than one record. */
  function ModuleInfo(data: Bytes): Option<Bytes> {
    match LayoutOf(data)
    case NoHeaders => Some([])
    case Truncated => None
    case Headers(_, _, _, phnum) =>
      match RecordsUpTo(data, LayoutOf(data), phnum)
      case None => None
      case Some(records) => if |records| > 1 then None else if records == [] then Some([]) else Some(records[0])
  }

  method ReadModuleInfo(data: Bytes) returns (r: Option<Bytes>)
    ensures r == ModuleInfo(data)
  {
    var l := LayoutOf(data);
    if l.NoHeaders? {
      return Some([]);
    }
    if l.Truncated? {
      return None;
    }
    var records: seq<Bytes>, index, ok := [], 0, true;
    while ok && index < l.phnum
      invariant index <= l.phnum
      invariant if ok then RecordsUpTo(data, l, index) == Some(records) else RecordsUpTo(data, l, l.phnum) == None
      decreases ok, l.phnum - index
    {
      match EntryAt(data, l, index) {
        case OtherSegment =>
        case OutsideImage =>
          ok := false;
          StaysOutside(data, l, index + 1, l.phnum);
        case NoteSegment(segment, alignment) =>
          records := ScanSegment(segment, alignment, records);
      }
      index := index + 1;
    }
    if !ok || |records| > 1 {
      return None;
    }
    r := Some(if records == [] then [] else records[0]);
  }

  lemma {:induction false} StaysOutside(data: Bytes, l: Layout, n: nat, m: nat)
    requires Inside(l, |data|) && n <= m <= l.phnum && RecordsUpTo(data, l, n) == None
    ensures RecordsUpTo(data, l, m) == None
    decreases m
  {
    hide EntryAt;
    if n < m {
      StaysOutside(data, l, n, m - 1);
    }
  }

  /** The program headers up to `n` hold these notes; None for another kind of segment. */
  predicate HoldsNotes(data: Bytes, l: Layout, notes: seq<Option<seq<Note>>>, n: nat)
    requires Inside(l, |data|) && n <= |notes| == l.phnum
  {
    forall i :: 0 <= i < n ==>
      match EntryAt(data, l, i)
      case OtherSegment => notes[i] == None
      case OutsideImage => false
      case NoteSegment(segment, alignment) =>
        && notes[i].Some? && (forall k :: 0 <= k < |notes[i].value| ==> ValidNote(notes[i].value[k]))
        && segment == EncodeNotes(notes[i].value, alignment)
  }

  function AllRecords(notes: seq<Option<seq<Note>>>, n: nat): seq<Bytes>
    requires n <= |notes|
  {
    if n == 0 then []
    else AllRecords(notes, n - 1) + if notes[n - 1].Some? then Records(notes[n - 1].value) else []
  }

  /** In an image whose note segments hold notes, exactly the descriptors of the metadata notes are found. */
  lemma {:induction false} ImageRecords(data: Bytes, l: Layout, notes: seq<Option<seq<Note>>>, n: nat)
    requires Inside(l, |data|) && n <= |notes| == l.phnum && HoldsNotes(data, l, notes, n)
    ensures RecordsUpTo(data, l, n) == Some(AllRecords(notes, n))
    decreases n
  {
    hide Inside, EntryAt, EncodeNotes, Scan, ValidNote;
    if n > 0 {
      ImageRecords(data, l, notes, n - 1);
      match EntryAt(data, l, n - 1) {
        case OtherSegment =>
          assert AllRecords(notes, n) == AllRecords(notes, n - 1) + [] == AllRecords(notes, n - 1);
        case NoteSegment(segment, alignment) =>
          assert segment[0..] == segment;
          ScanFindsRecords(segment, 0, notes[n - 1].value, alignment);
      }
    }
  }

  /* ---- Preserving the records ---- */

  datatype File = File(data: Bytes, symlink: bool, regular: bool)

  type Files = map<string, File>

  /** A module whose record has to be kept. */
  predicate IsSaved(before: Files, path: string) {
    && path in before && !before[path].symlink && before[path].regular
    && ModuleInfo(before[path].data).Some? && ModuleInfo(before[path].data).value != []
  }

  /** A module that cannot be read. */
  predicate Unreadable(before: Files, path: string) {
    path in before && !before[path].symlink && before[path].regular && ModuleInfo(before[path].data) == None
  }

  predicate Keeps(before: Files, after: Files, path: string)
    requires IsSaved(before, path)
  {
    path in after && !after[path].symlink && ModuleInfo(after[path].data) == ModuleInfo(before[path].data)
  }

  datatype Outcome = Returned | Raised(errors: nat)

  function Saved(before: Files, paths: seq<string>): (saved: seq<string>)
    ensures forall p :: p in saved <==> p in paths && IsSaved(before, p)
  {
    if paths == [] then []
    else Saved(before, paths[..|paths| - 1])
         + if IsSaved(before, paths[|paths| - 1]) then [paths[|paths| - 1]] else []
  }

  /** The saved modules with their records. */
  predicate SavedAs(before: Files, paths: seq<string>, saved: seq<(string, Bytes)>) {
    && |saved| == |Saved(before, paths)|
    && forall k :: 0 <= k < |saved| ==>
         && saved[k].0 == Saved(before, paths)[k] && IsSaved(before, saved[k].0)
         && Some(saved[k].1) == ModuleInfo(before[saved[k].0].data)
  }

  /** Saves the records of all modules; None if a module cannot be read. */
  method SaveRecords(paths: seq<string>, before: Files) returns (r: Option<seq<(string, Bytes)>>)
    ensures r.Some? <==> forall p :: p in paths ==> !Unreadable(before, p)
    ensures r.Some? ==> SavedAs(before, paths, r.value)
  {
    hide ModuleInfo;
    var saved: seq<(string, Bytes)> := [];
    for i := 0 to |paths|
      invariant forall p :: p in paths[..i] ==> !Unreadable(before, p)
      invariant SavedAs(before, paths[..i], saved)
    {
      assert paths[..i + 1] == paths[..i] + [paths[i]] && paths[..i + 1][..i] == paths[..i];
      assert paths[i] in paths;
      if paths[i] in before && !before[paths[i]].symlink && before[paths[i]].regular {
        var record := ReadModuleInfo(before[paths[i]].data);
        if record == None {
          assert Unreadable(before, paths[i]);
          return None;
        }
        if record.value != [] {
          saved := saved + [(paths[i], record.value)];
        }
      }
    }
    assert paths[..|paths|] == paths;
    r := Some(saved);
  }

  /** Runs the command and checks every module whose record was saved, also when the command fails. */
  method Preserve(paths: seq<string>, before: Files, commandFails: bool, after: Files)
    returns (outcome: Outcome, ran: bool, ghost checked: seq<string>)
    ensures ran <==> forall p :: p in paths ==> !Unreadable(before, p)
    ensures checked == if ran then Saved(before, paths) else []
    ensures outcome == Returned <==>
      ran && !commandFails && forall p :: p in paths && IsSaved(before, p) ==> Keeps(before, after, p)
    ensures outcome.Raised? ==> outcome.errors > 0
  {
    hide ModuleInfo, Saved;
    ran, checked := false, [];
    var saved := SaveRecords(paths, before);
    if saved == None {
      return Raised(1), false, [];
    }
    ran := true;
    var errors := if commandFails then 1 else 0;
    for k := 0 to |saved.value|
      invariant checked == Saved(before, paths)[..k]
      invariant errors == 0 <==> !commandFails && forall j :: 0 <= j < k ==> Keeps(before, after, saved.value[j].0)
    {
      var path, record := saved.value[k].0, saved.value[k].1;
      checked := checked + [path];
      var kept := path in after && !after[path].symlink;
      if kept {
        var current := ReadModuleInfo(after[path].data);
        kept := current.Some? && current.value != [] && current.value == record;
      }
      if !kept {
        errors := errors + 1;
      }
    }
    AllChecked(before, after, paths, saved.value);
    outcome := if errors > 0 then Raised(errors) else Returned;
  }

  lemma AllChecked(before: Files, after: Files, paths: seq<string>, saved: seq<(string, Bytes)>)
    requires SavedAs(before, paths, saved)
    ensures (forall k :: 0 <= k < |saved| ==> Keeps(before, after, saved[k].0)) <==>
      forall p :: p in paths && IsSaved(before, p) ==> Keeps(before, after, p)
  {
    forall p | p in paths && IsSaved(before, p) ensures exists k :: 0 <= k < |saved| && saved[k].0 == p {
      assert p in Saved(before, paths);
    }
  }
}
