/**
 boot/mkelf.py: segments are laid out behind a one-page header area of an ELF file. The reader follows
 the "ELF Header" and "Program Header" parts of the TIS ELF specification 1.2, Book I, chapter 1.
 */
module ElfImage {
  import opened Wrappers

  type byte = x: int | 0 <= x < 256

  const PAGE := 4096
  const EHSIZE := 52
  const PHENTSIZE := 32
  const PT_LOAD := 1
  const PT_NOTE := 4
  const UINT32 := 0x1_0000_0000

  /** The tag after the address of an input. */
  datatype Kind = Plain | Ramdisk | Ipl | Entry | Rpm | Cmdline

  datatype Segment = Segment(addr: nat, kind: Kind, data: seq<byte>)

  function Flags(k: Kind): (r: nat)
    ensures (k.Ramdisk? <==> r == 0x8000_0000) && (k.Ipl? <==> r == 0x4000_0000)
    ensures (k.Cmdline? <==> r == 0x2000_0000) && (k.Rpm? <==> r == 0x0100_0000)
    ensures k.Plain? || k.Entry? <==> r == 0
  {
    match k
    case Ramdisk => 0x8000_0000
    case Ipl => 0x4000_0000
    case Cmdline => 0x2000_0000
    case Rpm => 0x0100_0000
    case Plain => 0
    case Entry => 0
  }

  function Type(k: Kind): (r: nat)
    ensures r == 4 <==> k.Cmdline?
    ensures r == 1 <==> !k.Cmdline?
  {
    if k.Cmdline? then PT_NOTE else PT_LOAD
  }

  // ---------- bytes ----------

  function B0(n: nat): byte { n % 256 }
  function B1(n: nat): byte { n / 256 % 256 }
  function B2(n: nat): byte { n / 65536 % 256 }
  function B3(n: nat): byte { n / 16777216 % 256 }

  function Read16(img: seq<byte>, at: nat): nat
    requires at + 2 <= |img|
  {
    img[at] as int + 256 * img[at + 1] as int
  }

  function Read32(img: seq<byte>, at: nat): nat
    requires at + 4 <= |img|
  {
    img[at] as int + 256 * img[at + 1] as int + 65536 * img[at + 2] as int + 16777216 * img[at + 3] as int
  }

  lemma LittleEndian(n: nat)
    ensures n < 65536 ==> B0(n) as int + 256 * B1(n) as int == n
    ensures n < UINT32 ==> B0(n) as int + 256 * B1(n) as int + 65536 * B2(n) as int + 16777216 * B3(n) as int == n
  {
    var a, b, c := n / 256, n / 65536, n / 16777216;
    assert n == 256 * a + n % 256;
    assert a == 256 * b + a % 256;
    assert b == 256 * c + b % 256;
  }

  function HeaderBytes(entry: nat, phnum: nat): (r: seq<byte>)
    ensures |r| == EHSIZE
  {
    [0x7f, 0x45, 0x4c, 0x46, 1, 1, 1, 0x61, 0, 0, 0, 0, 0, 0, 0, 0] +
    [2, 0, 40, 0, 1, 0, 0, 0,
     B0(entry), B1(entry), B2(entry), B3(entry),
     52, 0, 0, 0, 0, 0, 0, 0, 0, 0, 0, 0,
     52, 0, 32, 0, B0(phnum), B1(phnum), 0, 0, 0, 0, 0, 0]
  }

  function U32(n: nat): (r: seq<byte>)
    ensures |r| == 4
  {
    [B0(n), B1(n), B2(n), B3(n)]
  }

  /** struct.pack of a row of 'L' fields. */
  function Pack32(fields: seq<nat>): (r: seq<byte>)
    ensures |r| == 4 * |fields|
  {
    if fields == [] then [] else Pack32(fields[..|fields| - 1]) + U32(fields[|fields| - 1])
  }

  function PhdrFields(s: Segment, offset: nat): (r: seq<nat>)
    ensures |r| == 8
  {
    [Type(s.kind), offset, s.addr, s.addr, |s.data|, |s.data|, Flags(s.kind), 0]
  }

  function PhdrBytes(s: Segment, offset: nat): (r: seq<byte>)
    ensures |r| == PHENTSIZE
  {
    Pack32(PhdrFields(s, offset))
  }

  /** struct.pack('<16s'): cut or padded with zeros to sixteen bytes. */
  function BoardBytes(name: seq<byte>): (r: seq<byte>)
    ensures |r| == 16
  {
    if |name| >= 16 then name[..16] else name + seq(16 - |name|, _ => 0)
  }

  // ---------- files ----------

  datatype Write = Write(at: nat, bytes: seq<byte>)

  function End(w: Write): nat {
    w.at + |w.bytes|
  }

  /** Writing past the end fills the gap with zeros; writing nothing changes nothing. */
  function Put(content: seq<byte>, w: Write): (r: seq<byte>)
    ensures w.bytes != [] ==> |r| >= End(w) && r[w.at..End(w)] == w.bytes
    ensures |r| >= |content| && forall i | 0 <= i < |content| && !(w.at <= i < End(w)) :: r[i] == content[i]
  {
    if w.bytes == [] then content
    else
      var padded := if |content| < w.at then content + seq(w.at - |content|, _ => 0) else content;
      var r := padded[..w.at] + w.bytes + if End(w) < |padded| then padded[End(w)..] else [];
      assert r[w.at..End(w)] == w.bytes;
      r
  }

  function PutAll(content: seq<byte>, ws: seq<Write>): seq<byte>
    decreases ws
  {
    if ws == [] then content else Put(PutAll(content, ws[..|ws| - 1]), ws[|ws| - 1])
  }

  predicate Apart(a: Write, b: Write) {
    a.bytes == [] || b.bytes == [] || End(a) <= b.at || End(b) <= a.at
  }

  ghost predicate NoOverlap(ws: seq<Write>) {
    forall i, j | 0 <= i < j < |ws| :: Apart(ws[i], ws[j])
  }

  /** The bytes of w are in the file, where w put them. */
  ghost predicate Holds(img: seq<byte>, w: Write) {
    w.bytes == [] || (End(w) <= |img| && img[w.at..End(w)] == w.bytes)
  }

  /** When no two writes overlap, every one of them survives. */
  lemma {:induction false} WritesSurvive(ws: seq<Write>, i: nat)
    requires NoOverlap(ws) && i < |ws|
    ensures Holds(PutAll([], ws), ws[i])
    decreases ws
  {
    hide Put, Apart, Holds;
    var front, last := ws[..|ws| - 1], ws[|ws| - 1];
    if i < |ws| - 1 {
      WritesSurvive(front, i);
      PutKeeps(PutAll([], front), last, ws[i]);
    } else {
      PutHolds(PutAll([], front), last);
    }
  }

  lemma PutHolds(before: seq<byte>, w: Write)
    ensures Holds(Put(before, w), w)
  {
  }

  lemma PutKeeps(before: seq<byte>, last: Write, w: Write)
    requires Holds(before, w) && Apart(w, last)
    ensures Holds(Put(before, last), w)
  {
    if w.bytes != [] {
      var img := Put(before, last);
      assert forall k | w.at <= k < End(w) :: img[k] == before[k] == before[w.at..End(w)][k - w.at];
      assert img[w.at..End(w)] == w.bytes;
    }
  }

  // ---------- the layout ----------

  function Offset(segs: seq<Segment>, i: nat): nat
    requires i <= |segs|
  {
    if i == 0 then PAGE else Offset(segs, i - 1) + |segs[i - 1].data|
  }

  /** struct.pack refuses fields that do not fit. */
  ghost predicate Packable(segs: seq<Segment>) {
    && 0 < |segs| < 65536
    && forall i | 0 <= i < |segs| :: segs[i].addr < UINT32 && |segs[i].data| < UINT32 && Offset(segs, i) < UINT32
  }

  /** Program header i comes right behind the ELF header and the program headers before it. */
  function PhdrAt(i: nat): nat {
    52 + 32 * i
  }

  function BoardCount(board: Option<seq<byte>>): nat {
    if board.Some? then 1 else 0
  }

  /** The i-th write of the program: the header, the program headers, the board name, the contents. */
  function WriteAt(segs: seq<Segment>, board: Option<seq<byte>>, i: nat): Write
    requires segs != [] && i < 1 + |segs| + BoardCount(board) + |segs|
  {
    var n, m := |segs|, BoardCount(board);
    if i == 0 then Write(0, HeaderBytes(segs[0].addr, n))
    else if i <= n then Write(PhdrAt(i - 1), PhdrBytes(segs[i - 1], Offset(segs, i - 1)))
    else if i <= n + m then Write(PAGE - 16, BoardBytes(board.value))
    else Write(Offset(segs, i - 1 - n - m), segs[i - 1 - n - m].data)
  }

  function Writes(segs: seq<Segment>, board: Option<seq<byte>>): (r: seq<Write>)
    requires segs != []
    ensures |r| == 1 + |segs| + BoardCount(board) + |segs|
    ensures forall i | 0 <= i < |r| :: r[i] == WriteAt(segs, board, i)
  {
    seq(1 + |segs| + BoardCount(board) + |segs|,
        i requires 0 <= i < 1 + |segs| + BoardCount(board) + |segs| => WriteAt(segs, board, i))
  }

  predicate HeadersFit(n: nat, board: Option<seq<byte>>) {
    PhdrAt(n) <= if board.Some? then PAGE - 16 else PAGE
  }

  lemma {:induction false} OffsetsGrow(segs: seq<Segment>, i: nat, j: nat)
    requires i < j <= |segs|
    ensures PAGE <= Offset(segs, i) && Offset(segs, i) + |segs[i].data| <= Offset(segs, j)
    decreases j
  {
    if i < j - 1 {
      OffsetsGrow(segs, i, j - 1);
    } else {
      OffsetAtLeastPage(segs, i);
    }
  }

  lemma {:induction false} OffsetAtLeastPage(segs: seq<Segment>, i: nat)
    requires i <= |segs|
    ensures PAGE <= Offset(segs, i)
    decreases i
  {
    if i > 0 {
      OffsetAtLeastPage(segs, i - 1);
    }
  }

  lemma {:induction false} EmptyBefore(segs: seq<Segment>, i: nat)
    requires i <= |segs| && forall j | 0 <= j < i :: segs[j].data == []
    ensures Offset(segs, i) == PAGE
    decreases i
  {
    if i > 0 {
      EmptyBefore(segs, i - 1);
    }
  }

  lemma PairApart(segs: seq<Segment>, board: Option<seq<byte>>, i: nat, j: nat)
    requires segs != [] && i < j < 1 + |segs| + BoardCount(board) + |segs| && HeadersFit(|segs|, board)
    ensures Apart(WriteAt(segs, board, i), WriteAt(segs, board, j))
  {
    hide HeaderBytes, PhdrBytes, BoardBytes;
    var n, m := |segs|, BoardCount(board);
    if n + m < j {
      OffsetAtLeastPage(segs, j - 1 - n - m);
      if n + m < i {
        OffsetsGrow(segs, i - 1 - n - m, j - 1 - n - m);
      }
    }
  }

  lemma LayoutApart(segs: seq<Segment>, board: Option<seq<byte>>)
    requires segs != [] && HeadersFit(|segs|, board)
    ensures NoOverlap(Writes(segs, board))
  {
    hide WriteAt, Apart;
    var ws := Writes(segs, board);
    forall i, j | 0 <= i < j < |ws|
      ensures Apart(ws[i], ws[j])
    {
      PairApart(segs, board, i, j);
    }
  }

  /** The writes are disjoint exactly when the headers fit, but for files without any contents. */
  lemma NoOverlapIffFit(segs: seq<Segment>, board: Option<seq<byte>>)
    requires segs != []
    ensures NoOverlap(Writes(segs, board)) <==>
              HeadersFit(|segs|, board) || (board.None? && forall i | 0 <= i < |segs| :: segs[i].data == [])
  {
    hide HeaderBytes, PhdrBytes, BoardBytes, Apart;
    var ws, n, m := Writes(segs, board), |segs|, BoardCount(board);
    if HeadersFit(n, board) {
      LayoutApart(segs, board);
    } else if board.Some? {
      NotApart(ws[126], ws[1 + n], PAGE - 16);
    } else if forall i | 0 <= i < n :: segs[i].data == [] {
      EmptyDataApart(segs);
    } else {
      var k := FirstWithData(segs);
      EmptyBefore(segs, k);
      NotApart(ws[127], ws[1 + n + k], PAGE);
    }
  }

  lemma NotApart(a: Write, b: Write, k: nat)
    requires a.at <= k < End(a) && b.at <= k < End(b)
    ensures !Apart(a, b)
  {
  }

  lemma FirstWithData(segs: seq<Segment>) returns (k: nat)
    requires exists i :: 0 <= i < |segs| && segs[i].data != []
    ensures k < |segs| && segs[k].data != [] && forall j | 0 <= j < k :: segs[j].data == []
  {
    k := 0;
    while segs[k].data == []
      invariant k < |segs| && forall j | 0 <= j < k :: segs[j].data == []
      invariant exists i :: k <= i < |segs| && segs[i].data != []
      decreases |segs| - k
    {
      k := k + 1;
    }
  }

  lemma EmptyDataApart(segs: seq<Segment>)
    requires segs != [] && forall i | 0 <= i < |segs| :: segs[i].data == []
    ensures NoOverlap(Writes(segs, None))
  {
    hide HeaderBytes, PhdrBytes;
    var ws := Writes(segs, None);
    forall i, j | 0 <= i < j < |ws|
      ensures Apart(ws[i], ws[j])
    {
    }
  }

  // ---------- the reader ----------

  datatype Loaded = Loaded(ptype: nat, vaddr: nat, paddr: nat, flags: nat, memsz: nat, align: nat, bytes: seq<byte>)

  /** EI_OSABI and the fixed fields of the header. */
  datatype Header = Header(osabi: nat, etype: nat, machine: nat, version: nat, shoff: nat, flags: nat, ehsize: nat,
                           shentsize: nat, shnum: nat, shstrndx: nat)

  datatype Elf = Elf(header: Header, entry: nat, segments: seq<Loaded>)

  function ReadHeader(img: seq<byte>): Header
    requires |img| >= 52
  {
    Header(img[7] as int, Read16(img, 16), Read16(img, 18), Read32(img, 20), Read32(img, 32), Read32(img, 36),
           Read16(img, 40), Read16(img, 46), Read16(img, 48), Read16(img, 50))
  }

  function ReadSegment(img: seq<byte>, at: nat): Option<Loaded> {
    if at + 32 > |img| then None
    else
      var offset, filesz := Read32(img, at + 4), Read32(img, at + 16);
      if filesz > 0 && offset + filesz > |img| then None
      else Some(Loaded(Read32(img, at), Read32(img, at + 8), Read32(img, at + 12), Read32(img, at + 24),
                       Read32(img, at + 20), Read32(img, at + 28),
                       if filesz == 0 then [] else img[offset..offset + filesz]))
  }

  function EntryAt(phoff: nat, phentsize: nat, i: nat): nat {
    phoff + phentsize * i
  }

  function ReadSegments(img: seq<byte>, phoff: nat, phentsize: nat, n: nat): Option<seq<Loaded>> {
    if n == 0 then Some([])
    else
      var front := ReadSegments(img, phoff, phentsize, n - 1);
      var last := ReadSegment(img, EntryAt(phoff, phentsize, n - 1));
      if front.None? || last.None? then None else Some(front.value + [last.value])
  }

  /** 0x7f, 'E', 'L', 'F', ELFCLASS32, ELFDATA2LSB, EV_CURRENT */
  predicate Magic(img: seq<byte>)
    requires |img| >= 52
  {
    img[0] == 0x7f && img[1] == 0x45 && img[2] == 0x4c && img[3] == 0x46 && img[4] == 1 && img[5] == 1 && img[6] == 1
  }

  /** Follows e_phoff, e_phentsize and e_phnum of a 32-bit little-endian file. */
  function Parse(img: seq<byte>): Option<Elf> {
    if |img| < 52 || !Magic(img) then None
    else
      var segments := ReadSegments(img, Read32(img, 28), Read16(img, 42), Read16(img, 44));
      if segments.None? then None else Some(Elf(ReadHeader(img), Read32(img, 24), segments.value))
  }

  function Expected(s: Segment): Loaded {
    Loaded(Type(s.kind), s.addr, s.addr, Flags(s.kind), |s.data|, 0, s.data)
  }

  function ExpectedAll(segs: seq<Segment>, n: nat): (r: seq<Loaded>)
    requires n <= |segs|
    ensures |r| == n && forall i | 0 <= i < n :: r[i] == Expected(segs[i])
  {
    seq(n, i requires 0 <= i < n => Expected(segs[i]))
  }

  /** Reading inside a stretch of the file that is known. */
  lemma ReadsInside(img: seq<byte>, at: nat, bytes: seq<byte>, k: nat)
    requires at + |bytes| <= |img| && img[at..at + |bytes|] == bytes
    ensures k + 2 <= |bytes| ==> Read16(img, at + k) == Read16(bytes, k)
    ensures k + 4 <= |bytes| ==> Read32(img, at + k) == Read32(bytes, k)
  {
    assert forall i | 0 <= i < |bytes| :: bytes[i] == img[at..at + |bytes|][i] == img[at + i];
  }

  /** Packed fields read back. */
  lemma {:induction false} PackReads(fields: seq<nat>, i: nat)
    requires i < |fields| && forall j | 0 <= j < |fields| :: fields[j] < UINT32
    ensures Read32(Pack32(fields), 4 * i) == fields[i]
    decreases fields
  {
    var front, last := fields[..|fields| - 1], fields[|fields| - 1];
    if i < |front| {
      PackReads(front, i);
    } else {
      LittleEndian(last);
      hide B0, B1, B2, B3;
    }
  }

  lemma PhdrFieldReads(img: seq<byte>, at: nat, s: Segment, offset: nat, i: nat)
    requires Holds(img, Write(at, PhdrBytes(s, offset))) && i < 8
    requires s.addr < UINT32 && |s.data| < UINT32 && offset < UINT32
    ensures at + PHENTSIZE <= |img| && Read32(img, at + 4 * i) == PhdrFields(s, offset)[i]
  {
    PackReads(PhdrFields(s, offset), i);
    hide Pack32, Read32, PhdrFields;
    ReadsInside(img, at, PhdrBytes(s, offset), 4 * i);
  }

  lemma PhdrFieldsRead(img: seq<byte>, at: nat, s: Segment, offset: nat)
    requires Holds(img, Write(at, PhdrBytes(s, offset)))
    requires s.addr < UINT32 && |s.data| < UINT32 && offset < UINT32
    ensures at + PHENTSIZE <= |img|
    ensures Read32(img, at) == Type(s.kind) && Read32(img, at + 4) == offset
    ensures Read32(img, at + 8) == s.addr == Read32(img, at + 12)
    ensures Read32(img, at + 16) == |s.data| == Read32(img, at + 20)
    ensures Read32(img, at + 24) == Flags(s.kind) && Read32(img, at + 28) == 0
  {
    hide Holds, PhdrBytes, Read32;
    for i := 0 to 8
      invariant i > 0 ==> at + PHENTSIZE <= |img|
      invariant forall j | 0 <= j < i :: Read32(img, at + 4 * j) == PhdrFields(s, offset)[j]
    {
      PhdrFieldReads(img, at, s, offset, i);
    }
    var fields := PhdrFields(s, offset);
    assert Read32(img, at + 4 * 0) == fields[0] && Read32(img, at + 4 * 1) == fields[1];
    assert Read32(img, at + 4 * 2) == fields[2] && Read32(img, at + 4 * 3) == fields[3];
    assert Read32(img, at + 4 * 4) == fields[4] && Read32(img, at + 4 * 5) == fields[5];
    assert Read32(img, at + 4 * 6) == fields[6] && Read32(img, at + 4 * 7) == fields[7];
  }

  lemma DataReads(img: seq<byte>, offset: nat, data: seq<byte>)
    requires Holds(img, Write(offset, data)) && data != []
    ensures offset + |data| <= |img| && img[offset..offset + |data|] == data
  {
  }

  lemma PhdrReads(img: seq<byte>, at: nat, s: Segment, offset: nat)
    requires Holds(img, Write(at, PhdrBytes(s, offset))) && Holds(img, Write(offset, s.data))
    requires s.addr < UINT32 && |s.data| < UINT32 && offset < UINT32
    ensures ReadSegment(img, at) == Some(Expected(s))
  {
    hide Holds, PhdrBytes, Read32, Flags, Type;
    PhdrFieldsRead(img, at, s, offset);
    if s.data != [] {
      DataReads(img, offset, s.data);
    }
  }

  lemma {:induction false} SegmentsRead(img: seq<byte>, segs: seq<Segment>, n: nat)
    requires n <= |segs| && Packable(segs)
    requires forall i | 0 <= i < n ::
               Holds(img, Write(PhdrAt(i), PhdrBytes(segs[i], Offset(segs, i))))
               && Holds(img, Write(Offset(segs, i), segs[i].data))
    ensures ReadSegments(img, 52, 32, n) == Some(ExpectedAll(segs, n))
    decreases n
  {
    hide Holds, PhdrBytes, ReadSegment, Expected, Packable, Offset;
    if n > 0 {
      FieldsFit(segs, n - 1);
      SegmentsRead(img, segs, n - 1);
      PhdrReads(img, PhdrAt(n - 1), segs[n - 1], Offset(segs, n - 1));
      assert ExpectedAll(segs, n) == ExpectedAll(segs, n - 1) + [Expected(segs[n - 1])];
    }
  }

  lemma HeaderFields(entry: nat, phnum: nat)
    requires entry < UINT32 && phnum < 65536
    ensures var b := HeaderBytes(entry, phnum);
            Magic(b) && Read32(b, 28) == 52 && Read16(b, 42) == 32 && Read16(b, 44) == phnum && Read32(b, 24) == entry
  {
    LittleEndian(entry);
    LittleEndian(phnum);
    hide B0, B1, B2, B3;
  }

  /** An executable for ARM in its first version, with no section headers. */
  const ARM_EXECUTABLE := Header(0x61, 2, 40, 1, 0, 0, 52, 0, 0, 0)

  lemma HeaderFixed(entry: nat, phnum: nat)
    ensures ReadHeader(HeaderBytes(entry, phnum)) == ARM_EXECUTABLE
  {
    hide B0, B1, B2, B3;
  }

  lemma FixedReads(img: seq<byte>, bytes: seq<byte>)
    requires |bytes| == 52 <= |img| && img[0..52] == bytes
    ensures ReadHeader(img) == ReadHeader(bytes)
  {
    hide Read16, Read32;
    assert img[7] == img[0..52][7] == bytes[7];
    ReadsInside(img, 0, bytes, 16);
    ReadsInside(img, 0, bytes, 18);
    ReadsInside(img, 0, bytes, 20);
    ReadsInside(img, 0, bytes, 32);
    ReadsInside(img, 0, bytes, 36);
    ReadsInside(img, 0, bytes, 40);
    ReadsInside(img, 0, bytes, 46);
    ReadsInside(img, 0, bytes, 48);
    ReadsInside(img, 0, bytes, 50);
  }

  lemma HeaderReads(img: seq<byte>, entry: nat, phnum: nat)
    requires Holds(img, Write(0, HeaderBytes(entry, phnum))) && entry < UINT32 && phnum < 65536
    ensures |img| >= 52 && Magic(img) && ReadHeader(img) == ARM_EXECUTABLE
    ensures Read32(img, 28) == 52 && Read16(img, 42) == 32
    ensures Read16(img, 44) == phnum && Read32(img, 24) == entry
  {
    hide HeaderBytes, Read32, Read16, ReadHeader;
    var bytes := HeaderBytes(entry, phnum);
    HeaderFields(entry, phnum);
    HeaderFixed(entry, phnum);
    FixedReads(img, bytes);
    assert forall i | 0 <= i < 7 :: img[i] == img[0..52][i] == bytes[i];
    ReadsInside(img, 0, bytes, 24);
    ReadsInside(img, 0, bytes, 28);
    ReadsInside(img, 0, bytes, 42);
    ReadsInside(img, 0, bytes, 44);
  }

  /**
   When the headers fit and every field can be packed, a reader of the finished file finds the entry
   point and every segment: its type, addresses, flags and exact bytes. Sixteen bytes before the first page is
   the board name.
   */
  lemma {:induction false} ImageReadsBack(segs: seq<Segment>, board: Option<seq<byte>>)
    requires segs != [] && Packable(segs) && HeadersFit(|segs|, board)
    ensures Parse(PutAll([], Writes(segs, board)))
         == Some(Elf(ARM_EXECUTABLE, segs[0].addr, ExpectedAll(segs, |segs|)))
    ensures board.Some? ==> NamedAt(PutAll([], Writes(segs, board)), board.value)
  {
    hide Holds, HeaderBytes, PhdrBytes, BoardBytes, Packable, ReadHeader, NamedAt;
    var ws, n, m := Writes(segs, board), |segs|, BoardCount(board);
    var img := PutAll([], ws);
    LayoutApart(segs, board);
    WritesSurvive(ws, 0);
    forall i | 0 <= i < n
      ensures Holds(img, Write(PhdrAt(i), PhdrBytes(segs[i], Offset(segs, i))))
      ensures Holds(img, Write(Offset(segs, i), segs[i].data))
    {
      WritesSurvive(ws, 1 + i);
      WritesSurvive(ws, 1 + n + m + i);
    }
    if board.Some? {
      WritesSurvive(ws, 1 + n);
      BoardReads(img, board.value);
    }
    FirstPackable(segs);
    HeaderReads(img, segs[0].addr, n);
    SegmentsRead(img, segs, n);
  }

  /** The name, cut or padded with zeros to sixteen bytes, ends where the first page does. */
  ghost predicate NamedAt(img: seq<byte>, name: seq<byte>) {
    |img| >= 4096 && forall i | 0 <= i < 16 :: img[4080 + i] == if i < |name| then name[i] else 0
  }

  lemma BoardReads(img: seq<byte>, name: seq<byte>)
    requires Holds(img, Write(PAGE - 16, BoardBytes(name)))
    ensures NamedAt(img, name)
  {
    assert forall i | 0 <= i < 16 :: img[4080 + i] == img[4080..4096][i] == BoardBytes(name)[i];
  }

  lemma FieldsFit(segs: seq<Segment>, i: nat)
    requires Packable(segs) && i < |segs|
    ensures segs[i].addr < UINT32 && |segs[i].data| < UINT32 && Offset(segs, i) < UINT32
  {
  }

  lemma FirstPackable(segs: seq<Segment>)
    requires Packable(segs)
    ensures 0 < |segs| < 65536 && segs[0].addr < UINT32
  {
  }

  // ---------- the program ----------

  /** A file opened for writing. */
  class File {
    var content: seq<byte>
    var pos: nat

    constructor ()
      ensures content == [] && pos == 0
    {
      content, pos := [], 0;
    }

    method Seek(to: nat)
      modifies this`pos
      ensures pos == to
    {
      pos := to;
    }

    method Append(bytes: seq<byte>)
      modifies this
      ensures content == Put(old(content), Write(old(pos), bytes)) && pos == old(pos) + |bytes|
    {
      content := Put(content, Write(pos, bytes));
      pos := pos + |bytes|;
    }

    /** The next of a list of writes. */
    method AppendNext(bytes: seq<byte>, ghost ws: seq<Write>, ghost i: nat)
      requires i < |ws| && ws[i] == Write(pos, bytes) && content == PutAll([], ws[..i])
      modifies this
      ensures content == PutAll([], ws[..i + 1]) && pos == old(pos) + |bytes|
    {
      hide Put, PutAll;
      PutNext(ws, i);
      Append(bytes);
    }
  }

  lemma PutNext(ws: seq<Write>, i: nat)
    requires i < |ws|
    ensures PutAll([], ws[..i + 1]) == Put(PutAll([], ws[..i]), ws[i])
  {
    assert ws[..i + 1][..i] == ws[..i];
  }

  lemma FirstOffset(segs: seq<Segment>)
    ensures Offset(segs, 0) == 4096
  {
  }

  lemma NextOffset(segs: seq<Segment>, i: nat)
    requires i < |segs|
    ensures Offset(segs, i + 1) == Offset(segs, i) + |segs[i].data|
  {
  }

  /** offsets[i] is the running offset of segment i: one page, then the sizes so far. */
  method AssignOffsets(segs: seq<Segment>) returns (offsets: seq<nat>)
    ensures |offsets| == |segs| && forall i | 0 <= i < |segs| :: offsets[i] == Offset(segs, i)
    ensures segs != [] ==> offsets[0] == 4096
    ensures forall i | 0 < i < |segs| :: offsets[i] == offsets[i - 1] + |segs[i - 1].data|
  {
    hide Offset;
    var offset := PAGE;
    offsets := [];
    FirstOffset(segs);
    for i := 0 to |segs|
      invariant offset == Offset(segs, i) && |offsets| == i
      invariant forall j | 0 <= j < i :: offsets[j] == Offset(segs, j)
      invariant i > 0 ==> offsets[0] == 4096 && offset == offsets[i - 1] + |segs[i - 1].data|
      invariant forall j | 0 < j < i :: offsets[j] == offsets[j - 1] + |segs[j - 1].data|
    {
      NextOffset(segs, i);
      offsets := offsets + [offset];
      offset := offset + |segs[i].data|;
    }
  }

  /** struct.pack raises an error for a field that does not fit. */
  method CanPack(segs: seq<Segment>, offsets: seq<nat>) returns (ok: bool)
    requires |offsets| == |segs| && forall i | 0 <= i < |segs| :: offsets[i] == Offset(segs, i)
    ensures ok <==> Packable(segs)
  {
    hide Offset;
    if |segs| == 0 || |segs| >= 65536 {
      return false;
    }
    for i := 0 to |segs|
      invariant forall j | 0 <= j < i :: segs[j].addr < UINT32 && |segs[j].data| < UINT32 && Offset(segs, j) < UINT32
    {
      if segs[i].addr >= UINT32 || |segs[i].data| >= UINT32 || offsets[i] >= UINT32 {
        return false;
      }
    }
    return true;
  }

  lemma PackableMeans(segs: seq<Segment>)
    ensures Packable(segs) <==>
              && 0 < |segs| < 0x1_0000
              && forall i | 0 <= i < |segs| ::
                   segs[i].addr < 0x1_0000_0000 && |segs[i].data| < 0x1_0000_0000 && Offset(segs, i) < 0x1_0000_0000
  {
  }

  /**
   main: fails without inputs or when a field cannot be packed, and otherwise leaves a file that, if the
   headers fit, reads back as the inputs.
   */
  method MakeElf(segs: seq<Segment>, board: Option<seq<byte>>) returns (r: Option<seq<byte>>)
    ensures r.Some? <==>
              && 0 < |segs| < 0x1_0000
              && forall i | 0 <= i < |segs| ::
                   segs[i].addr < 0x1_0000_0000 && |segs[i].data| < 0x1_0000_0000 && Offset(segs, i) < 0x1_0000_0000
    ensures r.Some? ==> segs != [] && r.value == PutAll([], Writes(segs, board))
    ensures r.Some? && HeadersFit(|segs|, board) ==>
              && Parse(r.value) == Some(Elf(ARM_EXECUTABLE, segs[0].addr, ExpectedAll(segs, |segs|)))
              && (board.Some? ==> NamedAt(r.value, board.value))
  {
    hide Put, WriteAt, Packable, Parse, NamedAt;
    PackableMeans(segs);
    var offsets := AssignOffsets(segs);
    var ok := CanPack(segs, offsets);
    if !ok {
      return None;
    }
    FirstPackable(segs);
    var content := WriteImage(segs, offsets, board);
    if HeadersFit(|segs|, board) {
      ImageReadsBack(segs, board);
    }
    r := Some(content);
  }

  /** The three writing loops of main. */
  method WriteImage(segs: seq<Segment>, offsets: seq<nat>, board: Option<seq<byte>>) returns (content: seq<byte>)
    requires segs != [] && |offsets| == |segs| && forall i | 0 <= i < |segs| :: offsets[i] == Offset(segs, i)
    ensures content == PutAll([], Writes(segs, board))
  {
    hide Put, PutAll, HeaderBytes, PhdrBytes, BoardBytes, Offset;
    ghost var ws, n, m := Writes(segs, board), |segs|, BoardCount(board);
    NothingYet(ws);
    var elf := new File();
    elf.AppendNext(HeaderBytes(segs[0].addr, |segs|), ws, 0);
    for i := 0 to |segs|
      invariant elf.content == PutAll([], ws[..1 + i]) && elf.pos == PhdrAt(i)
    {
      elf.AppendNext(PhdrBytes(segs[i], offsets[i]), ws, 1 + i);
    }
    if board.Some? {
      elf.Seek(PAGE - 16);
      elf.AppendNext(BoardBytes(board.value), ws, 1 + n);
    }
    for i := 0 to |segs|
      invariant elf.content == PutAll([], ws[..1 + n + m + i])
    {
      elf.Seek(offsets[i]);
      elf.AppendNext(segs[i].data, ws, 1 + n + m + i);
    }
    assert ws[..1 + n + m + n] == ws;
    content := elf.content;
  }

  lemma NothingYet(ws: seq<Write>)
    ensures PutAll([], ws[..0]) == []
  {
  }
}
