/** GraphicBuffer.cpp and GraphicBufferAllocator.cpp as functions on values. */
module BufferSpec {
  import opened Wrappers

  const NO_ERROR := 0
  const NO_MEMORY := -12
  const INVALID_OPERATION := -38
  const BAD_VALUE := -22
  const BAD_TYPE := -2147483647

  /** 'GBFR' */
  const MAGIC := 0x47424652
  const MAX_NUMBER := 4096
  const INT_SIZE := 4

  /** A native handle: its address, and the descriptors and integers it carries. */
  datatype Handle = Handle(id: nat, fds: seq<int>, ints: seq<int>)

  datatype Owner = OwnNone | OwnHandle | OwnData

  datatype Geometry = Geometry(width: int, height: int, stride: int, format: int, usage: int)

  datatype Buf = Buf(geometry: Geometry, handle: Option<Handle>, owner: Owner)

  /** A handle given back: unregistered, closed and deleted (OwnHandle), or through the allocator (OwnData). */
  datatype Release = Release(id: nat, route: Owner)

  /** alloc_rec_t */
  datatype Rec = Rec(width: int, height: int, stride: int, format: int, usage: int, size: int)

  /** allocList is sAllocList; mask stands for GRALLOC_USAGE_ALLOC_MASK, which is not part of this model. */
  datatype Env = Env(allocList: map<nat, Rec>, released: seq<Release>, mask: bv32)

  const ZERO := Geometry(0, 0, 0, 0, 0)

  /** static_cast<int> of an unsigned value, and static_cast<size_t> of an int. */
  function AsInt(u: int): (r: int)
    ensures 0 <= u < 0x1_0000_0000 ==> Int32(r) && (u - r) % 0x1_0000_0000 == 0
  {
    if u < 0x8000_0000 then u else u - 0x1_0000_0000
  }

  function AsSize(i: int): (r: int)
    ensures Int32(i) ==> 0 <= r < 0x1_0000_0000 && (r - i) % 0x1_0000_0000 == 0
  {
    if i < 0 then i + 0x1_0000_0000 else i
  }

  predicate Int32(i: int) {
    -0x8000_0000 <= i < 0x8000_0000
  }

  ghost predicate AllInt32(s: seq<int>) {
    forall i | 0 <= i < |s| :: Int32(s[i])
  }

  // ---------- serialisation ----------

  function NumFds(b: Buf): nat {
    if b.handle.Some? then |b.handle.value.fds| else 0
  }

  function NumInts(b: Buf): nat {
    if b.handle.Some? then |b.handle.value.ints| else 0
  }

  function FlattenedSize(b: Buf): nat {
    (8 + NumInts(b)) * INT_SIZE
  }

  /** The integers flatten writes. */
  function Words(b: Buf): (r: seq<int>)
    ensures |r| == 8 + NumInts(b)
  {
    var g := b.geometry;
    [MAGIC, g.width, g.height, g.stride, g.format, g.usage, NumFds(b), NumInts(b)]
    + if b.handle.Some? then b.handle.value.ints else []
  }

  function Fds(b: Buf): (r: seq<int>)
    ensures |r| == NumFds(b)
  {
    if b.handle.Some? then b.handle.value.fds else []
  }

  // ---------- ownership ----------

  function FreeHandle(b: Buf, e: Env, freeOk: bool): Env
    requires b.handle.Some?
  {
    var id := b.handle.value.id;
    match b.owner
    case OwnNone => e
    case OwnHandle => e.(released := e.released + [Release(id, OwnHandle)])
    case OwnData => AllocatorFree(e, id, freeOk)
  }

  /** GraphicBufferAllocator::free keeps its record when gralloc refuses. */
  function AllocatorFree(e: Env, id: nat, freeOk: bool): Env {
    e.(allocList := if freeOk then e.allocList - {id} else e.allocList,
       released := e.released + [Release(id, OwnData)])
  }

  /** The handle and stride from gralloc, with bytesPerPixel of the format; or gralloc's error. */
  datatype Got = Granted(handle: Handle, stride: int, bpp: int) | Refused(error: int)

  function Masked(usage: int, mask: bv32): (r: int)
    ensures 0 <= r < 0x1_0000_0000 && r as bv32 == (usage % 0x1_0000_0000) as bv32 & mask
  {
    ((usage % 0x1_0000_0000) as bv32 & mask) as int
  }

  /** What alloc records: a buffer with an empty side is asked for as one of a single pixel. */
  function Record(width: int, height: int, stride: int, format: int, usage: int, bpp: int, mask: bv32): Rec {
    var w, h := if width == 0 || height == 0 then 1 else width, if width == 0 || height == 0 then 1 else height;
    Rec(w, h, AsSize(stride), format, Masked(usage, mask),
        Bytes(h, AsSize(stride), bpp))
  }

  /** The size of the pixels, as a 32-bit number; none are counted if the size of one is not known. */
  function Bytes(height: int, stride: int, bpp: int): (r: int)
    ensures 0 <= r < 0x1_0000_0000 && (bpp <= 0 ==> r == 0)
    ensures bpp > 0 && 0 <= height * stride * bpp < 0x1_0000_0000 ==> r == height * stride * bpp
  {
    height * stride * (if bpp < 0 then 0 else bpp) % 0x1_0000_0000
  }

  function InitSize(b: Buf, e: Env, width: int, height: int, format: int, usage: int, got: Got): (Buf, Env, int) {
    match got
    case Refused(error) => (b, e, error)
    case Granted(h, stride, bpp) =>
      (b.(geometry := Geometry(AsInt(width), AsInt(height), stride, format, AsInt(usage)), handle := Some(h)),
       e.(allocList := e.allocList[h.id := Record(width, height, stride, format, usage, bpp, e.mask)]), NO_ERROR)
  }

  function Reallocate(b: Buf, e: Env, width: int, height: int, format: int, usage: int, freeOk: bool, got: Got)
    : (Buf, Env, int)
  {
    var g := b.geometry;
    if b.owner != OwnData then (b, e, INVALID_OPERATION)
    else if b.handle.Some? && AsInt(width) == g.width && AsInt(height) == g.height && format == g.format
            && AsInt(usage) == g.usage then (b, e, NO_ERROR)
    else if b.handle.Some? then
      InitSize(b.(handle := None), AllocatorFree(e, b.handle.value.id, freeOk), width, height, format, usage, got)
    else InitSize(b, e, width, height, format, usage, got)
  }

  /** The system during unflatten: the new handle's address if one could be made, and registerBuffer's answer. */
  datatype Outcome = Outcome(freeOk: bool, created: Option<nat>, registered: int)

  /** unflatten once the input has been accepted: the old handle goes, a new one is made and registered. */
  function Rebuild(b: Buf, e: Env, g: Geometry, fds: seq<int>, ints: seq<int>, o: Outcome): (Buf, Env, int) {
    var e' := if b.handle.Some? then FreeHandle(b, e, o.freeOk) else e;
    if fds == [] && ints == [] then (Buf(ZERO, None, OwnHandle), e', NO_ERROR)
    else if o.created.None? then (Buf(ZERO, None, b.owner), e', NO_MEMORY)
    else if o.registered != NO_ERROR then (Buf(ZERO, None, OwnHandle), e', o.registered)
    else (Buf(g, Some(Handle(o.created.value, fds, ints)), OwnHandle), e', NO_ERROR)
  }

  ghost function Unflatten(b: Buf, e: Env, words: seq<int>, size: nat, fds: seq<int>, count: nat, o: Outcome)
    : (Buf, Env, int)
    requires size / INT_SIZE <= |words| && count <= |fds| && AllInt32(words)
  {
    if size < 8 * INT_SIZE then (b, e, NO_MEMORY)
    else if words[0] != MAGIC then (b, e, BAD_TYPE)
    else
      var numFds, numInts := AsSize(words[6]), AsSize(words[7]);
      if numFds >= MAX_NUMBER || numInts >= MAX_NUMBER - 10 then (b.(geometry := ZERO, handle := None), e, BAD_VALUE)
      else if size < (8 + numInts) * INT_SIZE then (b, e, NO_MEMORY)
      else if count < numFds then (b, e, NO_MEMORY)
      else Rebuild(b, e, Geometry(words[1], words[2], words[3], words[4], words[5]),
                   fds[..numFds], words[8..8 + numInts], o)
  }

  function Destroy(b: Buf, e: Env, freeOk: bool): Env {
    if b.handle.Some? then FreeHandle(b, e, freeOk) else e
  }

  // ---------- round trip ----------

  ghost predicate SameContents(a: Buf, b: Buf) {
    && a.geometry == b.geometry
    && (a.handle.Some? <==> b.handle.Some?)
    && (a.handle.Some? ==> a.handle.value.fds == b.handle.value.fds && a.handle.value.ints == b.handle.value.ints)
  }

  /** Within the limits, and either carrying something or wholly blank. */
  predicate Transportable(b: Buf) {
    && NumFds(b) < MAX_NUMBER && NumInts(b) < MAX_NUMBER - 10
    && (NumFds(b) + NumInts(b) > 0 || (b.handle.None? && b.geometry == ZERO))
  }

  /**
   words and fds are memory that starts with what flatten wrote for b. A reader whose handle creation and
   registration succeed recovers b, and consumes exactly what flatten produced, if and only if b is transportable.
   */
  lemma RoundTrip(b: Buf, reader: Buf, e: Env, words: seq<int>, size: nat, fds: seq<int>, count: nat, o: Outcome)
    requires size / INT_SIZE <= |words| && count <= |fds| && AllInt32(words)
    requires FlattenedSize(b) <= size && NumFds(b) <= count
    requires Words(b) <= words && Fds(b) <= fds
    requires NumFds(b) < 0x8000_0000 && NumInts(b) < 0x8000_0000
    requires o.created.Some? && o.registered == NO_ERROR
    ensures var (r, _, status) := Unflatten(reader, e, words, size, fds, count, o);
            (status == NO_ERROR && SameContents(r, b)) <==> Transportable(b)
    ensures Transportable(b) ==>
              var (r, _, _) := Unflatten(reader, e, words, size, fds, count, o);
              FlattenedSize(r) == FlattenedSize(b) && NumFds(r) == NumFds(b) && r.owner == OwnHandle
  {
    var w := Words(b);
    assert words[..|w|] == w;
    assert forall i | 0 <= i < |w| :: words[i] == words[..|w|][i] == w[i];
    assert w[8..] == if b.handle.Some? then b.handle.value.ints else [];
    assert words[8..8 + NumInts(b)] == w[8..];
    assert fds[..NumFds(b)] == Fds(b);
  }
}
