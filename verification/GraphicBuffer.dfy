/** GraphicBuffer and GraphicBufferAllocator as classes; flatten and unflatten on int arrays with cursors. */
module GraphicBuffers {
  import opened Wrappers
  import opened BufferSpec

  class GraphicBufferAllocator {
    /** sAllocList */
    var allocList: map<nat, Rec>
    /** Every handle given back so far, with the route it took. */
    var released: seq<Release>
    const mask: bv32

    ghost function View(): Env
      reads this
    {
      Env(allocList, released, mask)
    }

    constructor (mask: bv32)
      ensures View() == Env(map[], [], mask)
    {
      allocList, released, this.mask := map[], [], mask;
    }

    /** A granted handle gets a record of what gralloc was asked for; a refusal changes nothing. */
    method Alloc(inWidth: int, inHeight: int, format: int, inUsage: int, got: Got) returns (err: int)
      modifies this`allocList
      ensures err == if got.Granted? then NO_ERROR else got.error
      ensures allocList ==
                if got.Granted? then old(allocList)[got.handle.id :=
                  Record(inWidth, inHeight, got.stride, format, inUsage, got.bpp, mask)]
                else old(allocList)
      ensures got.Granted? ==>
                var rec, onePixel := allocList[got.handle.id], inWidth == 0 || inHeight == 0;
                && rec.width == (if onePixel then 1 else inWidth) && rec.height == (if onePixel then 1 else inHeight)
                && rec.stride == AsSize(got.stride) && rec.format == format
                && rec.usage == Masked(inUsage, mask) && rec.size == Bytes(rec.height, rec.stride, got.bpp)
    {
      hide Masked, Bytes;
      var width, height := inWidth, inHeight;
      if width == 0 || height == 0 {
        width, height := 1, 1;
      }
      var usage := Masked(inUsage, mask);
      match got
      case Granted(h, stride, bpp) =>
        var size := Bytes(height, AsSize(stride), bpp);
        allocList := allocList[h.id := Rec(width, height, AsSize(stride), format, usage, size)];
        err := NO_ERROR;
      case Refused(error) => err := error;
    }

    method Free(id: nat, freeOk: bool)
      modifies this
      ensures View() == AllocatorFree(old(View()), id, freeOk)
      ensures released == old(released) + [Release(id, OwnData)]
      ensures allocList == if freeOk then old(allocList) - {id} else old(allocList)
    {
      released := released + [Release(id, OwnData)];
      if freeOk {
        allocList := allocList - {id};
      }
    }
  }

  class GraphicBuffer {
    var width: int
    var height: int
    var stride: int
    var format: int
    var usage: int
    var handle: Option<Handle>
    var owner: Owner
    /** mInitCheck */
    var initCheck: int
    const allocator: GraphicBufferAllocator

    ghost function View(): Buf
      reads this
    {
      Buf(Geometry(width, height, stride, format, usage), handle, owner)
    }

    constructor (allocator: GraphicBufferAllocator)
      ensures View() == Buf(ZERO, None, OwnData) && this.allocator == allocator && initCheck == NO_ERROR
    {
      this.allocator, initCheck := allocator, NO_ERROR;
      width, height, stride, format, usage := 0, 0, 0, 0, 0;
      handle, owner := None, OwnData;
    }

    constructor Allocated(allocator: GraphicBufferAllocator, inWidth: int, inHeight: int, inFormat: int, inUsage: int,
                          got: Got)
      modifies allocator
      ensures this.allocator == allocator
      ensures var blank := Buf(ZERO, None, OwnData);
              (View(), allocator.View(), initCheck)
              == BufferSpec.InitSize(blank, old(allocator.View()), inWidth, inHeight, inFormat, inUsage, got)
      ensures initCheck != NO_ERROR ==> View() == Buf(ZERO, None, OwnData)
    {
      this.allocator, initCheck := allocator, NO_ERROR;
      width, height, stride, format, usage := 0, 0, 0, 0, 0;
      handle, owner := None, OwnData;
      new;
      var err := InitSize(inWidth, inHeight, inFormat, inUsage, got);
      initCheck := err;
    }

    /** From a handle, or from another window buffer. */
    constructor Wrapping(allocator: GraphicBufferAllocator, g: Geometry, inHandle: Option<Handle>, keepOwnership: bool)
      ensures View() == Buf(g, inHandle, if keepOwnership then OwnHandle else OwnNone)
      ensures this.allocator == allocator && initCheck == NO_ERROR
    {
      this.allocator, initCheck := allocator, NO_ERROR;
      width, height, stride, format, usage := g.width, g.height, g.stride, g.format, g.usage;
      handle, owner := inHandle, if keepOwnership then OwnHandle else OwnNone;
    }

    method FreeHandle(freeOk: bool)
      requires handle.Some?
      modifies allocator
      ensures allocator.View() == BufferSpec.FreeHandle(View(), old(allocator.View()), freeOk)
      ensures allocator.released == old(allocator.released) +
                if owner == OwnNone then [] else [Release(handle.value.id, owner)]
      ensures allocator.allocList == if owner == OwnData && freeOk then old(allocator.allocList) - {handle.value.id}
                                     else old(allocator.allocList)
    {
      if owner == OwnHandle {
        allocator.released := allocator.released + [Release(handle.value.id, OwnHandle)];
      } else if owner == OwnData {
        allocator.Free(handle.value.id, freeOk);
      }
    }

    /** The destructor. */
    method Destroy(freeOk: bool)
      modifies allocator
      ensures allocator.View() == BufferSpec.Destroy(View(), old(allocator.View()), freeOk)
      ensures allocator.released == old(allocator.released) +
                if handle.None? || owner == OwnNone then [] else [Release(handle.value.id, owner)]
    {
      if handle.Some? {
        FreeHandle(freeOk);
      }
    }

    /** The buffer is the one gralloc has just granted for this request. */
    ghost predicate Shows(inWidth: int, inHeight: int, inFormat: int, inUsage: int, got: Got)
      reads this
    {
      && got.Granted? && handle == Some(got.handle) && stride == got.stride
      && width == AsInt(inWidth) && height == AsInt(inHeight) && format == inFormat && usage == AsInt(inUsage)
    }

    method InitSize(inWidth: int, inHeight: int, inFormat: int, inUsage: int, got: Got) returns (err: int)
      modifies this, allocator
      ensures initCheck == old(initCheck)
      ensures (View(), allocator.View(), err)
           == BufferSpec.InitSize(old(View()), old(allocator.View()), inWidth, inHeight, inFormat, inUsage, got)
      ensures owner == old(owner)
      ensures got.Granted? ==> err == NO_ERROR && Shows(inWidth, inHeight, inFormat, inUsage, got)
      ensures got.Refused? ==> err == got.error && View() == old(View()) && allocator.View() == old(allocator.View())
      ensures allocator.released == old(allocator.released)
    {
      err := allocator.Alloc(inWidth, inHeight, inFormat, inUsage, got);
      if got.Granted? {
        handle := Some(got.handle);
        width := AsInt(inWidth);
        height := AsInt(inHeight);
        format := inFormat;
        usage := AsInt(inUsage);
        stride := got.stride;
      }
    }

    method Reallocate(inWidth: int, inHeight: int, inFormat: int, inUsage: int, freeOk: bool, got: Got)
      returns (err: int)
      modifies this, allocator
      ensures initCheck == old(initCheck)
      ensures (View(), allocator.View(), err)
           == BufferSpec.Reallocate(old(View()), old(allocator.View()), inWidth, inHeight, inFormat, inUsage,
                                    freeOk, got)
      ensures owner == old(owner)
      ensures owner != OwnData ==>
                err == INVALID_OPERATION && View() == old(View()) && allocator.View() == old(allocator.View())
      ensures owner == OwnData && err == NO_ERROR && (got.Refused? ==> got.error != NO_ERROR) ==>
                && width == AsInt(inWidth) && height == AsInt(inHeight) && format == inFormat && usage == AsInt(inUsage)
                && handle.Some?
      ensures var equal := old(handle).Some? && old(width) == AsInt(inWidth) && old(height) == AsInt(inHeight)
                           && old(format) == inFormat && old(usage) == AsInt(inUsage);
              && (owner == OwnData && equal ==>
                    err == NO_ERROR && View() == old(View()) && allocator.View() == old(allocator.View()))
              && (owner == OwnData && !equal ==>
                    && allocator.released == old(allocator.released) +
                         (if old(handle).Some? then [Release(old(handle).value.id, OwnData)] else [])
                    && (if got.Granted? then err == NO_ERROR && Shows(inWidth, inHeight, inFormat, inUsage, got)
                        else err == got.error && handle.None?))
    {
      if owner != OwnData {
        return INVALID_OPERATION;
      }
      if handle.Some? && AsInt(inWidth) == width && AsInt(inHeight) == height && inFormat == format
         && AsInt(inUsage) == usage {
        return NO_ERROR;
      }
      if handle.Some? {
        allocator.Free(handle.value.id, freeOk);
        handle := None;
      }
      err := InitSize(inWidth, inHeight, inFormat, inUsage, got);
    }

    /**
     flatten at position at of buffer and fdAt of fds. The caller vouches for size bytes and count
     descriptors. On success the buffer cursor moves by the needed size counted in ints, as the pointer
     arithmetic of the original does, while size drops by the same number of bytes.
     */
    method Flatten(buffer: array<int>, at: nat, size: nat, fds: array<int>, fdAt: nat, count: nat)
      returns (status: int, at': nat, size': nat, fdAt': nat, count': nat)
      requires buffer != fds && at + size / INT_SIZE <= buffer.Length && fdAt + count <= fds.Length
      modifies buffer, fds
      ensures status == if size < FlattenedSize(View()) || count < NumFds(View()) then NO_MEMORY else NO_ERROR
      ensures status != NO_ERROR ==>
                && at' == at && size' == size && fdAt' == fdAt && count' == count
                && buffer[..] == old(buffer[..]) && fds[..] == old(fds[..])
      ensures status == NO_ERROR ==>
                && at' == at + FlattenedSize(View()) && size' == size - FlattenedSize(View())
                && fdAt' == fdAt + NumFds(View()) && count' == count - NumFds(View())
                && at + |Words(View())| <= buffer.Length && fdAt + NumFds(View()) <= fds.Length
                && buffer[..] == old(buffer[..at]) + Words(View()) + old(buffer[at + |Words(View())|..])
                && fds[..] == old(fds[..fdAt]) + Fds(View()) + old(fds[fdAt + NumFds(View())..])
      ensures status == NO_ERROR ==>
                && at + 8 <= buffer.Length
                && buffer[at] == 0x47424652 && buffer[at + 1] == width && buffer[at + 2] == height
                && buffer[at + 3] == stride && buffer[at + 4] == format && buffer[at + 5] == usage
                && (handle.None? ==> buffer[at + 6] == 0 && buffer[at + 7] == 0)
                && (handle.Some? ==>
                      var h := handle.value;
                      && buffer[at + 6] == |h.fds| && buffer[at + 7] == |h.ints|
                      && buffer[at + 8..at + 8 + |h.ints|] == h.ints && fds[fdAt..fdAt + |h.fds|] == h.fds)
    {
      status, at', size', fdAt', count' := NO_MEMORY, at, size, fdAt, count;
      var sizeNeeded := (8 + if handle.Some? then |handle.value.ints| else 0) * INT_SIZE;
      if size < sizeNeeded {
        return;
      }
      var fdCountNeeded := if handle.Some? then |handle.value.fds| else 0;
      if count < fdCountNeeded {
        return;
      }
      WriteOut(buffer, at, fds, fdAt);
      at' := at + sizeNeeded;
      size' := size - sizeNeeded;
      if handle.Some? {
        fdAt' := fdAt + |handle.value.fds|;
        count' := count - |handle.value.fds|;
      }
      status := NO_ERROR;
    }

    /** The memory part of flatten. */
    method WriteOut(buffer: array<int>, at: nat, fds: array<int>, fdAt: nat)
      requires buffer != fds && at + |Words(View())| <= buffer.Length && fdAt + NumFds(View()) <= fds.Length
      modifies buffer, fds
      ensures buffer[..] == old(buffer[..at]) + Words(View()) + old(buffer[at + |Words(View())|..])
      ensures fds[..] == old(fds[..fdAt]) + Fds(View()) + old(fds[fdAt + NumFds(View())..])
    {
      ghost var before := buffer[..];
      WriteHeader(buffer, at, if handle.Some? then |handle.value.fds| else 0,
                  if handle.Some? then |handle.value.ints| else 0);
      if handle.Some? {
        CopyInts(handle.value.fds, fds, fdAt);
        CopyInts(handle.value.ints, buffer, at + 8);
      }
      assert fds[..] == old(fds[..fdAt]) + Fds(View()) + old(fds[fdAt + NumFds(View())..]);
      assert buffer[..] == before[..at] + Words(View()) + before[at + |Words(View())|..];
    }

    /** The first eight integers; buf[6] and buf[7] are zero without a handle. */
    method WriteHeader(buffer: array<int>, at: nat, numFds: nat, numInts: nat)
      requires at + 8 <= buffer.Length
      modifies buffer
      ensures buffer[..] == old(buffer[..at]) + [MAGIC, width, height, stride, format, usage, numFds, numInts]
                            + old(buffer[at + 8..])
    {
      buffer[at] := MAGIC;
      buffer[at + 1] := width;
      buffer[at + 2] := height;
      buffer[at + 3] := stride;
      buffer[at + 4] := format;
      buffer[at + 5] := usage;
      buffer[at + 6] := numFds;
      buffer[at + 7] := numInts;
      assert buffer[at..at + 8] == [MAGIC, width, height, stride, format, usage, numFds, numInts];
      assert buffer[..] == buffer[..at] + buffer[at..at + 8] + buffer[at + 8..];
    }

    /** The buffer is the one that the words at position at and the descriptors at position fdAt describe. */
    ghost predicate Took(buffer: array<int>, at: nat, fds: array<int>, fdAt: nat, numFds: nat, numInts: nat, id: nat)
      requires at + 8 + numInts <= buffer.Length && fdAt + numFds <= fds.Length
      reads this, buffer, fds
    {
      && owner == OwnHandle && width == buffer[at + 1] && height == buffer[at + 2] && stride == buffer[at + 3]
      && format == buffer[at + 4] && usage == buffer[at + 5]
      && handle == Some(Handle(id, fds[fdAt..fdAt + numFds], buffer[at + 8..at + 8 + numInts]))
    }

    /** unflatten: on any error all four cursors stay where they were. */
    method Unflatten(buffer: array<int>, at: nat, size: nat, fds: array<int>, fdAt: nat, count: nat, o: Outcome)
      returns (status: int, at': nat, size': nat, fdAt': nat, count': nat)
      requires at + size / INT_SIZE <= buffer.Length && fdAt + count <= fds.Length && AllInt32(buffer[at..])
      modifies this, allocator
      ensures initCheck == old(initCheck)
      ensures (View(), allocator.View(), status)
           == BufferSpec.Unflatten(old(View()), old(allocator.View()), buffer[at..], size, fds[fdAt..], count, o)
      ensures status != NO_ERROR ==> at' == at && size' == size && fdAt' == fdAt && count' == count
      ensures status == NO_ERROR ==>
                var needed := (8 + AsSize(buffer[at + 7])) * INT_SIZE;
                && at' == at + needed && size' == size - needed
                && fdAt' == fdAt + AsSize(buffer[at + 6]) && count' == count - AsSize(buffer[at + 6])
      ensures size < 32 ==> status == NO_MEMORY && View() == old(View()) && allocator.View() == old(allocator.View())
      ensures size >= 32 && buffer[at] != 0x47424652 ==>
                status == BAD_TYPE && View() == old(View()) && allocator.View() == old(allocator.View())
      ensures size >= 32 && buffer[at] == 0x47424652 ==>
                var numFds, numInts := AsSize(buffer[at + 6]), AsSize(buffer[at + 7]);
                if numFds >= 4096 || numInts >= 4086 then
                  && status == BAD_VALUE && View() == Buf(ZERO, None, old(owner))
                  && allocator.View() == old(allocator.View())
                else if size < (8 + numInts) * 4 || count < numFds then
                  status == NO_MEMORY && View() == old(View()) && allocator.View() == old(allocator.View())
                else
                  && allocator.released == old(allocator.released) +
                       (if old(handle).None? || old(owner) == OwnNone then []
                        else [Release(old(handle).value.id, old(owner))])
                  && (if numFds + numInts == 0 then status == NO_ERROR && View() == Buf(ZERO, None, OwnHandle)
                      else if o.created.None? then status == NO_MEMORY && View() == Buf(ZERO, None, old(owner))
                      else if o.registered != NO_ERROR then
                        status == o.registered && View() == Buf(ZERO, None, OwnHandle)
                      else status == NO_ERROR && Took(buffer, at, fds, fdAt, numFds, numInts, o.created.value))
    {
      at', size', fdAt', count' := at, size, fdAt, count;
      ghost var words := buffer[at..];
      if size < 8 * INT_SIZE {
        return NO_MEMORY, at', size', fdAt', count';
      }
      if buffer[at] != MAGIC {
        return BAD_TYPE, at', size', fdAt', count';
      }
      assert words[6] == buffer[at + 6] && words[7] == buffer[at + 7];
      var numFds, numInts := AsSize(buffer[at + 6]), AsSize(buffer[at + 7]);
      if numFds >= MAX_NUMBER || numInts >= MAX_NUMBER - 10 {
        Blank();
        return BAD_VALUE, at', size', fdAt', count';
      }
      var sizeNeeded := (8 + numInts) * INT_SIZE;
      if size < sizeNeeded {
        return NO_MEMORY, at', size', fdAt', count';
      }
      if count < numFds {
        return NO_MEMORY, at', size', fdAt', count';
      }
      assert words[8..8 + numInts] == buffer[at + 8..at + 8 + numInts];
      assert fds[fdAt..][..numFds] == fds[fdAt..fdAt + numFds];
      var g := Geometry(buffer[at + 1], buffer[at + 2], buffer[at + 3], buffer[at + 4], buffer[at + 5]);
      status := Rebuild(g, fds[fdAt..fdAt + numFds], buffer[at + 8..at + 8 + numInts], o);
      if status != NO_ERROR {
        return;
      }
      at' := at + sizeNeeded;
      size' := size - sizeNeeded;
      fdAt' := fdAt + numFds;
      count' := count - numFds;
    }

    method Rebuild(g: Geometry, fds: seq<int>, ints: seq<int>, o: Outcome) returns (status: int)
      modifies this, allocator
      ensures initCheck == old(initCheck)
      ensures (View(), allocator.View(), status)
           == BufferSpec.Rebuild(old(View()), old(allocator.View()), g, fds, ints, o)
    {
      if handle.Some? {
        FreeHandle(o.freeOk);
      }
      if |fds| != 0 || |ints| != 0 {
        width, height, stride, format, usage := g.width, g.height, g.stride, g.format, g.usage;
        if o.created.None? {
          Blank();
          return NO_MEMORY;
        }
        handle := Some(Handle(o.created.value, fds, ints));
      } else {
        Blank();
      }
      owner := OwnHandle;
      if handle.Some? {
        if o.registered != NO_ERROR {
          Blank();
          return o.registered;
        }
      }
      status := NO_ERROR;
    }

    method Blank()
      modifies this
      ensures View() == Buf(ZERO, None, old(owner)) && initCheck == old(initCheck)
    {
      width, height, stride, format, usage := 0, 0, 0, 0, 0;
      handle := None;
    }
  }

  /** Where the buffer and descriptor cursors stand, and what is left behind each. */
  datatype Cursors = Cursors(at: nat, size: nat, fdAt: nat, count: nat)

  /**
   Flattening w and unflattening r at the same place. When the system makes and registers the new handle, r
   ends with w's contents if and only if w fits the space given and is transportable, and then both leave
   the four cursors in the same place.
   */
  method PassOn(w: GraphicBuffer, r: GraphicBuffer, buffer: array<int>, fds: array<int>, c: Cursors, o: Outcome)
    returns (status: int, sent: Cursors, received: Cursors)
    requires w != r && buffer != fds && c.at + c.size / INT_SIZE <= buffer.Length && c.fdAt + c.count <= fds.Length
    requires AllInt32(buffer[..]) && AllInt32(Words(w.View())) && o.created.Some? && o.registered == NO_ERROR
    modifies buffer, fds, r, r.allocator
    ensures w.View() == old(w.View())
    ensures var fits := FlattenedSize(w.View()) <= c.size && NumFds(w.View()) <= c.count;
            && (status == NO_ERROR && SameContents(r.View(), w.View()) ==> fits && Transportable(w.View()))
            && (fits && Transportable(w.View()) ==>
                  status == NO_ERROR && SameContents(r.View(), w.View()) && sent == received)
  {
    hide Words, Transportable, SameContents, BufferSpec.Unflatten;
    var at, size, fdAt, count;
    status, at, size, fdAt, count := w.Flatten(buffer, c.at, c.size, fds, c.fdAt, c.count);
    sent, received := Cursors(at, size, fdAt, count), c;
    if status == NO_ERROR {
      ghost var words, before := buffer[c.at..], r.View();
      ghost var e := r.allocator.View();
      WordsInPlace(old(buffer[..]), buffer[..], c.at, Words(w.View()));
      FdsInPlace(old(fds[..]), fds[..], c.fdAt, Fds(w.View()));
      CountsFit(w.View());
      RoundTrip(w.View(), before, e, words, c.size, fds[c.fdAt..], c.count, o);
      Counts(w.View(), words);
      status, at, size, fdAt, count := r.Unflatten(buffer, c.at, c.size, fds, c.fdAt, c.count, o);
      received := Cursors(at, size, fdAt, count);
    }
  }

  lemma WordsInPlace(before: seq<int>, after: seq<int>, at: nat, words: seq<int>)
    requires at + |words| <= |before| && after == before[..at] + words + before[at + |words|..]
    requires AllInt32(before) && AllInt32(words)
    ensures words <= after[at..] && AllInt32(after[at..])
  {
  }

  lemma FdsInPlace(before: seq<int>, after: seq<int>, at: nat, fds: seq<int>)
    requires at + |fds| <= |before| && after == before[..at] + fds + before[at + |fds|..]
    ensures fds <= after[at..]
  {
  }

  lemma CountsFit(b: Buf)
    requires AllInt32(Words(b))
    ensures NumFds(b) < 0x8000_0000 && NumInts(b) < 0x8000_0000
  {
    assert Words(b)[6] == NumFds(b) && Words(b)[7] == NumInts(b);
  }

  lemma Counts(b: Buf, words: seq<int>)
    requires Words(b) <= words
    ensures words[6] == NumFds(b) && words[7] == NumInts(b)
  {
    assert words[..|Words(b)|][6] == Words(b)[6] && words[..|Words(b)|][7] == Words(b)[7];
  }

  /** memcpy of ints. */
  method CopyInts(source: seq<int>, target: array<int>, at: nat)
    requires at + |source| <= target.Length
    modifies target
    ensures target[..] == old(target[..at]) + source + old(target[at + |source|..])
  {
    for i := 0 to |source|
      invariant target[..] == old(target[..at]) + source[..i] + old(target[at + i..])
    {
      target[at + i] := source[i];
      assert source[..i + 1] == source[..i] + [source[i]];
    }
  }
}
