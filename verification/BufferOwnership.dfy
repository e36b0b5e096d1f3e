/**
 Any number of graphic buffers over any sequence of construction, reallocation, unflattening and
 destruction. Addresses handed out by gralloc and by native_handle_create are taken to be new.
 */
module BufferOwnership {
  import opened Wrappers
  import opened BufferSpec

  /** seen holds every handle address ever met; fromGralloc those the allocator handed out. */
  datatype World = World(bufs: map<nat, Buf>, env: Env, seen: set<nat>, fromGralloc: set<nat>)

  datatype Step =
    | NewEmpty(b: nat)
    | NewAllocated(b: nat, width: int, height: int, format: int, usage: int, got: Got)
    | NewWrapping(b: nat, g: Geometry, h: Option<Handle>, keep: bool)
    | DoReallocate(b: nat, width: int, height: int, format: int, usage: int, freeOk: bool, got: Got)
    | DoUnflatten(b: nat, words: seq<int>, size: nat, fds: seq<int>, count: nat, o: Outcome)
    | DoDestroy(b: nat, freeOk: bool)

  ghost predicate Owns(b: Buf, id: nat) {
    b.owner != OwnNone && b.handle.Some? && b.handle.value.id == id
  }

  ghost predicate ReleasedBefore(e: Env, id: nat) {
    exists i :: 0 <= i < |e.released| && e.released[i].id == id
  }

  ghost predicate FreshGot(s: World, got: Got) {
    got.Granted? ==> got.handle.id !in s.seen
  }

  /** The caller's duty is input memory as long as declared. */
  ghost predicate Enabled(s: World, step: Step) {
    match step
    case NewEmpty(b) => b !in s.bufs
    case NewAllocated(b, _, _, _, _, got) => b !in s.bufs && FreshGot(s, got)
    case NewWrapping(b, _, _, _) => b !in s.bufs
    case DoReallocate(b, _, _, _, _, _, got) => b in s.bufs && FreshGot(s, got)
    case DoUnflatten(b, words, size, fds, count, o) =>
      && b in s.bufs && size / INT_SIZE <= |words| && count <= |fds| && AllInt32(words)
      && (o.created.Some? ==> o.created.value !in s.seen)
    case DoDestroy(b, _) => b in s.bufs
  }

  /** A handle passed with keepOwnership is not owned by another buffer, and has not been given back. */
  ghost predicate Clean(s: World, step: Step) {
    step.NewWrapping? && step.keep && step.h.Some? ==>
      && !ReleasedBefore(s.env, step.h.value.id)
      && forall c | c in s.bufs :: !Owns(s.bufs[c], step.h.value.id)
  }

  ghost function Met(s: World, b: Buf): set<nat> {
    if b.handle.Some? then s.seen + {b.handle.value.id} else s.seen
  }

  ghost function Put(s: World, k: nat, b: Buf, e: Env): World {
    s.(bufs := s.bufs[k := b], env := e, seen := Met(s, b))
  }

  ghost function Grallocated(s: World, got: Got): World {
    if got.Granted? then s.(seen := s.seen + {got.handle.id}, fromGralloc := s.fromGralloc + {got.handle.id}) else s
  }

  ghost function Next(s: World, step: Step): World
    requires Enabled(s, step)
  {
    match step
    case NewEmpty(k) => Put(s, k, Buf(ZERO, None, OwnData), s.env)
    case NewAllocated(k, w, h, f, u, got) =>
      var (b, e, _) := InitSize(Buf(ZERO, None, OwnData), s.env, w, h, f, u, got);
      Put(Grallocated(s, got), k, b, e)
    case NewWrapping(k, g, h, keep) => Put(s, k, Buf(g, h, if keep then OwnHandle else OwnNone), s.env)
    case DoReallocate(k, w, h, f, u, freeOk, got) =>
      var (b, e, _) := Reallocate(s.bufs[k], s.env, w, h, f, u, freeOk, got);
      Put(Grallocated(s, got), k, b, e)
    case DoUnflatten(k, words, size, fds, count, o) =>
      var (b, e, _) := Unflatten(s.bufs[k], s.env, words, size, fds, count, o);
      Put(s, k, b, e)
    case DoDestroy(k, freeOk) => s.(bufs := s.bufs - {k}, env := Destroy(s.bufs[k], s.env, freeOk))
  }

  // ---------- what holds in every run ----------

  /** The record of a buffer that owns data was made for it. */
  predicate RecordFits(g: Geometry, rec: Rec) {
    && rec.stride == AsSize(g.stride) && rec.format == g.format
    && ((AsInt(rec.width) == g.width && AsInt(rec.height) == g.height)
        || (rec.width == rec.height == 1 && (g.width == 0 || g.height == 0)))
  }

  ghost predicate Recorded(s: World) {
    && (forall b | b in s.bufs && Owns(s.bufs[b], HandleId(s.bufs[b])) && s.bufs[b].owner == OwnData ::
          && HandleId(s.bufs[b]) in s.fromGralloc && HandleId(s.bufs[b]) in s.env.allocList
          && RecordFits(s.bufs[b].geometry, s.env.allocList[HandleId(s.bufs[b])]))
    && (forall b, c | b in s.bufs && c in s.bufs && b != c && s.bufs[b].owner == OwnData == s.bufs[c].owner
                      && s.bufs[b].handle.Some? && s.bufs[c].handle.Some? ::
          HandleId(s.bufs[b]) != HandleId(s.bufs[c]))
  }

  ghost function HandleId(b: Buf): nat {
    if b.handle.Some? then b.handle.value.id else 0
  }

  ghost predicate SeenAll(s: World) {
    && (forall b | b in s.bufs && s.bufs[b].handle.Some? :: s.bufs[b].handle.value.id in s.seen)
    && s.env.allocList.Keys <= s.seen
    && (forall i | 0 <= i < |s.env.released| :: s.env.released[i].id in s.seen)
  }

  /** Only the allocator's handles go back to the allocator. */
  ghost predicate RoutesOk(s: World) {
    forall i | 0 <= i < |s.env.released| ::
      && s.env.released[i].route != OwnNone
      && (s.env.released[i].route == OwnData ==> s.env.released[i].id in s.fromGralloc)
  }

  ghost predicate Base(s: World) {
    Recorded(s) && SeenAll(s) && RoutesOk(s)
  }

  // ---------- what holds while wrappers are clean ----------

  /** A buffer that owns a handle is its only owner, and has not released it. */
  ghost predicate Sole(s: World) {
    && (forall b, c | b in s.bufs && c in s.bufs && b != c && s.bufs[b].owner != OwnNone && s.bufs[b].handle.Some? ::
          !Owns(s.bufs[c], s.bufs[b].handle.value.id))
    && (forall b | b in s.bufs && s.bufs[b].owner != OwnNone && s.bufs[b].handle.Some? ::
          !ReleasedBefore(s.env, s.bufs[b].handle.value.id))
  }

  /** No handle is given back twice. */
  ghost predicate ReleasedOnce(s: World) {
    forall i, j | 0 <= i < j < |s.env.released| :: s.env.released[i].id != s.env.released[j].id
  }

  ghost predicate Inv(s: World) {
    Base(s) && Sole(s) && ReleasedOnce(s)
  }

  ghost predicate Init(s: World) {
    s.bufs == map[] && s.env.allocList == map[] && s.env.released == [] && s.seen == {} == s.fromGralloc
  }

  // ---------- the moves every step is made of ----------

  datatype Move =
    | DropHandle(k: nat, freeOk: bool)
    | Remove(k: nat)
    | PutBlank(k: nat, b: Buf)
    | PutNew(k: nat, b: Buf)
    | PutGranted(k: nat, b: Buf, got: Got, rec: Rec)
    | PutWrapped(k: nat, b: Buf)
    | Learn(got: Got)

  ghost predicate Possible(s: World, m: Move) {
    match m
    case DropHandle(k, _) => k in s.bufs
    case Remove(k) => true
    case PutBlank(k, b) => b.handle.None?
    case PutNew(k, b) => b.handle.Some? && b.owner == OwnHandle && b.handle.value.id !in s.seen
    case PutGranted(k, b, got, rec) =>
      && got.Granted? && got.handle.id !in s.seen && b.handle == Some(got.handle) && b.owner == OwnData
      && RecordFits(b.geometry, rec)
    case PutWrapped(k, b) => k !in s.bufs && b.handle.Some? && b.owner != OwnData
    case Learn(got) => true
  }

  ghost predicate CleanMove(s: World, m: Move) {
    m.PutWrapped? && m.b.owner == OwnHandle && m.b.handle.Some? ==>
      !ReleasedBefore(s.env, m.b.handle.value.id) && forall c | c in s.bufs :: !Owns(s.bufs[c], m.b.handle.value.id)
  }

  ghost function Moved(s: World, m: Move): World
    requires Possible(s, m)
  {
    match m
    case DropHandle(k, freeOk) =>
      if s.bufs[k].handle.None? then s
      else s.(bufs := s.bufs[k := s.bufs[k].(handle := None)], env := FreeHandle(s.bufs[k], s.env, freeOk))
    case Remove(k) => s.(bufs := s.bufs - {k})
    case PutBlank(k, b) => Put(s, k, b, s.env)
    case PutNew(k, b) => Put(s, k, b, s.env)
    case PutGranted(k, b, got, rec) =>
      Put(Grallocated(s, got), k, b, s.env.(allocList := s.env.allocList[got.handle.id := rec]))
    case PutWrapped(k, b) => Put(s, k, b, s.env)
    case Learn(got) => Grallocated(s, got)
  }

  ghost predicate AllPossible(s: World, ms: seq<Move>)
    decreases ms
  {
    ms != [] ==> Possible(s, ms[0]) && AllPossible(Moved(s, ms[0]), ms[1..])
  }

  ghost function Moves(s: World, ms: seq<Move>): World
    requires AllPossible(s, ms)
    decreases ms
  {
    if ms == [] then s else Moves(Moved(s, ms[0]), ms[1..])
  }

  lemma ReleaseAdds(e: Env, r: Env, id: nat)
    requires |r.released| == |e.released| + 1 && r.released[..|e.released|] == e.released
    requires r.released[|e.released|].id == id
    ensures forall x :: ReleasedBefore(r, x) <==> ReleasedBefore(e, x) || x == id
  {
    forall x | ReleasedBefore(e, x)
      ensures ReleasedBefore(r, x)
    {
      var i :| 0 <= i < |e.released| && e.released[i].id == x;
      assert r.released[..|e.released|][i] == r.released[i];
    }
    assert forall i | 0 <= i < |e.released| :: r.released[i] == r.released[..|e.released|][i];
  }

  lemma MoveBase(s: World, m: Move)
    requires Base(s) && Possible(s, m)
    ensures Base(Moved(s, m))
  {
    assert Recorded(Moved(s, m)) by {
      hide RoutesOk;
      MoveRecorded(s, m);
    }
    assert SeenAll(Moved(s, m)) by {
      hide RoutesOk, Recorded;
    }
    assert RoutesOk(Moved(s, m)) by {
      hide SeenAll;
    }
  }

  lemma MoveRecorded(s: World, m: Move)
    requires Recorded(s) && SeenAll(s) && Possible(s, m)
    ensures Recorded(Moved(s, m))
  {
    hide RecordFits;
  }

  lemma DropKeeps(s: World, k: nat, freeOk: bool)
    requires SeenAll(s) && Sole(s) && ReleasedOnce(s) && k in s.bufs
    ensures Sole(Moved(s, DropHandle(k, freeOk))) && ReleasedOnce(Moved(s, DropHandle(k, freeOk)))
  {
    var r := Moved(s, DropHandle(k, freeOk));
    if s.bufs[k].handle.Some? && s.bufs[k].owner != OwnNone {
      var id := s.bufs[k].handle.value.id;
      assert Owns(s.bufs[k], id);
      ReleaseAdds(s.env, r.env, id);
      assert forall c | c in s.bufs && c != k :: !Owns(s.bufs[c], id);
      assert !ReleasedBefore(s.env, id);
      assert forall i | 0 <= i < |s.env.released| ::
          r.env.released[i] == s.env.released[i] && s.env.released[i].id != id;
    }
  }

  lemma MoveStrict(s: World, m: Move)
    requires Inv(s) && Possible(s, m) && CleanMove(s, m)
    ensures Sole(Moved(s, m)) && ReleasedOnce(Moved(s, m))
  {
    hide Recorded, RoutesOk;
    if m.DropHandle? {
      DropKeeps(s, m.k, m.freeOk);
    } else {
      assert ReleasedOnce(Moved(s, m));
      assert Sole(Moved(s, m)) by {
        hide ReleasedOnce;
      }
    }
  }

  /** Only the first move of a step can be a wrapping one. */
  ghost predicate CleanMoves(s: World, ms: seq<Move>) {
    && (ms != [] ==> CleanMove(s, ms[0]))
    && (forall i | 0 < i < |ms| :: !ms[i].PutWrapped?)
  }

  lemma {:induction false} MovesKeep(s: World, ms: seq<Move>)
    requires Base(s) && AllPossible(s, ms)
    ensures Base(Moves(s, ms))
    ensures Inv(s) && CleanMoves(s, ms) ==> Inv(Moves(s, ms))
    decreases ms
  {
    hide Base, Sole, ReleasedOnce, Possible, Moved, CleanMove;
    if ms != [] {
      MoveBase(s, ms[0]);
      if Inv(s) && CleanMoves(s, ms) {
        MoveStrict(s, ms[0]);
        assert ms[1..] != [] ==> !ms[1].PutWrapped?;
        NotWrapped(Moved(s, ms[0]), ms[1..]);
      }
      MovesKeep(Moved(s, ms[0]), ms[1..]);
    }
  }

  lemma NotWrapped(s: World, ms: seq<Move>)
    requires forall i | 0 <= i < |ms| :: !ms[i].PutWrapped?
    ensures CleanMoves(s, ms)
  {
  }

  // ---------- every step is moves ----------

  ghost function AllocateMoves(s: World, k: nat, b: Buf, w: int, h: int, f: int, u: int, got: Got): seq<Move> {
    var (b', e, _) := InitSize(b, s.env, w, h, f, u, got);
    if got.Granted? then [PutGranted(k, b', got, Record(w, h, got.stride, f, u, got.bpp, s.env.mask))]
    else [PutBlank(k, b')]
  }

  ghost function MovesOf(s: World, step: Step): seq<Move>
    requires Enabled(s, step)
  {
    match step
    case NewEmpty(k) => [PutBlank(k, Buf(ZERO, None, OwnData))]
    case NewAllocated(k, w, h, f, u, got) => AllocateMoves(s, k, Buf(ZERO, None, OwnData), w, h, f, u, got)
    case NewWrapping(k, g, h, keep) =>
      var b := Buf(g, h, if keep then OwnHandle else OwnNone);
      if h.None? then [PutBlank(k, b)] else [PutWrapped(k, b)]
    case DoReallocate(k, w, h, f, u, freeOk, got) =>
      var b := s.bufs[k];
      var (b', e, _) := Reallocate(b, s.env, w, h, f, u, freeOk, got);
      if b'.owner != OwnData || (b' == b && e == s.env) then [Learn(got)]
      else [DropHandle(k, freeOk)] + AllocateMoves(s, k, b.(handle := None), w, h, f, u, got)
    case DoUnflatten(k, words, size, fds, count, o) =>
      var b := s.bufs[k];
      var (b', e, _) := Unflatten(b, s.env, words, size, fds, count, o);
      if (b', e) == (b, s.env) then []
      else if e == s.env && b'.handle.None? then [PutBlank(k, b')]
      else [DropHandle(k, o.freeOk), if b'.handle.None? then PutBlank(k, b') else PutNew(k, b')]
    case DoDestroy(k, freeOk) => [DropHandle(k, freeOk), Remove(k)]
  }

  lemma One(s: World, m: Move)
    requires Possible(s, m)
    ensures AllPossible(s, [m]) && Moves(s, [m]) == Moved(s, m)
  {
  }

  lemma Two(s: World, m: Move, n: Move)
    requires Possible(s, m) && Possible(Moved(s, m), n)
    ensures AllPossible(s, [m, n]) && Moves(s, [m, n]) == Moved(Moved(s, m), n)
  {
    One(Moved(s, m), n);
    assert [m, n][1..] == [n];
  }

  lemma RecordMade(w: int, h: int, stride: int, f: int, u: int, bpp: int, mask: bv32)
    ensures RecordFits(Geometry(AsInt(w), AsInt(h), stride, f, AsInt(u)), Record(w, h, stride, f, u, bpp, mask))
  {
  }

  lemma StepIsMoves(s: World, step: Step)
    requires SeenAll(s) && Enabled(s, step)
    ensures AllPossible(s, MovesOf(s, step)) && Moves(s, MovesOf(s, step)) == Next(s, step)
    ensures Clean(s, step) <==> CleanMoves(s, MovesOf(s, step))
  {
    match step
    case NewEmpty(k) => One(s, PutBlank(k, Buf(ZERO, None, OwnData)));
    case NewAllocated(k, w, h, f, u, got) =>
      if got.Granted? {
        RecordMade(w, h, got.stride, f, u, got.bpp, s.env.mask);
      }
      One(s, MovesOf(s, step)[0]);
    case NewWrapping(k, g, h, keep) => One(s, MovesOf(s, step)[0]);
    case DoReallocate(k, w, h, f, u, freeOk, got) => ReallocateIsMoves(s, k, w, h, f, u, freeOk, got);
    case DoUnflatten(k, words, size, fds, count, o) => UnflattenIsMoves(s, k, words, size, fds, count, o);
    case DoDestroy(k, freeOk) =>
      Two(s, DropHandle(k, freeOk), Remove(k));
      assert Moved(s, DropHandle(k, freeOk)).bufs - {k} == s.bufs - {k};
  }

  lemma ReallocateIsMoves(s: World, k: nat, w: int, h: int, f: int, u: int, freeOk: bool, got: Got)
    requires SeenAll(s) && Enabled(s, DoReallocate(k, w, h, f, u, freeOk, got))
    ensures var step := DoReallocate(k, w, h, f, u, freeOk, got);
            && AllPossible(s, MovesOf(s, step)) && Moves(s, MovesOf(s, step)) == Next(s, step)
            && CleanMoves(s, MovesOf(s, step))
  {
    var step := DoReallocate(k, w, h, f, u, freeOk, got);
    var ms := MovesOf(s, step);
    if ms == [Learn(got)] {
      One(s, Learn(got));
      PutSame(Grallocated(s, got), k);
    } else {
      if got.Granted? {
        RecordMade(w, h, got.stride, f, u, got.bpp, s.env.mask);
      }
      assert ms == [DropHandle(k, freeOk), ms[1]];
      Two(s, DropHandle(k, freeOk), ms[1]);
      assert Moved(s, DropHandle(k, freeOk)).bufs[k := ms[1].b] == s.bufs[k := ms[1].b];
    }
  }

  lemma UnflattenIsMoves(s: World, k: nat, words: seq<int>, size: nat, fds: seq<int>, count: nat, o: Outcome)
    requires SeenAll(s) && Enabled(s, DoUnflatten(k, words, size, fds, count, o))
    ensures var step := DoUnflatten(k, words, size, fds, count, o);
            && AllPossible(s, MovesOf(s, step)) && Moves(s, MovesOf(s, step)) == Next(s, step)
            && CleanMoves(s, MovesOf(s, step))
  {
    var step := DoUnflatten(k, words, size, fds, count, o);
    var ms := MovesOf(s, step);
    if ms == [] {
      PutSame(s, k);
    } else if |ms| == 1 {
      One(s, ms[0]);
    } else {
      Two(s, ms[0], ms[1]);
      assert Moved(s, ms[0]).bufs[k := ms[1].b] == s.bufs[k := ms[1].b];
    }
  }

  lemma PutSame(s: World, k: nat)
    requires SeenAll(s) && k in s.bufs
    ensures Put(s, k, s.bufs[k], s.env) == s
  {
    assert s.bufs[k := s.bufs[k]] == s.bufs;
    assert Met(s, s.bufs[k]) == s.seen;
  }

  lemma StepKeeps(s: World, step: Step)
    requires Base(s) && Enabled(s, step)
    ensures Base(Next(s, step))
    ensures Inv(s) && Clean(s, step) ==> Inv(Next(s, step))
  {
    assert SeenAll(s);
    hide Base, Inv, SeenAll, Enabled, Next, MovesOf, Moves, AllPossible, CleanMoves, Clean;
    StepIsMoves(s, step);
    MovesKeep(s, MovesOf(s, step));
  }

  // ---------- runs ----------

  ghost predicate Legal(s: World, run: seq<Step>)
    decreases run
  {
    run != [] ==> Enabled(s, run[0]) && Legal(Next(s, run[0]), run[1..])
  }

  ghost function Run(s: World, run: seq<Step>): World
    requires Legal(s, run)
    decreases run
  {
    if run == [] then s else Run(Next(s, run[0]), run[1..])
  }

  ghost predicate AlwaysSole(s: World, run: seq<Step>)
    requires Legal(s, run)
    decreases run
  {
    Sole(s) && (run != [] ==> AlwaysSole(Next(s, run[0]), run[1..]))
  }

  ghost predicate AlwaysClean(s: World, run: seq<Step>)
    requires Legal(s, run)
    decreases run
  {
    run != [] ==> Clean(s, run[0]) && AlwaysClean(Next(s, run[0]), run[1..])
  }

  lemma {:induction false} RunKeeps(s: World, run: seq<Step>)
    requires Base(s) && Legal(s, run)
    ensures Base(Run(s, run))
    ensures Inv(s) && AlwaysClean(s, run) ==> Inv(Run(s, run))
    decreases run
  {
    hide Base, Inv, Next, Enabled, Clean;
    if run != [] {
      StepKeeps(s, run[0]);
      RunKeeps(Next(s, run[0]), run[1..]);
    }
  }

  /** Wrapping is the one step that can give a handle a second owner, or an owner after its release. */
  lemma StepSole(s: World, step: Step)
    requires Inv(s) && Enabled(s, step)
    ensures Sole(Next(s, step)) <==> Clean(s, step)
  {
    if Clean(s, step) {
      hide Sole, Base, ReleasedOnce, Next, Clean, Enabled;
      StepKeeps(s, step);
    } else {
      UncleanWrap(s, step);
    }
  }

  lemma UncleanWrap(s: World, step: Step)
    requires Base(s) && Enabled(s, step) && !Clean(s, step)
    ensures !Sole(Next(s, step)) && step.NewWrapping? && step.h.Some?
    ensures var r, id := Next(s, step), step.h.value.id;
            && step.b in r.bufs && Owns(r.bufs[step.b], id)
            && (ReleasedBefore(r.env, id) || exists c :: c in r.bufs && c != step.b && Owns(r.bufs[c], id))
  {
    var r, id := Next(s, step), step.h.value.id;
    assert Owns(r.bufs[step.b], id);
    if !ReleasedBefore(s.env, id) {
      var c :| c in s.bufs && Owns(s.bufs[c], id);
      assert c in r.bufs && c != step.b && Owns(r.bufs[c], id);
    }
  }

  lemma {:induction false} SoleIffCleanFrom(s: World, run: seq<Step>)
    requires Inv(s) && Legal(s, run)
    ensures AlwaysSole(s, run) <==> AlwaysClean(s, run)
    decreases run
  {
    assert Sole(s) && Base(s);
    hide Inv, Base, Sole, Next, Enabled, Clean;
    if run != [] {
      StepKeeps(s, run[0]);
      StepSole(s, run[0]);
      if Clean(s, run[0]) {
        SoleIffCleanFrom(Next(s, run[0]), run[1..]);
      } else {
        NotSole(Next(s, run[0]), run[1..]);
      }
    }
  }

  lemma NotSole(s: World, run: seq<Step>)
    requires Legal(s, run) && !Sole(s)
    ensures !AlwaysSole(s, run)
  {
  }

  /**
   Throughout a run every owned handle has one owner and has not been given back, if and only if no buffer
   was made, with keepOwnership, around a handle that another buffer owned or that had been given back.
   */
  lemma {:induction false} SoleIffClean(s: World, run: seq<Step>)
    requires Init(s) && Legal(s, run)
    ensures AlwaysSole(s, run) <==> AlwaysClean(s, run)
  {
    hide AlwaysSole, AlwaysClean, Legal;
    SoleIffCleanFrom(s, run);
  }

  /**
   Over every run whose wrappers are clean no handle is given back twice, and no buffer still owns a handle
   that has been given back.
   */
  lemma {:induction false} ReleasedAtMostOnce(s: World, run: seq<Step>)
    requires Init(s) && Legal(s, run) && AlwaysClean(s, run)
    ensures var r := Run(s, run);
            && (forall i, j | 0 <= i < j < |r.env.released| :: r.env.released[i].id != r.env.released[j].id)
            && (forall b | b in r.bufs && r.bufs[b].owner != OwnNone && r.bufs[b].handle.Some? ::
                  !ReleasedBefore(r.env, r.bufs[b].handle.value.id))
  {
    hide Run, Legal, Next, Enabled, AlwaysClean;
    assert Inv(s);
    RunKeeps(s, run);
  }

  /**
   The condition cannot be relaxed: after any run with clean wrappers, one that is not clean can be followed
   by destructions alone that give its handle back twice.
   */
  lemma UncleanReleasesTwice(s: World, run: seq<Step>, step: Step) returns (more: seq<Step>)
    requires Init(s) && Legal(s, run) && AlwaysClean(s, run)
    requires Enabled(Run(s, run), step) && !Clean(Run(s, run), step)
    ensures forall i | 0 <= i < |more| :: more[i].DoDestroy?
    ensures Legal(Next(Run(s, run), step), more)
    ensures var e := Run(Next(Run(s, run), step), more).env;
            step.NewWrapping? && step.h.Some? && Twice(e, step.h.value.id)
  {
    hide Run, Legal, Next, Enabled, AlwaysClean, Clean;
    assert Base(s) && Inv(s);
    hide Base, Inv;
    RunKeeps(s, run);
    UncleanWrap(Run(s, run), step);
    more := DestroyBoth(Next(Run(s, run), step), step.b, step.h.value.id);
  }

  ghost predicate Twice(e: Env, id: nat) {
    exists i, j :: 0 <= i < j < |e.released| && e.released[i].id == id && e.released[j].id == id
  }

  lemma DestroyBoth(r: World, b: nat, id: nat) returns (more: seq<Step>)
    requires b in r.bufs && Owns(r.bufs[b], id)
    requires ReleasedBefore(r.env, id) || exists c :: c in r.bufs && c != b && Owns(r.bufs[c], id)
    ensures forall i | 0 <= i < |more| :: more[i].DoDestroy?
    ensures Legal(r, more)
    ensures Twice(Run(r, more).env, id)
  {
    if ReleasedBefore(r.env, id) {
      more := [DoDestroy(b, true)];
      DestroyOne(r, b, id);
      DestroyAgain(r, b, id);
    } else {
      var c :| c in r.bufs && c != b && Owns(r.bufs[c], id);
      more := [DoDestroy(c, true), DoDestroy(b, true)];
      DestroyOne(r, c, id);
      var r1 := Next(r, DoDestroy(c, true));
      assert r1.bufs[b] == r.bufs[b];
      DestroyOne(r1, b, id);
      DestroyAgain(r1, b, id);
      assert more[1..] == [DoDestroy(b, true)];
      assert Run(r, more) == Run(r1, [DoDestroy(b, true)]);
    }
  }

  lemma DestroyOne(r: World, b: nat, id: nat)
    requires b in r.bufs && Owns(r.bufs[b], id)
    ensures Enabled(r, DoDestroy(b, true)) && ReleasedBefore(Next(r, DoDestroy(b, true)).env, id)
    ensures Legal(r, [DoDestroy(b, true)]) && Run(r, [DoDestroy(b, true)]) == Next(r, DoDestroy(b, true))
  {
    var e := Next(r, DoDestroy(b, true)).env;
    assert e.released[|r.env.released|].id == id;
  }

  lemma DestroyAgain(r: World, b: nat, id: nat)
    requires b in r.bufs && Owns(r.bufs[b], id) && ReleasedBefore(r.env, id)
    ensures Twice(Next(r, DoDestroy(b, true)).env, id)
  {
    var e := Next(r, DoDestroy(b, true)).env;
    var i :| 0 <= i < |r.env.released| && r.env.released[i].id == id;
    assert e.released[i].id == e.released[|r.env.released|].id == id;
  }

  lemma Prepend(s: World, step: Step, run: seq<Step>)
    requires Enabled(s, step) && Legal(Next(s, step), run)
    ensures Legal(s, [step] + run) && Run(s, [step] + run) == Run(Next(s, step), run)
  {
    assert ([step] + run)[1..] == run;
  }

  /** Such a run from the start: an allocated buffer, an owning wrapper around its handle, and both destroyed. */
  lemma WrappedHandleReleasedTwice() returns (s: World, run: seq<Step>)
    ensures Init(s) && Legal(s, run)
    ensures Run(s, run).env.released == [Release(7, OwnHandle), Release(7, OwnData)]
  {
    hide Legal, Run;
    s := World(map[], Env(map[], [], 0), {}, {});
    var h := Handle(7, [], []);
    var make, wrap := NewAllocated(0, 1, 1, 1, 1, Granted(h, 1, 4)), NewWrapping(1, ZERO, Some(h), true);
    var s1 := Next(s, make);
    var s2 := Next(s1, wrap);
    var s3 := Next(s2, DoDestroy(1, true));
    assert s2.bufs[1] == Buf(ZERO, Some(h), OwnHandle) && s2.bufs[0].handle == Some(h);
    assert s3.bufs[0] == s2.bufs[0] && s3.env.released == [Release(7, OwnHandle)];
    DestroyOne(s3, 0, 7);
    Prepend(s2, DoDestroy(1, true), [DoDestroy(0, true)]);
    Prepend(s1, wrap, [DoDestroy(1, true)] + [DoDestroy(0, true)]);
    run := [wrap] + ([DoDestroy(1, true)] + [DoDestroy(0, true)]);
    Prepend(s, make, run);
    run := [make] + run;
  }

  /**
   Over every run, clean or not: a handle goes back through the allocator only if it came from there, and
   a buffer that owns data has a record in sAllocList that was made for it, even after gralloc has refused
   to free others.
   */
  lemma {:induction false} DataHasRecord(s: World, run: seq<Step>)
    requires Init(s) && Legal(s, run)
    ensures var r := Run(s, run);
            && (forall i | 0 <= i < |r.env.released| && r.env.released[i].route == OwnData ::
                  r.env.released[i].id in r.fromGralloc)
            && (forall b | b in r.bufs && r.bufs[b].owner == OwnData && r.bufs[b].handle.Some? ::
                  && r.bufs[b].handle.value.id in r.env.allocList
                  && RecordFits(r.bufs[b].geometry, r.env.allocList[r.bufs[b].handle.value.id]))
  {
    hide Run, Legal, Next, Enabled;
    assert Base(s);
    RunKeeps(s, run);
    var r := Run(s, run);
    forall b | b in r.bufs && r.bufs[b].owner == OwnData && r.bufs[b].handle.Some?
      ensures r.bufs[b].handle.value.id in r.env.allocList
      ensures RecordFits(r.bufs[b].geometry, r.env.allocList[r.bufs[b].handle.value.id])
    {
      assert Owns(r.bufs[b], HandleId(r.bufs[b]));
    }
  }
}
