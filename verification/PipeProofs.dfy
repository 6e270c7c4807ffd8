/** What every run of pipe, descriptor and object calls keeps: queues, end counts, and who owns which object. */
module PipeProofs {
  import opened Bytes
  import opened PipeSpec

  /** The bytes accepted from writers and handed to readers since a pipe was created. */
  datatype Hist = Hist(written: seq<byte>, read: seq<byte>)

  /** The tables with the pipes' histories and the objects that were made directly, not for a pipe end. */
  datatype World = World(s: State, hist: seq<Hist>, direct: set<nat>)

  const FRESH := Hist([], [])

  // ------------------------------------------------------------------ the invariant

  function IsEnd(f: File, p: nat): nat {
    if f.PipeFd? && f.pipe == p then 1 else 0
  }

  /** How many descriptors point at pipe p. */
  function Count(files: seq<File>, p: nat): nat {
    if files == [] then 0 else Count(files[..|files| - 1], p) + IsEnd(files[|files| - 1], p)
  }

  lemma {:induction false} CountUpdate(files: seq<File>, fd: nat, f: File, p: nat)
    requires fd < |files|
    ensures Count(files[fd := f], p) + IsEnd(files[fd], p) == Count(files, p) + IsEnd(f, p)
  {
    var n := |files| - 1;
    if fd < n {
      CountUpdate(files[..n], fd, f, p);
      assert files[fd := f][..n] == files[..n][fd := f];
    } else {
      assert files[fd := f][..n] == files[..n];
    }
  }

  lemma {:induction false} CountZero(files: seq<File>, p: nat)
    ensures Count(files, p) == 0 <==> forall fd | 0 <= fd < |files| :: IsEnd(files[fd], p) == 0
  {
    if files != [] {
      CountZero(files[..|files| - 1], p);
      assert forall fd | 0 <= fd < |files| - 1 :: files[..|files| - 1][fd] == files[fd];
    }
  }

  /** One pipe: its end count is the number of its descriptors, and what was written is what was read and what waits. */
  predicate PipeInv(p: Pipe, ends: nat, h: Hist) {
    && PipeOk(p) && p.ends == ends && (p.used <==> ends > 0)
    && (!p.used ==> p.head == 0 && p.len == 0)
    && h.written == h.read + Contents(p)
  }

  predicate Owns(s: State, fd: nat, slot: nat)
    requires Shaped(s)
  {
    3 <= fd < MAX_OPEN && s.files[fd].PipeFd? && s.files[fd].kslot == slot + 1
  }

  /** A pipe descriptor has a number from 3 on, and its object, if it got one, is its own. */
  predicate FdInv(s: State, direct: set<nat>, fd: nat)
    requires Shaped(s) && fd < MAX_OPEN
  {
    s.files[fd].PipeFd? ==>
      && fd >= 3 && s.files[fd].pipe < PIPE_MAX
      && (s.files[fd].kslot == 0 || (s.files[fd].kslot <= KOBJ_MAX && s.files[fd].kslot - 1 !in direct
                                     && s.objs[s.files[fd].kslot - 1].kind == K_PIPE
                                     && s.objs[s.files[fd].kslot - 1].payload == fd))
  }

  /** A pipe object belongs to the descriptor it names, or was made directly. */
  predicate ObjInv(s: State, direct: set<nat>, slot: nat)
    requires Shaped(s) && slot < KOBJ_MAX
  {
    s.objs[slot].kind == K_PIPE ==> slot in direct || Owns(s, s.objs[slot].payload, slot)
  }

  predicate TablesInv(s: State, direct: set<nat>) {
    && Shaped(s)
    && (forall fd | 0 <= fd < MAX_OPEN :: FdInv(s, direct, fd))
    && (forall slot | 0 <= slot < KOBJ_MAX :: ObjInv(s, direct, slot))
    && (forall slot <- direct :: slot < KOBJ_MAX && s.objs[slot].kind != 0)
  }

  predicate PipesInv(s: State, hist: seq<Hist>) {
    && Shaped(s) && |hist| == PIPE_MAX
    && forall p | 0 <= p < PIPE_MAX :: PipeInv(s.pipes[p], Count(s.files, p), hist[p])
  }

  predicate Inv(w: World) {
    TablesInv(w.s, w.direct) && PipesInv(w.s, w.hist)
  }

  // ------------------------------------------------------------------ the object table

  lemma AllocObjKeeps(s: State, direct: set<nat>, kind: nat, payload: u64, direct2: set<nat>)
    requires TablesInv(s, direct) && kind != 0
    requires var slot := AllocObj(s, kind, payload).1; direct2 == if slot.Some? then direct + {slot.value} else direct
    ensures TablesInv(AllocObj(s, kind, payload).0, direct2)
    ensures AllocObj(s, kind, payload).0.files == s.files && AllocObj(s, kind, payload).0.pipes == s.pipes
  {
    var (r, slot) := AllocObj(s, kind, payload);
    if slot.Some? {
      assert s.objs[slot.value].kind == 0;
      forall fd | 0 <= fd < MAX_OPEN
        ensures FdInv(r, direct2, fd)
      {
        assert FdInv(s, direct, fd);
      }
      forall i | 0 <= i < KOBJ_MAX
        ensures ObjInv(r, direct2, i)
      {
        assert ObjInv(s, direct, i);
      }
    }
  }

  /** Freeing an object keeps the tables exactly when no descriptor owns it. */
  lemma FreeObjIff(s: State, direct: set<nat>, slot: nat)
    requires TablesInv(s, direct)
    ensures TablesInv(FreeObjAt(s, slot).0, direct - {slot}) <==> forall fd | 0 <= fd < MAX_OPEN :: !Owns(s, fd, slot)
    ensures FreeObjAt(s, slot).0.files == s.files && FreeObjAt(s, slot).0.pipes == s.pipes
  {
    var (r, ok) := FreeObjAt(s, slot);
    if fd :| 0 <= fd < MAX_OPEN && Owns(s, fd, slot) {
      assert FdInv(s, direct, fd);
      assert !FdInv(r, direct - {slot}, fd);
    } else {
      forall fd | 0 <= fd < MAX_OPEN
        ensures FdInv(r, direct - {slot}, fd)
      {
        assert FdInv(s, direct, fd) && !Owns(s, fd, slot);
      }
      forall i | 0 <= i < KOBJ_MAX
        ensures ObjInv(r, direct - {slot}, i)
      {
        assert ObjInv(s, direct, i);
      }
    }
  }

  // ------------------------------------------------------------------ descriptors

  lemma AllocPipeFdKeeps(s: State, direct: set<nat>, p: nat)
    requires TablesInv(s, direct) && p < PIPE_MAX
    ensures var (r, fd) := AllocPipeFd(s, p);
            && TablesInv(r, direct) && r.pipes == s.pipes
            && (fd.None? ==> r == s && forall i | 3 <= i < MAX_OPEN :: s.files[i] != Vacant)
            && (fd.Some? ==> 3 <= fd.value < MAX_OPEN && s.files[fd.value] == Vacant
                             && r.files[fd.value].PipeFd? && r.files == s.files[fd.value := r.files[fd.value]]
                             && r.files[fd.value].pipe == p)
  {
    var fd := FreeSlot(s.files, 3);
    if fd < MAX_OPEN {
      var (a, slot) := AllocObj(s, K_PIPE, fd);
      var r := AllocPipeFd(s, p).0;
      var mine := if slot.Some? then slot.value else KOBJ_MAX;
      assert slot.Some? ==> s.objs[mine].kind == 0;
      forall i | 0 <= i < MAX_OPEN
        ensures FdInv(r, direct, i)
      {
        assert FdInv(s, direct, i);
      }
      forall i | 0 <= i < KOBJ_MAX
        ensures ObjInv(r, direct, i)
      {
        assert ObjInv(s, direct, i);
      }
    }
  }

  lemma FreeFdKeeps(s: State, direct: set<nat>, fd: nat)
    requires TablesInv(s, direct) && 3 <= fd < MAX_OPEN
    ensures TablesInv(FreeFd(s, fd), direct)
    ensures FreeFd(s, fd).files == s.files[fd := Vacant] && FreeFd(s, fd).pipes == s.pipes
  {
    var r := FreeFd(s, fd);
    assert FdInv(s, direct, fd);
    forall i | 0 <= i < MAX_OPEN
      ensures FdInv(r, direct, i)
    {
      assert FdInv(s, direct, i);
    }
    forall i | 0 <= i < KOBJ_MAX
      ensures ObjInv(r, direct, i)
    {
      assert ObjInv(s, direct, i);
    }
  }

  /** Replacing one descriptor slot that is no pipe end leaves the tables right. */
  lemma OtherKeeps(s: State, direct: set<nat>, fd: nat, f: File)
    requires TablesInv(s, direct) && 3 <= fd < MAX_OPEN && !s.files[fd].PipeFd? && !f.PipeFd?
    ensures TablesInv(s.(files := s.files[fd := f]), direct)
    ensures forall p :: Count(s.files[fd := f], p) == Count(s.files, p)
  {
    var r := s.(files := s.files[fd := f]);
    forall i | 0 <= i < MAX_OPEN
      ensures FdInv(r, direct, i)
    {
      assert FdInv(s, direct, i);
    }
    forall i | 0 <= i < KOBJ_MAX
      ensures ObjInv(r, direct, i)
    {
      assert ObjInv(s, direct, i);
    }
    forall p
      ensures Count(s.files[fd := f], p) == Count(s.files, p)
    {
      CountUpdate(s.files, fd, f, p);
    }
  }

  // ------------------------------------------------------------------ the calls

  datatype Op = CreatePipe(inWindow: bool) | WriteTo(fd: nat, bs: seq<byte>) | ReadFrom(fd: nat, len: nat)
              | CloseFd(fd: nat) | OpenFile | CreateObj(kind: nat) | FreeDirect(slot: nat)

  function PipeOf(s: State, fd: nat): nat
    requires IsPipeFd(s, fd)
  {
    s.files[fd].pipe
  }

  /** One call; each pipe's history starts anew when the pipe is created and when its slot is cleared. */
  function Step(w: World, op: Op): World
    requires Inv(w)
  {
    match op
    case CreatePipe(inWindow) =>
      var (r, c) := Create(w.s, inWindow);
      if c.Ends? then World(r, w.hist[FreePipe(w.s.pipes, 0) := FRESH], w.direct) else w.(s := r)
    case WriteTo(fd, bs) =>
      if IsPipeFd(w.s, fd) then
        var (r, n) := WriteFd(w.s, fd, bs);
        var p := PipeOf(w.s, fd);
        World(r, w.hist[p := Hist(w.hist[p].written + bs[..n], w.hist[p].read)], w.direct)
      else w
    case ReadFrom(fd, len) =>
      if IsPipeFd(w.s, fd) then
        var (r, out) := ReadFd(w.s, fd, len);
        var p := PipeOf(w.s, fd);
        World(r, w.hist[p := Hist(w.hist[p].written, w.hist[p].read + out)], w.direct)
      else w
    case CloseFd(fd) =>
      var r := Close(w.s, fd);
      if IsPipeFd(w.s, fd) && !r.pipes[PipeOf(w.s, fd)].used
      then World(r, w.hist[PipeOf(w.s, fd) := FRESH], w.direct) else w.(s := r)
    case OpenFile => w.(s := OpenOther(w.s))
    case CreateObj(kind) =>
      if kind == 0 then w
      else
        var (r, slot) := AllocObj(w.s, kind, 0);
        World(r, w.hist, if slot.Some? then w.direct + {slot.value} else w.direct)
    case FreeDirect(slot) => World(FreeObjAt(w.s, slot).0, w.hist, w.direct - {slot})
  }

  /** Not freeing, through the object calls, what a pipe descriptor owns. */
  predicate Allowed(s: State, op: Op)
    requires Shaped(s)
  {
    op.FreeDirect? ==> forall fd | 0 <= fd < MAX_OPEN :: !Owns(s, fd, op.slot)
  }

  lemma CreateKeeps(w: World, inWindow: bool)
    requires Inv(w)
    ensures Inv(Step(w, CreatePipe(inWindow)))
  {
    var s, pi := w.s, FreePipe(w.s.pipes, 0);
    if inWindow && pi < PIPE_MAX {
      AllocPipeFdKeeps(s, w.direct, pi);
      var (a, rfd) := AllocPipeFd(s, pi);
      if rfd.Some? {
        AllocPipeFdKeeps(a, w.direct, pi);
        var (b, wfd) := AllocPipeFd(a, pi);
        CountsAfter(s.files, a.files, rfd.value, a.files[rfd.value]);
        if wfd.Some? {
          CountsAfter(a.files, b.files, wfd.value, b.files[wfd.value]);
          CreatedKeeps(w, a, b, pi, Step(w, CreatePipe(inWindow)));
        } else {
          FreeFdKeeps(b, w.direct, rfd.value);
          assert s.files[rfd.value := a.files[rfd.value]][rfd.value := Vacant] == s.files;
        }
      }
    }
  }

  lemma CountsAfter(files: seq<File>, after: seq<File>, fd: nat, f: File)
    requires fd < |files| && after == files[fd := f]
    ensures forall p :: Count(after, p) + IsEnd(files[fd], p) == Count(files, p) + IsEnd(f, p)
  {
    forall p
      ensures Count(after, p) + IsEnd(files[fd], p) == Count(files, p) + IsEnd(f, p)
    {
      CountUpdate(files, fd, f, p);
    }
  }

  lemma CreatedKeeps(w: World, a: State, b: State, pi: nat, r: World)
    requires Inv(w) && pi < PIPE_MAX && !w.s.pipes[pi].used && TablesInv(b, w.direct) && b.pipes == w.s.pipes
    requires forall p :: Count(b.files, p) == Count(w.s.files, p) + if p == pi then 2 else 0
    requires r.s == b.(pipes := b.pipes[pi := b.pipes[pi].(used := true, head := 0, len := 0, ends := 2)])
    requires r.hist == w.hist[pi := FRESH] && r.direct == w.direct
    ensures Inv(r)
  {
    TablesOnly(b, r.s, w.direct);
    forall p | 0 <= p < PIPE_MAX
      ensures PipeInv(r.s.pipes[p], Count(r.s.files, p), r.hist[p])
    {
      assert PipeInv(w.s.pipes[p], Count(w.s.files, p), w.hist[p]);
      if p == pi {
        assert Contents(r.s.pipes[p]) == [];
      }
    }
  }

  /** The tables do not depend on what is in the pipes. */
  lemma TablesOnly(s: State, r: State, direct: set<nat>)
    requires TablesInv(s, direct) && r == s.(pipes := r.pipes) && |r.pipes| == PIPE_MAX
    ensures TablesInv(r, direct)
  {
    forall i | 0 <= i < MAX_OPEN
      ensures FdInv(r, direct, i)
    {
      assert FdInv(s, direct, i);
    }
    forall i | 0 <= i < KOBJ_MAX
      ensures ObjInv(r, direct, i)
    {
      assert ObjInv(s, direct, i);
    }
  }

  lemma WriteOne(p: Pipe, ends: nat, h: Hist, bs: seq<byte>)
    requires PipeInv(p, ends, h) && ends > 0
    ensures PipeInv(Write(p, bs).0, ends, Hist(h.written + bs[..Write(p, bs).1], h.read))
  {
    WriteAppends(p, bs);
    var n := Write(p, bs).1;
    assert h.read + (Contents(p) + bs[..n]) == (h.read + Contents(p)) + bs[..n];
  }

  lemma ReadOne(p: Pipe, ends: nat, h: Hist, len: nat)
    requires PipeInv(p, ends, h) && ends > 0
    ensures PipeInv(Read(p, len).0, ends, Hist(h.written, h.read + Read(p, len).1))
  {
    ReadTakes(p, len);
    var (q, out) := Read(p, len);
    assert h.read + (out + Contents(q)) == (h.read + out) + Contents(q);
  }

  /** Changing one pipe and its history, rightly, keeps everything. */
  lemma OnePipeKeeps(w: World, pi: nat, q: Pipe, h: Hist, r: World)
    requires Inv(w) && pi < PIPE_MAX && PipeInv(q, Count(w.s.files, pi), h)
    requires r == World(w.s.(pipes := w.s.pipes[pi := q]), w.hist[pi := h], w.direct)
    ensures Inv(r)
  {
    TablesOnly(w.s, r.s, w.direct);
    forall p | 0 <= p < PIPE_MAX
      ensures PipeInv(r.s.pipes[p], Count(r.s.files, p), r.hist[p])
    {
      assert PipeInv(w.s.pipes[p], Count(w.s.files, p), w.hist[p]);
    }
  }

  lemma HasEnd(w: World, fd: nat)
    requires Inv(w) && IsPipeFd(w.s, fd)
    ensures var p := PipeOf(w.s, fd); p < PIPE_MAX && Count(w.s.files, p) > 0 && PipeInv(w.s.pipes[p], Count(w.s.files, p), w.hist[p])
  {
    CountZero(w.s.files, PipeOf(w.s, fd));
    assert IsEnd(w.s.files[fd], PipeOf(w.s, fd)) == 1;
  }

  lemma WriteKeeps(w: World, fd: nat, bs: seq<byte>)
    requires Inv(w)
    ensures Inv(Step(w, WriteTo(fd, bs)))
  {
    if IsPipeFd(w.s, fd) {
      var pi := PipeOf(w.s, fd);
      HasEnd(w, fd);
      var h := w.hist[pi];
      WriteOne(w.s.pipes[pi], Count(w.s.files, pi), h, bs);
      var (q, n) := Write(w.s.pipes[pi], bs);
      OnePipeKeeps(w, pi, q, Hist(h.written + bs[..n], h.read), Step(w, WriteTo(fd, bs)));
    }
  }

  lemma ReadKeeps(w: World, fd: nat, len: nat)
    requires Inv(w)
    ensures Inv(Step(w, ReadFrom(fd, len)))
  {
    if IsPipeFd(w.s, fd) {
      var pi := PipeOf(w.s, fd);
      HasEnd(w, fd);
      var h := w.hist[pi];
      ReadOne(w.s.pipes[pi], Count(w.s.files, pi), h, len);
      var (q, out) := Read(w.s.pipes[pi], len);
      OnePipeKeeps(w, pi, q, Hist(h.written, h.read + out), Step(w, ReadFrom(fd, len)));
    }
  }

  lemma CloseKeeps(w: World, fd: nat)
    requires Inv(w)
    ensures Inv(Step(w, CloseFd(fd)))
  {
    var s := w.s;
    if 3 <= fd < MAX_OPEN {
      assert FdInv(s, w.direct, fd);
      if s.files[fd].PipeFd? {
        var pi := s.files[fd].pipe;
        assert PipeInv(s.pipes[pi], Count(s.files, pi), w.hist[pi]);
        var f := FreeFd(s, fd);
        FreeFdKeeps(s, w.direct, fd);
        CountsAfter(s.files, f.files, fd, Vacant);
        var r := Step(w, CloseFd(fd));
        TablesOnly(f, r.s, w.direct);
        forall p | 0 <= p < PIPE_MAX
          ensures PipeInv(r.s.pipes[p], Count(r.s.files, p), r.hist[p])
        {
          assert PipeInv(s.pipes[p], Count(s.files, p), w.hist[p]);
          if p == pi && !r.s.pipes[p].used {
            assert Contents(r.s.pipes[p]) == [];
          } else {
            assert Contents(r.s.pipes[p]) == Contents(s.pipes[p]);
          }
        }
      } else {
        OtherKeeps(s, w.direct, fd, Vacant);
      }
    }
  }

  lemma StepKeeps(w: World, op: Op)
    requires Inv(w) && Allowed(w.s, op)
    ensures Inv(Step(w, op))
  {
    match op
    case CreatePipe(inWindow) => CreateKeeps(w, inWindow);
    case WriteTo(fd, bs) => WriteKeeps(w, fd, bs);
    case ReadFrom(fd, len) => ReadKeeps(w, fd, len);
    case CloseFd(fd) => CloseKeeps(w, fd);
    case OpenFile =>
      var fd := FreeSlot(w.s.files, 3);
      if fd < MAX_OPEN {
        OtherKeeps(w.s, w.direct, fd, OtherFile);
      }
    case CreateObj(kind) =>
      if kind != 0 {
        AllocObjKeeps(w.s, w.direct, kind, 0, Step(w, op).direct);
      }
    case FreeDirect(slot) => FreeObjIff(w.s, w.direct, slot);
  }

  /** A direct free keeps everything in place exactly when no descriptor owns the object. */
  lemma DirectFreeIff(w: World, slot: nat)
    requires Inv(w)
    ensures Inv(Step(w, FreeDirect(slot))) <==> Allowed(w.s, FreeDirect(slot))
  {
    FreeObjIff(w.s, w.direct, slot);
  }

  predicate AllAllowed(w: World, ops: seq<Op>)
    requires Inv(w)
    decreases |ops|
  {
    ops == [] || (Allowed(w.s, ops[0]) && (StepKeeps(w, ops[0]); AllAllowed(Step(w, ops[0]), ops[1..])))
  }

  function Run(w: World, ops: seq<Op>): (r: World)
    requires Inv(w) && AllAllowed(w, ops)
    ensures Inv(r)
    decreases |ops|
  {
    if ops == [] then w
    else
      StepKeeps(w, ops[0]);
      Run(Step(w, ops[0]), ops[1..])
  }

  // ------------------------------------------------------------------ what it means

  function Start(): World {
    World(State(seq(8, i => Pipe(false, seq(512, j => 0), 0, 0, 0)), seq(16, i => Vacant),
                seq(64, i => KObj(0, 0, 0)), seq(64, i => 0)), seq(8, i => FRESH), {})
  }

  lemma StartInv()
    ensures Inv(Start())
  {
    var s := Start().s;
    forall p | 0 <= p < PIPE_MAX
      ensures PipeInv(s.pipes[p], Count(s.files, p), FRESH)
    {
      CountZero(s.files, p);
      assert Contents(s.pipes[p]) == [];
    }
    assert forall fd | 0 <= fd < MAX_OPEN :: FdInv(s, {}, fd);
    assert forall slot | 0 <= slot < KOBJ_MAX :: ObjInv(s, {}, slot);
  }

  /** After every run: what a pipe's readers got is the beginning of what its writers put in, and the rest waits in it. */
  lemma RunIsQueue(start: World, ops: seq<Op>, p: nat)
    requires Inv(start) && AllAllowed(start, ops) && p < PIPE_MAX
    ensures var w := Run(start, ops);
            && PipeOk(w.s.pipes[p])
            && w.hist[p].written == w.hist[p].read + Contents(w.s.pipes[p])
            && w.s.pipes[p].ends == Count(w.s.files, p)
            && (w.s.pipes[p].used <==> exists fd | 0 <= fd < MAX_OPEN :: IsEnd(w.s.files[fd], p) == 1)
  {
    var w := Run(start, ops);
    assert PipeInv(w.s.pipes[p], Count(w.s.files, p), w.hist[p]);
    CountZero(w.s.files, p);
  }

  /** Two pipe descriptors never share an object. */
  lemma OwnersDistinct(w: World, fd: nat, gd: nat)
    requires Inv(w) && fd < MAX_OPEN && gd < MAX_OPEN && fd != gd && w.s.files[fd].PipeFd? && w.s.files[gd].PipeFd?
    ensures w.s.files[fd].kslot != w.s.files[gd].kslot || w.s.files[fd].kslot == 0
    ensures w.s.files[fd].kslot != 0 ==> w.s.files[fd].kslot <= KOBJ_MAX && w.s.objs[w.s.files[fd].kslot - 1].kind == K_PIPE
  {
    assert FdInv(w.s, w.direct, fd) && FdInv(w.s, w.direct, gd);
  }

  /** With every pipe descriptor closed, no pipe is in use or holds a byte, and no pipe object is left but direct ones. */
  lemma AllClosed(w: World)
    requires Inv(w) && forall fd | 0 <= fd < MAX_OPEN :: !w.s.files[fd].PipeFd?
    ensures forall p | 0 <= p < PIPE_MAX :: !w.s.pipes[p].used && w.s.pipes[p].len == 0 && w.s.pipes[p].ends == 0
    ensures forall slot | 0 <= slot < KOBJ_MAX && slot !in w.direct :: w.s.objs[slot].kind != K_PIPE
  {
    forall p | 0 <= p < PIPE_MAX
      ensures !w.s.pipes[p].used && w.s.pipes[p].len == 0 && w.s.pipes[p].ends == 0
    {
      assert PipeInv(w.s.pipes[p], Count(w.s.files, p), w.hist[p]);
      CountZero(w.s.files, p);
    }
    forall slot | 0 <= slot < KOBJ_MAX && slot !in w.direct
      ensures w.s.objs[slot].kind != K_PIPE
    {
      assert ObjInv(w.s, w.direct, slot);
    }
  }

  function CloseFrom(w: World, fd: nat): (r: World)
    requires Inv(w) && fd <= MAX_OPEN
    ensures Inv(r)
    decreases MAX_OPEN - fd
  {
    if fd == MAX_OPEN then w
    else
      CloseKeeps(w, fd);
      CloseFrom(Step(w, CloseFd(fd)), fd + 1)
  }

  /** Closing every descriptor empties the tables, from whatever state. */
  lemma {:induction false} CloseEverything(w: World, fd: nat)
    requires Inv(w) && fd <= MAX_OPEN && forall i | 0 <= i < fd :: !w.s.files[i].PipeFd?
    ensures var r := CloseFrom(w, fd);
            && r.direct == w.direct
            && (forall p | 0 <= p < PIPE_MAX :: !r.s.pipes[p].used && r.s.pipes[p].len == 0 && r.s.pipes[p].ends == 0)
            && (forall slot | 0 <= slot < KOBJ_MAX && slot !in w.direct :: r.s.objs[slot].kind != K_PIPE)
    decreases MAX_OPEN - fd
  {
    if fd == MAX_OPEN {
      AllClosed(w);
    } else {
      CloseKeeps(w, fd);
      assert FdInv(w.s, w.direct, fd);
      if 3 <= fd && w.s.files[fd].PipeFd? {
        FreeFdKeeps(w.s, w.direct, fd);
      }
      CloseEverything(Step(w, CloseFd(fd)), fd + 1);
    }
  }

  /** A failed creation changes neither pipes nor descriptors, and leaves no object behind. */
  lemma FailedCreateUndone(w: World, inWindow: bool)
    requires Inv(w) && Create(w.s, inWindow).1.Failed?
    ensures var r := Create(w.s, inWindow).0;
            && r.pipes == w.s.pipes && r.files == w.s.files
            && forall slot | 0 <= slot < KOBJ_MAX :: r.objs[slot].kind == w.s.objs[slot].kind
  {
    var pi := FreePipe(w.s.pipes, 0);
    if inWindow && pi < PIPE_MAX {
      AllocPipeFdKeeps(w.s, w.direct, pi);
      var (a, rfd) := AllocPipeFd(w.s, pi);
      if rfd.Some? {
        AllocPipeFdKeeps(a, w.direct, pi);
        FreeFdKeeps(a, w.direct, rfd.value);
        assert w.s.files[rfd.value := a.files[rfd.value]][rfd.value := Vacant] == w.s.files;
      }
    }
  }
}
