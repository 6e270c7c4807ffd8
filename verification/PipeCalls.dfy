/**
 The calls that make and close pipes, told on descriptors and slots: when a pipe can be made and which error
 is returned otherwise, which descriptors and objects it gets, what closing one of them gives back, and the
 calls on objects that are made directly.
 */
module PipeCalls {
  import opened Bytes
  import opened PipeSpec
  import opened PipeProofs

  /** Descriptor fd is one that can be given out, and free. */
  predicate FreeAt(s: State, fd: nat)
    requires Shaped(s)
  {
    3 <= fd < 16 && s.files[fd].Vacant?
  }

  predicate Spare(s: State, p: nat)
    requires Shaped(s)
  {
    p < 8 && !s.pipes[p].used
  }

  /** The lowest free descriptor, and the lowest one behind it. */
  predicate LowestTwo(s: State, rfd: nat, wfd: nat)
    requires Shaped(s)
  {
    && FreeAt(s, rfd) && FreeAt(s, wfd) && rfd < wfd
    && forall fd: nat | fd < wfd && fd != rfd :: !FreeAt(s, fd)
  }

  predicate NoSpare(s: State)
    requires Shaped(s)
  {
    forall p: nat | p < 8 :: !Spare(s, p)
  }

  predicate TwoFree(s: State)
    requires Shaped(s)
  {
    exists a, b :: 3 <= a < b < 16 && FreeAt(s, a) && FreeAt(s, b)
  }

  /** A descriptor for an end of pipe p. */
  predicate IsEndOf(f: File, p: nat) {
    f.PipeFd? && f.pipe == p
  }

  /** What creating a pipe answers: -14 for a bad address, -12 when all eight pipes are in use, -24 when fewer than two
      descriptors are free, and otherwise the two lowest free ones, both on the lowest spare pipe, which is then empty. */
  lemma CreateIff(s: State, inWindow: bool)
    requires Shaped(s)
    ensures var (r, c) := Create(s, inWindow);
            && (c == Failed(-14) <==> !inWindow)
            && (c == Failed(-12) <==> inWindow && NoSpare(s))
            && (c == Failed(-24) <==> inWindow && !NoSpare(s) && !TwoFree(s))
            && (c.Ends? <==> inWindow && !NoSpare(s) && TwoFree(s))
            && (c.Ends? ==> LowestTwo(s, c.rfd, c.wfd) && Made(s, r, c.rfd, c.wfd))
  {
    var pi := FreePipe(s.pipes, 0);
    assert pi < 8 ==> Spare(s, pi);
    if inWindow && pi < 8 {
      var rfd := FreeSlot(s.files, 3);
      if rfd < 16 {
        var a := AllocPipeFd(s, pi).0;
        AllocFrame(s, pi);
        assert a.files == s.files[rfd := a.files[rfd]] && IsEndOf(a.files[rfd], pi);
        forall d: nat
          ensures FreeAt(a, d) <==> FreeAt(s, d) && d != rfd
        {
        }
        AllocFrame(a, pi);
        var wfd := FreeSlot(a.files, 3);
        if wfd < 16 {
          assert FreeAt(a, wfd);
          assert forall d: nat | d < wfd :: !FreeAt(a, d);
          assert LowestTwo(s, rfd, wfd);
          Making(s, a, pi, rfd, wfd, Create(s, inWindow).0);
        } else {
          assert forall d: nat :: !FreeAt(a, d);
          OneFree(s, rfd);
        }
      }
    }
  }

  lemma Making(s: State, a: State, pi: nat, rfd: nat, wfd: nat, r: State)
    requires Shaped(s) && Shaped(a) && pi == FreePipe(s.pipes, 0) && pi < 8 && a == AllocPipeFd(s, pi).0
    requires rfd < wfd < 16 && AllocPipeFd(s, pi).1 == Some(rfd) && AllocPipeFd(a, pi).1 == Some(wfd) && r == Create(s, true).0
    ensures Made(s, r, rfd, wfd)
  {
    AllocFrame(s, pi);
    AllocFrame(a, pi);
    forall q: nat | q < pi
      ensures !Spare(s, q)
    {
      assert s.pipes[q].used;
    }
    assert MadeAs(s, r, rfd, wfd, pi);
  }

  lemma OneFree(s: State, rfd: nat)
    requires Shaped(s) && forall fd: nat | fd < 16 && fd != rfd :: !FreeAt(s, fd)
    ensures !TwoFree(s)
  {
  }

  /** The lowest spare pipe has two ends and no bytes, and both descriptors are its ends; the others stay. */
  ghost predicate Made(s: State, r: State, rfd: nat, wfd: nat)
    requires Shaped(s)
  {
    exists p: nat :: MadeAs(s, r, rfd, wfd, p)
  }

  predicate MadeAs(s: State, r: State, rfd: nat, wfd: nat, p: nat)
    requires Shaped(s)
  {
    && Spare(s, p) && (forall q: nat | q < p :: !Spare(s, q))
    && |r.files| == 16 && rfd < 16 && wfd < 16 && IsEndOf(r.files[rfd], p) && IsEndOf(r.files[wfd], p)
    && (forall fd: nat | fd < 16 && fd != rfd && fd != wfd :: r.files[fd] == s.files[fd])
    && r.pipes == s.pipes[p := s.pipes[p].(used := true, head := 0, len := 0, ends := 2)]
  }

  /** A pipe descriptor takes the lowest free slot and leaves the others and the pipes alone. */
  lemma AllocFrame(s: State, p: nat)
    requires Shaped(s)
    ensures var (r, fd) := AllocPipeFd(s, p);
            && Shaped(r) && r.pipes == s.pipes
            && (fd.Some? <==> exists d: nat :: FreeAt(s, d))
            && (fd.Some? ==> FreeAt(s, fd.value) && (forall d: nat | d < fd.value :: !FreeAt(s, d))
                             && IsEndOf(r.files[fd.value], p) && r.files == s.files[fd.value := r.files[fd.value]])
            && (fd.None? ==> r == s)
  {
    var fd := FreeSlot(s.files, 3);
    if fd < 16 {
      assert FreeAt(s, fd);
    }
  }

  predicate OneEndLess(ps: seq<Pipe>, qs: seq<Pipe>, p: nat)
    requires p < |ps|
  {
    qs == ps[p := if ps[p].ends <= 1 && ps[p].used then Pipe(false, ps[p].data, 0, 0, 0)
                  else ps[p].(ends := if ps[p].ends == 0 then 0 else ps[p].ends - 1)]
  }

  predicate ObjectGone(os: seq<KObj>, qs: seq<KObj>, slot: nat)
    requires slot < |os|
  {
    qs == if os[slot].kind == 0 then os else os[slot := KObj(0, os[slot].epoch, 0)]
  }

  /** Closing a pipe descriptor frees it and its object; the pipe loses an end, and with the last one its bytes. Closing any
      other descriptor from 3 on only frees it. */
  lemma CloseIff(s: State, fd: nat)
    requires Shaped(s)
    ensures Close(s, fd).epochs == s.epochs && (!(3 <= fd < 16) ==> Close(s, fd) == s)
    ensures 3 <= fd < 16 ==> Close(s, fd).files == s.files[fd := Vacant]
    ensures 3 <= fd < 16 && s.files[fd].PipeFd? && s.files[fd].pipe < 8 ==>
              && OneEndLess(s.pipes, Close(s, fd).pipes, s.files[fd].pipe)
              && (1 <= s.files[fd].kslot <= 64 ==> ObjectGone(s.objs, Close(s, fd).objs, s.files[fd].kslot - 1))
              && (s.files[fd].kslot == 0 ==> Close(s, fd).objs == s.objs)
    ensures 3 <= fd < 16 && !s.files[fd].PipeFd? ==> Close(s, fd).pipes == s.pipes && Close(s, fd).objs == s.objs
  {
  }

  /** The object that goes with a pipe end: the lowest free slot, if there is one, of kind 2, naming the descriptor, with
      the slot's generation raised by one in 16 bits. */
  lemma EndObject(s: State, p: nat)
    requires Shaped(s) && AllocPipeFd(s, p).1.Some?
    ensures var (r, fd) := AllocPipeFd(s, p);
            var k := r.files[fd.value].kslot;
            && (k == 0 <==> forall i | 0 <= i < 64 :: s.objs[i].kind != 0)
            && (k == 0 ==> r.objs == s.objs && r.epochs == s.epochs)
            && (k > 0 ==> k <= 64 && s.objs[k - 1].kind == 0 && (forall i | 0 <= i < k - 1 :: s.objs[i].kind != 0)
                          && r.epochs == s.epochs[k - 1 := (s.epochs[k - 1] as int + 1) % 65536]
                          && r.objs == s.objs[k - 1 := KObj(2, r.epochs[k - 1], fd.value)])
  {
  }

  /** Objects made and freed directly: the lowest free one of 64 slots, with its generation raised; freeing answers true
      exactly for an object that is there, which then is gone. */
  lemma ObjectCalls(s: State, kind: nat, payload: u64, slot: nat)
    requires Shaped(s)
    ensures var (r, i) := AllocObj(s, kind, payload);
            && (i.None? <==> forall j | 0 <= j < 64 :: s.objs[j].kind != 0)
            && (i.None? ==> r == s)
            && (i.Some? ==> i.value < 64 && s.objs[i.value].kind == 0 && (forall j | 0 <= j < i.value :: s.objs[j].kind != 0)
                            && r == s.(epochs := s.epochs[i.value := (s.epochs[i.value] as int + 1) % 65536],
                                       objs := s.objs[i.value := KObj(kind, (s.epochs[i.value] as int + 1) % 65536, payload)]))
    ensures var (r, ok) := FreeObjAt(s, slot);
            && (ok <==> slot < 64 && s.objs[slot].kind != 0)
            && (if ok then ObjectGone(s.objs, r.objs, slot) && r == s.(objs := r.objs) else r == s)
  {
  }
}
