/**
 The pipe, descriptor and object tables as the kernel keeps them: arrays updated in place, the bytes of
 a pipe moved one by one round its ring. Every method is proved against the tables on values, on which
 ownership and byte order are then proved.
 */
module Pipes {
  import opened Bytes
  import opened PipeSpec

  /** A pipe without its bytes. */
  datatype Ring = Ring(used: bool, head: nat, len: nat, ends: nat)

  class Tables {
    const rings: array<Ring>
    const data: array2<byte>
    const files: array<File>
    const objs: array<KObj>
    const epochs: array<u16>

    ghost predicate Sized() {
      && rings.Length == PIPE_MAX && data.Length0 == PIPE_MAX && data.Length1 == PIPE_SIZE
      && files.Length == MAX_OPEN && objs.Length == KOBJ_MAX && epochs.Length == KOBJ_MAX
    }

    ghost function Row(p: nat): (r: seq<byte>)
      requires Sized() && p < PIPE_MAX
      reads data
      ensures |r| == 512
    {
      seq(512, j requires 0 <= j < 512 && Sized() reads data => data[p, j])
    }

    ghost function PipeAt(p: nat): Pipe
      requires Sized() && p < PIPE_MAX
      reads data, rings
    {
      Pipe(rings[p].used, Row(p), rings[p].head, rings[p].len, rings[p].ends)
    }

    ghost function PipeList(): seq<Pipe>
      requires Sized()
      reads data, rings
    {
      seq(8, p requires 0 <= p < 8 && Sized() reads data, rings => PipeAt(p))
    }

    ghost function View(): State
      requires Sized()
      reads data, rings, files, objs, epochs
    {
      State(PipeList(), files[..], objs[..], epochs[..])
    }

    constructor ()
      ensures Sized() && fresh(rings) && fresh(data) && fresh(files) && fresh(objs) && fresh(epochs)
      ensures forall fd | 0 <= fd < MAX_OPEN :: files[fd] == Vacant
      ensures forall p | 0 <= p < PIPE_MAX :: rings[p] == Ring(false, 0, 0, 0)
      ensures forall i | 0 <= i < KOBJ_MAX :: objs[i].kind == 0
    {
      rings := new Ring[PIPE_MAX](_ => Ring(false, 0, 0, 0));
      data := new byte[PIPE_MAX, PIPE_SIZE]((_, _) => 0);
      files := new File[MAX_OPEN](_ => Vacant);
      objs := new KObj[KOBJ_MAX](_ => KObj(0, 0, 0));
      epochs := new u16[KOBJ_MAX](_ => 0);
    }

    // ---------------------------------------------------------------- kobj.rs

    /** `kobj::alloc` */
    method AllocObject(kind: nat, payload: u64) returns (slot: Option<nat>)
      requires Sized()
      modifies objs, epochs
      ensures (View(), slot) == AllocObj(old(View()), kind, payload)
    {
      ghost var all := objs[..];
      for i := 0 to KOBJ_MAX
        invariant objs[..] == all && epochs[..] == old(epochs[..]) && FreeObj(all, 0) == FreeObj(all, i)
      {
        if objs[i].kind == 0 {
          var next: u16 := (epochs[i] as int + 1) % 0x1_0000;
          epochs[i] := next;
          objs[i] := KObj(kind, next, payload);
          return Some(i);
        }
      }
      return None;
    }

    /** `kobj::free` */
    method FreeObject(slot: nat) returns (ok: bool)
      requires Sized()
      modifies objs
      ensures (View(), ok) == FreeObjAt(old(View()), slot)
    {
      if slot >= KOBJ_MAX || objs[slot].kind == 0 {
        return false;
      }
      objs[slot] := objs[slot].(kind := 0, payload := 0);
      return true;
    }

    // ---------------------------------------------------------------- vfs.rs

    /** `alloc_fd_slot` */
    method AllocFdSlot() returns (r: Option<nat>)
      requires Sized()
      ensures var fd := FreeSlot(files[..], 3); r == if fd < MAX_OPEN then Some(fd) else None
    {
      for fd := 3 to MAX_OPEN
        invariant FreeSlot(files[..], 3) == FreeSlot(files[..], fd)
      {
        if files[fd] == Vacant {
          return Some(fd);
        }
      }
      return None;
    }

    /** `alloc_pipe_fd` */
    method AllocEnd(p: nat) returns (r: Option<nat>)
      requires Sized()
      modifies files, objs, epochs
      ensures (View(), r) == AllocPipeFd(old(View()), p)
    {
      var slot := AllocFdSlot();
      if slot.None? {
        return None;
      }
      var fd := slot.value;
      var obj := AllocObject(K_PIPE, fd);
      files[fd] := PipeFd(p, if obj.Some? then obj.value + 1 else 0);
      return Some(fd);
    }

    /** `free_fd` */
    method ReleaseFd(fd: nat)
      requires Sized()
      modifies files, objs
      ensures View() == FreeFd(old(View()), fd)
    {
      if 3 <= fd < MAX_OPEN {
        if files[fd].PipeFd? && files[fd].kslot != 0 {
          var ok := FreeObject(files[fd].kslot - 1);
        }
        files[fd] := Vacant;
      }
    }

    /** `fujo_close`: a pipe end gives up its count, its descriptor and, as the last one, the pipe. */
    method CloseFd(fd: nat)
      requires Sized()
      requires 3 <= fd < MAX_OPEN && files[fd].PipeFd? ==> files[fd].pipe < PIPE_MAX
      modifies files, objs, rings
      ensures View() == Close(old(View()), fd)
    {
      if 3 <= fd < MAX_OPEN {
        if files[fd].PipeFd? {
          var p := files[fd].pipe;
          var emptied := EndClose(p);
          ReleaseFd(fd);
          if emptied {
            Recycle(p);
          }
          return;
        }
        files[fd] := Vacant;
      }
    }

    // ---------------------------------------------------------------- ipc.rs

    /** `pipe_end_close`: true when no end is left. */
    method EndClose(p: nat) returns (emptied: bool)
      requires Sized() && p < PIPE_MAX
      modifies rings
      ensures var e := if old(rings[p].ends) > 0 then old(rings[p].ends) - 1 else 0;
              rings[..] == old(rings[..])[p := old(rings[p]).(ends := e)] && (emptied <==> e == 0)
    {
      if rings[p].ends > 0 {
        rings[p] := rings[p].(ends := rings[p].ends - 1);
      }
      return rings[p].ends == 0;
    }

    /** `pipe_recycle` */
    method Recycle(p: nat)
      requires Sized() && p < PIPE_MAX
      modifies rings
      ensures rings[..] == old(rings[..])[p := if old(rings[p].used) then Ring(false, 0, 0, 0) else old(rings[p])]
    {
      if rings[p].used {
        rings[p] := Ring(false, 0, 0, 0);
      }
    }

    /** `fujo_pipe`: the two descriptors, or the error. */
    method NewPipe(inWindow: bool) returns (r: Created)
      requires Sized()
      modifies rings, files, objs, epochs
      ensures (View(), r) == Create(old(View()), inWindow)
    {
      if !inWindow {
        return Failed(-14);
      }
      var pi: nat := 0;
      ghost var all := PipeList();
      while pi < PIPE_MAX && rings[pi].used
        modifies {}
        invariant pi <= PIPE_MAX && FreePipe(all, 0) == FreePipe(all, pi)
      {
        pi := pi + 1;
      }
      if pi == PIPE_MAX {
        return Failed(-12);
      }
      var rfd := AllocEnd(pi);
      if rfd.None? {
        return Failed(-24);
      }
      var wfd := AllocEnd(pi);
      if wfd.None? {
        ReleaseFd(rfd.value);
        return Failed(-24);
      }
      Occupy(pi);
      return Ends(rfd.value, wfd.value);
    }

    method Occupy(pi: nat)
      requires Sized() && pi < PIPE_MAX
      modifies rings
      ensures var s := old(View());
              View() == s.(pipes := s.pipes[pi := s.pipes[pi].(used := true, head := 0, len := 0, ends := 2)])
    {
      rings[pi] := Ring(true, 0, 0, 2);
    }

    /** `pipe_write`: as much as fits. */
    method Put(pi: nat, inWindow: bool, bs: seq<byte>) returns (rc: int)
      requires Sized() && pi < PIPE_MAX && PipeOk(PipeAt(pi))
      modifies rings, data
      ensures !inWindow ==> rc == -14 && View() == old(View())
      ensures inWindow ==> var (q, n) := Write(old(PipeAt(pi)), bs);
                           rc == n && View() == old(View()).(pipes := old(View()).pipes[pi := q])
    {
      if !inWindow {
        return -14;
      }
      var free := PIPE_SIZE - rings[pi].len;
      var n := Min(|bs|, free);
      var start := (rings[pi].head + rings[pi].len) % 512;
      FillRow(pi, start, bs, n);
      rings[pi] := rings[pi].(len := rings[pi].len + n);
      return n;
    }

    method FillRow(pi: nat, start: nat, bs: seq<byte>, n: nat)
      requires Sized() && pi < PIPE_MAX && start < 512 && n <= |bs| && n <= 512
      modifies data
      ensures Row(pi) == Filled(old(Row(pi)), start, bs, n)
      ensures forall p | 0 <= p < PIPE_MAX && p != pi :: Row(p) == old(Row(p))
    {
      ghost var row := Row(pi);
      var k := 0;
      while k < n
        invariant k <= n && forall j | 0 <= j < 512 :: data[pi, j] == Filled(row, start, bs, k)[j]
        invariant forall p, j | 0 <= p < PIPE_MAX && p != pi && 0 <= j < 512 :: data[p, j] == old(data[p, j])
      {
        var idx := (start + k) % 512;
        data[pi, idx] := bs[k];
        FilledStep(row, start, bs, k);
        k := k + 1;
      }
    }

    /** `pipe_read`: as much as there is. */
    method Get(pi: nat, inWindow: bool, len: nat) returns (rc: int, out: seq<byte>)
      requires Sized() && pi < PIPE_MAX && PipeOk(PipeAt(pi))
      modifies rings
      ensures !inWindow ==> rc == -14 && out == [] && View() == old(View())
      ensures inWindow ==> var (q, taken) := Read(old(PipeAt(pi)), len);
                           rc == |taken| && out == taken && View() == old(View()).(pipes := old(View()).pipes[pi := q])
    {
      if !inWindow {
        return -14, [];
      }
      var n := Min(Min(len, rings[pi].len), PIPE_SIZE);
      out := [];
      var k := 0;
      while k < n
        modifies {}
        invariant k <= n && out == Contents(PipeAt(pi))[..k]
      {
        var idx := (rings[pi].head + k) % 512;
        assert Contents(PipeAt(pi))[k] == data[pi, idx];
        out := out + [data[pi, idx]];
        k := k + 1;
      }
      rings[pi] := rings[pi].(head := (rings[pi].head + n) % 512, len := rings[pi].len - n);
      return n, out;
    }
  }

  lemma FilledStep(row: seq<byte>, start: nat, bs: seq<byte>, k: nat)
    requires |row| == 512 && start < 512 && k < |bs| && k < 512
    ensures Filled(row, start, bs, k + 1) == Filled(row, start, bs, k)[(start + k) % 512 := bs[k]]
  {
    OffsetAt(start, k);
    var after := Filled(row, start, bs, k + 1);
    var stored := Filled(row, start, bs, k)[(start + k) % 512 := bs[k]];
    forall j | 0 <= j < 512
      ensures after[j] == stored[j]
    {
      assert (start + Offset(start, j)) % 512 == j;
    }
  }
}
