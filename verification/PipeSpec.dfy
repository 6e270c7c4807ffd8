/** Pipes, file descriptors and kernel objects on values: one step function for each call. */
module PipeSpec {
  import opened Bytes

  const PIPE_MAX := 8
  const PIPE_SIZE := 512
  const MAX_OPEN := 16
  const KOBJ_MAX := 64
  const K_PIPE := 2

  datatype Pipe = Pipe(used: bool, data: seq<byte>, head: nat, len: nat, ends: nat)

  /** A descriptor slot: free, an end of a pipe (kslot is the object's slot + 1, or 0), or some other file. */
  datatype File = Vacant | PipeFd(pipe: nat, kslot: nat) | OtherFile

  datatype KObj = KObj(kind: nat, epoch: u16, payload: u64)

  datatype State = State(pipes: seq<Pipe>, files: seq<File>, objs: seq<KObj>, epochs: seq<u16>)

  predicate Shaped(s: State) {
    |s.pipes| == PIPE_MAX && |s.files| == MAX_OPEN && |s.objs| == KOBJ_MAX && |s.epochs| == KOBJ_MAX
  }

  // ------------------------------------------------------------------ one pipe

  predicate PipeOk(p: Pipe) {
    |p.data| == PIPE_SIZE && p.head < 512 && p.len <= 512
  }

  /** The bytes waiting in the pipe, oldest first. */
  function Contents(p: Pipe): (c: seq<byte>)
    requires PipeOk(p)
    ensures |c| == p.len
  {
    seq(p.len, k requires 0 <= k < p.len => p.data[(p.head + k) % 512])
  }

  /** The ring after the first n bytes of bs were stored from position start on. */
  function Filled(data: seq<byte>, start: nat, bs: seq<byte>, n: nat): (r: seq<byte>)
    requires |data| == 512 && start < 512 && n <= |bs| && n <= 512
    ensures |r| == 512
  {
    seq(512, j requires 0 <= j < 512 => if Offset(start, j) < n then bs[Offset(start, j)] else data[j])
  }

  /** How far position j lies behind start, round the ring. */
  function Offset(start: nat, j: nat): (d: nat)
    requires start < 512 && j < 512
    ensures d < 512 && (start + d) % 512 == j
  {
    if j >= start then j - start else j + 512 - start
  }

  function Write(p: Pipe, bs: seq<byte>): (r: (Pipe, nat))
    requires PipeOk(p)
    ensures PipeOk(r.0) && r.1 == Min(|bs|, 512 - p.len)
  {
    var n := Min(|bs|, PIPE_SIZE - p.len);
    (p.(data := Filled(p.data, (p.head + p.len) % 512, bs, n), len := p.len + n), n)
  }

  function Read(p: Pipe, len: nat): (r: (Pipe, seq<byte>))
    requires PipeOk(p)
    ensures PipeOk(r.0)
  {
    var n := Min(Min(len, p.len), PIPE_SIZE);
    (p.(head := (p.head + n) % 512, len := p.len - n), Contents(p)[..n])
  }

  lemma OffsetAt(start: nat, k: nat)
    requires start < 512 && k < 512
    ensures Offset(start, (start + k) % 512) == k
  {
  }

  lemma OffsetOld(head: nat, len: nat, k: nat)
    requires head < 512 && k < len <= 512
    ensures Offset((head + len) % 512, (head + k) % 512) == 512 - len + k
  {
  }

  /** The ring refines a queue: a write appends as much as fits, a read takes from the front. */
  lemma WriteAppends(p: Pipe, bs: seq<byte>)
    requires PipeOk(p)
    ensures Contents(Write(p, bs).0) == Contents(p) + bs[..Write(p, bs).1]
  {
    var (q, n) := Write(p, bs);
    forall k | 0 <= k < q.len
      ensures Contents(q)[k] == (Contents(p) + bs[..n])[k]
    {
      var start := (p.head + p.len) % 512;
      if k < p.len {
        OffsetOld(p.head, p.len, k);
      } else {
        var d := k - p.len;
        OffsetAt(start, d);
        assert (start + d) % 512 == (p.head + k) % 512;
      }
    }
  }

  lemma ReadTakes(p: Pipe, len: nat)
    requires PipeOk(p)
    ensures Contents(p) == Read(p, len).1 + Contents(Read(p, len).0)
    ensures |Read(p, len).1| == Min(len, p.len)
  {
    var (q, out) := Read(p, len);
    var n := |out|;
    forall k | 0 <= k < q.len
      ensures Contents(q)[k] == Contents(p)[n + k]
    {
      assert (q.head + k) % 512 == (p.head + (n + k)) % 512;
    }
  }

  // ------------------------------------------------------------------ the object table

  function FreeObj(objs: seq<KObj>, i: nat): (r: nat)
    requires i <= |objs|
    ensures i <= r <= |objs| && (r < |objs| ==> objs[r].kind == 0)
    ensures forall j | i <= j < r :: objs[j].kind != 0
    decreases |objs| - i
  {
    if i < |objs| && objs[i].kind != 0 then FreeObj(objs, i + 1) else i
  }

  function AllocObj(s: State, kind: nat, payload: u64): (State, Option<nat>)
    requires Shaped(s)
  {
    var i := FreeObj(s.objs, 0);
    if i == KOBJ_MAX then (s, None)
    else
      var e: u16 := (s.epochs[i] as int + 1) % 0x1_0000;
      (s.(epochs := s.epochs[i := e], objs := s.objs[i := KObj(kind, e, payload)]), Some(i))
  }

  function FreeObjAt(s: State, slot: nat): (State, bool)
    requires Shaped(s)
  {
    if slot >= KOBJ_MAX || s.objs[slot].kind == 0 then (s, false)
    else (s.(objs := s.objs[slot := s.objs[slot].(kind := 0, payload := 0)]), true)
  }

  // ------------------------------------------------------------------ descriptors

  function FreeSlot(files: seq<File>, fd: nat): (r: nat)
    requires fd <= |files|
    ensures fd <= r <= |files| && (r < |files| ==> files[r] == Vacant)
    ensures forall j | fd <= j < r :: files[j] != Vacant
    decreases |files| - fd
  {
    if fd < |files| && files[fd] != Vacant then FreeSlot(files, fd + 1) else fd
  }

  function AllocPipeFd(s: State, p: nat): (State, Option<nat>)
    requires Shaped(s)
  {
    var fd := FreeSlot(s.files, 3);
    if fd == MAX_OPEN then (s, None)
    else
      var (r, slot) := AllocObj(s, K_PIPE, fd);
      (r.(files := r.files[fd := PipeFd(p, if slot.Some? then slot.value + 1 else 0)]), Some(fd))
  }

  function FreeFd(s: State, fd: nat): State
    requires Shaped(s)
  {
    if 3 <= fd < MAX_OPEN then
      var r := if s.files[fd].PipeFd? && s.files[fd].kslot != 0 then FreeObjAt(s, s.files[fd].kslot - 1).0 else s;
      r.(files := r.files[fd := Vacant])
    else s
  }

  // ------------------------------------------------------------------ the calls

  function FreePipe(pipes: seq<Pipe>, i: nat): (r: nat)
    requires i <= |pipes|
    ensures i <= r <= |pipes| && (r < |pipes| ==> !pipes[r].used)
    ensures forall j | i <= j < r :: pipes[j].used
    decreases |pipes| - i
  {
    if i < |pipes| && pipes[i].used then FreePipe(pipes, i + 1) else i
  }

  datatype Created = Ends(rfd: nat, wfd: nat) | Failed(rc: int)

  function Create(s: State, inWindow: bool): (State, Created)
    requires Shaped(s)
  {
    if !inWindow then (s, Failed(-14))
    else
      var pi := FreePipe(s.pipes, 0);
      if pi == PIPE_MAX then (s, Failed(-12))
      else
        var (a, rfd) := AllocPipeFd(s, pi);
        if rfd.None? then (a, Failed(-24))
        else
          var (b, wfd) := AllocPipeFd(a, pi);
          if wfd.None? then (FreeFd(b, rfd.value), Failed(-24))
          else (b.(pipes := b.pipes[pi := b.pipes[pi].(used := true, head := 0, len := 0, ends := 2)]), Ends(rfd.value, wfd.value))
  }

  /** Closing one end of pipe p: its count falls, and the slot is cleared when it reaches zero. */
  function EndClosed(p: Pipe): Pipe {
    var e := if p.ends > 0 then p.ends - 1 else 0;
    if e == 0 && p.used then p.(used := false, head := 0, len := 0, ends := 0) else p.(ends := e)
  }

  function Close(s: State, fd: nat): State
    requires Shaped(s)
  {
    if !(3 <= fd < MAX_OPEN) then s
    else if s.files[fd].PipeFd? && s.files[fd].pipe < PIPE_MAX then
      var p := s.files[fd].pipe;
      var r := FreeFd(s, fd);
      r.(pipes := r.pipes[p := EndClosed(r.pipes[p])])
    else s.(files := s.files[fd := Vacant])
  }

  function OpenOther(s: State): State
    requires Shaped(s)
  {
    var fd := FreeSlot(s.files, 3);
    if fd == MAX_OPEN then s else s.(files := s.files[fd := OtherFile])
  }

  predicate IsPipeFd(s: State, fd: nat) {
    3 <= fd < |s.files| && s.files[fd].PipeFd? && s.files[fd].pipe < |s.pipes| && PipeOk(s.pipes[s.files[fd].pipe])
  }

  function WriteFd(s: State, fd: nat, bs: seq<byte>): (State, nat)
    requires Shaped(s) && IsPipeFd(s, fd)
  {
    var p := s.files[fd].pipe;
    var (q, n) := Write(s.pipes[p], bs);
    (s.(pipes := s.pipes[p := q]), n)
  }

  function ReadFd(s: State, fd: nat, len: nat): (State, seq<byte>)
    requires Shaped(s) && IsPipeFd(s, fd)
  {
    var p := s.files[fd].pipe;
    var (q, out) := Read(s.pipes[p], len);
    (s.(pipes := s.pipes[p := q]), out)
  }
}
