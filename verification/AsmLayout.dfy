/**
 Layout of a program of statements: the offset at which each statement's bytes begin, the labels noted
 on the way, the label table that the first pass leaves behind, and the bytes that the second pass puts
 out.
 */
module AsmLayout {
  import opened Bytes
  import opened AsmCode
  import opened AsmSource

  function Size(i: Item): nat {
    match i
    case Nothing => 0
    case Data(n, _) => n
    case Code(p) => Length(p)
  }

  /** Where statement k begins: the sum of the sizes before it. */
  function Offset(ss: seq<Stmt>, k: nat): nat
    requires k <= |ss|
  {
    if k == 0 then 0 else Offset(ss, k - 1) + Size(ss[k - 1].item)
  }

  /** The offset recorded for a label by statement k: before what it holds when it is bare, behind it otherwise. */
  function Recorded(ss: seq<Stmt>, k: nat): nat
    requires k < |ss|
  {
    if ss[k].bare then Offset(ss, k) else Offset(ss, k + 1)
  }

  /** The offset of label v after the first n statements: the last definition counts. */
  function LabelOffset(ss: seq<Stmt>, n: nat, v: nat): Option<nat>
    requires n <= |ss|
  {
    if n == 0 then None
    else if ss[n - 1].defines == v then Some(Recorded(ss, n - 1))
    else LabelOffset(ss, n - 1, v)
  }

  predicate Sizable(i: Item) {
    i.Code? ==> i.p.Fixed? || i.p.ToLabel?
  }

  /** The first statement that pass one cannot size. */
  function FirstBad(ss: seq<Stmt>, k: nat): Option<Parsed>
    requires k <= |ss|
    decreases |ss| - k
  {
    if k == |ss| then None else if !Sizable(ss[k].item) then Some(ss[k].item.p) else FirstBad(ss, k + 1)
  }

  /** The label table as the jumps see it. */
  datatype Labels = Labels(at: seq<nat>, n: nat)

  /** One more than the highest of the first v labels that the program defines. */
  function Highest(ss: seq<Stmt>, v: nat): nat {
    if v == 0 then 0 else if LabelOffset(ss, |ss|, v - 1).Some? then v else Highest(ss, v - 1)
  }

  /** After pass one: defined labels at their offsets, the others where the table had them before. */
  function Table(ss: seq<Stmt>, stale: seq<nat>): (t: Labels)
    requires |stale| == MAX_LABELS
    ensures |t.at| == MAX_LABELS
  {
    Labels(seq(16, v requires 0 <= v < 16 && |stale| == 16 => LabelOffset(ss, |ss|, v).GetOr(stale[v])), Highest(ss, MAX_LABELS))
  }

  /** The distance from the end of a jump to its label, in 32 bits; 0 for a label the table does not reach. */
  function RelOf(j: Branch, number: int, pc: nat, t: Labels): u32
    requires |t.at| == MAX_LABELS
  {
    if 0 <= number < MAX_LABELS && number < t.n then (t.at[number] - (pc + BranchSize(j))) % CAST else 0
  }

  function Resolve(p: Parsed, pc: nat, t: Labels): Insn
    requires |t.at| == MAX_LABELS && (p.Fixed? || p.ToLabel?)
  {
    match p
    case Fixed(i) => i
    case ToLabel(j, number) => Jump(j, RelOf(j, number, pc, t))
  }

  function ItemBytes(i: Item, pc: nat, t: Labels): (b: seq<byte>)
    requires |t.at| == MAX_LABELS
    ensures |b| == Size(i)
  {
    match i
    case Nothing => []
    case Data(n, v) => LE(v, n)
    case Code(p) => if p.Fixed? || p.ToLabel? then Encode(Resolve(p, pc, t)) else []
  }

  datatype Chunk = Chunk(bytes: seq<byte>)

  function Flatten(cs: seq<Chunk>): seq<byte> {
    if cs == [] then [] else Flatten(cs[..|cs| - 1]) + cs[|cs| - 1].bytes
  }

  function Chunks(ss: seq<Stmt>, t: Labels): seq<Chunk>
    requires |t.at| == MAX_LABELS
  {
    seq(|ss|, k requires 0 <= k < |ss| => Chunk(ItemBytes(ss[k].item, Offset(ss, k), t)))
  }

  /** What pass two puts out. */
  function Output(ss: seq<Stmt>, t: Labels): seq<byte>
    requires |t.at| == MAX_LABELS
  {
    Flatten(Chunks(ss, t))
  }

  datatype Outcome = Done(code: seq<byte>) | Fails(rc: int) | Panicked

  function Assemble(ss: seq<Stmt>, stale: seq<nat>, cap: nat): Outcome
    requires |stale| == MAX_LABELS
  {
    var bad := FirstBad(ss, 0);
    if bad.Some? then if bad.value.Panics? then Panicked else Fails(-22)
    else if cap < 64 then Fails(-14)
    else Done(Output(ss, Table(ss, stale)))
  }
}
