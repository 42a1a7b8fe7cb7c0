/** The driver as a machine of micro-steps: any number of threads call it, each takes the device mutex,
    touches the shared fields and buffers one at a time, and releases the mutex. Memory is explicit:
    an entry is a pointer into a heap of buffers, and committing moves the pointer only. */
module MicroSteps {
  import opened Bytes
  import opened CommandLog
  import opened RingLayout
  import opened DeviceSpec

  /** Pointer 0 is NULL; pointer `p` is buffer `p - 1` of the heap. */
  datatype HeapEntry = HeapEntry(ptr: nat, size: nat)

  /** Everything the device mutex protects, and the file positions. */
  datatype Mem = Mem(heap: seq<Bytes>, slots: seq<HeapEntry>, inOffs: nat, outOffs: nat, full: bool,
                     pend: HeapEntry, pos: seq<nat>)

  /** Where the thread that holds the mutex stands, with its local variables. */
  datatype Pc =
    | Begin
    // aesd_write
    | Allocate | Copy(j: nat) | Grow | Test
    | Store | StepIn | StepOut | SetFull | ClearPtr | ClearSize
    // aesd_read
    | Find(i: nat, count: nat, boffset: nat) | CopyOut(i: nat, offset: nat, n: nat, out: Bytes) | MovePos(out: Bytes)
    // aesd_llseek
    | Sum(i: nat, count: nat, total: nat) | Place(total: nat)
    // aesd_ioctl
    | Count(i: nat, count: nat) | Check(count: nat) | SumBefore(i: nat, count: nat, newPos: nat) | SetPos(p: nat)
    | Finished(reply: Reply)

  function Zeros(n: nat): (b: Bytes)
    ensures |b| == n
  {
    seq(n, _ => 0)
  }

  predicate InHeap(heap: seq<Bytes>, e: HeapEntry) {
    if e.ptr == 0 then e.size == 0 else e.ptr <= |heap| && e.size <= |heap[e.ptr - 1]|
  }

  function HeapBytes(heap: seq<Bytes>, e: HeapEntry): (b: Bytes)
    requires InHeap(heap, e)
    ensures |b| == e.size
  {
    if e.ptr == 0 then [] else heap[e.ptr - 1][..e.size]
  }

  /** The program point belongs to the call, and the next step stays inside the slot array, the file
      table and the allocated buffers, with no unsigned subtraction wrapping around. */
  predicate Safe(N: Capacity, op: Op, m: Mem, pc: Pc) {
    && |m.slots| == N && m.inOffs < N && m.outOffs < N
    && Legal(op, |m.pos|)
    && match op
       case Read(_, _, _) => ReadSafe(N, op, m, pc)
       case Write(_, _, _, _) => WriteSafe(op, m, pc)
       case Llseek(_, _, _) => LlseekSafe(N, pc)
       case SeekTo(_, _, _) => SeekToSafe(N, op, pc)
  }

  predicate ReadSafe(N: Capacity, op: Op, m: Mem, pc: Pc)
    requires op.Read? && |m.slots| == N && op.h < |m.pos|
  {
    match pc
    case Find(i, _, boffset) => i < N && boffset <= m.pos[op.h]
    case CopyOut(i, offset, n, _) =>
      i < N && 0 < m.slots[i].ptr <= |m.heap| && offset + n <= |m.heap[m.slots[i].ptr - 1]|
    case _ => pc.Begin? || pc.MovePos? || pc.Finished?
  }

  predicate WriteSafe(op: Op, m: Mem, pc: Pc)
    requires op.Write?
  {
    match pc
    case Allocate => m.pend.ptr == 0 || InHeap(m.heap, m.pend)
    case Copy(_) => 0 < m.pend.ptr <= |m.heap| && m.pend.size + |op.data| <= |m.heap[m.pend.ptr - 1]|
    case Test => 0 < m.pend.ptr <= |m.heap| && m.pend.size <= |m.heap[m.pend.ptr - 1]|
    case _ =>
      || pc.Begin? || pc.Grow? || pc.Store? || pc.StepIn? || pc.StepOut? || pc.SetFull?
      || pc.ClearPtr? || pc.ClearSize? || pc.Finished?
  }

  predicate LlseekSafe(N: Capacity, pc: Pc) {
    match pc
    case Sum(i, _, _) => i < N
    case _ => pc.Begin? || pc.Place? || pc.Finished?
  }

  predicate SeekToSafe(N: Capacity, op: Op, pc: Pc)
    requires op.SeekTo?
  {
    match pc
    case Count(i, _) => i < N
    case Check(count) => count <= N
    case SumBefore(i, _, _) => i < N && op.cmd < N
    case _ => pc.Begin? || pc.SetPos? || pc.Finished?
  }

  /** One micro-step of the mutex holder. `slack` is what an allocation hands out beyond the request. */
  function MicroStep(N: Capacity, op: Op, m: Mem, pc: Pc, slack: nat): (Mem, Pc)
    requires Safe(N, op, m, pc)
  {
    match op
    case Read(_, _, _) => ReadStep(N, op, m, pc)
    case Write(_, _, _, _) => WriteStep(N, op, m, pc, slack)
    case Llseek(_, _, _) => LlseekStep(N, op, m, pc)
    case SeekTo(_, _, _) => SeekToStep(N, op, m, pc)
  }

  /** The bytes that cannot be copied from user memory are replaced by zeros. */
  function WriteStep(N: Capacity, op: Op, m: Mem, pc: Pc, slack: nat): (Mem, Pc)
    requires op.Write? && Safe(N, op, m, pc)
  {
    match pc
    case Begin => (m, Allocate)
    case Allocate => AllocateStep(op, m, slack)
    case Copy(j) =>
      if j < |op.data| then
        var p, b := m.pend.ptr - 1, if j < op.taken then op.data[j] else 0;
        (m.(heap := m.heap[p := m.heap[p][m.pend.size + j := b]]), Copy(j + 1))
      else (m, Grow)
    case Grow => (m.(pend := m.pend.(size := m.pend.size + op.taken)), Test)
    case Test =>
      (m, if HasNewline(m.heap[m.pend.ptr - 1][..m.pend.size]) then Store else Finished(Wrote(op.taken)))
    case Store => (m.(slots := m.slots[m.inOffs := m.pend]), StepIn)
    case StepIn => (m.(inOffs := Wrap(N, m.inOffs + 1)), StepOut)
    case StepOut => (if m.full then m.(outOffs := Wrap(N, m.outOffs + 1)) else m, SetFull)
    case SetFull => (m.(full := m.inOffs == m.outOffs), ClearPtr)
    case ClearPtr => (m.(pend := m.pend.(ptr := 0)), ClearSize)
    case ClearSize => (m.(pend := m.pend.(size := 0)), Finished(Wrote(op.taken)))
    case _ => (m, pc)
  }

  /** kzalloc for the first bytes of a command, krealloc for more: in place if the buffer is large enough,
      otherwise to a new one, which holds anything if there was no buffer to grow. */
  function AllocateStep(op: Op, m: Mem, slack: nat): (Mem, Pc)
    requires op.Write? && (m.pend.ptr == 0 || InHeap(m.heap, m.pend))
  {
    var size, spare, newPtr := m.pend.size, |op.data| + slack, |m.heap| + 1;
    if !op.memory then (m.(pend := m.pend.(ptr := 0)), Finished(Failed(ENOMEM)))
    else if size == 0 then
      (m.(heap := m.heap + [Zeros(spare)], pend := m.pend.(ptr := newPtr)), Copy(0))
    else if m.pend.ptr == 0 then
      (m.(heap := m.heap + [Junk(op.junk, size) + Zeros(spare)], pend := m.pend.(ptr := newPtr)), Copy(0))
    else
      var b := m.heap[m.pend.ptr - 1];
      if size + |op.data| <= |b| then (m, Copy(0))
      else (m.(heap := m.heap + [b[..size] + Zeros(spare)], pend := m.pend.(ptr := newPtr)), Copy(0))
  }

  function ReadStep(N: Capacity, op: Op, m: Mem, pc: Pc): (Mem, Pc)
    requires op.Read? && Safe(N, op, m, pc)
  {
    match pc
    case Begin => (m, Find(m.outOffs, 0, 0))
    case Find(i, count, boffset) =>
      if count >= N then (m, Finished(Data([])))
      else if m.pos[op.h] < boffset + m.slots[i].size then
        var offset := m.pos[op.h] - boffset;
        var rest := m.slots[i].size - offset;
        (m, CopyOut(i, offset, if op.count < rest then op.count else rest, []))
      else (m, Find(Wrap(N, i + 1), count + 1, boffset + m.slots[i].size))
    case CopyOut(i, offset, n, out) =>
      if |out| >= n then (m, MovePos(out))
      else if |out| >= op.room then (m, Finished(Failed(EFAULT)))
      else (m, CopyOut(i, offset, n, out + [m.heap[m.slots[i].ptr - 1][offset + |out|]]))
    case MovePos(out) => (m.(pos := m.pos[op.h := m.pos[op.h] + |out|]), Finished(Data(out)))
    case _ => (m, pc)
  }

  function LlseekStep(N: Capacity, op: Op, m: Mem, pc: Pc): (Mem, Pc)
    requires op.Llseek? && Safe(N, op, m, pc)
  {
    match pc
    case Begin => (m, Sum(m.outOffs, 0, 0))
    case Sum(i, count, total) =>
      if count >= N then (m, Place(total))
      else if i == m.inOffs && !m.full then (m, Place(total + m.slots[i].size))
      else (m, Sum(Wrap(N, i + 1), count + 1, total + m.slots[i].size))
    case Place(total) =>
      (match SeekPosition(total, m.pos[op.h], op.offset, op.whence)
       case None => (m, Finished(Failed(EINVAL)))
       case Some(p) => (m.(pos := m.pos[op.h := p]), Finished(At(p))))
    case _ => (m, pc)
  }

  function SeekToStep(N: Capacity, op: Op, m: Mem, pc: Pc): (Mem, Pc)
    requires op.SeekTo? && Safe(N, op, m, pc)
  {
    match pc
    case Begin => (m, Count(m.outOffs, 0))
    case Count(i, count) =>
      if count >= N || (i == m.inOffs && !m.full) then (m, Check(count))
      else (m, Count(Wrap(N, i + 1), count + 1))
    case Check(count) =>
      if op.cmd >= count || m.slots[op.cmd].size <= op.off then (m, Finished(Failed(EINVAL)))
      else (m, SumBefore(m.outOffs, 0, 0))
    case SumBefore(i, count, newPos) =>
      if count >= op.cmd then (m, SetPos(newPos + op.off))
      else if i == m.inOffs && !m.full then (m, SetPos(newPos + m.slots[i].size + op.off))
      else (m, SumBefore(Wrap(N, i + 1), count + 1, newPos + m.slots[i].size))
    case SetPos(p) => (m.(pos := m.pos[op.h := p]), Finished(Done))
    case _ => (m, pc)
  }

  // ----- threads ---------------------------------------------------------------------------------

  datatype Thread = Idle | Waiting(op: Op) | Holding(op: Op, pc: Pc)

  /** `calls` records every call in the order it took the mutex and `callers` who made it, `replies` the
      results in the order the mutex was released and `replied` who got them. */
  datatype System = System(m: Mem, holder: Option<nat>, threads: seq<Thread>,
                           calls: seq<Op>, callers: seq<nat>, replies: seq<Reply>, replied: seq<nat>)

  datatype Event = Invoke(t: nat, op: Op) | Acquire(t: nat) | Micro(t: nat, slack: nat) | Release(t: nat)

  predicate Enabled(N: Capacity, s: System, e: Event) {
    && e.t < |s.threads|
    && match e
       case Invoke(t, op) => s.threads[t].Idle? && Legal(op, |s.m.pos|)
       case Acquire(t) => s.threads[t].Waiting? && s.holder.None?
       case Micro(t, _) =>
         && s.threads[t].Holding? && !s.threads[t].pc.Finished?
         && Safe(N, s.threads[t].op, s.m, s.threads[t].pc)
       case Release(t) => s.threads[t].Holding? && s.threads[t].pc.Finished?
  }

  function Step(N: Capacity, s: System, e: Event): System
    requires Enabled(N, s, e)
  {
    match e
    case Invoke(t, op) => s.(threads := s.threads[t := Waiting(op)])
    case Acquire(t) =>
      var op := s.threads[t].op;
      s.(holder := Some(t), threads := s.threads[t := Holding(op, Begin)],
         calls := s.calls + [op], callers := s.callers + [t])
    case Micro(t, slack) =>
      var op := s.threads[t].op;
      var (m, pc) := MicroStep(N, op, s.m, s.threads[t].pc, slack);
      s.(m := m, threads := s.threads[t := Holding(op, pc)])
    case Release(t) =>
      s.(holder := None, threads := s.threads[t := Idle],
         replies := s.replies + [s.threads[t].pc.reply], replied := s.replied + [t])
  }

  /** The device as module initialisation leaves it, with its files open and every thread idle. */
  function Initial(N: Capacity, files: nat, threads: nat): System {
    System(Mem([], seq(N, _ => HeapEntry(0, 0)), 0, 0, false, HeapEntry(0, 0), seq(files, _ => 0)),
           None, seq(threads, _ => Idle), [], [], [], [])
  }

  /** The state after the interleaving `es`, if every event of it was possible. */
  ghost function Execute(N: Capacity, s: System, es: seq<Event>): Option<System> {
    if es == [] then Some(s)
    else
      match Execute(N, s, es[..|es| - 1])
      case None => None
      case Some(s') => if Enabled(N, s', es[|es| - 1]) then Some(Step(N, s', es[|es| - 1])) else None
  }
}
