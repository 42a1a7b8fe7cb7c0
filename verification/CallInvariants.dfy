/** What memory represents between calls, and what holds at each point inside one. */
module CallInvariants {
  import opened Bytes
  import opened CommandLog
  import opened RingLayout
  import opened DeviceSpec
  import opened MicroSteps

  // ----- what memory represents --------------------------------------------------------------------

  ghost predicate SlotsInHeap(N: Capacity, m: Mem) {
    |m.slots| == N && forall i {:trigger m.slots[i]} :: 0 <= i < N ==> InHeap(m.heap, m.slots[i])
  }

  ghost function Views(N: Capacity, m: Mem): (v: seq<Bytes>)
    requires SlotsInHeap(N, m)
    ensures |v| == N && forall i {:trigger v[i]} :: 0 <= i < N ==> v[i] == HeapBytes(m.heap, m.slots[i])
  {
    seq(N, i requires 0 <= i < N => HeapBytes(m.heap, m.slots[i]))
  }

  ghost predicate NoSharing(s: seq<HeapEntry>) {
    forall i, j :: 0 <= i < j < |s| && s[i].ptr != 0 ==> s[i].ptr != s[j].ptr
  }

  ghost predicate Absent(s: seq<HeapEntry>, ptr: nat) {
    forall i :: 0 <= i < |s| ==> s[i].ptr != ptr
  }

  /** The slots hold the log, each in a buffer of its own. */
  ghost predicate RingHolds(N: Capacity, m: Mem, log: seq<Bytes>) {
    SlotsInHeap(N, m) && SlotsHold(N, Views(N, m), log) && NoSharing(m.slots)
  }

  ghost predicate Indices(N: Capacity, m: Mem, k: nat) {
    m.inOffs == InOffs(N, k) && m.outOffs == OutOffs(N, k) && m.full == Full(N, k)
  }

  /** The entry under construction holds `p`, in a buffer that is no slot's, or has lost it. */
  ghost predicate PendHolds(m: Mem, p: Bytes, lost: bool) {
    if lost then m.pend == HeapEntry(0, |p|) && p != []
    else
      && InHeap(m.heap, m.pend) && HeapBytes(m.heap, m.pend) == p
      && (m.pend.ptr != 0 ==> Absent(m.slots, m.pend.ptr))
  }

  ghost predicate DeviceHolds(N: Capacity, m: Mem, d: Dev, lost: bool) {
    RingHolds(N, m, d.log) && Indices(N, m, |d.log|) && PendHolds(m, d.pending, lost)
  }

  ghost predicate Represented(N: Capacity, m: Mem, a: Abs) {
    DeviceHolds(N, m, a.dev, a.lost) && m.pos == a.pos
  }

  /** Writing elsewhere in the heap, or extending it, leaves the ring as it is. */
  lemma RingFrame(N: Capacity, m: Mem, m': Mem, log: seq<Bytes>)
    requires RingHolds(N, m, log) && m'.slots == m.slots && |m.heap| <= |m'.heap|
    requires forall p :: 0 <= p < |m.heap| && m.heap[p] != m'.heap[p] ==> Absent(m.slots, p + 1)
    ensures RingHolds(N, m', log)
  {
    forall i | 0 <= i < N
      ensures InHeap(m'.heap, m.slots[i]) && HeapBytes(m'.heap, m.slots[i]) == HeapBytes(m.heap, m.slots[i])
    {
    }
    assert Views(N, m') == Views(N, m);
  }

  /** Neither the ring nor the entry under construction depends on the file positions. */
  lemma PosFrame(N: Capacity, m: Mem, a: Abs, pos: seq<nat>)
    requires Represented(N, m, a)
    ensures Represented(N, m.(pos := pos), a.(pos := pos))
  {
    RingFrame(N, m, m.(pos := pos), a.dev.log);
  }

  // ----- what holds at each point of a call -----------------------------------------------------------

  /** The bytes under construction once `op` has been accepted. */
  function Joined(a: Abs, op: Op): Bytes
    requires op.Write? && op.taken <= |op.data|
  {
    a.dev.pending + op.data[..op.taken]
  }

  /** How many of the first `j` bytes written behind the pending ones are bytes of the call. */
  function Landed(op: Op, j: nat): (n: nat)
    requires op.Write?
    ensures n <= op.taken && n <= j
  {
    if j < op.taken then j else op.taken
  }

  /** `j` bytes have been written behind the pending ones; the size is still the old one. */
  ghost predicate Copied(N: Capacity, m: Mem, a: Abs, op: Op, j: nat)
    requires op.Write? && op.taken <= |op.data|
  {
    && RingHolds(N, m, a.dev.log) && Indices(N, m, |a.dev.log|) && m.pos == a.pos
    && j <= |op.data|
    && 0 < m.pend.ptr <= |m.heap| && Absent(m.slots, m.pend.ptr)
    && m.pend.size == |a.dev.pending|
    && m.pend.size + |op.data| <= |m.heap[m.pend.ptr - 1]|
    && m.heap[m.pend.ptr - 1][..m.pend.size + Landed(op, j)] == a.dev.pending + op.data[..Landed(op, j)]
  }

  /** While the new command is being added: its entry is in the slots already, and `pend` still names
      the same buffer. The indices are checked separately. */
  ghost predicate Stored(N: Capacity, m: Mem, a: Abs, op: Op)
    requires op.Write? && op.taken <= |op.data|
  {
    && HasNewline(Joined(a, op))
    && RingHolds(N, m, a.dev.log + [Joined(a, op)])
    && m.pos == a.pos
  }

  /** A write that has found memory, building on state `a`. */
  ghost predicate WriteHolds(N: Capacity, a: Abs, op: Op, m: Mem, pc: Pc)
    requires op.Write? && op.taken <= |op.data|
  {
    var k := |a.dev.log|;
    match pc
    case Copy(j) => Copied(N, m, a, op, j)
    case Grow => Copied(N, m, a, op, |op.data|)
    case Test =>
      && Represented(N, m, a.(dev := Dev(a.dev.log, Joined(a, op)))) && m.pend.ptr != 0
    case Store =>
      && Represented(N, m, a.(dev := Dev(a.dev.log, Joined(a, op)))) && m.pend.ptr != 0
      && HasNewline(Joined(a, op))
    case StepIn =>
      && Stored(N, m, a, op)
      && Indices(N, m, k)
    case StepOut =>
      && Stored(N, m, a, op)
      && Indices(N, m.(inOffs := InOffs(N, k)), k) && m.inOffs == InOffs(N, k + 1)
    case SetFull =>
      && Stored(N, m, a, op)
      && m.inOffs == InOffs(N, k + 1) && m.outOffs == OutOffs(N, k + 1)
    case ClearPtr =>
      && Stored(N, m, a, op)
      && Indices(N, m, k + 1)
    case ClearSize =>
      && Stored(N, m, a, op)
      && Indices(N, m, k + 1) && m.pend.ptr == 0
    case _ => false
  }

  /** Local state of a read at position `p` of the flat file made of the commands `w`. */
  ghost predicate AtRead(N: Capacity, w: seq<Bytes>, p: nat, op: Op, m: Mem, pc: Pc)
    requires op.Read? && m.outOffs < N
  {
    match pc
    case Begin => true
    case Find(i, count, boffset) => OnWalk(N, m.outOffs, i, count) && boffset == WalkSum(w, count) <= p
    case CopyOut(i, offset, n, out) =>
      && p < |Flatten(w)| && |out| <= n && |out| <= op.room
      && var (c, r) := Locate(w, p);
         && c < N && i == Wrap(N, m.outOffs + c) && offset == r
         && n == (if op.count < |w[c]| - r then op.count else |w[c]| - r)
         && out == w[c][r..r + |out|]
    case MovePos(out) => ReadIn(w, p, op.count, op.room) == Data(out)
    case Finished(reply) => ReadIn(w, p, op.count, op.room) == reply && (reply.Data? ==> reply.bytes == [])
    case _ => false
  }

  /** Local state of an llseek over the commands `w`. */
  ghost predicate AtLlseek(N: Capacity, w: seq<Bytes>, m: Mem, pc: Pc) {
    match pc
    case Begin => true
    case Sum(i, count, total) =>
      OnWalk(N, m.outOffs, i, count) && total == WalkSum(w, count) && (!m.full ==> count <= |w|)
    case Place(total) => total == |Flatten(w)|
    case _ => false
  }

  /** Local state of an ioctl over the commands `w`, of which physical slot `op.cmd` holds one of `size`. */
  ghost predicate AtSeek(N: Capacity, w: seq<Bytes>, size: nat, op: Op, m: Mem, pc: Pc)
    requires op.SeekTo?
  {
    match pc
    case Begin => true
    case Count(i, count) => OnWalk(N, m.outOffs, i, count) && (!m.full ==> count <= |w|)
    case Check(count) => count == |w|
    case SumBefore(i, count, newPos) =>
      && OnWalk(N, m.outOffs, i, count) && newPos == WalkSum(w, count)
      && count <= op.cmd < |w| && size > op.off
    case SetPos(p) => op.cmd < |w| && size > op.off && p == Prefix(w, op.cmd) + op.off
    case Finished(reply) => reply == Failed(EINVAL) && (op.cmd >= |w| || size <= op.off)
    case _ => false
  }

  /** The size physical slot `cmd` has after the commands `log`. */
  function SizeInSlot(N: Capacity, log: seq<Bytes>, cmd: nat): nat {
    if cmd < |Window(N, log)| then |Window(N, log)[SlotOwner(N, |log|, cmd)]| else 0
  }

  /** The mutex holder, `op` under way since state `a`, stands at `pc`. */
  ghost predicate CallHolds(N: Capacity, a: Abs, op: Op, m: Mem, pc: Pc) {
    && Legal(op, |a.pos|)
    && if pc.Finished? then
         Represented(N, m, Apply(N, a, op).0) && pc.reply == Apply(N, a, op).1
       else
         match op
         case Read(h, _, _) => Represented(N, m, a) && AtRead(N, Window(N, a.dev.log), a.pos[h], op, m, pc)
         case Write(_, _, _, _) =>
           if pc.Begin? || pc.Allocate? then Represented(N, m, a)
           else op.memory && WriteHolds(N, Ready(a, op.junk), op, m, pc)
         case Llseek(_, _, _) => Represented(N, m, a) && AtLlseek(N, Window(N, a.dev.log), m, pc)
         case SeekTo(_, cmd, _) =>
           Represented(N, m, a) && AtSeek(N, Window(N, a.dev.log), SizeInSlot(N, a.dev.log, cmd), op, m, pc)
  }

  // ----- every micro-step of a write ------------------------------------------------------------------

  lemma AllocateHolds(N: Capacity, a: Abs, op: Op, m: Mem, slack: nat)
    requires op.Write? && Legal(op, |a.pos|) && Represented(N, m, a)
    ensures Safe(N, op, m, Allocate)
    ensures CallHolds(N, a, op, MicroStep(N, op, m, Allocate, slack).0, MicroStep(N, op, m, Allocate, slack).1)
  {
    var m' := MicroStep(N, op, m, Allocate, slack).0;
    RingFrame(N, m, m', a.dev.log);
    if op.memory {
      assert op.data[..0] == [];
      assert Ready(a, op.junk).dev.pending + [] == Ready(a, op.junk).dev.pending;
    }
  }

  lemma CopyHolds(N: Capacity, a: Abs, op: Op, m: Mem, j: nat, slack: nat)
    requires op.Write? && Legal(op, |a.pos|) && op.memory && !a.lost && WriteHolds(N, a, op, m, Copy(j))
    ensures Safe(N, op, m, Copy(j))
    ensures var (m', pc) := MicroStep(N, op, m, Copy(j), slack); CallHolds(N, a, op, m', pc)
  {
    var (m', pc) := MicroStep(N, op, m, Copy(j), slack);
    if j < |op.data| {
      RingFrame(N, m, m', a.dev.log);
      CopiedOneMore(m.heap[m.pend.ptr - 1], m'.heap[m.pend.ptr - 1], m.pend.size, a.dev.pending, op, j);
    }
  }

  lemma CopiedOneMore(b: Bytes, b': Bytes, size: nat, pending: Bytes, op: Op, j: nat)
    requires op.Write? && op.taken <= |op.data| && j < |op.data| && size + |op.data| <= |b|
    requires b[..size + Landed(op, j)] == pending + op.data[..Landed(op, j)]
    requires b' == b[size + j := if j < op.taken then op.data[j] else 0]
    ensures b'[..size + Landed(op, j + 1)] == pending + op.data[..Landed(op, j + 1)]
  {
    if j < op.taken {
      assert b'[..size + j + 1] == b[..size + j] + [op.data[j]];
      assert op.data[..j + 1] == op.data[..j] + [op.data[j]];
      ConcatAssoc(pending, op.data[..j], [op.data[j]]);
    } else {
      assert b'[..size + op.taken] == b[..size + op.taken];
    }
  }

  lemma GrowHolds(N: Capacity, a: Abs, op: Op, m: Mem, slack: nat)
    requires op.Write? && Legal(op, |a.pos|) && op.memory && !a.lost && WriteHolds(N, a, op, m, Grow)
    ensures Safe(N, op, m, Grow)
    ensures var (m', pc) := MicroStep(N, op, m, Grow, slack); CallHolds(N, a, op, m', pc)
  {
    var (m', pc) := MicroStep(N, op, m, Grow, slack);
    RingFrame(N, m, m', a.dev.log);
  }

  lemma WriteApplies(N: Capacity, a: Abs, op: Op)
    requires op.Write? && Legal(op, |a.pos|) && op.memory && !a.lost
    ensures Apply(N, a, op) == (a.(dev := WriteTo(a.dev, op.data[..op.taken])), Wrote(op.taken))
  {
  }

  lemma TestHolds(N: Capacity, a: Abs, op: Op, m: Mem, slack: nat)
    requires op.Write? && Legal(op, |a.pos|) && op.memory && !a.lost && WriteHolds(N, a, op, m, Test)
    ensures Safe(N, op, m, Test)
    ensures var (m', pc) := MicroStep(N, op, m, Test, slack); CallHolds(N, a, op, m', pc)
  {
    WriteApplies(N, a, op);
    assert m.heap[m.pend.ptr - 1][..m.pend.size] == Joined(a, op);
  }

  lemma StoreStepHolds(N: Capacity, a: Abs, op: Op, m: Mem, slack: nat)
    requires op.Write? && Legal(op, |a.pos|) && op.memory && !a.lost && WriteHolds(N, a, op, m, Store)
    ensures Safe(N, op, m, Store)
    ensures var (m', pc) := MicroStep(N, op, m, Store, slack); CallHolds(N, a, op, m', pc)
  {
    var (m', pc) := MicroStep(N, op, m, Store, slack);
    RingLayout.StoreHolds(N, Views(N, m), a.dev.log, Joined(a, op));
    assert Views(N, m') == Views(N, m)[m.inOffs := Joined(a, op)];
  }

  lemma IndexHolds(N: Capacity, a: Abs, op: Op, m: Mem, pc: Pc, slack: nat)
    requires op.Write? && Legal(op, |a.pos|) && op.memory && !a.lost && WriteHolds(N, a, op, m, pc)
    requires pc.StepIn? || pc.StepOut? || pc.SetFull?
    ensures Safe(N, op, m, pc)
    ensures var (m', pc') := MicroStep(N, op, m, pc, slack); CallHolds(N, a, op, m', pc')
  {
    var (m', pc') := MicroStep(N, op, m, pc, slack);
    IndicesAdvance(N, |a.dev.log|);
    RingFrame(N, m, m', a.dev.log + [Joined(a, op)]);
  }

  lemma ClearHolds(N: Capacity, a: Abs, op: Op, m: Mem, pc: Pc, slack: nat)
    requires op.Write? && Legal(op, |a.pos|) && op.memory && !a.lost && WriteHolds(N, a, op, m, pc)
    requires pc.ClearPtr? || pc.ClearSize?
    ensures Safe(N, op, m, pc)
    ensures var (m', pc') := MicroStep(N, op, m, pc, slack); CallHolds(N, a, op, m', pc')
  {
    var (m', pc') := MicroStep(N, op, m, pc, slack);
    RingFrame(N, m, m', a.dev.log + [Joined(a, op)]);
  }

  /** Once it has found memory, a write has the same course to keep as one begun in the state it builds
      on. */
  lemma ReadyCall(N: Capacity, a: Abs, op: Op, m: Mem, pc: Pc)
    requires op.Write? && op.memory && !pc.Begin? && !pc.Allocate?
    ensures CallHolds(N, Ready(a, op.junk), op, m, pc) <==> CallHolds(N, a, op, m, pc)
  {
  }

  lemma CallHasMemory(N: Capacity, a: Abs, op: Op, m: Mem, pc: Pc)
    requires op.Write? && !pc.Begin? && !pc.Allocate? && !pc.Finished? && CallHolds(N, a, op, m, pc)
    ensures op.memory && WriteHolds(N, Ready(a, op.junk), op, m, pc)
  {
  }

  lemma WriteKeepsFiles(N: Capacity, a: Abs, op: Op, m: Mem, pc: Pc)
    requires op.Write? && op.taken <= |op.data| && WriteHolds(N, a, op, m, pc)
    ensures |m.pos| == |a.pos|
  {
  }

  // ----- every micro-step of a read ---------------------------------------------------------------------

  /** What a walk finds at step `c`, in terms of sizes. */
  lemma WalkSize(N: Capacity, m: Mem, log: seq<Bytes>, i: nat, c: nat)
    requires RingHolds(N, m, log) && m.outOffs == OutOffs(N, |log|)
    requires OnWalk(N, m.outOffs, i, c) && c < N
    ensures m.slots[i].size == if c < |Window(N, log)| then |Window(N, log)[c]| else 0
    ensures WalkSum(Window(N, log), c + 1) == WalkSum(Window(N, log), c) + m.slots[i].size
    ensures OnWalk(N, m.outOffs, Wrap(N, i + 1), c + 1)
  {
    SlotAt(N, Views(N, m), log, c);
    WalkStep(N, m.outOffs, i, c);
  }

  lemma FindEnds(N: Capacity, w: seq<Bytes>, op: Op, m: Mem, pc: Pc)
    requires op.Read? && pc.Find? && |w| <= N && Safe(N, op, m, pc)
    requires pc.count == N && WalkSum(w, N) <= m.pos[op.h]
    ensures ReadStep(N, op, m, pc) == (m, Finished(Data([])))
    ensures AtRead(N, w, m.pos[op.h], op, m, Finished(Data([])))
  {
    WalkSumAll(w, N);
  }

  lemma FindFound(N: Capacity, w: seq<Bytes>, op: Op, m: Mem, pc: Pc)
    requires op.Read? && pc.Find? && |w| <= N && Safe(N, op, m, pc)
    requires OnWalk(N, m.outOffs, pc.i, pc.count) && pc.boffset == WalkSum(w, pc.count) <= m.pos[op.h]
    requires pc.count < N && m.pos[op.h] < WalkSum(w, pc.count + 1)
    requires WalkSum(w, pc.count + 1) == WalkSum(w, pc.count) + m.slots[pc.i].size
    ensures ReadStep(N, op, m, pc).0 == m
    ensures AtRead(N, w, m.pos[op.h], op, m, ReadStep(N, op, m, pc).1)
  {
    WalkSumFinds(w, pc.count, m.pos[op.h]);
    assert WalkSum(w, pc.count + 1) == WalkSum(w, pc.count) + |w[pc.count]|;
  }

  lemma FindMisses(N: Capacity, op: Op, m: Mem, pc: Pc)
    requires op.Read? && pc.Find? && Safe(N, op, m, pc)
    requires pc.count < N && m.pos[op.h] >= pc.boffset + m.slots[pc.i].size
    ensures ReadStep(N, op, m, pc) ==
      (m, Find(Wrap(N, pc.i + 1), pc.count + 1, pc.boffset + m.slots[pc.i].size))
  {
  }

  lemma FindNext(N: Capacity, w: seq<Bytes>, p: nat, op: Op, m: Mem, i: nat, count: nat, size: nat)
    requires op.Read? && OnWalk(N, m.outOffs, i, count) && count < N
    requires WalkSum(w, count) + size == WalkSum(w, count + 1) <= p
    ensures AtRead(N, w, p, op, m, Find(Wrap(N, i + 1), count + 1, WalkSum(w, count) + size))
  {
    WalkStep(N, m.outOffs, i, count);
  }

  lemma FindStep(N: Capacity, w: seq<Bytes>, op: Op, m: Mem, pc: Pc)
    requires op.Read? && pc.Find? && |w| <= N && Safe(N, op, m, pc)
    requires OnWalk(N, m.outOffs, pc.i, pc.count) && pc.boffset == WalkSum(w, pc.count) <= m.pos[op.h]
    requires pc.count < N ==> WalkSum(w, pc.count + 1) == WalkSum(w, pc.count) + m.slots[pc.i].size
    ensures ReadStep(N, op, m, pc).0 == m
    ensures AtRead(N, w, m.pos[op.h], op, m, ReadStep(N, op, m, pc).1)
  {
    if pc.count >= N {
      FindEnds(N, w, op, m, pc);
    } else if m.pos[op.h] < WalkSum(w, pc.count + 1) {
      FindFound(N, w, op, m, pc);
    } else {
      FindMisses(N, op, m, pc);
      FindNext(N, w, m.pos[op.h], op, m, pc.i, pc.count, m.slots[pc.i].size);
    }
  }

  lemma CopyOutStep(N: Capacity, w: seq<Bytes>, op: Op, m: Mem, pc: Pc)
    requires op.Read? && pc.CopyOut? && Safe(N, op, m, pc) && AtRead(N, w, m.pos[op.h], op, m, pc)
    requires InHeap(m.heap, m.slots[pc.i]) && HeapBytes(m.heap, m.slots[pc.i]) == w[Locate(w, m.pos[op.h]).0]
    ensures ReadStep(N, op, m, pc).0 == m
    ensures AtRead(N, w, m.pos[op.h], op, m, ReadStep(N, op, m, pc).1)
  {
    var (c, r) := Locate(w, m.pos[op.h]);
    var k := |pc.out|;
    if k < pc.n && k < op.room {
      assert w[c][r..r + k] + [w[c][r + k]] == w[c][r..r + k + 1];
    }
  }

  lemma SlotBytes(N: Capacity, m: Mem, log: seq<Bytes>, c: nat)
    requires RingHolds(N, m, log) && m.outOffs == OutOffs(N, |log|) && c < |Window(N, log)|
    ensures var e := m.slots[Wrap(N, m.outOffs + c)];
      InHeap(m.heap, e) && HeapBytes(m.heap, e) == Window(N, log)[c]
  {
    SlotAt(N, Views(N, m), log, c);
  }

  lemma CopyOutHolds(N: Capacity, a: Abs, op: Op, m: Mem, pc: Pc)
    requires op.Read? && Legal(op, |a.pos|) && pc.CopyOut?
    requires Represented(N, m, a) && AtRead(N, Window(N, a.dev.log), a.pos[op.h], op, m, pc)
    ensures Safe(N, op, m, pc)
    ensures ReadStep(N, op, m, pc).0 == m
    ensures AtRead(N, Window(N, a.dev.log), a.pos[op.h], op, m, ReadStep(N, op, m, pc).1)
  {
    var w := Window(N, a.dev.log);
    SlotBytes(N, m, a.dev.log, Locate(w, a.pos[op.h]).0);
    CopyOutStep(N, w, op, m, pc);
  }

  lemma FindHolds(N: Capacity, a: Abs, op: Op, m: Mem, pc: Pc)
    requires op.Read? && Legal(op, |a.pos|) && pc.Find?
    requires Represented(N, m, a) && AtRead(N, Window(N, a.dev.log), a.pos[op.h], op, m, pc)
    ensures Safe(N, op, m, pc)
    ensures ReadStep(N, op, m, pc).0 == m
    ensures AtRead(N, Window(N, a.dev.log), a.pos[op.h], op, m, ReadStep(N, op, m, pc).1)
  {
    if pc.count < N {
      WalkSize(N, m, a.dev.log, pc.i, pc.count);
    }
    FindStep(N, Window(N, a.dev.log), op, m, pc);
  }

  /** A read that ends without moving the position. */
  lemma ReadEnds(N: Capacity, a: Abs, op: Op, reply: Reply)
    requires op.Read? && Legal(op, |a.pos|)
    requires ReadIn(Window(N, a.dev.log), a.pos[op.h], op.count, op.room) == reply
    requires reply.Data? ==> reply.bytes == []
    ensures Apply(N, a, op) == (a, reply)
  {
    assert a.pos[op.h := a.pos[op.h]] == a.pos;
  }

  // ----- every micro-step of the seeks --------------------------------------------------------------------

  /** The test `i == in_offs && !full` of the two loops that make it. */
  lemma WalkStops(N: Capacity, m: Mem, log: seq<Bytes>, i: nat, c: nat)
    requires Indices(N, m, |log|) && OnWalk(N, m.outOffs, i, c) && c < N
    requires !m.full ==> c <= |Window(N, log)|
    ensures !m.full ==> (i == m.inOffs <==> c == |Window(N, log)|)
  {
    InOffsPlace(N, |log|);
  }

  lemma SumStep(N: Capacity, w: seq<Bytes>, op: Op, m: Mem, pc: Pc, slack: nat)
    requires op.Llseek? && pc.Sum? && |w| <= N && Safe(N, op, m, pc) && AtLlseek(N, w, m, pc)
    requires m.full || |w| < N
    requires pc.count < N ==>
      && WalkSum(w, pc.count + 1) == WalkSum(w, pc.count) + m.slots[pc.i].size
      && (!m.full ==> (pc.i == m.inOffs <==> pc.count == |w|))
    ensures var (m', pc') := MicroStep(N, op, m, pc, slack);
      m' == m && AtLlseek(N, w, m, pc')
  {
    if pc.count < N {
      WalkStep(N, m.outOffs, pc.i, pc.count);
      if pc.i == m.inOffs && !m.full {
        WalkSumAll(w, pc.count + 1);
      }
    } else {
      WalkSumAll(w, pc.count);
    }
  }

  lemma SeekStep(N: Capacity, w: seq<Bytes>, op: Op, m: Mem, pc: Pc, slack: nat, size: nat)
    requires op.SeekTo? && (pc.Count? || pc.Check? || pc.SumBefore?)
    requires |w| <= N && Safe(N, op, m, pc) && AtSeek(N, w, size, op, m, pc)
    requires (m.full <==> |w| == N) && (op.cmd < |w| ==> m.slots[op.cmd].size == size)
    requires (pc.Count? || pc.SumBefore?) && pc.count < N ==>
      && WalkSum(w, pc.count + 1) == WalkSum(w, pc.count) + m.slots[pc.i].size
      && (!m.full ==> (pc.i == m.inOffs <==> pc.count == |w|))
    ensures var (m', pc') := MicroStep(N, op, m, pc, slack);
      m' == m && AtSeek(N, w, size, op, m, pc')
  {
    if (pc.Count? || pc.SumBefore?) && pc.count < N {
      WalkStep(N, m.outOffs, pc.i, pc.count);
    }
    if pc.SumBefore? && pc.count == op.cmd {
      WalkSumIsPrefix(w, op.cmd);
    }
  }

  lemma SetPosHolds(N: Capacity, a: Abs, op: Op, m: Mem, pc: Pc, slack: nat)
    requires op.SeekTo? && Legal(op, |a.pos|) && pc.SetPos? && Represented(N, m, a)
    requires CommandPosition(N, a.dev.log, op.cmd, op.off) == Some(pc.p)
    ensures Safe(N, op, m, pc)
    ensures var (m', pc') := MicroStep(N, op, m, pc, slack); CallHolds(N, a, op, m', pc')
  {
    PosFrame(N, m, a, m.pos[op.h := pc.p]);
  }

  /** The specified ioctl, in terms of what its micro-steps compare and add up. */
  lemma SeekApplies(N: Capacity, a: Abs, op: Op)
    requires op.SeekTo? && Legal(op, |a.pos|)
    ensures var w, size := Window(N, a.dev.log), SizeInSlot(N, a.dev.log, op.cmd);
      && CommandPosition(N, a.dev.log, op.cmd, op.off) ==
           (if op.cmd >= |w| || size <= op.off then None else Some(Prefix(w, op.cmd) + op.off))
      && (op.cmd >= |w| || size <= op.off ==> Apply(N, a, op) == (a, Failed(EINVAL)))
  {
  }

  lemma SizeInSlotHolds(N: Capacity, m: Mem, log: seq<Bytes>, cmd: nat)
    requires RingHolds(N, m, log) && cmd < |Window(N, log)|
    ensures m.slots[cmd].size == SizeInSlot(N, log, cmd)
  {
    SlotPhysical(N, Views(N, m), log, cmd);
    assert Views(N, m)[cmd] == HeapBytes(m.heap, m.slots[cmd]);
  }

  lemma LoopFacts(N: Capacity, m: Mem, log: seq<Bytes>, i: nat, c: nat)
    requires RingHolds(N, m, log) && Indices(N, m, |log|)
    requires c < N ==> OnWalk(N, m.outOffs, i, c) && (!m.full ==> c <= |Window(N, log)|)
    ensures c < N ==>
      && i < N && WalkSum(Window(N, log), c + 1) == WalkSum(Window(N, log), c) + m.slots[i].size
      && (!m.full ==> (i == m.inOffs <==> c == |Window(N, log)|))
  {
    if c < N {
      WalkSize(N, m, log, i, c);
      WalkStops(N, m, log, i, c);
    }
  }

  lemma SeekLoopHolds(N: Capacity, a: Abs, op: Op, m: Mem, pc: Pc, slack: nat)
    requires op.SeekTo? && Legal(op, |a.pos|) && Represented(N, m, a)
    requires pc.Count? || pc.Check? || pc.SumBefore?
    requires AtSeek(N, Window(N, a.dev.log), SizeInSlot(N, a.dev.log, op.cmd), op, m, pc)
    ensures Safe(N, op, m, pc)
    ensures var (m', pc') := MicroStep(N, op, m, pc, slack);
      m' == m && AtSeek(N, Window(N, a.dev.log), SizeInSlot(N, a.dev.log, op.cmd), op, m, pc')
  {
    var log := a.dev.log;
    if op.cmd < |Window(N, log)| {
      SizeInSlotHolds(N, m, log, op.cmd);
    }
    if !pc.Check? {
      LoopFacts(N, m, log, pc.i, pc.count);
    }
    SeekStep(N, Window(N, log), op, m, pc, slack, SizeInSlot(N, log, op.cmd));
  }

  lemma ReadMoves(N: Capacity, a: Abs, op: Op, out: Bytes)
    requires op.Read? && Legal(op, |a.pos|)
    requires ReadIn(Window(N, a.dev.log), a.pos[op.h], op.count, op.room) == Data(out)
    ensures Apply(N, a, op) == (a.(pos := a.pos[op.h := a.pos[op.h] + |out|]), Data(out))
  {
  }

  /** A call that ends by moving its file to `p`. */
  lemma PosEnds(N: Capacity, a: Abs, op: Op, m: Mem, m': Mem, pc: Pc, p: nat)
    requires Legal(op, |a.pos|) && !op.Write? && Represented(N, m, a) && pc.Finished?
    requires m' == m.(pos := m.pos[op.h := p])
    requires Apply(N, a, op) == (a.(pos := a.pos[op.h := p]), pc.reply)
    ensures CallHolds(N, a, op, m', pc)
  {
    PosFrame(N, m, a, m.pos[op.h := p]);
  }

  lemma MovePosStep(N: Capacity, a: Abs, op: Op, m: Mem, pc: Pc, slack: nat)
    requires op.Read? && pc.MovePos? && |m.slots| == N && m.inOffs < N && m.outOffs < N
    requires Legal(op, |m.pos|) && m.pos == a.pos
    requires ReadIn(Window(N, a.dev.log), a.pos[op.h], op.count, op.room) == Data(pc.out)
    ensures Safe(N, op, m, pc)
    ensures var (p, (m', pc')) := (m.pos[op.h] + |pc.out|, MicroStep(N, op, m, pc, slack));
      && m' == m.(pos := m.pos[op.h := p]) && pc'.Finished?
      && Apply(N, a, op) == (a.(pos := a.pos[op.h := p]), pc'.reply)
  {
    ReadMoves(N, a, op, pc.out);
  }

  lemma RepresentedShape(N: Capacity, m: Mem, a: Abs)
    requires Represented(N, m, a)
    ensures |m.slots| == N && m.inOffs < N && m.outOffs < N && m.pos == a.pos
  {
  }

  lemma ReadGoesOn(N: Capacity, a: Abs, op: Op, m: Mem, pc: Pc)
    requires op.Read? && Legal(op, |a.pos|) && Represented(N, m, a)
    requires AtRead(N, Window(N, a.dev.log), a.pos[op.h], op, m, pc)
    ensures CallHolds(N, a, op, m, pc)
  {
    if pc.Finished? {
      ReadEnds(N, a, op, pc.reply);
    }
  }

  lemma LlseekGoesOn(N: Capacity, a: Abs, op: Op, m: Mem, pc: Pc)
    requires op.Llseek? && Legal(op, |a.pos|) && Represented(N, m, a) && AtLlseek(N, Window(N, a.dev.log), m, pc)
    ensures CallHolds(N, a, op, m, pc)
  {
  }

  lemma SumHolds(N: Capacity, a: Abs, op: Op, m: Mem, pc: Pc, slack: nat)
    requires op.Llseek? && pc.Sum? && CallHolds(N, a, op, m, pc)
    ensures Safe(N, op, m, pc)
    ensures MicroStep(N, op, m, pc, slack).0 == m
    ensures AtLlseek(N, Window(N, a.dev.log), m, MicroStep(N, op, m, pc, slack).1)
  {
    if pc.count < N {
      WalkSize(N, m, a.dev.log, pc.i, pc.count);
      WalkStops(N, m, a.dev.log, pc.i, pc.count);
    }
    SumStep(N, Window(N, a.dev.log), op, m, pc, slack);
  }

  lemma PlaceHolds(N: Capacity, a: Abs, op: Op, m: Mem, pc: Pc, slack: nat)
    requires op.Llseek? && pc.Place? && CallHolds(N, a, op, m, pc)
    ensures Safe(N, op, m, pc)
    ensures CallHolds(N, a, op, MicroStep(N, op, m, pc, slack).0, MicroStep(N, op, m, pc, slack).1)
  {
    PosFrame(N, m, a, MicroStep(N, op, m, pc, slack).0.pos);
  }

  /** A call begins where memory represents a state, and ends where it represents the state after the
      specified call. */
  lemma CallBegins(N: Capacity, a: Abs, op: Op, m: Mem)
    requires Represented(N, m, a) && Legal(op, |a.pos|)
    ensures CallHolds(N, a, op, m, Begin)
  {
  }

  lemma CallFinished(N: Capacity, a: Abs, op: Op, m: Mem, pc: Pc)
    requires CallHolds(N, a, op, m, pc) && pc.Finished?
    ensures Legal(op, |a.pos|) && Represented(N, m, Apply(N, a, op).0) && pc.reply == Apply(N, a, op).1
    ensures m.pos == Apply(N, a, op).0.pos
  {
  }
}
