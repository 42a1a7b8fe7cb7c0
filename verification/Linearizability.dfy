/** Every interleaving of micro-steps is a run of whole calls, one after another in the order in which
    they took the device mutex. */
module Linearizability {
  import opened Bytes
  import opened CommandLog
  import opened RingLayout
  import opened DeviceSpec
  import opened MicroSteps
  import opened CallInvariants

  // ----- every micro-step --------------------------------------------------------------------------------

  /** Up to the newline test. */
  lemma FillStepHolds(N: Capacity, a: Abs, op: Op, m: Mem, pc: Pc, slack: nat)
    requires op.Write? && Legal(op, |a.pos|) && op.memory && !a.lost && WriteHolds(N, a, op, m, pc)
    requires pc.Copy? || pc.Grow? || pc.Test?
    ensures Safe(N, op, m, pc)
    ensures CallHolds(N, a, op, MicroStep(N, op, m, pc, slack).0, MicroStep(N, op, m, pc, slack).1)
  {
    match pc
    case Copy(j) => CopyHolds(N, a, op, m, j, slack);
    case Grow => GrowHolds(N, a, op, m, slack);
    case Test => TestHolds(N, a, op, m, slack);
  }

  /** While the command is added to the ring. */
  lemma CommitStepHolds(N: Capacity, a: Abs, op: Op, m: Mem, pc: Pc, slack: nat)
    requires op.Write? && Legal(op, |a.pos|) && op.memory && !a.lost && WriteHolds(N, a, op, m, pc)
    requires !pc.Copy? && !pc.Grow? && !pc.Test?
    ensures Safe(N, op, m, pc)
    ensures CallHolds(N, a, op, MicroStep(N, op, m, pc, slack).0, MicroStep(N, op, m, pc, slack).1)
  {
    if pc.Store? {
      StoreStepHolds(N, a, op, m, slack);
    } else if pc.ClearPtr? || pc.ClearSize? {
      ClearHolds(N, a, op, m, pc, slack);
    } else {
      IndexHolds(N, a, op, m, pc, slack);
    }
  }

  /** After memory has been found for a write in state `a`, which builds on `b`. */
  lemma ReadyStepHolds(N: Capacity, a: Abs, b: Abs, op: Op, m: Mem, pc: Pc, slack: nat)
    requires op.Write? && Legal(op, |a.pos|) && op.memory && b == Ready(a, op.junk)
    requires WriteHolds(N, b, op, m, pc)
    ensures Safe(N, op, m, pc)
    ensures CallHolds(N, a, op, MicroStep(N, op, m, pc, slack).0, MicroStep(N, op, m, pc, slack).1)
  {
    if pc.Copy? || pc.Grow? || pc.Test? {
      FillStepHolds(N, b, op, m, pc, slack);
    } else {
      CommitStepHolds(N, b, op, m, pc, slack);
    }
    ReadyCall(N, a, op, MicroStep(N, op, m, pc, slack).0, MicroStep(N, op, m, pc, slack).1);
  }

  lemma WriteStepHolds(N: Capacity, a: Abs, op: Op, m: Mem, pc: Pc, slack: nat)
    requires op.Write? && !pc.Finished? && CallHolds(N, a, op, m, pc)
    ensures Safe(N, op, m, pc)
    ensures CallHolds(N, a, op, MicroStep(N, op, m, pc, slack).0, MicroStep(N, op, m, pc, slack).1)
  {
    if pc.Allocate? {
      AllocateHolds(N, a, op, m, slack);
    } else if !pc.Begin? {
      CallHasMemory(N, a, op, m, pc);
      ReadyStepHolds(N, a, Ready(a, op.junk), op, m, pc, slack);
    }
  }

  /** The last step of a read. */
  lemma MovePosHolds(N: Capacity, a: Abs, op: Op, m: Mem, pc: Pc, slack: nat)
    requires op.Read? && Legal(op, |a.pos|) && pc.MovePos? && Represented(N, m, a)
    requires ReadIn(Window(N, a.dev.log), a.pos[op.h], op.count, op.room) == Data(pc.out)
    ensures Safe(N, op, m, pc)
    ensures CallHolds(N, a, op, MicroStep(N, op, m, pc, slack).0, MicroStep(N, op, m, pc, slack).1)
  {
    RepresentedShape(N, m, a);
    MovePosStep(N, a, op, m, pc, slack);
    PosEnds(N, a, op, m, MicroStep(N, op, m, pc, slack).0, MicroStep(N, op, m, pc, slack).1, m.pos[op.h] + |pc.out|);
  }

  lemma ReadStepHolds(N: Capacity, a: Abs, op: Op, m: Mem, pc: Pc, slack: nat)
    requires op.Read? && !pc.Finished? && CallHolds(N, a, op, m, pc)
    ensures Safe(N, op, m, pc)
    ensures CallHolds(N, a, op, MicroStep(N, op, m, pc, slack).0, MicroStep(N, op, m, pc, slack).1)
  {
    if pc.MovePos? {
      MovePosHolds(N, a, op, m, pc, slack);
    } else {
      if pc.Find? {
        FindHolds(N, a, op, m, pc);
      } else if pc.CopyOut? {
        CopyOutHolds(N, a, op, m, pc);
      }
      ReadGoesOn(N, a, op, m, MicroStep(N, op, m, pc, slack).1);
    }
  }

  lemma LlseekStepHolds(N: Capacity, a: Abs, op: Op, m: Mem, pc: Pc, slack: nat)
    requires op.Llseek? && !pc.Finished? && CallHolds(N, a, op, m, pc)
    ensures Safe(N, op, m, pc)
    ensures CallHolds(N, a, op, MicroStep(N, op, m, pc, slack).0, MicroStep(N, op, m, pc, slack).1)
  {
    if pc.Place? {
      PlaceHolds(N, a, op, m, pc, slack);
    } else {
      if pc.Sum? {
        SumHolds(N, a, op, m, pc, slack);
      }
      LlseekGoesOn(N, a, op, m, MicroStep(N, op, m, pc, slack).1);
    }
  }

  lemma SeekStepHolds(N: Capacity, a: Abs, op: Op, m: Mem, pc: Pc, slack: nat)
    requires op.SeekTo? && !pc.Finished? && CallHolds(N, a, op, m, pc)
    ensures Safe(N, op, m, pc)
    ensures CallHolds(N, a, op, MicroStep(N, op, m, pc, slack).0, MicroStep(N, op, m, pc, slack).1)
  {
    SeekApplies(N, a, op);
    if pc.SetPos? {
      SetPosHolds(N, a, op, m, pc, slack);
    } else if !pc.Begin? {
      SeekLoopHolds(N, a, op, m, pc, slack);
    }
  }

  /** Every micro-step of the mutex holder is safe and keeps its call on course. */
  lemma MicroStepHolds(N: Capacity, a: Abs, op: Op, m: Mem, pc: Pc, slack: nat)
    requires !pc.Finished? && CallHolds(N, a, op, m, pc)
    ensures Safe(N, op, m, pc)
    ensures CallHolds(N, a, op, MicroStep(N, op, m, pc, slack).0, MicroStep(N, op, m, pc, slack).1)
  {
    match op
    case Read(_, _, _) => ReadStepHolds(N, a, op, m, pc, slack);
    case Write(_, _, _, _) => WriteStepHolds(N, a, op, m, pc, slack);
    case Llseek(_, _, _) => LlseekStepHolds(N, a, op, m, pc, slack);
    case SeekTo(_, _, _) => SeekStepHolds(N, a, op, m, pc, slack);
  }

  // ----- every interleaving -----------------------------------------------------------------------------

  /** Nobody holds the mutex: the calls so far are a run of whole calls. */
  ghost predicate Quiet(N: Capacity, files: nat, m: Mem, calls: seq<Op>, replies: seq<Reply>) {
    && AllLegal(calls, files)
    && Represented(N, m, Run(N, Fresh(files), calls))
    && replies == Replies(N, Fresh(files), calls)
  }

  /** The mutex is held for `op`, which stands at `pc`: the earlier calls are a run of whole calls. */
  ghost predicate Busy(N: Capacity, files: nat, m: Mem, calls: seq<Op>, replies: seq<Reply>, op: Op, pc: Pc) {
    && AllLegal(calls, files) && calls != [] && calls[|calls| - 1] == op
    && var done := calls[..|calls| - 1];
       && CallHolds(N, Run(N, Fresh(files), done), op, m, pc)
       && replies == Replies(N, Fresh(files), done)
  }

  lemma AcquireBusy(N: Capacity, files: nat, m: Mem, calls: seq<Op>, replies: seq<Reply>, op: Op)
    requires Quiet(N, files, m, calls, replies) && Legal(op, files)
    ensures Busy(N, files, m, calls + [op], replies, op, Begin)
  {
    assert (calls + [op])[..|calls|] == calls;
  }

  lemma MicroBusy(N: Capacity, files: nat, m: Mem, calls: seq<Op>, replies: seq<Reply>, op: Op, pc: Pc, slack: nat)
    requires Busy(N, files, m, calls, replies, op, pc) && !pc.Finished?
    ensures Safe(N, op, m, pc)
    ensures var (m', pc') := MicroStep(N, op, m, pc, slack);
      Busy(N, files, m', calls, replies, op, pc')
  {
    MicroStepHolds(N, Run(N, Fresh(files), calls[..|calls| - 1]), op, m, pc, slack);
  }

  lemma ReleaseQuiet(N: Capacity, files: nat, m: Mem, calls: seq<Op>, replies: seq<Reply>, op: Op, pc: Pc)
    requires Busy(N, files, m, calls, replies, op, pc) && pc.Finished?
    ensures Quiet(N, files, m, calls, replies + [pc.reply])
  {
    var done := calls[..|calls| - 1];
    assert calls == done + [op];
    RunSnoc(N, Fresh(files), done, op);
  }

  lemma CallKeepsFiles(N: Capacity, a: Abs, op: Op, m: Mem, pc: Pc)
    requires CallHolds(N, a, op, m, pc)
    ensures |m.pos| == |a.pos|
  {
    if op.Write? && !pc.Finished? && !pc.Begin? && !pc.Allocate? {
      CallHasMemory(N, a, op, m, pc);
      WriteKeepsFiles(N, Ready(a, op.junk), op, m, pc);
    }
  }

  ghost predicate ThreadsFit(files: nat, holder: Option<nat>, threads: seq<Thread>) {
    forall t :: 0 <= t < |threads| ==>
      match threads[t]
      case Idle => true
      case Waiting(op) => Legal(op, files)
      case Holding(_, _) => holder == Some(t)
  }

  ghost predicate MutexFits(N: Capacity, files: nat, m: Mem, calls: seq<Op>, replies: seq<Reply>,
        holder: Option<Thread>) {
    match holder
    case None => Quiet(N, files, m, calls, replies)
    case Some(h) => h.Holding? && Busy(N, files, m, calls, replies, h.op, h.pc)
  }

  function Holder(s: System): Option<Thread>
    requires s.holder.Some? ==> s.holder.value < |s.threads|
  {
    if s.holder.None? then None else Some(s.threads[s.holder.value])
  }

  ghost predicate Linear(N: Capacity, files: nat, s: System) {
    && ThreadsFit(files, s.holder, s.threads)
    && (s.holder.Some? ==> s.holder.value < |s.threads|)
    && MutexFits(N, files, s.m, s.calls, s.replies, Holder(s))
  }

  /** The files are as many as there were at first. */
  lemma LinearFiles(N: Capacity, files: nat, s: System)
    requires Linear(N, files, s)
    ensures |s.m.pos| == files
  {
    if s.holder.Some? {
      var h := s.threads[s.holder.value];
      CallKeepsFiles(N, Run(N, Fresh(files), s.calls[..|s.calls| - 1]), h.op, s.m, h.pc);
    }
  }

  lemma InitialLinear(N: Capacity, files: nat, threads: nat)
    ensures Linear(N, files, Initial(N, files, threads))
  {
    var s := Initial(N, files, threads);
    assert Represented(N, s.m, Fresh(files)) by {
      assert Views(N, s.m) == seq(N, _ => []);
    }
  }

  lemma InvokeLinear(N: Capacity, files: nat, s: System, t: nat, op: Op)
    requires Linear(N, files, s) && Enabled(N, s, Invoke(t, op))
    ensures Linear(N, files, Step(N, s, Invoke(t, op)))
  {
    LinearFiles(N, files, s);
    assert Holder(Step(N, s, Invoke(t, op))) == Holder(s);
  }

  lemma MicroLinear(N: Capacity, files: nat, s: System, t: nat, slack: nat)
    requires Linear(N, files, s) && Enabled(N, s, Micro(t, slack))
    ensures Linear(N, files, Step(N, s, Micro(t, slack)))
  {
    MicroBusy(N, files, s.m, s.calls, s.replies, s.threads[t].op, s.threads[t].pc, slack);
  }

  lemma AcquireLinear(N: Capacity, files: nat, s: System, t: nat)
    requires Linear(N, files, s) && Enabled(N, s, Acquire(t))
    ensures Linear(N, files, Step(N, s, Acquire(t)))
  {
    AcquireBusy(N, files, s.m, s.calls, s.replies, s.threads[t].op);
  }

  lemma ReleaseLinear(N: Capacity, files: nat, s: System, t: nat)
    requires Linear(N, files, s) && Enabled(N, s, Release(t))
    ensures Linear(N, files, Step(N, s, Release(t)))
  {
    ReleaseQuiet(N, files, s.m, s.calls, s.replies, s.threads[t].op, s.threads[t].pc);
  }

  lemma StepLinear(N: Capacity, files: nat, s: System, e: Event)
    requires Linear(N, files, s) && Enabled(N, s, e)
    ensures Linear(N, files, Step(N, s, e))
  {
    match e
    case Invoke(t, op) => InvokeLinear(N, files, s, t, op);
    case Acquire(t) => AcquireLinear(N, files, s, t);
    case Micro(t, slack) => MicroLinear(N, files, s, t, slack);
    case Release(t) => ReleaseLinear(N, files, s, t);
  }

  lemma {:induction false} ExecutionLinear(N: Capacity, files: nat, threads: nat, es: seq<Event>)
    requires Execute(N, Initial(N, files, threads), es).Some?
    ensures Linear(N, files, Execute(N, Initial(N, files, threads), es).value)
  {
    if es == [] {
      InitialLinear(N, files, threads);
    } else {
      var front := es[..|es| - 1];
      ExecutionLinear(N, files, threads, front);
      StepLinear(N, files, Execute(N, Initial(N, files, threads), front).value, es[|es| - 1]);
    }
  }

  /** Who called and who got which reply. */
  ghost predicate Attributed(s: System) {
    && |s.callers| == |s.calls| && |s.replied| == |s.replies| && s.replied <= s.callers
    && (forall t :: 0 <= t < |s.threads| && s.threads[t].Holding? ==> s.holder == Some(t))
    && match s.holder
       case None => |s.replies| == |s.calls|
       case Some(t) =>
         && |s.replies| + 1 == |s.calls|
         && t < |s.threads| && s.threads[t].Holding?
         && s.callers[|s.calls| - 1] == t && s.calls[|s.calls| - 1] == s.threads[t].op
  }

  lemma StepAttributed(N: Capacity, s: System, e: Event)
    requires Attributed(s) && Enabled(N, s, e)
    ensures Attributed(Step(N, s, e))
  {
  }

  lemma {:induction false} ExecutionAttributed(N: Capacity, files: nat, threads: nat, es: seq<Event>)
    requires Execute(N, Initial(N, files, threads), es).Some?
    ensures Attributed(Execute(N, Initial(N, files, threads), es).value)
  {
    if es != [] {
      var front := es[..|es| - 1];
      ExecutionAttributed(N, files, threads, front);
      StepAttributed(N, Execute(N, Initial(N, files, threads), front).value, es[|es| - 1]);
    }
  }

  lemma HolderSafe(N: Capacity, files: nat, m: Mem, calls: seq<Op>, replies: seq<Reply>, op: Op, pc: Pc)
    requires Busy(N, files, m, calls, replies, op, pc)
    ensures Safe(N, op, m, pc)
  {
    if !pc.Finished? {
      MicroBusy(N, files, m, calls, replies, op, pc, 0);
    }
  }

  /** For any number of threads and any interleaving of their micro-steps: the replies given are those
      of the same calls made one after another in the order they took the mutex, each given to the
      thread that made the call; whenever the mutex is free, memory represents the state that run
      reaches; and the holder, whose call is the last one, is memory-safe in its next step. */
  lemma Linearizable(N: Capacity, files: nat, threads: nat, es: seq<Event>, s: System)
    requires Execute(N, Initial(N, files, threads), es) == Some(s)
    ensures AllLegal(s.calls, files)
    ensures |s.replies| == |s.calls| - (if s.holder.Some? then 1 else 0)
    ensures s.replies == Replies(N, Fresh(files), s.calls[..|s.replies|])
    ensures |s.callers| == |s.calls| && s.replied == s.callers[..|s.replies|]
    ensures s.holder.None? ==> Represented(N, s.m, Run(N, Fresh(files), s.calls))
    ensures s.holder.Some? ==>
      var t := s.holder.value;
      t < |s.threads| && s.threads[t].Holding? && s.callers[|s.replies|] == t && s.calls[|s.replies|] == s.threads[t].op
    ensures forall t :: 0 <= t < |s.threads| && s.threads[t].Holding? ==>
      s.holder == Some(t) && Safe(N, s.threads[t].op, s.m, s.threads[t].pc)
  {
    ExecutionLinear(N, files, threads, es);
    ExecutionAttributed(N, files, threads, es);
    if s.holder.None? {
      assert s.calls[..|s.calls|] == s.calls;
    } else {
      var h := s.threads[s.holder.value];
      HolderSafe(N, files, s.m, s.calls, s.replies, h.op, h.pc);
    }
  }

  // ----- ownership ----------------------------------------------------------------------------------------

  /** At every point of every call the slots are sound and no two of them share a buffer, even while an
      entry is being added. */
  lemma SlotsAlwaysOwned(N: Capacity, a: Abs, op: Op, m: Mem, pc: Pc)
    requires CallHolds(N, a, op, m, pc)
    ensures SlotsInHeap(N, m) && NoSharing(m.slots)
  {
  }

  /** What a micro-step does to the heap: nothing, one more buffer, or a byte of the buffer under
      construction. */
  lemma MicroHeap(N: Capacity, op: Op, m: Mem, pc: Pc, slack: nat)
    requires Safe(N, op, m, pc)
    ensures var m' := MicroStep(N, op, m, pc, slack).0;
      && |m'.slots| == N && |m.heap| <= |m'.heap|
      && forall p :: 0 <= p < |m.heap| && m'.heap[p] != m.heap[p] ==>
           op.Write? && pc.Copy? && p + 1 == m.pend.ptr && |m'.heap[p]| == |m.heap[p]|
  {
  }

  lemma CopyIsApart(N: Capacity, a: Abs, op: Op, m: Mem, pc: Pc)
    requires CallHolds(N, a, op, m, pc) && op.Write? && pc.Copy?
    ensures Absent(m.slots, m.pend.ptr)
  {
  }

  lemma MicroKeepsBytes(N: Capacity, a: Abs, op: Op, m: Mem, pc: Pc, slack: nat, i: nat)
    requires CallHolds(N, a, op, m, pc) && !pc.Finished? && Safe(N, op, m, pc) && i < N
    ensures var m' := MicroStep(N, op, m, pc, slack).0;
      |m'.slots| == N && |m.slots| == N &&
      (m'.slots[i] == m.slots[i] ==>
        InHeap(m.heap, m.slots[i]) && InHeap(m'.heap, m.slots[i]) &&
        HeapBytes(m'.heap, m.slots[i]) == HeapBytes(m.heap, m.slots[i]))
  {
    SlotsAlwaysOwned(N, a, op, m, pc);
    MicroHeap(N, op, m, pc, slack);
    if op.Write? && pc.Copy? {
      CopyIsApart(N, a, op, m, pc);
    }
  }

  /** Committing moves the pointer without copying, yet in every interleaving each step of every thread
      leaves the bytes of every command in the ring as they are, until its slot itself is overwritten;
      and no two occupied slots ever share a buffer. */
  lemma CommittedBytesKept(N: Capacity, files: nat, threads: nat, es: seq<Event>, s: System, e: Event, i: nat)
    requires Execute(N, Initial(N, files, threads), es) == Some(s) && Enabled(N, s, e) && i < N
    ensures var s' := Step(N, s, e);
      && |s.m.slots| == |s'.m.slots| == N && NoSharing(s'.m.slots)
      && InHeap(s.m.heap, s.m.slots[i])
      && (s'.m.slots[i] == s.m.slots[i] ==>
            InHeap(s'.m.heap, s'.m.slots[i]) &&
            HeapBytes(s'.m.heap, s'.m.slots[i]) == HeapBytes(s.m.heap, s.m.slots[i]))
  {
    ExecutionLinear(N, files, threads, es);
    StepLinear(N, files, s, e);
    LinearOwned(N, files, s);
    LinearOwned(N, files, Step(N, s, e));
    if e.Micro? {
      var h := s.threads[e.t];
      BusyKeepsBytes(N, files, s.m, s.calls, s.replies, h.op, h.pc, e.slack, i);
    }
  }

  lemma BusyKeepsBytes(N: Capacity, files: nat, m: Mem, calls: seq<Op>, replies: seq<Reply>, op: Op, pc: Pc,
        slack: nat, i: nat)
    requires Busy(N, files, m, calls, replies, op, pc) && !pc.Finished? && Safe(N, op, m, pc) && i < N
    ensures var m' := MicroStep(N, op, m, pc, slack).0;
      |m'.slots| == N && |m.slots| == N &&
      (m'.slots[i] == m.slots[i] ==>
        InHeap(m.heap, m.slots[i]) && InHeap(m'.heap, m.slots[i]) &&
        HeapBytes(m'.heap, m.slots[i]) == HeapBytes(m.heap, m.slots[i]))
  {
    MicroKeepsBytes(N, Run(N, Fresh(files), calls[..|calls| - 1]), op, m, pc, slack, i);
  }

  lemma LinearOwned(N: Capacity, files: nat, s: System)
    requires Linear(N, files, s)
    ensures SlotsInHeap(N, s.m) && NoSharing(s.m.slots)
  {
    if s.holder.Some? {
      var h := s.threads[s.holder.value];
      SlotsAlwaysOwned(N, Run(N, Fresh(files), s.calls[..|s.calls| - 1]), h.op, s.m, h.pc);
    }
  }

  // ----- the ring is broken while an entry is added --------------------------------------------------------

  /** Between storing an entry and advancing `in_offs` in a ring that is not full, memory represents no
      log at all: what the mutex hides. */
  lemma MidAddRepresentsNothing(N: Capacity, a: Abs, op: Op, m: Mem, log: seq<Bytes>)
    requires op.Write? && op.taken <= |op.data| && WriteHolds(N, a, op, m, StepIn) && |a.dev.log| < N
    ensures !(SlotsHold(N, Views(N, m), log) && Indices(N, m, |log|))
  {
    if SlotsHold(N, Views(N, m), log) && Indices(N, m, |log|) {
      var k := |a.dev.log|;
      InOffsPlace(N, k);
      InOffsPlace(N, |log|);
      assert |log| == k;
      assert Views(N, m)[k] == [];
      StoredNotEmpty(N, m, a, op);
      assert false;
    }
  }

  lemma StoredNotEmpty(N: Capacity, m: Mem, a: Abs, op: Op)
    requires op.Write? && op.taken <= |op.data| && Stored(N, m, a, op) && |a.dev.log| < N
    ensures Views(N, m)[|a.dev.log|] != []
  {
    var log := a.dev.log + [Joined(a, op)];
    SlotAt(N, Views(N, m), log, |a.dev.log|);
    assert Window(N, log)[|a.dev.log|] == Joined(a, op);
    InOffsPlace(N, |log|);
  }

  lemma ExecuteSnoc(N: Capacity, s: System, es: seq<Event>, e: Event)
    requires Execute(N, s, es).Some? && Enabled(N, Execute(N, s, es).value, e)
    ensures Execute(N, s, es + [e]) == Some(Step(N, Execute(N, s, es).value, e))
  {
    assert (es + [e])[..|es|] == es;
  }

  /** The only thread of `s` is alone in writing one newline, and stands at `pc`. */
  ghost predicate WritesNewline(N: Capacity, s: System, pc: Pc) {
    var op := Write([NEWLINE], 1, true, []);
    Linear(N, 0, s) && s.calls == [op] && s.holder == Some(0) && s.threads == [Holding(op, pc)]
  }

  /** The program points such a write passes. */
  function NewlinePath(k: nat): Pc
    requires k <= 7
  {
    [Begin, Allocate, Copy(0), Copy(1), Grow, Test, Store, StepIn][k]
  }

  lemma NewlineAdvances(N: Capacity, s: System, k: nat)
    requires k < 7 && WritesNewline(N, s, NewlinePath(k))
    ensures Enabled(N, s, Micro(0, 0)) && WritesNewline(N, Step(N, s, Micro(0, 0)), NewlinePath(k + 1))
  {
    NewlineHolds(N, s, NewlinePath(k));
    NewlineMicro(N, s.m, k);
    StepLinear(N, 0, s, Micro(0, 0));
  }

  lemma NewlineHolds(N: Capacity, s: System, pc: Pc)
    requires WritesNewline(N, s, pc) && !pc.Finished?
    ensures CallHolds(N, Fresh(0), Write([NEWLINE], 1, true, []), s.m, pc)
    ensures Safe(N, Write([NEWLINE], 1, true, []), s.m, pc)
  {
    var op := Write([NEWLINE], 1, true, []);
    assert [op][..0] == [];
    MicroStepHolds(N, Fresh(0), op, s.m, pc, 0);
  }

  lemma NewlineMicro(N: Capacity, m: Mem, k: nat)
    requires var op := Write([NEWLINE], 1, true, []);
      k < 7 && CallHolds(N, Fresh(0), op, m, NewlinePath(k)) && Safe(N, op, m, NewlinePath(k))
    ensures MicroStep(N, Write([NEWLINE], 1, true, []), m, NewlinePath(k), 0).1 == NewlinePath(k + 1)
  {
    assert [] + [NEWLINE][..1] == [NEWLINE];
    assert HasNewline([NEWLINE]) by { assert CString([NEWLINE]) == [NEWLINE] + CString([]); }
  }

  lemma {:induction false} NewlineGetsTo(N: Capacity, k: nat) returns (es: seq<Event>)
    requires k <= 7
    ensures Execute(N, Initial(N, 0, 1), es).Some?
    ensures WritesNewline(N, Execute(N, Initial(N, 0, 1), es).value, NewlinePath(k))
  {
    var op, init := Write([NEWLINE], 1, true, []), Initial(N, 0, 1);
    if k == 0 {
      assert Execute(N, init, []) == Some(init);
      InitialLinear(N, 0, 1);
      ExecuteSnoc(N, init, [], Invoke(0, op));
      StepLinear(N, 0, init, Invoke(0, op));
      var invoked := Step(N, init, Invoke(0, op));
      ExecuteSnoc(N, init, [] + [Invoke(0, op)], Acquire(0));
      StepLinear(N, 0, invoked, Acquire(0));
      es := [] + [Invoke(0, op)] + [Acquire(0)];
    } else {
      var front := NewlineGetsTo(N, k - 1);
      NewlineAdvances(N, Execute(N, init, front).value, k - 1);
      ExecuteSnoc(N, init, front, Micro(0, 0));
      es := front + [Micro(0, 0)];
    }
  }

  /** The mutex is needed: a reachable state in which memory represents no log. */
  lemma MidAddReachable(N: Capacity) returns (es: seq<Event>, s: System)
    ensures Execute(N, Initial(N, 0, 1), es) == Some(s)
    ensures SlotsInHeap(N, s.m)
    ensures forall log :: !(SlotsHold(N, Views(N, s.m), log) && Indices(N, s.m, |log|))
  {
    es := NewlineGetsTo(N, 7);
    s := Execute(N, Initial(N, 0, 1), es).value;
    var op := Write([NEWLINE], 1, true, []);
    NewlineHolds(N, s, StepIn);
    forall log ensures !(SlotsHold(N, Views(N, s.m), log) && Indices(N, s.m, |log|)) {
      MidAddRepresentsNothing(N, Fresh(0), op, s.m, log);
    }
  }

  // ----- every call comes to its end ------------------------------------------------------------------------

  function WriteFuel(count: nat, pc: Pc): nat {
    match pc
    case Begin => count + 13
    case Allocate => count + 12
    case Copy(j) => 11 + if j < count then count - j else 0
    case Grow => 10
    case Test => 9
    case Store => 8
    case StepIn => 7
    case StepOut => 6
    case SetFull => 5
    case ClearPtr => 4
    case ClearSize => 3
    case _ => 0
  }

  function ReadFuel(N: Capacity, count: nat, pc: Pc): nat {
    match pc
    case Begin => N + count + 4
    case Find(_, c, _) => (if c < N then N - c else 0) + count + 3
    case CopyOut(_, _, n, out) => 2 + if |out| < n then n - |out| else 0
    case MovePos(_) => 1
    case _ => 0
  }

  /** The second loop of the ioctl runs only for commands the ring can hold. */
  function SeekFuel(N: Capacity, cmd: nat, pc: Pc): nat {
    var c := if cmd < N then cmd else N;
    match pc
    case Begin => N + c + 5
    case Sum(_, count, _) => 2 + if count < N then N - count else 0
    case Place(_) => 1
    case Count(_, count) => (if count < N then N - count else 0) + c + 4
    case Check(_) => c + 3
    case SumBefore(_, count, _) => 2 + if count < c then c - count else 0
    case SetPos(_) => 1
    case _ => 0
  }

  /** A bound on the micro-steps left until the call is finished. */
  function Fuel(N: Capacity, op: Op, pc: Pc): nat {
    match op
    case Read(_, count, _) => ReadFuel(N, count, pc)
    case Write(data, _, _, _) => WriteFuel(|data|, pc)
    case Llseek(_, _, _) => SeekFuel(N, 0, pc)
    case SeekTo(_, cmd, _) => SeekFuel(N, cmd, pc)
  }

  lemma WriteFuelBurns(N: Capacity, op: Op, m: Mem, pc: Pc, slack: nat)
    requires op.Write? && Safe(N, op, m, pc) && !pc.Finished?
    ensures WriteFuel(|op.data|, WriteStep(N, op, m, pc, slack).1) < WriteFuel(|op.data|, pc)
  {
  }

  lemma ReadFuelBurns(N: Capacity, op: Op, m: Mem, pc: Pc)
    requires op.Read? && Safe(N, op, m, pc) && !pc.Finished?
    ensures ReadFuel(N, op.count, MicroSteps.ReadStep(N, op, m, pc).1) < ReadFuel(N, op.count, pc)
  {
  }

  lemma FuelBurns(N: Capacity, op: Op, m: Mem, pc: Pc, slack: nat)
    requires Safe(N, op, m, pc) && !pc.Finished?
    ensures Fuel(N, op, MicroStep(N, op, m, pc, slack).1) < Fuel(N, op, pc)
  {
    if op.Write? {
      WriteFuelBurns(N, op, m, pc, slack);
    } else if op.Read? {
      ReadFuelBurns(N, op, m, pc);
    }
  }

  lemma {:induction false} HolderFinishes(N: Capacity, files: nat, s: System)
      returns (es: seq<Event>)
    requires Linear(N, files, s) && s.holder.Some?
    ensures |es| <= Fuel(N, s.threads[s.holder.value].op, s.threads[s.holder.value].pc) + 1
    ensures Execute(N, s, es).Some? && Execute(N, s, es).value.holder.None?
    decreases Fuel(N, s.threads[s.holder.value].op, s.threads[s.holder.value].pc)
  {
    var t := s.holder.value;
    var op, pc := s.threads[t].op, s.threads[t].pc;
    if pc.Finished? {
      es := [Release(t)];
      ExecuteOne(N, s, Release(t));
    } else {
      var e := Micro(t, 0);
      MicroBusy(N, files, s.m, s.calls, s.replies, op, pc, 0);
      FuelBurns(N, op, s.m, pc, 0);
      StepLinear(N, files, s, e);
      var rest := HolderFinishes(N, files, Step(N, s, e));
      es := [e] + rest;
      ExecuteFirst(N, s, e, rest);
    }
  }

  /** In every reachable state whoever holds the mutex can go on, and gives it back after a bounded
      number of its own steps. */
  lemma HolderReleases(N: Capacity, files: nat, threads: nat, es: seq<Event>, s: System) returns (more: seq<Event>)
    requires Execute(N, Initial(N, files, threads), es) == Some(s) && s.holder.Some?
    ensures s.holder.value < |s.threads| && s.threads[s.holder.value].Holding?
    ensures |more| <= Fuel(N, s.threads[s.holder.value].op, s.threads[s.holder.value].pc) + 1
    ensures Execute(N, s, more).Some? && Execute(N, s, more).value.holder.None?
  {
    ExecutionLinear(N, files, threads, es);
    more := HolderFinishes(N, files, s);
  }

  lemma ExecuteOne(N: Capacity, s: System, e: Event)
    requires Enabled(N, s, e)
    ensures Execute(N, s, [e]) == Some(Step(N, s, e))
  {
    assert Execute(N, s, []) == Some(s);
    ExecuteSnoc(N, s, [], e);
    assert [] + [e] == [e];
  }

  lemma {:induction false} ExecuteFirst(N: Capacity, s: System, e: Event, es: seq<Event>)
    requires Enabled(N, s, e)
    ensures Execute(N, s, [e] + es) == Execute(N, Step(N, s, e), es)
  {
    if es == [] {
      ExecuteOne(N, s, e);
      assert [e] + [] == [e];
    } else {
      var all := [e] + es;
      ExecuteFirst(N, s, e, es[..|es| - 1]);
      assert all[..|all| - 1] == [e] + es[..|es| - 1] && all[|all| - 1] == es[|es| - 1];
    }
  }
}
