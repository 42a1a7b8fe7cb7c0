/** What the specification promises of whole runs, carried down to raw memory under any interleaving of
    the driver's micro-steps. */
module Consequences {
  import opened Bytes
  import opened CommandLog
  import opened RingLayout
  import opened DeviceSpec
  import opened MicroSteps
  import CallInvariants
  import Linearizability
  import Positions
  import Stream

  /** The slot that a walk from `out_offs` meets at step `c` holds `cmd`. */
  ghost predicate WalkMeets(N: Capacity, m: Mem, c: nat, cmd: Bytes) {
    && |m.slots| == N && m.outOffs < N && c < N
    && var e := m.slots[Wrap(N, m.outOffs + c)];
       InHeap(m.heap, e) && HeapBytes(m.heap, e) == cmd
  }

  /** The buffers in memory hold exactly what the splitter makes of `chunks`: walking the slots from
      `out_offs` meets its last `N` commands, oldest first, and the entry under construction holds its
      remainder, or has lost all of it but its size. */
  ghost predicate HoldsStream(N: Capacity, m: Mem, chunks: seq<Bytes>, lost: bool) {
    var w, rest := Window(N, Stream.FlattenEach(Stream.Groups([], chunks).0)), Flatten(Stream.Groups([], chunks).1);
    && (if lost then m.pend == HeapEntry(0, |rest|) else InHeap(m.heap, m.pend) && HeapBytes(m.heap, m.pend) == rest)
    && forall c :: 0 <= c < |w| ==> WalkMeets(N, m, c, w[c])
  }

  lemma RepresentedHoldsStream(N: Capacity, m: Mem, a: Abs, chunks: seq<Bytes>)
    requires CallInvariants.Represented(N, m, a)
    requires Window(N, a.dev.log) == Window(N, Stream.FlattenEach(Stream.Groups([], chunks).0))
    requires a.dev.pending == Flatten(Stream.Groups([], chunks).1)
    ensures HoldsStream(N, m, chunks, a.lost)
  {
    var w := Window(N, a.dev.log);
    forall c | 0 <= c < |w| ensures WalkMeets(N, m, c, w[c]) {
      CallInvariants.SlotBytes(N, m, a.dev.log, c);
    }
  }

  /** Any number of threads, any interleaving: whenever the mutex is free, memory holds the stream of
      all chunks accepted so far. */
  lemma MemoryHoldsTheStream(N: Capacity, files: nat, threads: nat, es: seq<Event>, s: System)
    requires Execute(N, Initial(N, files, threads), es) == Some(s) && s.holder.None?
    ensures AllLegal(s.calls, files)
    ensures HoldsStream(N, s.m, Stream.Accepted(N, files, s.calls), Run(N, Fresh(files), s.calls).lost)
  {
    Linearizability.Linearizable(N, files, threads, es, s);
    Stream.CommandsAreSplit(N, files, s.calls);
    RepresentedHoldsStream(N, s.m, Run(N, Fresh(files), s.calls), Stream.Accepted(N, files, s.calls));
  }

  /** Any number of threads, any interleaving: as long as at most `N` commands have been committed, the
      position of every open file lies inside the flat file whenever the mutex is free. */
  lemma PositionsSafeConcurrently(N: Capacity, files: nat, threads: nat, es: seq<Event>, s: System)
    requires Execute(N, Initial(N, files, threads), es) == Some(s) && s.holder.None?
    ensures AllLegal(s.calls, files) && |s.m.pos| == files
    ensures var log := Run(N, Fresh(files), s.calls).dev.log;
      |log| <= N ==> forall h :: 0 <= h < files ==> s.m.pos[h] <= |Contents(N, log)|
  {
    Linearizability.Linearizable(N, files, threads, es, s);
    if |Run(N, Fresh(files), s.calls).dev.log| <= N {
      Positions.RunKeepsRange(N, Fresh(files), s.calls);
    }
  }
}
