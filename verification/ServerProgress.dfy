/** The server cannot deadlock and cannot run forever: in every run some thread can move until all are
    done, every step of every thread uses up a bounded amount of work, and at the end all locks are free. */
module ServerProgress {
  import opened Bytes
  import opened CommandLog
  import opened DeviceSpec
  import opened Stream
  import opened Sessions
  import opened ServerMachine
  import opened ServerSafety

  // ----- no deadlock -----------------------------------------------------------------------------------

  /** A thread that is not done can move if the locks it waits for are free, with a suitable choice. */
  lemma CanMove(s: Server, t: nat)
    requires t < |s.threads| && OnScript(s.threads[t]) && Pacing(s.threads[t].pc) && !s.threads[t].pc.Ended?
    requires WantsSession(s.threads[t].pc) ==> s.locks.session.None?
    requires WantsFile(s.threads[t].pc) ==> s.locks.file.None?
    requires WantsSend(s.threads[t].pc) ==> s.locks.send.None?
    requires WantsDev(s.threads[t].pc) ==> s.locks.dev.None?
    ensures Enabled(s, t, Choice(true, 1))
  {
  }

  /** A write is under way only with bytes to write. */
  predicate Pacing(pc: Pc) {
    pc.Saving? && (pc.save.PutsWait? || pc.save.PutsIn? || pc.save.FlushWait? || pc.save.FlushIn?) ==> pc.rest != []
  }

  lemma ThreadKeepsPacing(parse: Parse, th: Thread, ch: Choice, ans: Answer)
    requires Fits(th, ch) && Pacing(th.pc)
    ensures Pacing(NextThread(parse, th, ch, ans).pc)
  {
  }

  /** While any thread is not done, some thread can move: the one furthest along the order session
      mutex, file or send mutex, device mutex. */
  lemma SomeoneCanMove(s: Server) returns (t: nat)
    requires LocksHold(s) && exists u :: 0 <= u < |s.threads| && !s.threads[u].pc.Ended?
    requires forall u {:trigger s.threads[u]} :: 0 <= u < |s.threads| ==> OnScript(s.threads[u]) && Pacing(s.threads[u].pc)
    ensures Enabled(s, t, Choice(true, 1))
  {
    if s.locks.dev.Some? {
      t := s.locks.dev.value;
    } else if s.locks.send.Some? {
      t := s.locks.send.value;
    } else if s.locks.file.Some? {
      t := s.locks.file.value;
    } else if s.locks.session.Some? {
      t := s.locks.session.value;
    } else {
      t :| 0 <= t < |s.threads| && !s.threads[t].pc.Ended?;
    }
    CanMove(s, t);
  }

  // ----- bounded work ----------------------------------------------------------------------------------

  /** Steps left in serving a seek, when the device never holds more than `bound` bytes. */
  function SeekWork(bound: nat, at: SeekPc): nat {
    match at
    case SeekOpen(_, _) => 3 * bound + 7
    case SeekWait(_, _) => 3 * bound + 6
    case SeekIn(_, _) => 3 * bound + 5
    case DrainWait(d) => 4 + 3 * Left(bound, d.pos)
    case DrainIn(d) => 3 + 3 * Left(bound, d.pos)
    case DrainSend(d, _) => 5 + 3 * Left(bound, d.pos)
  }

  function Left(bound: nat, pos: nat): nat {
    if pos < bound then bound - pos else 0
  }

  function SaveWork(steps: nat, rest: Bytes, at: SavePc): nat {
    5 * steps + 3 * |rest| +
    match at
    case FileWait => 13
    case PutsHeld => 12
    case PutsWait => 11
    case PutsIn => 10
    case FlushHeld => 9
    case FlushWait => 8
    case FlushIn => 7
  }

  function SendWork(n: nat, at: SendPc): nat {
    5 * n +
    match at
    case Fread => 4
    case ReadWait => 6
    case ReadIn => 5
    case SendWait => 6
    case SendHeld => 5
  }

  /** Enough work for a chunk not yet received, whichever way it is taken. */
  function ChunkWork(bound: nat, c: Chunk): nat {
    3 * bound + 5 * c.steps + 3 * |c.data| + 20
  }

  function TodoWork(bound: nat, todo: seq<Chunk>): nat {
    if todo == [] then 0 else ChunkWork(bound, todo[0]) + TodoWork(bound, todo[1..])
  }

  /** Work at a program point, not counting the chunks to come. */
  function PcWork(bound: nat, pc: Pc): nat {
    match pc
    case Open => 4
    case Start => 3
    case Recv => 2
    case Seeking(_, at) => SeekWork(bound, at)
    case Saving(c, rest, at) => SaveWork(c.steps, rest, at)
    case Sending(_, n, at) => SendWork(n, at)
    case Unlock => 1
    case ReaderWait(n) => 2 * n + 2
    case ReaderIn(n) => 2 * n + 1
    case Ended => 0
  }

  function Work(bound: nat, th: Thread): nat {
    if th.pc.Ended? then 0 else TodoWork(bound, th.todo) + PcWork(bound, th.pc)
  }

  lemma ReceiveWorks(parse: Parse, bound: nat, c: Chunk)
    ensures PcWork(bound, Receive(parse, c)) <= ChunkWork(bound, c)
  {
  }

  /** A read that yields bytes moves the position on, but not past the bound. */
  predicate MovesWithin(bound: nat, p: nat, ans: Answer) {
    ans.reply.Data? && ans.reply.bytes != [] ==> p < ans.pos <= bound
  }

  /** A step other than a receive leaves less work at the program point. */
  lemma PcWorks(parse: Parse, bound: nat, th: Thread, ch: Choice, ans: Answer)
    requires Fits(th, ch) && !th.pc.Ended? && !th.pc.Recv?
    requires th.pc.Seeking? && th.pc.seek.DrainIn? ==> MovesWithin(bound, th.pc.seek.d.pos, ans)
    ensures var th' := NextThread(parse, th, ch, ans);
      th'.todo == th.todo && PcWork(bound, th'.pc) < PcWork(bound, th.pc)
  {
    match th.pc
    case Seeking(c, at) => SeekWorks(bound, c, at, ch, ans);
    case Saving(c, rest, at) => SaveWorks(bound, c, rest, at, ch);
    case Sending(c, n, at) => SendWorks(bound, c, n, at, ch);
    case _ =>
  }

  /** Each step of a thread leaves it less work, as long as the device stays within the bound. */
  lemma StepWorks(N: Capacity, parse: Parse, bound: nat, dev: Dev, th: Thread, ch: Choice, ans: Answer)
    requires Fits(th, ch) && !th.pc.Ended? && |Contents(N, dev.log)| <= bound && Truthful(N, dev, th.pc, ans)
    ensures Work(bound, NextThread(parse, th, ch, ans)) < Work(bound, th)
  {
    if th.pc.Recv? {
      ReceiveWorks(parse, bound, th.todo[0]);
    } else {
      PcWorks(parse, bound, th, ch, ans);
    }
  }

  lemma SeekWorks(bound: nat, c: Chunk, at: SeekPc, ch: Choice, ans: Answer)
    requires at.DrainIn? ==> MovesWithin(bound, at.d.pos, ans)
    ensures PcWork(bound, NextSeek(c, at, ch, ans)) < SeekWork(bound, at)
  {
  }

  lemma SaveWorks(bound: nat, c: Chunk, rest: Bytes, at: SavePc, ch: Choice)
    requires at.PutsIn? || at.FlushIn? ==> 0 < ch.n <= |rest|
    ensures PcWork(bound, NextSave(c, rest, at, ch)) < SaveWork(c.steps, rest, at)
  {
  }

  lemma SendWorks(bound: nat, c: Chunk, n: nat, at: SendPc, ch: Choice)
    ensures PcWork(bound, NextSend(c, n, at, ch)) < SendWork(n, at)
  {
  }

  // ----- sums over all threads ---------------------------------------------------------------------------

  function Sum(threads: seq<Thread>, f: Thread -> nat): nat {
    if threads == [] then 0 else f(threads[0]) + Sum(threads[1..], f)
  }

  lemma {:induction false} SumUpdate(threads: seq<Thread>, t: nat, th: Thread, f: Thread -> nat)
    requires t < |threads|
    ensures Sum(threads[t := th], f) + f(threads[t]) == Sum(threads, f) + f(th)
  {
    var threads' := threads[t := th];
    if t == 0 {
      assert threads'[1..] == threads[1..];
    } else {
      SumUpdate(threads[1..], t - 1, th, f);
      assert threads'[1..] == threads[1..][t - 1 := th];
    }
  }

  /** The bytes a thread may still bring to the device. */
  function Claim(parse: Parse, th: Thread): nat {
    if th.pc.Ended? || th.pc.ReaderWait? || th.pc.ReaderIn? then 0 else |Owed(parse, th)|
  }

  /** The bytes in the device and all those that may still come. */
  function Total(parse: Parse, s: Server): nat {
    |Received(s.dev)| + Sum(s.threads, th => Claim(parse, th))
  }

  lemma ContentsBounded(N: Capacity, parse: Parse, s: Server)
    ensures |Contents(N, s.dev.log)| <= Total(parse, s)
  {
    WindowConserves(N, s.dev.log);
  }

  lemma ClaimMoves(parse: Parse, dev: Dev, th: Thread, ch: Choice, ans: Answer)
    requires Fits(th, ch) && OnScript(th)
    ensures |Received(NextDev(dev, th, ch))| + Claim(parse, NextThread(parse, th, ch, ans)) <=
      |Received(dev)| + Claim(parse, th)
  {
    if HoldsSession(th.pc) {
      OwedMoves(parse, dev, th, ch, ans);
    }
  }

  lemma StepKeepsTotal(N: Capacity, parse: Parse, s: Server, t: nat, ch: Choice)
    requires Enabled(s, t, ch) && OnScript(s.threads[t])
    ensures Total(parse, Step(N, parse, s, t, ch)) <= Total(parse, s)
  {
    var ans := AnswerTo(N, s.dev, s.threads[t].pc);
    ClaimMoves(parse, s.dev, s.threads[t], ch, ans);
    SumUpdate(s.threads, t, NextThread(parse, s.threads[t], ch, ans), th => Claim(parse, th));
  }

  function TotalWork(bound: nat, s: Server): nat {
    Sum(s.threads, th => Work(bound, th))
  }

  lemma StepUsesWork(N: Capacity, parse: Parse, bound: nat, s: Server, t: nat, ch: Choice)
    requires Enabled(s, t, ch) && Total(parse, s) <= bound
    ensures TotalWork(bound, Step(N, parse, s, t, ch)) < TotalWork(bound, s)
  {
    ContentsBounded(N, parse, s);
    var ans := AnswerTo(N, s.dev, s.threads[t].pc);
    AnswerTruthful(N, s.dev, s.threads[t].pc);
    StepWorks(N, parse, bound, s.dev, s.threads[t], ch, ans);
    SumUpdate(s.threads, t, NextThread(parse, s.threads[t], ch, ans), th => Work(bound, th));
  }

  // ----- every interleaving --------------------------------------------------------------------------------

  ghost predicate AllPacing(s: Server) {
    forall t {:trigger s.threads[t]} :: 0 <= t < |s.threads| ==> Pacing(s.threads[t].pc)
  }

  lemma {:induction false} ExecutionWorks(N: Capacity, parse: Parse, scripts: seq<seq<Chunk>>, s0: Server,
        es: seq<(nat, Choice)>)
    requires Initial(scripts, s0) && Execute(N, parse, s0, es).Some?
    ensures var s := Execute(N, parse, s0, es).value;
      var bound := Total(parse, s0);
      && AllPacing(s)
      && Total(parse, s) <= bound
      && |es| + TotalWork(bound, s) <= TotalWork(bound, s0)
  {
    if es != [] {
      var front := es[..|es| - 1];
      var (t, ch) := es[|es| - 1];
      ExecutionWorks(N, parse, scripts, s0, front);
      ExecutionSafe(N, parse, scripts, s0, front);
      var s := Execute(N, parse, s0, front).value;
      StepKeepsTotal(N, parse, s, t, ch);
      StepUsesWork(N, parse, Total(parse, s0), s, t, ch);
      ThreadKeepsPacing(parse, s.threads[t], ch, AnswerTo(N, s.dev, s.threads[t].pc));
    }
  }

  ghost predicate AllEnded(s: Server) {
    forall t {:trigger s.threads[t]} :: 0 <= t < |s.threads| ==> s.threads[t].pc.Ended?
  }

  /** Being stuck and being done are the same, and then every mutex is free. */
  lemma StuckIsDone(s: Server)
    requires LocksHold(s) && AllPacing(s)
    requires forall t {:trigger s.threads[t]} :: 0 <= t < |s.threads| ==> OnScript(s.threads[t])
    ensures AllEnded(s) <==> forall t, ch :: !Enabled(s, t, ch)
    ensures AllEnded(s) ==> s.locks == Locks(None, None, None, None)
  {
    if !AllEnded(s) {
      var t := SomeoneCanMove(s);
      assert Enabled(s, t, Choice(true, 1));
    } else {
      assert s.locks.session.Some? ==> HoldsSession(s.threads[s.locks.session.value].pc);
      assert s.locks.file.Some? ==> HoldsFile(s.threads[s.locks.file.value].pc);
      assert s.locks.send.Some? ==> HoldsSend(s.threads[s.locks.send.value].pc);
      assert s.locks.dev.Some? ==> HoldsDev(s.threads[s.locks.dev.value].pc);
    }
  }

  /** Every interleaving is finite, with a bound known from the start; it can be continued exactly while
      some thread is not done; and when all are done every mutex is free. */
  lemma ServerTerminates(N: Capacity, parse: Parse, scripts: seq<seq<Chunk>>, s0: Server, es: seq<(nat, Choice)>,
                         s: Server)
    requires Initial(scripts, s0) && Execute(N, parse, s0, es) == Some(s)
    ensures |es| <= TotalWork(Total(parse, s0), s0)
    ensures AllEnded(s) <==> forall t, ch :: !Enabled(s, t, ch)
    ensures AllEnded(s) ==> s.locks == Locks(None, None, None, None)
  {
    ExecutionWorks(N, parse, scripts, s0, es);
    ExecutionSafe(N, parse, scripts, s0, es);
    StuckIsDone(s);
  }
}
