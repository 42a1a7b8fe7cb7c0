/** The server and the driver put together: connection threads whose device calls are the driver's
    micro-steps over shared memory. Whatever such a system does is a run of the server machine, in which
    a device call is one step on the specified device. */
module ServerOnDriver {
  import opened Bytes
  import opened CommandLog
  import opened DeviceSpec
  import opened Stream
  import opened Sessions
  import opened ServerMachine
  import opened ServerSafety
  import opened ServerChunks
  import CallInvariants
  import Linearizability
  import MicroSteps
  import RingLayout
  import ServerProgress

  /** The device call under way, made by the holder of the device mutex. */
  datatype Call = Call(op: Op, pc: MicroSteps.Pc)

  /** Memory in place of the device. The last three are histories, as in the server machine. */
  datatype Whole = Whole(m: MicroSteps.Mem, call: Option<Call>, locks: Locks, threads: seq<Thread>,
                         admitted: seq<nat>, order: seq<nat>, handled: seq<Handled>)

  /** A thread takes a step of its own, or the call under way takes a micro-step. */
  datatype Event = Go(t: nat, ch: Choice) | Inside(slack: nat)

  // ----- the device calls of the threads ---------------------------------------------------------------

  /** How many bytes a write system call hands over is chosen before it is made. */
  predicate CallFits(pc: Pc, ch: Choice) {
    pc.Saving? && (pc.save.PutsWait? || pc.save.FlushWait?) ==> 0 < ch.n <= |pc.rest|
  }

  /** The call thread `t` makes from `pc`. Of the open files, `t` is the one it seeks in, and `T + t` its
      long-lived one, when there are `T` threads. */
  function CallFrom(T: nat, t: nat, pc: Pc, ch: Choice): Op
    requires CallFits(pc, ch) && WantsDev(pc)
  {
    match pc
    case Seeking(_, at) => if at.SeekWait? then SeekTo(t, at.cmd, at.off) else Read(t, MAXBUFFER, MAXBUFFER)
    case Saving(_, rest, _) => Write(rest[..ch.n], ch.n, true, [])
    case Sending(_, _, _) => Read(T + t, MAXBUFFER, MAXBUFFER)
    case _ => Read(t, MAXBUFFER, MAXBUFFER)
  }

  /** `op` is the call thread `t` is in when it stands at `pc`. */
  predicate InCall(T: nat, t: nat, pc: Pc, op: Op)
    requires HoldsDev(pc)
  {
    match pc
    case Seeking(_, at) => op == if at.SeekIn? then SeekTo(t, at.cmd, at.off) else Read(t, MAXBUFFER, MAXBUFFER)
    case Saving(_, rest, _) => op.Write? && 0 < op.taken <= |rest| && op == Write(rest[..op.taken], op.taken, true, [])
    case Sending(_, _, _) => op == Read(T + t, MAXBUFFER, MAXBUFFER)
    case _ => op == Read(t, MAXBUFFER, MAXBUFFER)
  }

  // ----- steps of the whole ----------------------------------------------------------------------------

  predicate Enabled(N: Capacity, w: Whole, e: Event) {
    match e
    case Go(t, ch) =>
      && t < |w.threads| && |w.m.pos| == 2 * |w.threads|
      && var pc := w.threads[t].pc;
         && Fits(w.threads[t], ch) && Free(w.locks, pc) && CallFits(pc, ch)
         && (HoldsDev(pc) ==>
               && w.call.Some? && w.call.value.pc.Finished?
               && InCall(|w.threads|, t, pc, w.call.value.op)
               && (Writing(pc) ==> ch.n == w.call.value.op.taken))
    case Inside(_) =>
      && w.call.Some? && !w.call.value.pc.Finished?
      && MicroSteps.Safe(N, w.call.value.op, w.m, w.call.value.pc)
  }

  /** What the call of a thread has returned, and where its file then stands. */
  function Returned(w: Whole, t: nat): Answer
    requires t < |w.threads| && |w.m.pos| == 2 * |w.threads|
    requires HoldsDev(w.threads[t].pc) ==> w.call.Some? && w.call.value.pc.Finished?
  {
    if HoldsDev(w.threads[t].pc) then Answer(w.call.value.pc.reply, w.m.pos[t]) else Answer(Done, 0)
  }

  function Step(N: Capacity, parse: Parse, w: Whole, e: Event): Whole
    requires Enabled(N, w, e)
  {
    match e
    case Go(t, ch) =>
      var th, ans := w.threads[t], Returned(w, t);
      var th' := NextThread(parse, th, ch, ans);
      Whole(w.m,
            if WantsDev(th.pc) then Some(Call(CallFrom(|w.threads|, t, th.pc, ch), MicroSteps.Begin))
            else if HoldsDev(th.pc) then None else w.call,
            NextLocks(w.locks, t, th.pc, th'.pc),
            w.threads[t := th'],
            if th.pc.Open? && ch.ok then w.admitted + [t] else w.admitted,
            if th.pc.Start? then w.order + [t] else w.order,
            w.handled + LeftBy(th.pc, th'.pc, ch, ans))
    case Inside(slack) =>
      var (m, pc) := MicroSteps.MicroStep(N, w.call.value.op, w.m, w.call.value.pc, slack);
      w.(m := m, call := Some(w.call.value.(pc := pc)))
  }

  /** Memory as module initialisation leaves it, with two files for each thread. */
  function Start(N: Capacity, threads: seq<Thread>): Whole {
    Whole(MicroSteps.Initial(N, 2 * |threads|, 0).m, None, Locks(None, None, None, None), threads, [], [], [])
  }

  ghost function Execute(N: Capacity, parse: Parse, w: Whole, es: seq<Event>): Option<Whole> {
    if es == [] then Some(w)
    else
      match Execute(N, parse, w, es[..|es| - 1])
      case None => None
      case Some(w') => if Enabled(N, w', es[|es| - 1]) then Some(Step(N, parse, w', es[|es| - 1])) else None
  }

  // ----- the server machine it refines -------------------------------------------------------------------

  function StartServer(threads: seq<Thread>): Server {
    Server(Dev([], []), Locks(None, None, None, None), threads, Dev([], []), [], [], [], [], [])
  }

  /** The steps of the threads themselves. */
  function Visible(es: seq<Event>): seq<(nat, Choice)> {
    if es == [] then []
    else
      var front, e := Visible(es[..|es| - 1]), es[|es| - 1];
      if e.Go? then front + [(e.t, e.ch)] else front
  }

  /** Both machines are at the same point, but for how they hold the device. */
  ghost predicate SamePoint(w: Whole, s: Server) {
    && w.threads == s.threads && w.locks == s.locks
    && w.admitted == s.admitted && w.order == s.order && w.handled == s.handled
  }

  /** The file each drain reads stands where the drain says. */
  ghost predicate FilesMatch(threads: seq<Thread>, pos: seq<nat>) {
    && |pos| == 2 * |threads|
    && forall t {:trigger threads[t]} :: 0 <= t < |threads| && Draining(threads[t].pc) ==>
         pos[t] == threads[t].pc.seek.d.pos
  }

  /** Memory represents `a` when the device mutex is free, and otherwise the call of its holder is under
      way since `a`. */
  ghost predicate MemoryMatches(N: Capacity, m: MicroSteps.Mem, call: Option<Call>, holder: Option<nat>,
                                threads: seq<Thread>, a: Abs)
  {
    match holder
    case None => call.None? && CallInvariants.Represented(N, m, a)
    case Some(h) =>
      && call.Some? && CallInvariants.CallHolds(N, a, call.value.op, m, call.value.pc)
      && h < |threads| && HoldsDev(threads[h].pc) && InCall(|threads|, h, threads[h].pc, call.value.op)
  }

  ghost predicate Refines(N: Capacity, w: Whole, s: Server, a: Abs) {
    && SamePoint(w, s) && a.dev == s.dev && !a.lost
    && FilesMatch(w.threads, a.pos)
    && MemoryMatches(N, w.m, w.call, w.locks.dev, w.threads, a)
  }

  // ----- one step --------------------------------------------------------------------------------------

  /** A micro-step of the call is safe and invisible to the server machine. */
  lemma InsideRefines(N: Capacity, parse: Parse, w: Whole, slack: nat, s: Server, a: Abs)
    requires Refines(N, w, s, a) && Enabled(N, w, Inside(slack))
    ensures Refines(N, Step(N, parse, w, Inside(slack)), s, a)
  {
    Linearizability.MicroStepHolds(N, a, w.call.value.op, w.m, w.call.value.pc, slack);
  }

  /** A thread in a call has called what `InCall` says, and one that enters a call will have. */
  lemma CallsFit(T: nat, t: nat, parse: Parse, th: Thread, ch: Choice, ans: Answer)
    requires t < T && Fits(th, ch) && CallFits(th.pc, ch)
    ensures var pc' := NextThread(parse, th, ch, ans).pc;
      && (HoldsDev(pc') <==> WantsDev(th.pc))
      && (WantsDev(th.pc) ==>
            && Legal(CallFrom(T, t, th.pc, ch), 2 * T) && InCall(T, t, pc', CallFrom(T, t, th.pc, ch))
            && (Draining(pc') ==> Draining(th.pc) && pc'.seek.d.pos == th.pc.seek.d.pos))
  {
    if th.pc.Saving? && WantsDev(th.pc) {
      assert |th.pc.rest[..ch.n]| == ch.n;
    }
  }

  /** What the specified call does to the device and the files, and what it returns. */
  lemma CallApplies(N: Capacity, T: nat, t: nat, th: Thread, ch: Choice, op: Op, a: Abs)
    requires t < T && |a.pos| == 2 * T && HoldsDev(th.pc) && Fits(th, ch)
    requires InCall(T, t, th.pc, op) && Legal(op, 2 * T) && (Writing(th.pc) ==> ch.n == op.taken)
    requires !a.lost && (Draining(th.pc) ==> a.pos[t] == th.pc.seek.d.pos)
    ensures var (a', reply) := Apply(N, a, op);
      && !a'.lost && a'.dev == NextDev(a.dev, th, ch)
      && (forall u :: 0 <= u < T && u != t ==> a'.pos[u] == a.pos[u])
      && (th.pc.Seeking? ==> SameAnswer(th.pc, Answer(reply, a'.pos[t]), AnswerTo(N, a.dev, th.pc)))
  {
    if Writing(th.pc) {
      assert op.data[..op.taken] == th.pc.rest[..ch.n];
    }
  }

  /** Two answers a seeking thread treats alike. */
  predicate SameAnswer(pc: Pc, x: Answer, y: Answer) {
    x.reply == y.reply && (x.reply == Done || x.reply.Data? ==> x.pos == y.pos)
  }

  lemma SameNext(parse: Parse, th: Thread, ch: Choice, x: Answer, y: Answer)
    requires Fits(th, ch)
    requires if HoldsDev(th.pc) then th.pc.Seeking? ==> SameAnswer(th.pc, x, y) else x.reply == y.reply
    ensures NextThread(parse, th, ch, x) == NextThread(parse, th, ch, y)
    ensures var pc' := NextThread(parse, th, ch, x).pc; LeftBy(th.pc, pc', ch, x) == LeftBy(th.pc, pc', ch, y)
  {
  }

  /** The conditions under which a thread of both machines takes the same step. */
  lemma GoEnabled(N: Capacity, w: Whole, s: Server, a: Abs, t: nat, ch: Choice)
    requires Refines(N, w, s, a) && Enabled(N, w, Go(t, ch))
    ensures ServerMachine.Enabled(s, t, ch)
  {
  }

  /** All but the device moves on alike when the thread sees the same. */
  lemma SamePointMoves(N: Capacity, parse: Parse, w: Whole, s: Server, t: nat, ch: Choice, ans: Answer)
    requires SamePoint(w, s) && Enabled(N, w, Go(t, ch)) && ServerMachine.Enabled(s, t, ch)
    requires var th := s.threads[t];
      && NextThread(parse, th, ch, ans) == NextThread(parse, th, ch, Returned(w, t))
      && var pc' := NextThread(parse, th, ch, ans).pc;
         LeftBy(th.pc, pc', ch, ans) == LeftBy(th.pc, pc', ch, Returned(w, t))
    ensures SamePoint(Step(N, parse, w, Go(t, ch)), StepOn(parse, s, t, ch, ans))
  {
  }

  lemma FilesMatchNext(threads: seq<Thread>, t: nat, th: Thread, pos: seq<nat>, pos': seq<nat>)
    requires FilesMatch(threads, pos) && t < |threads| && |pos'| == |pos|
    requires forall u :: 0 <= u < |threads| && u != t ==> pos'[u] == pos[u]
    requires Draining(th.pc) ==> pos'[t] == th.pc.seek.d.pos
    ensures FilesMatch(threads[t := th], pos')
  {
  }

  /** A drain that goes on after a step of its thread stands where the call left the file. */
  lemma DrainFollows(N: Capacity, parse: Parse, dev: Dev, th: Thread, ch: Choice)
    requires Fits(th, ch)
    ensures var ans := AnswerTo(N, dev, th.pc);
      var pc' := NextThread(parse, th, ch, ans).pc;
      && (Draining(pc') && HoldsDev(th.pc) ==>
            pc'.seek.d.pos == ans.pos && th.pc.Seeking? && (ans.reply == Done || ans.reply.Data?))
      && (Draining(pc') && !HoldsDev(th.pc) ==> Draining(th.pc) && pc'.seek.d.pos == th.pc.seek.d.pos)
  {
  }

  /** A step that enters a device call. */
  lemma CallStarts(N: Capacity, parse: Parse, w: Whole, s: Server, a: Abs, t: nat, ch: Choice)
    requires Refines(N, w, s, a) && Enabled(N, w, Go(t, ch)) && WantsDev(w.threads[t].pc)
    ensures ServerMachine.Enabled(s, t, ch)
    ensures Refines(N, Step(N, parse, w, Go(t, ch)), ServerMachine.Step(N, parse, s, t, ch), a)
  {
    var th, ans, T := s.threads[t], AnswerTo(N, s.dev, s.threads[t].pc), |w.threads|;
    var op := CallFrom(T, t, th.pc, ch);
    GoEnabled(N, w, s, a, t, ch);
    CallsFit(T, t, parse, th, ch, ans);
    CallInvariants.CallBegins(N, a, op, w.m);
    SameNext(parse, th, ch, ans, Returned(w, t));
    SamePointMoves(N, parse, w, s, t, ch, ans);
    DrainFollows(N, parse, s.dev, th, ch);
    FilesMatchNext(w.threads, t, NextThread(parse, th, ch, ans), a.pos, a.pos);
  }

  /** What the finished call has done to memory, and what its thread gets to see. */
  lemma CallReturns(N: Capacity, w: Whole, s: Server, a: Abs, t: nat, ch: Choice) returns (a': Abs)
    requires Refines(N, w, s, a) && Enabled(N, w, Go(t, ch)) && HoldsDev(w.threads[t].pc) && w.locks.dev == Some(t)
    ensures CallInvariants.Represented(N, w.m, a')
    ensures a'.dev == NextDev(s.dev, w.threads[t], ch) && !a'.lost && |a'.pos| == |a.pos|
    ensures forall u :: 0 <= u < |w.threads| && u != t ==> a'.pos[u] == a.pos[u]
    ensures Returned(w, t).pos == a'.pos[t]
    ensures w.threads[t].pc.Seeking? ==>
      SameAnswer(w.threads[t].pc, AnswerTo(N, s.dev, w.threads[t].pc), Returned(w, t))
  {
    var op := w.call.value.op;
    CallInvariants.CallFinished(N, a, op, w.m, w.call.value.pc);
    CallApplies(N, |w.threads|, t, w.threads[t], ch, op, a);
    a' := Apply(N, a, op).0;
  }

  /** A step that leaves a device call. */
  lemma CallEnds(N: Capacity, parse: Parse, w: Whole, s: Server, a: Abs, t: nat, ch: Choice) returns (a': Abs)
    requires Refines(N, w, s, a) && Enabled(N, w, Go(t, ch)) && HoldsDev(w.threads[t].pc) && w.locks.dev == Some(t)
    ensures ServerMachine.Enabled(s, t, ch)
    ensures Refines(N, Step(N, parse, w, Go(t, ch)), ServerMachine.Step(N, parse, s, t, ch), a')
  {
    var th, ans := s.threads[t], AnswerTo(N, s.dev, s.threads[t].pc);
    GoEnabled(N, w, s, a, t, ch);
    a' := CallReturns(N, w, s, a, t, ch);
    SameNext(parse, th, ch, ans, Returned(w, t));
    SamePointMoves(N, parse, w, s, t, ch, ans);
    CallsFit(|w.threads|, t, parse, th, ch, ans);
    DrainFollows(N, parse, s.dev, th, ch);
    FilesMatchNext(w.threads, t, NextThread(parse, th, ch, ans), a.pos, a'.pos);
  }

  /** Any other step of a thread. */
  lemma ElsewhereSame(N: Capacity, parse: Parse, w: Whole, s: Server, a: Abs, t: nat, ch: Choice)
    requires Refines(N, w, s, a) && Enabled(N, w, Go(t, ch))
    requires !WantsDev(w.threads[t].pc) && !HoldsDev(w.threads[t].pc) && w.locks.dev != Some(t)
    ensures ServerMachine.Enabled(s, t, ch)
    ensures Refines(N, Step(N, parse, w, Go(t, ch)), ServerMachine.Step(N, parse, s, t, ch), a)
  {
    var th, ans := s.threads[t], AnswerTo(N, s.dev, s.threads[t].pc);
    GoEnabled(N, w, s, a, t, ch);
    CallsFit(|w.threads|, t, parse, th, ch, ans);
    SameNext(parse, th, ch, ans, Returned(w, t));
    SamePointMoves(N, parse, w, s, t, ch, ans);
    DrainFollows(N, parse, s.dev, th, ch);
    FilesMatchNext(w.threads, t, NextThread(parse, th, ch, ans), a.pos, a.pos);
  }

  // ----- every interleaving ------------------------------------------------------------------------------

  lemma GoRefines(N: Capacity, parse: Parse, w: Whole, s: Server, a: Abs, t: nat, ch: Choice) returns (a': Abs)
    requires Refines(N, w, s, a) && LocksHold(s) && Enabled(N, w, Go(t, ch))
    ensures ServerMachine.Enabled(s, t, ch)
    ensures Refines(N, Step(N, parse, w, Go(t, ch)), ServerMachine.Step(N, parse, s, t, ch), a')
  {
    assert HoldsDev(s.threads[t].pc) <==> s.locks.dev == Some(t);
    if HoldsDev(w.threads[t].pc) {
      a' := CallEnds(N, parse, w, s, a, t, ch);
    } else if WantsDev(w.threads[t].pc) {
      CallStarts(N, parse, w, s, a, t, ch);
      a' := a;
    } else {
      ElsewhereSame(N, parse, w, s, a, t, ch);
      a' := a;
    }
  }

  lemma StartRefines(N: Capacity, scripts: seq<seq<Chunk>>, threads: seq<Thread>)
    requires ServerMachine.Initial(scripts, StartServer(threads))
    ensures Refines(N, Start(N, threads), StartServer(threads), Fresh(2 * |threads|))
  {
    Linearizability.InitialLinear(N, 2 * |threads|, 0);
  }

  lemma VisibleSnoc(es: seq<Event>)
    requires es != []
    ensures var front, e := Visible(es[..|es| - 1]), es[|es| - 1];
      Visible(es) == if e.Go? then front + [(e.t, e.ch)] else front
  {
  }

  lemma ServerSnoc(N: Capacity, parse: Parse, s0: Server, es: seq<(nat, Choice)>, s: Server, t: nat, ch: Choice)
    requires ServerMachine.Execute(N, parse, s0, es) == Some(s) && ServerMachine.Enabled(s, t, ch)
    ensures ServerMachine.Execute(N, parse, s0, es + [(t, ch)]) == Some(ServerMachine.Step(N, parse, s, t, ch))
  {
    assert (es + [(t, ch)])[..|es|] == es;
  }

  /** Whatever server threads and driver micro-steps do together, in any interleaving, is a run of the
      server machine: the same steps of the same threads, with the micro-steps left out. The threads, the
      mutexes, what was sent and the order of sessions are the same at every point, and whenever the
      device mutex is free memory represents the device of that run. */
  lemma {:induction false} WholeRefines(N: Capacity, parse: Parse, scripts: seq<seq<Chunk>>, threads: seq<Thread>,
                                        es: seq<Event>, w: Whole) returns (s: Server, a: Abs)
    requires ServerMachine.Initial(scripts, StartServer(threads))
    requires Execute(N, parse, Start(N, threads), es) == Some(w)
    ensures ServerMachine.Execute(N, parse, StartServer(threads), Visible(es)) == Some(s)
    ensures Refines(N, w, s, a)
    decreases |es|
  {
    if es == [] {
      StartRefines(N, scripts, threads);
      s, a := StartServer(threads), Fresh(2 * |threads|);
    } else {
      var front, e := es[..|es| - 1], es[|es| - 1];
      var w' := Execute(N, parse, Start(N, threads), front).value;
      var s', a' := WholeRefines(N, parse, scripts, threads, front, w');
      ExecutionSafe(N, parse, scripts, StartServer(threads), Visible(front));
      VisibleSnoc(es);
      if e.Go? {
        a := GoRefines(N, parse, w', s', a', e.t, e.ch);
        s := ServerMachine.Step(N, parse, s', e.t, e.ch);
        ServerSnoc(N, parse, StartServer(threads), Visible(front), s', e.t, e.ch);
      } else {
        InsideRefines(N, parse, w', e.slack, s', a');
        s, a := s', a';
      }
    }
  }

  // ----- what the server promises of memory ----------------------------------------------------------------

  /** In every interleaving, whenever session and device mutex are free, memory represents a device that has
      received exactly the payloads of the sessions so far, whole and in the order of the session mutex. */
  lemma SessionsInMemory(N: Capacity, parse: Parse, scripts: seq<seq<Chunk>>, threads: seq<Thread>,
                         es: seq<Event>, w: Whole) returns (a: Abs)
    requires ServerMachine.Initial(scripts, StartServer(threads))
    requires Execute(N, parse, Start(N, threads), es) == Some(w)
    requires w.locks.session.None? && w.locks.dev.None?
    ensures forall i :: 0 <= i < |w.order| ==> w.order[i] < |scripts|
    ensures CallInvariants.Represented(N, w.m, a) && Received(a.dev) == Served(parse, scripts, w.order)
  {
    var s;
    s, a := WholeRefines(N, parse, scripts, threads, es, w);
    SessionsSerialised(N, parse, scripts, StartServer(threads), Visible(es), s);
  }

  /** The same in terms of the received bytes: of each chunk what comes before its first NUL, and nothing if
      that is a seek command. */
  lemma MemoryReceives(N: Capacity, parse: Parse, scripts: seq<seq<Chunk>>, kept: seq<seq<Bytes>>,
                       threads: seq<Thread>, es: seq<Event>, w: Whole) returns (a: Abs)
    requires ServerMachine.Initial(scripts, StartServer(threads))
    requires Execute(N, parse, Start(N, threads), es) == Some(w)
    requires w.locks.session.None? && w.locks.dev.None?
    requires |kept| == |scripts| && forall t :: 0 <= t < |scripts| ==> Keeps(parse, scripts[t], kept[t])
    ensures forall i :: 0 <= i < |w.order| ==> w.order[i] < |kept|
    ensures CallInvariants.Represented(N, w.m, a) && Received(a.dev) == KeptInOrder(kept, w.order)
  {
    var s;
    s, a := WholeRefines(N, parse, scripts, threads, es, w);
    DeviceReceives(N, parse, scripts, kept, StartServer(threads), Visible(es), s);
  }

  /** In every interleaving of threads and micro-steps each chunk of the sessions so far is done with exactly
      once, in order and in the right way; and when all threads are done, exactly the connections whose files
      could be opened have had a session, and all their chunks are done with. */
  lemma ChunksOnDriver(N: Capacity, parse: Parse, scripts: seq<seq<Chunk>>, threads: seq<Thread>,
                       es: seq<Event>, w: Whole) returns (dates: seq<Date>)
    requires ServerMachine.Initial(scripts, StartServer(threads))
    requires Execute(N, parse, Start(N, threads), es) == Some(w)
    ensures forall i :: 0 <= i < |w.order| ==> w.order[i] < |scripts|
    ensures ChunksOf(w.handled) <= AllChunks(scripts, w.order)
    ensures w.locks.session.None? ==> ChunksOf(w.handled) == AllChunks(scripts, w.order)
    ensures |dates| == |w.handled|
    ensures forall i :: 0 <= i < |w.handled| ==> Rightly(N, parse, w.handled[i], dates[i])
    ensures (forall t {:trigger w.threads[t]} :: 0 <= t < |w.threads| ==> w.threads[t].pc.Ended?) ==>
      w.locks.session.None? && forall t :: t in w.order <==> t in w.admitted
  {
    var s, a := WholeRefines(N, parse, scripts, threads, es, w);
    ChunksInTurn(N, parse, scripts, StartServer(threads), Visible(es), s);
    dates := s.dates;
    if forall t {:trigger w.threads[t]} :: 0 <= t < |w.threads| ==> w.threads[t].pc.Ended? {
      AllServed(N, parse, scripts, StartServer(threads), Visible(es), s);
    }
  }

  /** While a thread drains, no step of any thread changes the device. */
  lemma DrainFreezes(s: Server, t: nat, u: nat, ch: Choice)
    requires LocksHold(s) && t < |s.threads| && Draining(s.threads[t].pc) && ServerMachine.Enabled(s, u, ch)
    ensures NextDev(s.dev, s.threads[u], ch) == s.dev
  {
    assert HoldsSession(s.threads[t].pc) && (HoldsSession(s.threads[u].pc) ==> u == t);
  }

  /** Thread `t` has just been told that its seek is accepted. */
  predicate JustSought(w: Whole, t: nat, d: Drain) {
    && t < |w.threads| && w.threads[t].pc.Seeking?
    && w.threads[t].pc.seek == DrainWait(Drain(d.cmd, d.off, d.start, d.start, []))
  }

  /** After the first `k` steps the whole is at `w`, nobody is in a device call, and memory represents `a`. */
  ghost predicate QuietAt(N: Capacity, parse: Parse, threads: seq<Thread>, es: seq<Event>, k: nat, w: Whole, a: Abs) {
    && k <= |es| && Execute(N, parse, Start(N, threads), es[..k]) == Some(w)
    && w.locks.dev.None? && CallInvariants.Represented(N, w.m, a)
  }

  lemma QuietLater(N: Capacity, parse: Parse, threads: seq<Thread>, es: seq<Event>, k: nat, w: Whole, a: Abs)
    requires es != [] && QuietAt(N, parse, threads, es[..|es| - 1], k, w, a)
    ensures QuietAt(N, parse, threads, es, k, w, a)
  {
    assert es[..|es| - 1][..k] == es[..k];
  }

  lemma QuietNow(N: Capacity, parse: Parse, threads: seq<Thread>, es: seq<Event>, w: Whole, s: Server, a: Abs)
    requires Execute(N, parse, Start(N, threads), es) == Some(w) && Refines(N, w, s, a) && w.locks.dev.None?
    ensures QuietAt(N, parse, threads, es, |es|, w, a)
  {
    assert es[..|es|] == es;
  }

  /** How a step of the whole moves a draining thread. */
  lemma DrainMoves(N: Capacity, parse: Parse, w: Whole, e: Event, t: nat)
    requires Enabled(N, w, e) && t < |w.threads|
    ensures var pc, pc' := w.threads[t].pc, Step(N, parse, w, e).threads[t].pc;
      Draining(pc') ==>
        if Draining(pc) then
          pc'.seek.d.cmd == pc.seek.d.cmd && pc'.seek.d.off == pc.seek.d.off && pc'.seek.d.start == pc.seek.d.start
        else
          e.Go? && e.t == t && HoldsDev(pc) && !HoldsDev(pc') && JustSought(Step(N, parse, w, e), t, pc'.seek.d)
  {
  }

  /** What an event of the whole is to the server machine. */
  ghost predicate ServerStep(N: Capacity, parse: Parse, s: Server, e: Event, s': Server) {
    if e.Inside? then s' == s
    else ServerMachine.Enabled(s, e.t, e.ch) && s' == ServerMachine.Step(N, parse, s, e.t, e.ch)
  }

  /** The last step of a run, in both machines. */
  lemma LastStep(N: Capacity, parse: Parse, scripts: seq<seq<Chunk>>, threads: seq<Thread>,
                 es: seq<Event>, w: Whole, s: Server) returns (w': Whole, s': Server, a': Abs)
    requires ServerMachine.Initial(scripts, StartServer(threads)) && es != []
    requires Execute(N, parse, Start(N, threads), es) == Some(w)
    requires ServerMachine.Execute(N, parse, StartServer(threads), Visible(es)) == Some(s)
    ensures Execute(N, parse, Start(N, threads), es[..|es| - 1]) == Some(w')
    ensures ServerMachine.Execute(N, parse, StartServer(threads), Visible(es[..|es| - 1])) == Some(s')
    ensures Refines(N, w', s', a') && LocksHold(s') && Enabled(N, w', es[|es| - 1])
    ensures w == Step(N, parse, w', es[|es| - 1])
    ensures ServerStep(N, parse, s', es[|es| - 1], s)
  {
    var front, e := es[..|es| - 1], es[|es| - 1];
    w' := Execute(N, parse, Start(N, threads), front).value;
    s', a' := WholeRefines(N, parse, scripts, threads, front, w');
    ExecutionSafe(N, parse, scripts, StartServer(threads), Visible(front));
    VisibleSnoc(es);
    if e.Go? {
      GoEnabled(N, w', s', a', e.t, e.ch);
      ServerSnoc(N, parse, StartServer(threads), Visible(front), s', e.t, e.ch);
    }
  }

  /** The device has not changed since the seek that a thread drains for. */
  lemma {:induction false} DrainSince(N: Capacity, parse: Parse, scripts: seq<seq<Chunk>>, threads: seq<Thread>,
                                      es: seq<Event>, w: Whole, s: Server, a: Abs, t: nat)
      returns (k: nat, w0: Whole, a0: Abs)
    requires ServerMachine.Initial(scripts, StartServer(threads))
    requires Execute(N, parse, Start(N, threads), es) == Some(w)
    requires ServerMachine.Execute(N, parse, StartServer(threads), Visible(es)) == Some(s)
    requires Refines(N, w, s, a) && t < |w.threads| && Draining(w.threads[t].pc)
    ensures QuietAt(N, parse, threads, es, k, w0, a0) && a0.dev == s.dev
    ensures JustSought(w0, t, w.threads[t].pc.seek.d)
    decreases |es|
  {
    assert es != [];
    var w', s', a' := LastStep(N, parse, scripts, threads, es, w, s);
    var e := es[|es| - 1];
    DrainMoves(N, parse, w', e, t);
    if Draining(w'.threads[t].pc) {
      k, w0, a0 := DrainSince(N, parse, scripts, threads, es[..|es| - 1], w', s', a', t);
      QuietLater(N, parse, threads, es, k, w0, a0);
      if e.Go? {
        DrainFreezes(s', t, e.t, e.ch);
      }
    } else {
      k, w0, a0 := |es|, w, a;
      QuietNow(N, parse, threads, es, w, s, a);
    }
  }

  /** A chunk was done with by the read that found the end of a drain. */
  predicate FinishedDrain(x: Handled) {
    x.pc.Seeking? && x.pc.seek.DrainIn?
  }

  /** A step that finishes a drain: the thread was in the last read of it, leaves the device mutex free, and
      does not change the device. */
  lemma DrainStops(N: Capacity, parse: Parse, w: Whole, s: Server, a: Abs, t: nat, ch: Choice)
    requires Refines(N, w, s, a) && LocksHold(s) && Enabled(N, w, Go(t, ch)) && ServerMachine.Enabled(s, t, ch)
    requires |Step(N, parse, w, Go(t, ch)).handled| > |w.handled| == |s.dates|
    requires FinishedDrain(Step(N, parse, w, Go(t, ch)).handled[|w.handled|])
    ensures Draining(w.threads[t].pc)
    ensures var w', s' := Step(N, parse, w, Go(t, ch)), ServerMachine.Step(N, parse, s, t, ch);
      && w'.locks.dev.None? && |w'.handled| == |w.handled| + 1 && w'.handled[|w.handled|].pc == w.threads[t].pc
      && s'.dev == s.dev && (|s'.dates| > |s.dates| ==> s'.dates[|s.dates|].end == s.dev)
  {
  }

  /** Drain `d` sent the flat file of `dev`, from the position the driver settled on for the seek, which is
      the promised one until the ring is rotated. */
  ghost predicate SentFrom(N: Capacity, d: Drain, dev: Dev) {
    && DrainedExactly(N, d, dev)
    && (RingLayout.OutOffs(N, |dev.log|) == 0 ==> PromisedPosition(N, dev.log, d.cmd, d.off) == Some(d.start))
  }

  /** A drain that the last step of a run finishes. */
  lemma DrainFinished(N: Capacity, parse: Parse, scripts: seq<seq<Chunk>>, threads: seq<Thread>,
                      es: seq<Event>, w: Whole, s: Server, a: Abs, w': Whole, s': Server, a': Abs, i: nat)
      returns (t: nat, k: nat, w0: Whole, a0: Abs)
    requires ServerMachine.Initial(scripts, StartServer(threads)) && es != []
    requires Execute(N, parse, Start(N, threads), es) == Some(w)
    requires Execute(N, parse, Start(N, threads), es[..|es| - 1]) == Some(w')
    requires ServerMachine.Execute(N, parse, StartServer(threads), Visible(es)) == Some(s)
    requires ServerMachine.Execute(N, parse, StartServer(threads), Visible(es[..|es| - 1])) == Some(s')
    requires Refines(N, w, s, a) && Refines(N, w', s', a') && LocksHold(s')
    requires Enabled(N, w', es[|es| - 1]) && w == Step(N, parse, w', es[|es| - 1])
    requires ServerStep(N, parse, s', es[|es| - 1], s)
    requires i == |w'.handled| < |w.handled| && FinishedDrain(w.handled[i])
    ensures QuietAt(N, parse, threads, es, k, w0, a0) && a0.dev == a.dev
    ensures JustSought(w0, t, w.handled[i].pc.seek.d)
    ensures w.locks.dev.None? && |w.handled| == i + 1 && SentFrom(N, w.handled[i].pc.seek.d, a.dev)
  {
    t := es[|es| - 1].t;
    ChunksInTurn(N, parse, scripts, StartServer(threads), Visible(es[..|es| - 1]), s');
    DrainStops(N, parse, w', s', a', t, es[|es| - 1].ch);
    k, w0, a0 := DrainSince(N, parse, scripts, threads, es[..|es| - 1], w', s', a', t);
    QuietLater(N, parse, threads, es, k, w0, a0);
    SeeksAnswered(N, parse, scripts, StartServer(threads), Visible(es), s, i);
  }

  /** In every interleaving each drain that ran to its end has sent the flat file of the state that memory
      represents when the drain ends, and memory represented the same device right after the seek. */
  lemma {:induction false} DrainsFromMemory(N: Capacity, parse: Parse, scripts: seq<seq<Chunk>>, threads: seq<Thread>,
                                            es: seq<Event>, w: Whole, i: nat)
      returns (t: nat, k0: nat, w0: Whole, a0: Abs, k1: nat, w1: Whole, a1: Abs)
    requires ServerMachine.Initial(scripts, StartServer(threads))
    requires Execute(N, parse, Start(N, threads), es) == Some(w)
    requires i < |w.handled| && FinishedDrain(w.handled[i])
    ensures QuietAt(N, parse, threads, es, k0, w0, a0) && JustSought(w0, t, w.handled[i].pc.seek.d)
    ensures QuietAt(N, parse, threads, es, k1, w1, a1) && k0 <= k1 && a1.dev == a0.dev
    ensures |w1.handled| == i + 1 && w1.handled[i] == w.handled[i]
    ensures SentFrom(N, w.handled[i].pc.seek.d, a1.dev)
    decreases |es|
  {
    assert es != [];
    var s, a := WholeRefines(N, parse, scripts, threads, es, w);
    var w', s', a' := LastStep(N, parse, scripts, threads, es, w, s);
    if i < |w'.handled| {
      t, k0, w0, a0, k1, w1, a1 := DrainsFromMemory(N, parse, scripts, threads, es[..|es| - 1], w', i);
      QuietLater(N, parse, threads, es, k0, w0, a0);
      QuietLater(N, parse, threads, es, k1, w1, a1);
    } else {
      t, k0, w0, a0 := DrainFinished(N, parse, scripts, threads, es, w, s, a, w', s', a', i);
      k1, w1, a1 := |es|, w, a;
      QuietNow(N, parse, threads, es, w, s, a);
    }
  }

  /** A step that can be taken next. */
  lemma NextEvent(N: Capacity, w: Whole, s: Server, a: Abs) returns (e: Event)
    requires Refines(N, w, s, a) && LocksHold(s) && ServerProgress.AllPacing(s)
    requires forall u {:trigger s.threads[u]} :: 0 <= u < |s.threads| ==> OnScript(s.threads[u])
    requires exists u :: 0 <= u < |s.threads| && !s.threads[u].pc.Ended?
    ensures Enabled(N, w, e)
  {
    var t := ServerProgress.SomeoneCanMove(s);
    if !HoldsDev(w.threads[t].pc) {
      e := Go(t, Choice(true, 1));
    } else if w.call.value.pc.Finished? {
      e := Go(t, Choice(true, if w.call.value.op.Write? then w.call.value.op.taken else 1));
    } else {
      CallSafe(N, w, s, a);
      e := Inside(0);
    }
  }

  lemma CallSafe(N: Capacity, w: Whole, s: Server, a: Abs)
    requires Refines(N, w, s, a) && w.call.Some? && !w.call.value.pc.Finished?
    ensures MicroSteps.Safe(N, w.call.value.op, w.m, w.call.value.pc)
  {
    Linearizability.MicroStepHolds(N, a, w.call.value.op, w.m, w.call.value.pc, 0);
  }

  lemma CallHasHolder(N: Capacity, w: Whole, s: Server, a: Abs)
    requires Refines(N, w, s, a) && w.call.Some?
    ensures exists h :: 0 <= h < |w.threads| && HoldsDev(w.threads[h].pc)
  {
    assert HoldsDev(w.threads[w.locks.dev.value].pc);
  }

  lemma DoneIsStuck(N: Capacity, w: Whole, e: Event)
    requires w.call.Some? ==> exists h :: 0 <= h < |w.threads| && HoldsDev(w.threads[h].pc)
    requires forall t {:trigger w.threads[t]} :: 0 <= t < |w.threads| ==> w.threads[t].pc.Ended?
    ensures !Enabled(N, w, e)
  {
  }

  // ----- every run ends ----------------------------------------------------------------------------------

  /** A bound on the micro-steps of any call a thread can make, when the device never has to hold more than
      `bound` bytes. */
  function MostSteps(N: Capacity, bound: nat): nat {
    2 * N + MAXBUFFER + bound + 20
  }

  function CallFuel(N: Capacity, call: Option<Call>): nat {
    if call.None? then 0 else Linearizability.Fuel(N, call.value.op, call.value.pc)
  }

  lemma NewCallFuel(N: Capacity, T: nat, t: nat, pc: Pc, ch: Choice, bound: nat)
    requires CallFits(pc, ch) && WantsDev(pc) && |Rest(pc)| <= bound
    ensures CallFuel(N, Some(Call(CallFrom(T, t, pc, ch), MicroSteps.Begin))) <= MostSteps(N, bound)
  {
  }

  lemma SumAtLeast(threads: seq<Thread>, t: nat, f: Thread -> nat)
    requires t < |threads|
    ensures f(threads[t]) <= ServerProgress.Sum(threads, f)
  {
    if t > 0 {
      SumAtLeast(threads[1..], t - 1, f);
    }
  }

  /** What a thread has still to write is no more than what the device may yet have to hold. */
  lemma RestBounded(parse: Parse, s: Server, t: nat, bound: nat)
    requires t < |s.threads| && ServerProgress.Total(parse, s) <= bound
    ensures |Rest(s.threads[t].pc)| <= bound
  {
    SumAtLeast(s.threads, t, th => ServerProgress.Claim(parse, th));
  }

  /** The micro-steps and steps still to come, at most. */
  function Potential(N: Capacity, bound: nat, s: Server, call: Option<Call>): nat {
    ServerProgress.TotalWork(bound, s) * (MostSteps(N, bound) + 1) + CallFuel(N, call)
  }

  lemma WorkMultiplies(x: nat, y: nat, c: nat)
    requires x < y
    ensures x * c + c <= y * c
  {
    assert y * c == x * c + (y - x) * c;
    assert (y - x) * c == c + (y - x - 1) * c;
  }

  lemma GoUsesPotential(N: Capacity, parse: Parse, bound: nat, w: Whole, s: Server, a: Abs, t: nat, ch: Choice)
    requires Refines(N, w, s, a) && Enabled(N, w, Go(t, ch)) && ServerMachine.Enabled(s, t, ch)
    requires ServerProgress.Total(parse, s) <= bound
    ensures Potential(N, bound, ServerMachine.Step(N, parse, s, t, ch), Step(N, parse, w, Go(t, ch)).call)
      < Potential(N, bound, s, w.call)
  {
    var s', call := ServerMachine.Step(N, parse, s, t, ch), Step(N, parse, w, Go(t, ch)).call;
    ServerProgress.StepUsesWork(N, parse, bound, s, t, ch);
    WorkMultiplies(ServerProgress.TotalWork(bound, s'), ServerProgress.TotalWork(bound, s), MostSteps(N, bound) + 1);
    if WantsDev(w.threads[t].pc) {
      RestBounded(parse, s, t, bound);
      NewCallFuel(N, |w.threads|, t, w.threads[t].pc, ch, bound);
    }
    assert CallFuel(N, call) <= MostSteps(N, bound) + CallFuel(N, w.call);
  }

  lemma InsideUsesPotential(N: Capacity, parse: Parse, bound: nat, w: Whole, slack: nat, s: Server)
    requires Enabled(N, w, Inside(slack))
    ensures Potential(N, bound, s, Step(N, parse, w, Inside(slack)).call) < Potential(N, bound, s, w.call)
  {
    Linearizability.FuelBurns(N, w.call.value.op, w.m, w.call.value.pc, slack);
  }

  lemma {:induction false} WholeWorks(N: Capacity, parse: Parse, scripts: seq<seq<Chunk>>, threads: seq<Thread>,
                                      es: seq<Event>, w: Whole, s: Server)
    requires ServerMachine.Initial(scripts, StartServer(threads))
    requires Execute(N, parse, Start(N, threads), es) == Some(w)
    requires ServerMachine.Execute(N, parse, StartServer(threads), Visible(es)) == Some(s)
    ensures var bound := ServerProgress.Total(parse, StartServer(threads));
      |es| + Potential(N, bound, s, w.call) <= Potential(N, bound, StartServer(threads), None)
    decreases |es|
  {
    if es != [] {
      var bound := ServerProgress.Total(parse, StartServer(threads));
      var front, e := es[..|es| - 1], es[|es| - 1];
      var w', s', a' := LastStep(N, parse, scripts, threads, es, w, s);
      WholeWorks(N, parse, scripts, threads, front, w', s');
      ServerProgress.ExecutionWorks(N, parse, scripts, StartServer(threads), Visible(front));
      if e.Go? {
        GoUsesPotential(N, parse, bound, w', s', a', e.t, e.ch);
      } else {
        InsideUsesPotential(N, parse, bound, w', e.slack, s');
      }
    }
  }

  /** Every interleaving of threads and micro-steps is finite, with a bound known from the start; the device
      call under way is memory-safe in its next step; some thread or call can take a step as long as any
      thread is not done; and when all are done every mutex is free. */
  lemma WholeTerminates(N: Capacity, parse: Parse, scripts: seq<seq<Chunk>>, threads: seq<Thread>,
                        es: seq<Event>, w: Whole)
    requires ServerMachine.Initial(scripts, StartServer(threads))
    requires Execute(N, parse, Start(N, threads), es) == Some(w)
    ensures var bound := ServerProgress.Total(parse, StartServer(threads));
      |es| <= ServerProgress.TotalWork(bound, StartServer(threads)) * (2 * N + MAXBUFFER + bound + 21)
    ensures w.call.Some? && !w.call.value.pc.Finished? ==>
      MicroSteps.Safe(N, w.call.value.op, w.m, w.call.value.pc)
    ensures (exists e :: Enabled(N, w, e)) <==> exists t :: 0 <= t < |w.threads| && !w.threads[t].pc.Ended?
    ensures (forall t {:trigger w.threads[t]} :: 0 <= t < |w.threads| ==> w.threads[t].pc.Ended?) ==>
      w.locks == Locks(None, None, None, None)
  {
    var s, a := WholeRefines(N, parse, scripts, threads, es, w);
    ExecutionSafe(N, parse, scripts, StartServer(threads), Visible(es));
    ServerProgress.ExecutionWorks(N, parse, scripts, StartServer(threads), Visible(es));
    WholeWorks(N, parse, scripts, threads, es, w, s);
    ServerProgress.StuckIsDone(s);
    if w.call.Some? && !w.call.value.pc.Finished? {
      CallSafe(N, w, s, a);
    }
    if exists t :: 0 <= t < |w.threads| && !w.threads[t].pc.Ended? {
      var e := NextEvent(N, w, s, a);
    } else {
      if w.call.Some? {
        CallHasHolder(N, w, s, a);
      }
      forall e ensures !Enabled(N, w, e) {
        DoneIsStuck(N, w, e);
      }
    }
  }
}
