/** Safety of the server over every interleaving: mutual exclusion, whole sessions in the order of the
    session mutex, and drains that send one snapshot. */
module ServerSafety {
  import opened Bytes
  import opened CommandLog
  import opened DeviceSpec
  import opened Stream
  import opened Sessions
  import opened ServerMachine
  import Positions
  import RingLayout

  // ----- mutual exclusion --------------------------------------------------------------------------

  ghost predicate Owns(lock: Option<nat>, threads: seq<Thread>, holds: Pc -> bool) {
    && (lock.Some? ==> lock.value < |threads|)
    && forall t {:trigger threads[t]} :: 0 <= t < |threads| ==> (holds(threads[t].pc) <==> lock == Some(t))
  }

  /** Each mutex is held by exactly the thread whose program point says so. */
  ghost predicate LocksHold(s: Server) {
    && Owns(s.locks.session, s.threads, HoldsSession)
    && Owns(s.locks.file, s.threads, HoldsFile)
    && Owns(s.locks.send, s.threads, HoldsSend)
    && Owns(s.locks.dev, s.threads, HoldsDev)
  }

  lemma RelockOwns(lock: Option<nat>, threads: seq<Thread>, t: nat, th: Thread, holds: Pc -> bool)
    requires Owns(lock, threads, holds) && t < |threads|
    requires !holds(threads[t].pc) && holds(th.pc) ==> lock.None?
    ensures Owns(Relock(lock, t, holds(threads[t].pc), holds(th.pc)), threads[t := th], holds)
  {
  }

  /** A thread comes to hold a mutex only by a step that waits for it. */
  lemma AcquiresOnlyWanted(parse: Parse, th: Thread, ch: Choice, ans: Answer)
    requires Fits(th, ch)
    ensures var pc, pc' := th.pc, NextThread(parse, th, ch, ans).pc;
      && (!HoldsSession(pc) && HoldsSession(pc') ==> WantsSession(pc))
      && (!HoldsFile(pc) && HoldsFile(pc') ==> WantsFile(pc))
      && (!HoldsSend(pc) && HoldsSend(pc') ==> WantsSend(pc))
      && (!HoldsDev(pc) && HoldsDev(pc') ==> WantsDev(pc))
  {
  }

  lemma StepKeepsLocks(parse: Parse, s: Server, t: nat, ch: Choice, ans: Answer)
    requires LocksHold(s) && Enabled(s, t, ch)
    ensures LocksHold(StepOn(parse, s, t, ch, ans))
  {
    var th := NextThread(parse, s.threads[t], ch, ans);
    AcquiresOnlyWanted(parse, s.threads[t], ch, ans);
    RelockOwns(s.locks.session, s.threads, t, th, HoldsSession);
    RelockOwns(s.locks.file, s.threads, t, th, HoldsFile);
    RelockOwns(s.locks.send, s.threads, t, th, HoldsSend);
    RelockOwns(s.locks.dev, s.threads, t, th, HoldsDev);
  }

  // ----- where a conversation stands -----------------------------------------------------------------

  /** The bytes of the chunk in hand still to be written. */
  function Rest(pc: Pc): Bytes {
    if pc.Saving? then pc.rest else []
  }

  /** The last chunk of a conversation is the empty one, and only that one ends the session. */
  ghost predicate OnScript(th: Thread) {
    && (th.pc.Open? || th.pc.Start? || th.pc.Recv? ==> Conversation(th.todo))
    && (th.pc.Seeking? || th.pc.Saving? || th.pc.Sending? ==>
          (th.pc.c.data == [] <==> th.todo == []) && (th.todo != [] ==> Conversation(th.todo)))
    && (th.pc.Unlock? ==> th.todo == [])
    && NUL !in Rest(th.pc)
  }

  lemma ConversationTail(todo: seq<Chunk>)
    requires Conversation(todo)
    ensures todo[0].data == [] <==> todo[1..] == []
    ensures todo[1..] != [] ==> Conversation(todo[1..])
  {
  }

  lemma ThreadKeepsScript(parse: Parse, th: Thread, ch: Choice, ans: Answer)
    requires Fits(th, ch) && OnScript(th)
    ensures OnScript(NextThread(parse, th, ch, ans))
  {
    if th.pc.Recv? {
      ConversationTail(th.todo);
    }
  }

  // ----- sessions one after another --------------------------------------------------------------------

  /** Everything the sessions in `order` are to write, whole sessions in that order. */
  function Served(parse: Parse, scripts: seq<seq<Chunk>>, order: seq<nat>): Bytes
    requires forall i :: 0 <= i < |order| ==> order[i] < |scripts|
  {
    if order == [] then []
    else Served(parse, scripts, order[..|order| - 1]) + Payload(parse, scripts[order[|order| - 1]])
  }

  /** What a thread in its session has still to write. */
  function Owed(parse: Parse, th: Thread): Bytes {
    Rest(th.pc) + Payload(parse, th.todo)
  }

  predicate BeforeSession(pc: Pc) {
    pc.Open? || pc.Start?
  }

  /** Every connection takes the session mutex at most once, with its conversation still whole. */
  ghost predicate OrderOk(scripts: seq<seq<Chunk>>, s: Server) {
    && |s.threads| == |scripts|
    && (forall i :: 0 <= i < |s.order| ==> s.order[i] < |scripts|)
    && (forall i, j :: 0 <= i < j < |s.order| ==> s.order[i] != s.order[j])
    && (forall t {:trigger s.threads[t]} :: 0 <= t < |scripts| && BeforeSession(s.threads[t].pc) ==>
          s.threads[t].todo == scripts[t] && t !in s.order)
    && (s.locks.session.Some? ==> s.order != [] && s.order[|s.order| - 1] == s.locks.session.value)
  }

  /** The device has received whole sessions in session-mutex order, but for what the session under way
      still owes. */
  ghost predicate Serial(parse: Parse, scripts: seq<seq<Chunk>>, s: Server)
    requires OrderOk(scripts, s)
  {
    match s.locks.session
    case None => Received(s.dev) == Served(parse, scripts, s.order)
    case Some(h) => h < |s.threads| && Received(s.dev) + Owed(parse, s.threads[h]) == Served(parse, scripts, s.order)
  }

  /** How a step moves a thread into, within and out of its session. */
  lemma SessionMoves(parse: Parse, th: Thread, ch: Choice, ans: Answer)
    requires Fits(th, ch)
    ensures var th' := NextThread(parse, th, ch, ans);
      && (BeforeSession(th'.pc) ==> th.pc.Open? && th'.todo == th.todo)
      && (!HoldsSession(th.pc) && HoldsSession(th'.pc) ==> th.pc.Start? && th' == th.(pc := Recv))
      && (th.pc.Start? ==> th' == th.(pc := Recv))
      && (HoldsSession(th.pc) && !HoldsSession(th'.pc) ==> th.pc.Unlock? && th' == th.(pc := Ended))
  {
  }

  lemma StepKeepsOrder(parse: Parse, scripts: seq<seq<Chunk>>, s: Server, t: nat, ch: Choice, ans: Answer)
    requires OrderOk(scripts, s) && Enabled(s, t, ch)
    ensures OrderOk(scripts, StepOn(parse, s, t, ch, ans))
  {
    SessionMoves(parse, s.threads[t], ch, ans);
  }

  lemma ServedSnoc(parse: Parse, scripts: seq<seq<Chunk>>, order: seq<nat>, t: nat)
    requires (forall i :: 0 <= i < |order| ==> order[i] < |scripts|) && t < |scripts|
    ensures Served(parse, scripts, order + [t]) == Served(parse, scripts, order) + Payload(parse, scripts[t])
  {
    assert (order + [t])[..|order|] == order;
  }

  /** A step of the session holder moves bytes from what it owes to the device, or neither. */
  lemma OwedMoves(parse: Parse, dev: Dev, th: Thread, ch: Choice, ans: Answer)
    requires Fits(th, ch) && HoldsSession(th.pc)
    ensures Received(NextDev(dev, th, ch)) + Owed(parse, NextThread(parse, th, ch, ans)) ==
      Received(dev) + Owed(parse, th)
  {
    var th' := NextThread(parse, th, ch, ans);
    if Writing(th.pc) {
      var a, b, more := th.pc.rest[..ch.n], th.pc.rest[ch.n..], Payload(parse, th.todo);
      assert Rest(th'.pc) == b && th'.todo == th.todo;
      WriteConserves(dev, a);
      assert th.pc.rest == a + b;
      ConcatAssoc(a, b, more);
      ConcatAssoc(Received(dev), a, b + more);
    } else {
      OwedStays(parse, th, ch, ans);
    }
  }

  lemma OwedStays(parse: Parse, th: Thread, ch: Choice, ans: Answer)
    requires Fits(th, ch) && HoldsSession(th.pc) && !Writing(th.pc)
    ensures Owed(parse, NextThread(parse, th, ch, ans)) == Owed(parse, th)
  {
    if th.pc.Recv? {
      assert Rest(Receive(parse, th.todo[0])) == Saved(parse, th.todo[0]);
      assert [] + Payload(parse, th.todo) == Payload(parse, th.todo);
    } else {
      assert Rest(NextThread(parse, th, ch, ans).pc) == Rest(th.pc);
    }
  }

  lemma StepKeepsSerial(parse: Parse, scripts: seq<seq<Chunk>>, s: Server, t: nat, ch: Choice, ans: Answer)
    requires OrderOk(scripts, s) && LocksHold(s) && Enabled(s, t, ch) && OnScript(s.threads[t])
    requires Serial(parse, scripts, s) && OrderOk(scripts, StepOn(parse, s, t, ch, ans))
    ensures Serial(parse, scripts, StepOn(parse, s, t, ch, ans))
  {
    var th, th' := s.threads[t], NextThread(parse, s.threads[t], ch, ans);
    SessionMoves(parse, th, ch, ans);
    if th.pc.Start? {
      ServedSnoc(parse, scripts, s.order, t);
      assert Owed(parse, th') == Payload(parse, scripts[t]);
    } else if HoldsSession(th.pc) {
      OwedMoves(parse, s.dev, th, ch, ans);
      if th.pc.Unlock? {
        assert Owed(parse, th) == [];
        assert Received(s.dev) + [] == Received(s.dev);
      }
    }
  }

  // ----- the device writes -------------------------------------------------------------------------------

  ghost predicate WritesOk(s: Server) {
    s.dev == WriteAll(Dev([], []), s.writes) && forall w :: w in s.writes ==> NUL !in w
  }

  lemma StepKeepsWrites(parse: Parse, s: Server, t: nat, ch: Choice, ans: Answer)
    requires WritesOk(s) && Enabled(s, t, ch) && OnScript(s.threads[t])
    ensures WritesOk(StepOn(parse, s, t, ch, ans))
  {
    var pc := s.threads[t].pc;
    if Writing(pc) {
      WriteAllSnoc(Dev([], []), s.writes, pc.rest[..ch.n]);
    }
  }

  // ----- drains ------------------------------------------------------------------------------------------

  predicate Draining(pc: Pc) {
    pc.Seeking? && (pc.seek.DrainWait? || pc.seek.DrainIn? || pc.seek.DrainSend?)
  }

  /** Bytes read so far by a drain: those sent and those about to be. */
  function ReadSoFar(at: SeekPc): Bytes
    requires at.DrainWait? || at.DrainIn? || at.DrainSend?
  {
    if at.DrainSend? then at.d.sent + at.data else at.d.sent
  }

  /** A drain of `flat` from `start` that stands at `pos` has read `soFar`. */
  predicate DrainAt(flat: Bytes, start: nat, pos: nat, soFar: Bytes) {
    if start <= |flat| then start <= pos <= |flat| && soFar == flat[start..pos]
    else pos == start && soFar == []
  }

  lemma DrainAtNext(flat: Bytes, start: nat, pos: nat, soFar: Bytes, b: Bytes)
    requires DrainAt(flat, start, pos, soFar)
    requires pos < |flat| && pos + |b| <= |flat| && b == flat[pos..pos + |b|]
    ensures DrainAt(flat, start, pos + |b|, soFar + b)
  {
    Positions.SlicesJoin(flat, start, pos, pos + |b|);
  }

  lemma DrainAtEnd(flat: Bytes, start: nat, pos: nat, soFar: Bytes)
    requires DrainAt(flat, start, pos, soFar) && pos >= |flat|
    ensures soFar == From(flat, start)
  {
  }

  /** The drain serves a seek accepted in the present state of the device, and what has been read is the
      flat file from the seek position to the present one. */
  ghost predicate DrainOk(N: Capacity, dev: Dev, at: SeekPc)
    requires at.DrainWait? || at.DrainIn? || at.DrainSend?
  {
    && CommandPosition(N, dev.log, at.d.cmd, at.d.off) == Some(at.d.start)
    && DrainAt(Contents(N, dev.log), at.d.start, at.d.pos, ReadSoFar(at))
    && (at.DrainSend? ==> at.data != [])
  }

  ghost predicate DrainsOk(N: Capacity, s: Server) {
    forall t {:trigger s.threads[t]} :: 0 <= t < |s.threads| && Draining(s.threads[t].pc) ==>
      s.snapshot == s.dev && DrainOk(N, s.dev, s.threads[t].pc.seek)
  }

  /** A read of `flat` at `p` was answered with the bytes there, and with none only at the end. */
  ghost predicate ReadAnswered(flat: Bytes, p: nat, ans: Answer) {
    && ans.reply.Data? && ans.pos == p + |ans.reply.bytes|
    && (ans.reply.bytes == [] <==> p >= |flat|)
    && (p < |flat| ==> ans.pos <= |flat| && ans.reply.bytes == flat[p..ans.pos])
  }

  /** The answer is one the device gives in its present state. */
  ghost predicate Truthful(N: Capacity, dev: Dev, pc: Pc, ans: Answer) {
    && (pc.Seeking? && pc.seek.SeekIn? ==>
          var p := CommandPosition(N, dev.log, pc.seek.cmd, pc.seek.off);
          if ans.reply == Done then p == Some(ans.pos) else p == None)
    && (pc.Seeking? && pc.seek.DrainIn? ==> ReadAnswered(Contents(N, dev.log), pc.seek.d.pos, ans))
  }

  lemma AnswerTruthful(N: Capacity, dev: Dev, pc: Pc)
    ensures Truthful(N, dev, pc, AnswerTo(N, dev, pc))
  {
    if pc.Seeking? && pc.seek.DrainIn? {
      Positions.ReadIsFlat(N, dev.log, pc.seek.d.pos, MAXBUFFER, MAXBUFFER);
    }
  }

  /** A read of the drain either finds the end, and then all has been sent, or goes on from where the
      last one stopped. */
  lemma DrainReads(flat: Bytes, start: nat, pos: nat, sent: Bytes, ans: Answer)
    requires DrainAt(flat, start, pos, sent) && ReadAnswered(flat, pos, ans)
    ensures if ans.reply == Data([]) then sent == From(flat, start)
            else DrainAt(flat, start, ans.pos, sent + ans.reply.bytes)
  {
    if ans.reply.bytes == [] {
      DrainAtEnd(flat, start, pos, sent);
    } else {
      DrainAtNext(flat, start, pos, sent, ans.reply.bytes);
    }
  }

  lemma SeekKeepsDrain(N: Capacity, dev: Dev, c: Chunk, at: SeekPc, ch: Choice, ans: Answer)
    requires Draining(Seeking(c, at)) ==> DrainOk(N, dev, at)
    requires Truthful(N, dev, Seeking(c, at), ans)
    ensures var pc' := NextSeek(c, at, ch, ans); Draining(pc') ==> DrainOk(N, dev, pc'.seek)
  {
    if at.DrainIn? {
      DrainReads(Contents(N, dev.log), at.d.start, at.d.pos, at.d.sent, ans);
    }
  }

  lemma StepKeepsDrains(N: Capacity, parse: Parse, s: Server, t: nat, ch: Choice, ans: Answer)
    requires LocksHold(s) && Enabled(s, t, ch) && DrainsOk(N, s)
    requires Truthful(N, s.dev, s.threads[t].pc, ans)
    ensures DrainsOk(N, StepOn(parse, s, t, ch, ans))
  {
    var th, s' := s.threads[t], StepOn(parse, s, t, ch, ans);
    if th.pc.Seeking? {
      SeekKeepsDrain(N, s.dev, th.pc.c, th.pc.seek, ch, ans);
    }
    forall u | 0 <= u < |s'.threads| && Draining(s'.threads[u].pc)
      ensures s'.snapshot == s'.dev && DrainOk(N, s'.dev, s'.threads[u].pc.seek)
    {
      if u != t {
        assert HoldsSession(s.threads[u].pc) && !HoldsSession(th.pc);
      }
    }
  }

  // ----- every interleaving --------------------------------------------------------------------------------

  ghost predicate Safe(N: Capacity, parse: Parse, scripts: seq<seq<Chunk>>, s: Server) {
    && LocksHold(s)
    && OrderOk(scripts, s) && Serial(parse, scripts, s)
    && (forall t {:trigger s.threads[t]} :: 0 <= t < |s.threads| ==> OnScript(s.threads[t]))
    && WritesOk(s)
    && DrainsOk(N, s)
  }

  lemma InitialSafe(N: Capacity, parse: Parse, scripts: seq<seq<Chunk>>, s: Server)
    requires Initial(scripts, s)
    ensures Safe(N, parse, scripts, s)
  {
  }

  lemma StepSafe(N: Capacity, parse: Parse, scripts: seq<seq<Chunk>>, s: Server, t: nat, ch: Choice)
    requires Safe(N, parse, scripts, s) && Enabled(s, t, ch)
    ensures Safe(N, parse, scripts, Step(N, parse, s, t, ch))
  {
    var ans := AnswerTo(N, s.dev, s.threads[t].pc);
    AnswerTruthful(N, s.dev, s.threads[t].pc);
    StepKeepsLocks(parse, s, t, ch, ans);
    StepKeepsOrder(parse, scripts, s, t, ch, ans);
    StepKeepsSerial(parse, scripts, s, t, ch, ans);
    ThreadKeepsScript(parse, s.threads[t], ch, ans);
    StepKeepsWrites(parse, s, t, ch, ans);
    StepKeepsDrains(N, parse, s, t, ch, ans);
  }

  lemma {:induction false} ExecutionSafe(N: Capacity, parse: Parse, scripts: seq<seq<Chunk>>, s: Server,
        es: seq<(nat, Choice)>)
    requires Initial(scripts, s) && Execute(N, parse, s, es).Some?
    ensures Safe(N, parse, scripts, Execute(N, parse, s, es).value)
  {
    if es == [] {
      InitialSafe(N, parse, scripts, s);
    } else {
      var front := es[..|es| - 1];
      ExecutionSafe(N, parse, scripts, s, front);
      StepSafe(N, parse, scripts, Execute(N, parse, s, front).value, es[|es| - 1].0, es[|es| - 1].1);
    }
  }

  /** The device has received whole sessions in session-mutex order: when no session is under way exactly
      their payloads, and during one all earlier payloads and a first part of its own. */
  ghost predicate InSessionOrder(parse: Parse, scripts: seq<seq<Chunk>>, s: Server) {
    && (forall i :: 0 <= i < |s.order| ==> s.order[i] < |scripts|)
    && (forall i, j :: 0 <= i < j < |s.order| ==> s.order[i] != s.order[j])
    && Received(s.dev) <= Served(parse, scripts, s.order)
    && match s.locks.session
       case None => Received(s.dev) == Served(parse, scripts, s.order)
       case Some(h) =>
         && h < |s.threads| == |scripts|
         && s.order != [] && s.order[|s.order| - 1] == h
         && Served(parse, scripts, s.order[..|s.order| - 1]) + Payload(parse, scripts[h]) ==
              Received(s.dev) + Owed(parse, s.threads[h])
  }

  lemma SerialInOrder(parse: Parse, scripts: seq<seq<Chunk>>, s: Server)
    requires OrderOk(scripts, s) && Serial(parse, scripts, s)
    ensures InSessionOrder(parse, scripts, s)
  {
    if s.order != [] {
      var before, h := s.order[..|s.order| - 1], s.order[|s.order| - 1];
      assert s.order == before + [h];
      ServedSnoc(parse, scripts, before, h);
    }
  }

  /** In every interleaving each connection takes the session mutex at most once, and the device receives
      whole sessions one after another in that order. */
  lemma SessionsSerialised(N: Capacity, parse: Parse, scripts: seq<seq<Chunk>>, s0: Server, es: seq<(nat, Choice)>,
                           s: Server)
    requires Initial(scripts, s0) && Execute(N, parse, s0, es) == Some(s)
    ensures InSessionOrder(parse, scripts, s)
  {
    ExecutionSafe(N, parse, scripts, s0, es);
    SerialInOrder(parse, scripts, s);
  }

  /** What the sessions in `order` have kept, one session after another. */
  function KeptInOrder(kept: seq<seq<Bytes>>, order: seq<nat>): Bytes
    requires forall i :: 0 <= i < |order| ==> order[i] < |kept|
  {
    Flatten(seq(|order|, i requires 0 <= i < |order| => Flatten(kept[order[i]])))
  }

  lemma KeptSnoc(kept: seq<seq<Bytes>>, order: seq<nat>, t: nat)
    requires (forall i :: 0 <= i < |order| ==> order[i] < |kept|) && t < |kept|
    ensures KeptInOrder(kept, order + [t]) == KeptInOrder(kept, order) + Flatten(kept[t])
  {
    var each, order' := seq(|order|, i requires 0 <= i < |order| => Flatten(kept[order[i]])), order + [t];
    FlattenSnoc(each, Flatten(kept[t]));
    assert seq(|order'|, i requires 0 <= i < |order'| => Flatten(kept[order'[i]])) == each + [Flatten(kept[t])];
  }

  lemma {:induction false} ServedIsKept(parse: Parse, scripts: seq<seq<Chunk>>, kept: seq<seq<Bytes>>, order: seq<nat>)
    requires |kept| == |scripts| && forall t :: 0 <= t < |scripts| ==> Keeps(parse, scripts[t], kept[t])
    requires forall i :: 0 <= i < |order| ==> order[i] < |scripts|
    ensures Served(parse, scripts, order) == KeptInOrder(kept, order)
  {
    if order != [] {
      var front, t := order[..|order| - 1], order[|order| - 1];
      assert order == front + [t];
      ServedIsKept(parse, scripts, kept, front);
      ServedSnoc(parse, scripts, front, t);
      PayloadKept(parse, scripts[t], kept[t]);
      KeptSnoc(kept, front, t);
    }
  }

  /** The same in terms of the received bytes: of each chunk the device gets what comes before its first NUL,
      and nothing if that is a seek command. Whenever no session is under way it has received all of that of
      the sessions so far, chunk after chunk and session after session, and nothing else. */
  lemma DeviceReceives(N: Capacity, parse: Parse, scripts: seq<seq<Chunk>>, kept: seq<seq<Bytes>>, s0: Server,
                       es: seq<(nat, Choice)>, s: Server)
    requires Initial(scripts, s0) && Execute(N, parse, s0, es) == Some(s) && s.locks.session.None?
    requires |kept| == |scripts| && forall t :: 0 <= t < |scripts| ==> Keeps(parse, scripts[t], kept[t])
    ensures forall i :: 0 <= i < |s.order| ==> s.order[i] < |kept|
    ensures Received(s.dev) == KeptInOrder(kept, s.order)
  {
    SessionsSerialised(N, parse, scripts, s0, es, s);
    ServedIsKept(parse, scripts, kept, s.order);
  }

  /** Along every run nothing pending holds a newline or a NUL, and each stored command is made of device
      writes of which the last holds all its newlines, at least one. */
  lemma ServerNewlines(N: Capacity, parse: Parse, scripts: seq<seq<Chunk>>, s0: Server, es: seq<(nat, Choice)>,
                       s: Server) returns (gs: seq<seq<Bytes>>, rest: seq<Bytes>)
    requires Initial(scripts, s0) && Execute(N, parse, s0, es) == Some(s)
    ensures s.dev == Dev(FlattenEach(gs), Flatten(rest)) && Flatten(gs) + rest == s.writes
    ensures NEWLINE !in s.dev.pending && NUL !in s.dev.pending
    ensures forall g :: g in gs ==>
      g != [] && NEWLINE in g[|g| - 1] && NEWLINE !in Flatten(g[..|g| - 1])
  {
    ExecutionSafe(N, parse, scripts, s0, es);
    gs, rest := NewlinesOnlyInLastChunk(s.writes);
  }
}
