/** What becomes of every chunk and every connection of the server, over every interleaving: each chunk of each
    session is done with exactly once, in order, and in the right way; a drain ends only when all is sent or a
    send fails; and exactly the connections whose files could be opened get a session. */
module ServerChunks {
  import opened Bytes
  import opened CommandLog
  import opened DeviceSpec
  import opened Stream
  import opened Sessions
  import opened ServerMachine
  import opened ServerSafety
  import Positions
  import RingLayout

  // ----- the right way to be done with a chunk ---------------------------------------------------------

  /** The seek command being served. */
  function SeekOf(at: SeekPc): (nat, nat) {
    match at
    case SeekOpen(cmd, off) => (cmd, off)
    case SeekWait(cmd, off) => (cmd, off)
    case SeekIn(cmd, off) => (cmd, off)
    case DrainWait(d) => (d.cmd, d.off)
    case DrainIn(d) => (d.cmd, d.off)
    case DrainSend(d, _) => (d.cmd, d.off)
  }

  function InHand(pc: Pc): seq<Chunk> {
    if HasChunk(pc) then [pc.c] else []
  }

  /** The chunk in hand is being taken the way it asks for. */
  ghost predicate OnChunk(parse: Parse, pc: Pc) {
    match pc
    case Seeking(c, at) => parse(CString(c.data)) == Some(SeekOf(at))
    case Saving(c, _, _) => parse(CString(c.data)).None?
    case Sending(c, _, _) => parse(CString(c.data)).None? && HasNewline(c.data)
    case _ => true
  }

  lemma SeekKeepsChunk(parse: Parse, c: Chunk, at: SeekPc, ch: Choice, ans: Answer)
    requires OnChunk(parse, Seeking(c, at))
    ensures OnChunk(parse, NextSeek(c, at, ch, ans))
    ensures var pc' := NextSeek(c, at, ch, ans); InHand(pc') == if HasChunk(pc') then [c] else []
  {
  }

  lemma SaveKeepsChunk(parse: Parse, c: Chunk, rest: Bytes, at: SavePc, ch: Choice)
    requires OnChunk(parse, Saving(c, rest, at)) && (at.PutsIn? || at.FlushIn? ==> ch.n <= |rest|)
    ensures OnChunk(parse, NextSave(c, rest, at, ch))
    ensures var pc' := NextSave(c, rest, at, ch); InHand(pc') == if HasChunk(pc') then [c] else []
  {
  }

  lemma SendKeepsChunk(parse: Parse, c: Chunk, n: nat, at: SendPc, ch: Choice)
    requires OnChunk(parse, Sending(c, n, at))
    ensures OnChunk(parse, NextSend(c, n, at, ch))
    ensures var pc' := NextSend(c, n, at, ch); InHand(pc') == if HasChunk(pc') then [c] else []
  {
  }

  lemma ReceiveTakesChunk(parse: Parse, c: Chunk)
    ensures OnChunk(parse, Receive(parse, c)) && InHand(Receive(parse, c)) == [c]
  {
  }

  /** A thread keeps its chunk in hand until it is done with it, and takes the next one only when it receives. */
  ghost predicate HandMoves(th: Thread, th': Thread) {
    if th.pc.Recv? then th.todo != [] && InHand(th'.pc) == [th.todo[0]] && th'.todo == th.todo[1..]
    else th'.todo == th.todo && InHand(th'.pc) == if HasChunk(th'.pc) then InHand(th.pc) else []
  }

  lemma ThreadKeepsChunk(parse: Parse, th: Thread, ch: Choice, ans: Answer)
    requires Fits(th, ch) && OnChunk(parse, th.pc)
    ensures OnChunk(parse, NextThread(parse, th, ch, ans).pc) && HandMoves(th, NextThread(parse, th, ch, ans))
  {
    match th.pc
    case Recv => ReceiveTakesChunk(parse, th.todo[0]);
    case Seeking(c, at) => SeekKeepsChunk(parse, c, at, ch, ans);
    case Saving(c, rest, at) => SaveKeepsChunk(parse, c, rest, at, ch);
    case Sending(c, n, at) => SendKeepsChunk(parse, c, n, at, ch);
    case _ =>
  }

  /** The drain sent exactly the flat file of `dev`, from the position of the seek to the end. */
  ghost predicate DrainedExactly(N: Capacity, d: Drain, dev: Dev) {
    && CommandPosition(N, dev.log, d.cmd, d.off) == Some(d.start)
    && d.sent == From(Contents(N, dev.log), d.start)
  }

  /** The drain had sent a first part of that when it was to send `data`. */
  ghost predicate DrainedPartly(N: Capacity, d: Drain, data: Bytes, dev: Dev) {
    && CommandPosition(N, dev.log, d.cmd, d.off) == Some(d.start)
    && data != [] && d.sent + data <= From(Contents(N, dev.log), d.start)
  }

  /** A seek command was done with because the device could not be opened, or because it refused, or because
      a read found the end and everything had been sent, or because a send failed; and the device was the same
      when the seek was accepted and at the end. */
  ghost predicate SeekServed(N: Capacity, at: SeekPc, ok: bool, reply: Reply, date: Date) {
    match at
    case SeekOpen(_, _) => !ok
    case SeekIn(cmd, off) => reply != Done && CommandPosition(N, date.end.log, cmd, off) == None
    case DrainIn(d) => reply == Data([]) && date.at == date.end && DrainedExactly(N, d, date.end)
    case DrainSend(d, data) => !ok && date.at == date.end && DrainedPartly(N, d, data, date.end)
    case _ => false
  }

  /** Any other chunk was done with after all its bytes had been written, and with a newline in it after the
      file had been sent back or a send had failed. */
  ghost predicate Rightly(N: Capacity, parse: Parse, x: Handled, date: Date) {
    && OnChunk(parse, x.pc)
    && match x.pc
       case Seeking(_, at) => SeekServed(N, at, x.ok, x.reply, date)
       case Saving(c, rest, at) => at.FlushHeld? && rest == [] && !HasNewline(c.data)
       case Sending(_, n, at) => if at.Fread? then n == 0 else at.SendHeld? && !x.ok
       case _ => false
  }

  lemma PartSent(flat: Bytes, start: nat, pos: nat, sent: Bytes, data: Bytes)
    requires DrainAt(flat, start, pos, sent + data)
    ensures sent + data <= From(flat, start)
  {
  }

  lemma LeavesSeek(N: Capacity, dev: Dev, c: Chunk, at: SeekPc, ch: Choice, ans: Answer, n: nat)
    requires Draining(Seeking(c, at)) ==> DrainOk(N, dev, at)
    requires Truthful(N, dev, Seeking(c, at), ans) && !HasChunk(NextSeek(c, at, ch, ans))
    ensures SeekServed(N, at, ch.ok, ans.reply, Date(dev, dev, n))
  {
    if at.DrainIn? {
      DrainReads(Contents(N, dev.log), at.d.start, at.d.pos, at.d.sent, ans);
    } else if at.DrainSend? {
      PartSent(Contents(N, dev.log), at.d.start, at.d.pos, at.d.sent, at.data);
    }
  }

  /** A thread is done with a chunk only in the right way. */
  lemma LeavesRightly(N: Capacity, parse: Parse, s: Server, t: nat, ch: Choice, ans: Answer)
    requires Enabled(s, t, ch) && OnChunk(parse, s.threads[t].pc) && DrainsOk(N, s)
    requires Truthful(N, s.dev, s.threads[t].pc, ans)
    requires HasChunk(s.threads[t].pc) && !HasChunk(NextThread(parse, s.threads[t], ch, ans).pc)
    ensures Rightly(N, parse, Handled(s.threads[t].pc, ch.ok, ans.reply), Date(s.snapshot, s.dev, |s.writes|))
  {
    var pc := s.threads[t].pc;
    if pc.Seeking? {
      LeavesSeek(N, s.dev, pc.c, pc.seek, ch, ans, |s.writes|);
    }
  }

  // ----- all chunks, in order --------------------------------------------------------------------------

  /** The chunks done with. */
  function ChunksOf(handled: seq<Handled>): seq<Chunk> {
    if handled == [] then []
    else ChunksOf(handled[..|handled| - 1]) + InHand(handled[|handled| - 1].pc)
  }

  /** The chunks of the sessions in `order`, one session after another. */
  function AllChunks(scripts: seq<seq<Chunk>>, order: seq<nat>): seq<Chunk>
    requires forall i :: 0 <= i < |order| ==> order[i] < |scripts|
  {
    Flatten(seq(|order|, i requires 0 <= i < |order| => scripts[order[i]]))
  }

  /** Every chunk of the sessions so far is done with, in order, but for those of the session under way. */
  ghost predicate InTurn(scripts: seq<seq<Chunk>>, s: Server)
    requires OrderOk(scripts, s)
  {
    match s.locks.session
    case None => ChunksOf(s.handled) == AllChunks(scripts, s.order)
    case Some(h) =>
      h < |s.threads| &&
      ChunksOf(s.handled) + (InHand(s.threads[h].pc) + s.threads[h].todo) == AllChunks(scripts, s.order)
  }

  lemma AllChunksSnoc(scripts: seq<seq<Chunk>>, order: seq<nat>, t: nat)
    requires (forall i :: 0 <= i < |order| ==> order[i] < |scripts|) && t < |scripts|
    ensures AllChunks(scripts, order + [t]) == AllChunks(scripts, order) + scripts[t]
  {
    var each, order' := seq(|order|, i requires 0 <= i < |order| => scripts[order[i]]), order + [t];
    FlattenSnoc(each, scripts[t]);
    assert seq(|order'|, i requires 0 <= i < |order'| => scripts[order'[i]]) == each + [scripts[t]];
  }

  /** The chunk that leaves the hand in a step from `pc` to `pc'`. */
  function LetGo(pc: Pc, pc': Pc): seq<Chunk> {
    if HasChunk(pc) && !HasChunk(pc') then [pc.c] else []
  }

  lemma ChunksOfMore(handled: seq<Handled>, pc: Pc, pc': Pc, ch: Choice, ans: Answer)
    ensures ChunksOf(handled + LeftBy(pc, pc', ch, ans)) == ChunksOf(handled) + LetGo(pc, pc')
  {
    var x := Handled(pc, ch.ok, ans.reply);
    assert (handled + [x])[..|handled|] == handled;
    assert handled + [] == handled;
  }

  lemma HandsOver(th: Thread, th': Thread)
    requires HandMoves(th, th')
    ensures LetGo(th.pc, th'.pc) + (InHand(th'.pc) + th'.todo) == InHand(th.pc) + th.todo
  {
    if th.pc.Recv? {
      assert [th.todo[0]] + th.todo[1..] == th.todo;
    }
  }

  /** A step of the session holder takes a chunk from those to come, is done with one, or neither. */
  lemma ChunkMoves(handled: seq<Handled>, th: Thread, th': Thread, ch: Choice, ans: Answer)
    requires HandMoves(th, th')
    ensures ChunksOf(handled + LeftBy(th.pc, th'.pc, ch, ans)) + (InHand(th'.pc) + th'.todo) ==
      ChunksOf(handled) + (InHand(th.pc) + th.todo)
  {
    ChunksOfMore(handled, th.pc, th'.pc, ch, ans);
    HandsOver(th, th');
    ConcatAssoc(ChunksOf(handled), LetGo(th.pc, th'.pc), InHand(th'.pc) + th'.todo);
  }

  lemma StepKeepsTurn(parse: Parse, scripts: seq<seq<Chunk>>, s: Server, t: nat, ch: Choice, ans: Answer)
    requires OrderOk(scripts, s) && LocksHold(s) && Enabled(s, t, ch) && OnScript(s.threads[t])
    requires InTurn(scripts, s) && OrderOk(scripts, StepOn(parse, s, t, ch, ans))
    requires HandMoves(s.threads[t], NextThread(parse, s.threads[t], ch, ans))
    ensures InTurn(scripts, StepOn(parse, s, t, ch, ans))
  {
    var th, th' := s.threads[t], NextThread(parse, s.threads[t], ch, ans);
    SessionMoves(parse, th, ch, ans);
    if th.pc.Start? {
      AllChunksSnoc(scripts, s.order, t);
      assert s.handled + [] == s.handled && [] + scripts[t] == scripts[t];
    } else if HoldsSession(th.pc) {
      ChunkMoves(s.handled, th, th', ch, ans);
      if th.pc.Unlock? {
        assert ChunksOf(s.handled) + ([] + []) == ChunksOf(s.handled);
      }
    } else {
      assert s.handled + [] == s.handled;
    }
  }

  // ----- histories -----------------------------------------------------------------------------------

  /** Every chunk was done with in the right way, at a time when the device was what the writes up to then had
      made it. */
  ghost predicate HistoryOk(N: Capacity, parse: Parse, handled: seq<Handled>, dates: seq<Date>, writes: seq<Bytes>) {
    && |dates| == |handled|
    && forall i {:trigger handled[i]} {:trigger dates[i]} :: 0 <= i < |handled| ==>
         && Rightly(N, parse, handled[i], dates[i])
         && dates[i].writes <= |writes| && dates[i].end == WriteAll(Dev([], []), writes[..dates[i].writes])
  }

  lemma HistoryAdds(N: Capacity, parse: Parse, handled: seq<Handled>, dates: seq<Date>, writes: seq<Bytes>,
                    x: Handled, date: Date)
    requires HistoryOk(N, parse, handled, dates, writes) && Rightly(N, parse, x, date)
    requires date.writes == |writes| && date.end == WriteAll(Dev([], []), writes)
    ensures HistoryOk(N, parse, handled + [x], dates + [date], writes)
  {
    assert writes[..|writes|] == writes;
  }

  lemma HistoryGrows(N: Capacity, parse: Parse, handled: seq<Handled>, dates: seq<Date>, writes: seq<Bytes>, w: Bytes)
    requires HistoryOk(N, parse, handled, dates, writes)
    ensures HistoryOk(N, parse, handled, dates, writes + [w])
  {
    forall i | 0 <= i < |handled|
      ensures dates[i].end == WriteAll(Dev([], []), (writes + [w])[..dates[i].writes])
    {
      assert (writes + [w])[..dates[i].writes] == writes[..dates[i].writes];
    }
  }

  lemma WritingKeepsChunk(parse: Parse, th: Thread, ch: Choice, ans: Answer)
    requires Fits(th, ch) && Writing(th.pc)
    ensures HasChunk(NextThread(parse, th, ch, ans).pc)
  {
  }

  lemma StepKeepsHistory(N: Capacity, parse: Parse, s: Server, t: nat, ch: Choice, ans: Answer, s': Server)
    requires WritesOk(s) && HistoryOk(N, parse, s.handled, s.dates, s.writes) && Enabled(s, t, ch)
    requires OnChunk(parse, s.threads[t].pc) && DrainsOk(N, s) && Truthful(N, s.dev, s.threads[t].pc, ans)
    requires s' == StepOn(parse, s, t, ch, ans)
    ensures HistoryOk(N, parse, s'.handled, s'.dates, s'.writes)
  {
    var pc, pc' := s.threads[t].pc, NextThread(parse, s.threads[t], ch, ans).pc;
    if HasChunk(pc) && !HasChunk(pc') {
      LeavesRightly(N, parse, s, t, ch, ans);
      HistoryAdds(N, parse, s.handled, s.dates, s.writes, Handled(pc, ch.ok, ans.reply),
                  Date(s.snapshot, s.dev, |s.writes|));
    }
    if Writing(pc) {
      WritingKeepsChunk(parse, s.threads[t], ch, ans);
      HistoryGrows(N, parse, s.handled, s.dates, s.writes, pc.rest[..ch.n]);
    }
    assert s.handled + [] == s.handled;
  }

  /** The connections whose files could be opened have had their session, or wait for it. */
  ghost predicate AdmittedOk(s: Server) {
    forall t: nat :: t in s.admitted <==> t in s.order || (t < |s.threads| && s.threads[t].pc.Start?)
  }

  lemma StepKeepsAdmitted(parse: Parse, s: Server, t: nat, ch: Choice, ans: Answer)
    requires AdmittedOk(s) && Enabled(s, t, ch)
    ensures AdmittedOk(StepOn(parse, s, t, ch, ans))
  {
  }

  // ----- every interleaving --------------------------------------------------------------------------------

  ghost predicate Orderly(N: Capacity, parse: Parse, scripts: seq<seq<Chunk>>, s: Server) {
    && OrderOk(scripts, s) && InTurn(scripts, s)
    && (forall t {:trigger s.threads[t]} :: 0 <= t < |s.threads| ==> OnChunk(parse, s.threads[t].pc))
    && HistoryOk(N, parse, s.handled, s.dates, s.writes) && AdmittedOk(s)
  }

  lemma StepOrderly(N: Capacity, parse: Parse, scripts: seq<seq<Chunk>>, s: Server, t: nat, ch: Choice)
    requires Safe(N, parse, scripts, s) && Orderly(N, parse, scripts, s) && Enabled(s, t, ch)
    ensures Orderly(N, parse, scripts, Step(N, parse, s, t, ch))
  {
    var ans := AnswerTo(N, s.dev, s.threads[t].pc);
    AnswerTruthful(N, s.dev, s.threads[t].pc);
    StepKeepsOrder(parse, scripts, s, t, ch, ans);
    ThreadKeepsChunk(parse, s.threads[t], ch, ans);
    StepKeepsTurn(parse, scripts, s, t, ch, ans);
    StepKeepsHistory(N, parse, s, t, ch, ans, Step(N, parse, s, t, ch));
    StepKeepsAdmitted(parse, s, t, ch, ans);
  }

  lemma {:induction false} ExecutionOrderly(N: Capacity, parse: Parse, scripts: seq<seq<Chunk>>, s: Server,
        es: seq<(nat, Choice)>)
    requires Initial(scripts, s) && Execute(N, parse, s, es).Some?
    ensures Orderly(N, parse, scripts, Execute(N, parse, s, es).value)
  {
    if es != [] {
      var front := es[..|es| - 1];
      ExecutionSafe(N, parse, scripts, s, front);
      ExecutionOrderly(N, parse, scripts, s, front);
      StepOrderly(N, parse, scripts, Execute(N, parse, s, front).value, es[|es| - 1].0, es[|es| - 1].1);
    }
  }

  /** In every interleaving the chunks of the sessions so far are done with one after another, each exactly once,
      session after session; when no session is under way that is all of them. */
  lemma ChunksInTurn(N: Capacity, parse: Parse, scripts: seq<seq<Chunk>>, s0: Server, es: seq<(nat, Choice)>, s: Server)
    requires Initial(scripts, s0) && Execute(N, parse, s0, es) == Some(s)
    ensures forall i :: 0 <= i < |s.order| ==> s.order[i] < |scripts|
    ensures ChunksOf(s.handled) <= AllChunks(scripts, s.order)
    ensures s.locks.session.None? ==> ChunksOf(s.handled) == AllChunks(scripts, s.order)
    ensures |s.dates| == |s.handled|
    ensures forall i :: 0 <= i < |s.handled| ==> Rightly(N, parse, s.handled[i], s.dates[i])
  {
    ExecutionOrderly(N, parse, scripts, s0, es);
  }

  /** In every interleaving a seek that the device accepts is answered with exactly the flat file as it was at
      the seek, from the position of the seek on, unless one of its own sends fails, and then with a first
      part of it; whatever other connections and readers do meanwhile. The position is the promised one until
      the ring is rotated. */
  lemma SeeksAnswered(N: Capacity, parse: Parse, scripts: seq<seq<Chunk>>, s0: Server, es: seq<(nat, Choice)>,
                      s: Server, i: nat)
    requires Initial(scripts, s0) && Execute(N, parse, s0, es) == Some(s)
    requires i < |s.handled| && s.handled[i].pc.Seeking?
    ensures i < |s.dates| && s.dates[i].writes <= |s.writes|
    ensures parse(CString(s.handled[i].pc.c.data)) == Some(SeekOf(s.handled[i].pc.seek))
    ensures SeekServed(N, s.handled[i].pc.seek, s.handled[i].ok, s.handled[i].reply, s.dates[i])
    ensures s.dates[i].end == WriteAll(Dev([], []), s.writes[..s.dates[i].writes])
    ensures Draining(s.handled[i].pc) && RingLayout.OutOffs(N, |s.dates[i].end.log|) == 0 ==>
      PromisedPosition(N, s.dates[i].end.log, s.handled[i].pc.seek.d.cmd, s.handled[i].pc.seek.d.off) ==
        Some(s.handled[i].pc.seek.d.start)
  {
    ExecutionOrderly(N, parse, scripts, s0, es);
    var pc, log := s.handled[i].pc, s.dates[i].end.log;
    if Draining(pc) && RingLayout.OutOffs(N, |log|) == 0 {
      Positions.UnrotatedSeeks(N, log, pc.seek.d.cmd, pc.seek.d.off);
    }
  }

  lemma NobodyInside(s: Server)
    requires LocksHold(s)
    requires forall t {:trigger s.threads[t]} :: 0 <= t < |s.threads| ==> s.threads[t].pc.Ended?
    ensures s.locks.session.None?
  {
    var h := s.locks.session;
    assert h.Some? && h.value < |s.threads| ==> !HoldsSession(s.threads[h.value].pc);
  }

  /** When all threads are done, exactly the connections whose files could be opened have had a session, and
      all their chunks are done with. */
  lemma AllServed(N: Capacity, parse: Parse, scripts: seq<seq<Chunk>>, s0: Server, es: seq<(nat, Choice)>, s: Server)
    requires Initial(scripts, s0) && Execute(N, parse, s0, es) == Some(s)
    requires forall t {:trigger s.threads[t]} :: 0 <= t < |s.threads| ==> s.threads[t].pc.Ended?
    ensures forall t :: t in s.order <==> t in s.admitted
    ensures forall i :: 0 <= i < |s.order| ==> s.order[i] < |scripts|
    ensures s.locks.session.None? && ChunksOf(s.handled) == AllChunks(scripts, s.order)
  {
    ExecutionSafe(N, parse, scripts, s0, es);
    ExecutionOrderly(N, parse, scripts, s0, es);
    NobodyInside(s);
  }
}
