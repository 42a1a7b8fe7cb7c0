/** The connection threads of the socket server and other readers of the device, interleaved at every
    lock operation, device call and send. A device call is one step here, made while holding the
    device mutex; ServerOnDriver puts the driver's micro-steps in its place. */
module ServerMachine {
  import opened Bytes
  import opened CommandLog
  import opened DeviceSpec
  import opened Sessions

  /** A drain under way on a newly opened file: the seek it serves, the position that gave, the present
      position, and what has been sent. */
  datatype Drain = Drain(cmd: nat, off: nat, start: nat, pos: nat, sent: Bytes)

  /** Serving a seek command: open, ioctl, then read and send until a read returns nothing. */
  datatype SeekPc =
    | SeekOpen(cmd: nat, off: nat) | SeekWait(cmd: nat, off: nat) | SeekIn(cmd: nat, off: nat)
    | DrainWait(d: Drain) | DrainIn(d: Drain) | DrainSend(d: Drain, data: Bytes)

  /** savetofile: fputs under the file mutex, then fflush; either may write to the device. */
  datatype SavePc = FileWait | PutsHeld | PutsWait | PutsIn | FlushHeld | FlushWait | FlushIn

  /** sendfile: fread, which makes device reads as it sees fit, and send under the send mutex. */
  datatype SendPc = Fread | ReadWait | ReadIn | SendWait | SendHeld

  /** Where a thread stands; `c` is the chunk in hand, `rest` what of it is still to be written, `n` how
      many more reads will find data. */
  datatype Pc =
    | Open | Start | Recv
    | Seeking(c: Chunk, seek: SeekPc)
    | Saving(c: Chunk, rest: Bytes, save: SavePc)
    | Sending(c: Chunk, n: nat, send: SendPc)
    | Unlock
    | ReaderWait(n: nat) | ReaderIn(n: nat)     // another process reading the device
    | Ended

  datatype Thread = Thread(todo: seq<Chunk>, pc: Pc)

  /** How a thread was done with a chunk: the program point it left, whether the environment let that step
      succeed, and what the device replied if the step was a device call. */
  datatype Handled = Handled(pc: Pc, ok: bool, reply: Reply)

  /** The device at the last accepted seek and when the chunk was done with, and the number of device writes
      until then. */
  datatype Date = Date(at: Dev, end: Dev, writes: nat)

  /** Who holds the four mutexes. */
  datatype Locks = Locks(session: Option<nat>, file: Option<nat>, send: Option<nat>, dev: Option<nat>)

  /** All but the first three are histories: the device at the last accepted seek, the device writes, the
      connections whose files could be opened, the order in which they took the session mutex, and the chunks
      done with, each with its date. */
  datatype Server = Server(dev: Dev, locks: Locks, threads: seq<Thread>,
                           snapshot: Dev, writes: seq<Bytes>, admitted: seq<nat>, order: seq<nat>,
                           handled: seq<Handled>, dates: seq<Date>)

  /** Choices of the environment: whether an open, send or flush decision goes one way, and how many
      bytes a write takes. */
  datatype Choice = Choice(ok: bool, n: nat)

  /** What a device call returned, and where the file then stands. */
  datatype Answer = Answer(reply: Reply, pos: nat)

  predicate WantsSession(pc: Pc) {
    pc.Start?
  }

  predicate WantsFile(pc: Pc) {
    pc.Saving? && pc.save.FileWait?
  }

  predicate WantsSend(pc: Pc) {
    pc.Sending? && pc.send.SendWait?
  }

  predicate WantsDev(pc: Pc) {
    match pc
    case Seeking(_, at) => at.SeekWait? || at.DrainWait?
    case Saving(_, _, at) => at.PutsWait? || at.FlushWait?
    case Sending(_, _, at) => at.ReadWait?
    case ReaderWait(_) => true
    case _ => false
  }

  predicate HoldsSession(pc: Pc) {
    pc.Recv? || pc.Seeking? || pc.Saving? || pc.Sending? || pc.Unlock?
  }

  predicate HoldsFile(pc: Pc) {
    pc.Saving? && (pc.save.PutsHeld? || pc.save.PutsWait? || pc.save.PutsIn?)
  }

  predicate HoldsSend(pc: Pc) {
    pc.Sending? && pc.send.SendHeld?
  }

  predicate HoldsDev(pc: Pc) {
    match pc
    case Seeking(_, at) => at.SeekIn? || at.DrainIn?
    case Saving(_, _, at) => at.PutsIn? || at.FlushIn?
    case Sending(_, _, at) => at.ReadIn?
    case ReaderIn(_) => true
    case _ => false
  }

  /** The thread has a chunk in hand. */
  predicate HasChunk(pc: Pc) {
    pc.Seeking? || pc.Saving? || pc.Sending?
  }

  /** The step writes to the device. */
  predicate Writing(pc: Pc) {
    pc.Saving? && (pc.save.PutsIn? || pc.save.FlushIn?)
  }

  /** Thread `th` can use the choice `ch`: a write takes at least one byte, and recv has more to give. */
  predicate Fits(th: Thread, ch: Choice) {
    (Writing(th.pc) ==> 0 < ch.n <= |th.pc.rest|) && (th.pc.Recv? ==> th.todo != [])
  }

  /** A thread at `pc` is not done, and the mutexes it wants are free. */
  predicate Free(locks: Locks, pc: Pc) {
    && !pc.Ended?
    && (WantsSession(pc) ==> locks.session.None?)
    && (WantsFile(pc) ==> locks.file.None?)
    && (WantsSend(pc) ==> locks.send.None?)
    && (WantsDev(pc) ==> locks.dev.None?)
  }

  predicate Enabled(s: Server, t: nat, ch: Choice) {
    t < |s.threads| && Fits(s.threads[t], ch) && Free(s.locks, s.threads[t].pc)
  }

  /** The end of the do-while body: once more unless the chunk was empty. */
  function Next(c: Chunk): Pc {
    if c.data == [] then Unlock else Recv
  }

  function Receive(parse: Parse, c: Chunk): Pc {
    match parse(CString(c.data))
    case Some((cmd, off)) => Seeking(c, SeekOpen(cmd, off))
    case None => Saving(c, CString(c.data), FileWait)
  }

  function NextSeek(c: Chunk, at: SeekPc, ch: Choice, ans: Answer): Pc {
    match at
    case SeekOpen(cmd, off) => if ch.ok then Seeking(c, SeekWait(cmd, off)) else Next(c)
    case SeekWait(cmd, off) => Seeking(c, SeekIn(cmd, off))
    case SeekIn(cmd, off) =>
      if ans.reply == Done then Seeking(c, DrainWait(Drain(cmd, off, ans.pos, ans.pos, []))) else Next(c)
    case DrainWait(d) => Seeking(c, DrainIn(d))
    case DrainIn(d) =>
      if ans.reply.Data? && ans.reply.bytes != [] then
        Seeking(c, DrainSend(d.(pos := ans.pos), ans.reply.bytes))
      else Next(c)
    case DrainSend(d, data) => if ch.ok then Seeking(c, DrainWait(d.(sent := d.sent + data))) else Next(c)
  }

  /** After savetofile the file is sent back if the chunk holds a newline. */
  function NextSave(c: Chunk, rest: Bytes, at: SavePc, ch: Choice): Pc
    requires at.PutsIn? || at.FlushIn? ==> ch.n <= |rest|
  {
    match at
    case FileWait => Saving(c, rest, PutsHeld)
    case PutsHeld => Saving(c, rest, if ch.ok && rest != [] then PutsWait else FlushHeld)
    case PutsWait => Saving(c, rest, PutsIn)
    case PutsIn => Saving(c, rest[ch.n..], PutsHeld)
    case FlushHeld =>
      if rest != [] then Saving(c, rest, FlushWait)
      else if HasNewline(c.data) then Sending(c, c.steps, Fread)
      else Next(c)
    case FlushWait => Saving(c, rest, FlushIn)
    case FlushIn => Saving(c, rest[ch.n..], FlushHeld)
  }

  function NextSend(c: Chunk, n: nat, at: SendPc, ch: Choice): Pc {
    match at
    case Fread => if n == 0 then Next(c) else Sending(c, n - 1, if ch.ok then ReadWait else SendWait)
    case ReadWait => Sending(c, n, ReadIn)
    case ReadIn => Sending(c, n, Fread)
    case SendWait => Sending(c, n, SendHeld)
    case SendHeld => if ch.ok then Sending(c, n, Fread) else Next(c)
  }

  /** The thread after its step. */
  function NextThread(parse: Parse, th: Thread, ch: Choice, ans: Answer): Thread
    requires Fits(th, ch)
  {
    match th.pc
    case Open => th.(pc := if ch.ok then Start else Ended)
    case Start => th.(pc := Recv)
    case Recv => Thread(th.todo[1..], Receive(parse, th.todo[0]))
    case Seeking(c, at) => th.(pc := NextSeek(c, at, ch, ans))
    case Saving(c, rest, at) => th.(pc := NextSave(c, rest, at, ch))
    case Sending(c, n, at) => th.(pc := NextSend(c, n, at, ch))
    case Unlock => th.(pc := Ended)
    case ReaderWait(n) => th.(pc := ReaderIn(n))
    case ReaderIn(n) => th.(pc := if n == 0 then Ended else ReaderWait(n - 1))
    case Ended => th
  }

  /** The device after the step: only savetofile writes to it. */
  function NextDev(dev: Dev, th: Thread, ch: Choice): Dev
    requires Fits(th, ch)
  {
    if Writing(th.pc) then WriteTo(dev, th.pc.rest[..ch.n]) else dev
  }

  /** What the device answers to the call that a thread at `pc` is in, as far as the thread looks at it. */
  function AnswerTo(N: Capacity, dev: Dev, pc: Pc): Answer {
    if pc.Seeking? && pc.seek.SeekIn? then
      match CommandPosition(N, dev.log, pc.seek.cmd, pc.seek.off)
      case None => Answer(Failed(EINVAL), 0)
      case Some(p) => Answer(Done, p)
    else if pc.Seeking? && pc.seek.DrainIn? then
      var reply := ReadAt(N, dev.log, pc.seek.d.pos, MAXBUFFER, MAXBUFFER);
      Answer(reply, Advance(pc.seek.d.pos, reply))
    else Answer(Done, 0)
  }

  /** The step is an ioctl that accepts a seek. */
  predicate StartsDrain(pc: Pc, ans: Answer) {
    pc.Seeking? && pc.seek.SeekIn? && ans.reply == Done
  }

  /** A lock after thread `t` moves from holding it or not (`before`) to holding it or not (`after`). */
  function Relock(lock: Option<nat>, t: nat, before: bool, after: bool): Option<nat> {
    if before == after then lock else if after then Some(t) else None
  }

  function NextLocks(locks: Locks, t: nat, pc: Pc, pc': Pc): Locks {
    Locks(Relock(locks.session, t, HoldsSession(pc), HoldsSession(pc')),
          Relock(locks.file, t, HoldsFile(pc), HoldsFile(pc')),
          Relock(locks.send, t, HoldsSend(pc), HoldsSend(pc')),
          Relock(locks.dev, t, HoldsDev(pc), HoldsDev(pc')))
  }

  /** The chunk that a thread is done with by a step from `pc` to `pc'`, if it is. */
  function LeftBy(pc: Pc, pc': Pc, ch: Choice, ans: Answer): seq<Handled> {
    if HasChunk(pc) && !HasChunk(pc') then [Handled(pc, ch.ok, ans.reply)] else []
  }

  /** The step of thread `t` when its device call, if it is in one, is answered with `ans`. */
  function StepOn(parse: Parse, s: Server, t: nat, ch: Choice, ans: Answer): Server
    requires Enabled(s, t, ch)
  {
    var th := s.threads[t];
    var th' := NextThread(parse, th, ch, ans);
    Server(NextDev(s.dev, th, ch),
           NextLocks(s.locks, t, th.pc, th'.pc),
           s.threads[t := th'],
           if StartsDrain(th.pc, ans) then s.dev else s.snapshot,
           if Writing(th.pc) then s.writes + [th.pc.rest[..ch.n]] else s.writes,
           if th.pc.Open? && ch.ok then s.admitted + [t] else s.admitted,
           if th.pc.Start? then s.order + [t] else s.order,
           s.handled + LeftBy(th.pc, th'.pc, ch, ans),
           if LeftBy(th.pc, th'.pc, ch, ans) != [] then s.dates + [Date(s.snapshot, s.dev, |s.writes|)] else s.dates)
  }

  function Step(N: Capacity, parse: Parse, s: Server, t: nat, ch: Choice): Server
    requires Enabled(s, t, ch)
  {
    StepOn(parse, s, t, ch, AnswerTo(N, s.dev, s.threads[t].pc))
  }

  /** Connections just accepted, each with its conversation, and readers about to read. */
  ghost predicate Initial(scripts: seq<seq<Chunk>>, s: Server) {
    && s.dev == Dev([], []) && s.locks == Locks(None, None, None, None)
    && s.writes == [] && s.admitted == [] && s.order == [] && s.handled == [] && s.dates == []
    && |s.threads| == |scripts|
    && forall t :: 0 <= t < |scripts| ==>
         && s.threads[t].todo == scripts[t]
         && (s.threads[t].pc.ReaderWait? || (s.threads[t].pc.Open? && Conversation(scripts[t])))
  }

  /** The state after the given threads have taken a step each, in that order, if all could. */
  ghost function Execute(N: Capacity, parse: Parse, s: Server, es: seq<(nat, Choice)>): Option<Server> {
    if es == [] then Some(s)
    else
      match Execute(N, parse, s, es[..|es| - 1])
      case None => None
      case Some(s') =>
        var (t, ch) := es[|es| - 1];
        if Enabled(s', t, ch) then Some(Step(N, parse, s', t, ch)) else None
  }
}
