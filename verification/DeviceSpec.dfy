/** What each driver call does, as a function of the command log, the pending bytes and the file
    positions. The class and the micro-step machine are both proved against these functions. */
module DeviceSpec {
  import opened Bytes
  import opened CommandLog
  import opened RingLayout

  datatype Option<+T> = None | Some(value: T)

  datatype Errno = EFAULT | ENOMEM | EINVAL | ENOTTY

  datatype Reply = Data(bytes: Bytes) | Wrote(n: nat) | At(pos: nat) | Done | Failed(errno: Errno)

  datatype Whence = SeekSet | SeekCur | SeekEnd | OtherWhence

  datatype Dev = Dev(log: seq<Bytes>, pending: Bytes)

  // ----- write ---------------------------------------------------------------------------------

  /** The effect of accepting `data`: it joins the pending bytes, and the whole is committed as one
      command as soon as strchr finds a newline in it. */
  function WriteTo(d: Dev, data: Bytes): Dev {
    var p := d.pending + data;
    if HasNewline(p) then Dev(d.log + [p], []) else Dev(d.log, p)
  }

  function WriteAll(d: Dev, chunks: seq<Bytes>): Dev {
    if chunks == [] then d
    else WriteTo(WriteAll(d, chunks[..|chunks| - 1]), chunks[|chunks| - 1])
  }

  lemma WriteAllSnoc(d: Dev, chunks: seq<Bytes>, data: Bytes)
    ensures WriteAll(d, chunks + [data]) == WriteTo(WriteAll(d, chunks), data)
  {
    assert (chunks + [data])[..|chunks|] == chunks;
  }

  // ----- read ----------------------------------------------------------------------------------

  /** A read of up to `count` bytes of one command from `r` on. It fails when user memory takes fewer than
      the bytes to be copied (`room`). */
  function ReadOne(cmd: Bytes, r: nat, count: nat, room: nat): Reply
    requires r <= |cmd|
  {
    var n := if count < |cmd| - r then count else |cmd| - r;
    if room < n then Failed(EFAULT) else Data(cmd[r..r + n])
  }

  /** A read at position `p` of the flat file made of the commands `w`. It never crosses a command
      boundary. */
  function ReadIn(w: seq<Bytes>, p: nat, count: nat, room: nat): Reply {
    if p >= |Flatten(w)| then Data([])
    else
      var (c, r) := Locate(w, p);
      ReadOne(w[c], r, count, room)
  }

  function ReadAt(N: Capacity, log: seq<Bytes>, p: nat, count: nat, room: nat): Reply {
    ReadIn(Window(N, log), p, count, room)
  }

  /** What a read leaves in user memory: as much as it takes of the bytes it should get. */
  ghost predicate Delivered(before: Bytes, after: Bytes, whole: Reply, room: nat) {
    && whole.Data? && |whole.bytes| <= |before|
    && var k := if room < |whole.bytes| then room else |whole.bytes|;
       after == whole.bytes[..k] + before[k..]
  }

  function Advance(p: nat, reply: Reply): nat {
    if reply.Data? then p + |reply.bytes| else p
  }

  // ----- llseek --------------------------------------------------------------------------------

  const TWO_63: int := 0x8000_0000_0000_0000
  const TWO_64: int := 0x1_0000_0000_0000_0000

  /** Conversion to the signed 64-bit `loff_t`, wrapping around. */
  function ToLoff(x: int): (y: int)
    ensures -TWO_63 <= y < TWO_63
    ensures -TWO_63 <= x < TWO_63 ==> y == x
  {
    var m := x % TWO_64;
    if m >= TWO_63 then m - TWO_64 else m
  }

  /** The position llseek settles on, in the driver's own 64-bit arithmetic. */
  function SeekPosition(total: nat, pos: nat, offset: int, whence: Whence): Option<nat> {
    if whence.OtherWhence? then None
    else
      var p := match whence
        case SeekSet => offset
        case SeekCur => ToLoff(pos + offset)
        case SeekEnd => ToLoff(total + offset)
        case OtherWhence => -1;
      if p < 0 || p > total then None else Some(p)
  }

  /** The position asked for, as a number of any size. */
  function SeekTarget(total: nat, pos: nat, offset: int, whence: Whence): int {
    match whence
    case SeekSet => offset
    case SeekCur => pos + offset
    case SeekEnd => total + offset
    case OtherWhence => -1
  }

  // ----- ioctl(AESDCHAR_IOCSEEKTO) ---------------------------------------------------------------

  /** The position the driver settles on for command `cmd`, offset `off`. The offset is checked
      against the size of physical slot `cmd`, but the position is summed from the oldest command. */
  function CommandPosition(N: Capacity, log: seq<Bytes>, cmd: nat, off: nat): Option<nat> {
    var w := Window(N, log);
    if cmd >= |w| || |w[SlotOwner(N, |log|, cmd)]| <= off then None
    else Some(Prefix(w, cmd) + off)
  }

  /** What the interface promises: `cmd` is the zero-referenced command, oldest first, and `off` an
      offset inside it. */
  function PromisedPosition(N: Capacity, log: seq<Bytes>, cmd: nat, off: nat): Option<nat> {
    var w := Window(N, log);
    if cmd < |w| && off < |w[cmd]| then Some(Prefix(w, cmd) + off) else None
  }

  // ----- whole device with its open files --------------------------------------------------------

  /** One call, with the choices of its environment resolved: how many bytes user memory gives or
      takes, whether memory can be had, and what is in memory handed out in place of lost bytes. */
  datatype Op =
    | Read(h: nat, count: nat, room: nat)
    | Write(data: Bytes, taken: nat, memory: bool, junk: Bytes)
    | Llseek(h: nat, offset: int, whence: Whence)
    | SeekTo(h: nat, cmd: nat, off: nat)

  /** `lost`: a failed reallocation has lost the pending bytes, but not their number. */
  datatype Abs = Abs(dev: Dev, lost: bool, pos: seq<nat>)

  /** `n` bytes of whatever was in memory. */
  function Junk(junk: Bytes, n: nat): (b: Bytes)
    ensures |b| == n
  {
    if n <= |junk| then junk[..n] else junk + seq(n - |junk|, _ => 0)
  }

  /** The state a write that finds memory builds on: others stand in for lost bytes. */
  function Ready(a: Abs, junk: Bytes): (b: Abs)
    ensures !b.lost && b.pos == a.pos && b.dev.log == a.dev.log && |b.dev.pending| == |a.dev.pending|
    ensures !a.lost ==> b == a
  {
    if a.lost then a.(dev := Dev(a.dev.log, Junk(junk, |a.dev.pending|)), lost := false) else a
  }

  /** `op` can be issued when `files` files are open. */
  predicate Legal(op: Op, files: nat) {
    match op
    case Write(data, taken, _, _) => taken <= |data|
    case _ => op.h < files
  }

  function Apply(N: Capacity, a: Abs, op: Op): (res: (Abs, Reply))
    requires Legal(op, |a.pos|)
    ensures |res.0.pos| == |a.pos|
  {
    match op
    case Read(h, count, room) =>
      var reply := ReadAt(N, a.dev.log, a.pos[h], count, room);
      (a.(pos := a.pos[h := Advance(a.pos[h], reply)]), reply)
    case Write(data, taken, memory, junk) =>
      if !memory then (a.(lost := a.dev.pending != []), Failed(ENOMEM))
      else
        var b := Ready(a, junk);
        (b.(dev := WriteTo(b.dev, data[..taken])), Wrote(taken))
    case Llseek(h, offset, whence) =>
      (match SeekPosition(|Contents(N, a.dev.log)|, a.pos[h], offset, whence)
       case None => (a, Failed(EINVAL))
       case Some(p) => (a.(pos := a.pos[h := p]), At(p)))
    case SeekTo(h, cmd, off) =>
      (match CommandPosition(N, a.dev.log, cmd, off)
       case None => (a, Failed(EINVAL))
       case Some(p) => (a.(pos := a.pos[h := p]), Done))
  }

  ghost predicate AllLegal(ops: seq<Op>, files: nat) {
    forall i :: 0 <= i < |ops| ==> Legal(ops[i], files)
  }

  /** The state after a sequence of calls, each running alone. */
  ghost function Run(N: Capacity, a: Abs, ops: seq<Op>): (b: Abs)
    requires AllLegal(ops, |a.pos|)
    ensures |b.pos| == |a.pos|
  {
    if ops == [] then a
    else Apply(N, Run(N, a, ops[..|ops| - 1]), ops[|ops| - 1]).0
  }

  lemma RunSnoc(N: Capacity, a: Abs, ops: seq<Op>, op: Op)
    requires AllLegal(ops, |a.pos|) && Legal(op, |a.pos|)
    ensures AllLegal(ops + [op], |a.pos|)
    ensures Run(N, a, ops + [op]) == Apply(N, Run(N, a, ops), op).0
    ensures Replies(N, a, ops + [op]) == Replies(N, a, ops) + [Apply(N, Run(N, a, ops), op).1]
  {
    assert (ops + [op])[..|ops|] == ops;
  }

  ghost function Replies(N: Capacity, a: Abs, ops: seq<Op>): (rs: seq<Reply>)
    requires AllLegal(ops, |a.pos|)
    ensures |rs| == |ops|
  {
    if ops == [] then []
    else Replies(N, a, ops[..|ops| - 1]) + [Apply(N, Run(N, a, ops[..|ops| - 1]), ops[|ops| - 1]).1]
  }

  /** The device as module initialisation leaves it, with `files` files just opened. */
  function Fresh(files: nat): Abs {
    Abs(Dev([], []), false, seq(files, _ => 0))
  }
}
