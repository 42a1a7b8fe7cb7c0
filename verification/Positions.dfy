/** File positions: reads drain the flat file, seeks and lookups invert each other, and exactly when
    these hold despite the rotation of the ring. */
module Positions {
  import opened Bytes
  import opened CommandLog
  import opened RingLayout
  import opened DeviceSpec
  import Stream

  // ----- reading ---------------------------------------------------------------------------------

  /** A read returns a slice of the flat file at its position; it is empty exactly at the end of the
      file or for a zero count, and fails exactly when user memory cannot take the slice. */
  lemma ReadIsFlat(N: Capacity, log: seq<Bytes>, p: nat, count: nat, room: nat)
    ensures var flat := Contents(N, log);
      match ReadAt(N, log, p, count, room)
      case Data(b) =>
        && |b| <= count && |b| <= room
        && (p < |flat| ==> p + |b| <= |flat| && b == flat[p..p + |b|])
        && (b == [] <==> p >= |flat| || count == 0)
      case reply => reply == Failed(EFAULT) && room < count && p < |flat|
  {
    var w := Window(N, log);
    if p < |Flatten(w)| {
      var (c, r) := Locate(w, p);
      LocateBrackets(w, p);
      var n := if count < |w[c]| - r then count else |w[c]| - r;
      SliceIsFlat(w, c, r, n);
    }
  }

  /** Successive reads at the file's own position, one per element of `counts`, user memory taking
      all of each. Yields the bytes read and the final position. */
  function ReadsFrom(N: Capacity, log: seq<Bytes>, p: nat, counts: seq<nat>): (Bytes, nat)
    decreases |counts|
  {
    if counts == [] then ([], p)
    else
      match ReadAt(N, log, p, counts[0], counts[0])
      case Data(b) =>
        var rest := ReadsFrom(N, log, p + |b|, counts[1..]);
        (b + rest.0, rest.1)
      case _ => ([], p)
  }

  lemma SlicesJoin<T>(s: seq<T>, i: nat, j: nat, k: nat)
    requires i <= j <= k <= |s|
    ensures s[i..j] + s[j..k] == s[i..k]
  {
  }

  lemma ReadsFromFirst(N: Capacity, log: seq<Bytes>, p: nat, counts: seq<nat>, b: Bytes)
    requires counts != [] && ReadAt(N, log, p, counts[0], counts[0]) == Data(b)
    ensures var (rest, q) := ReadsFrom(N, log, p + |b|, counts[1..]);
      ReadsFrom(N, log, p, counts) == (b + rest, q)
  {
  }

  /** A read of a positive count that user memory takes in full. */
  lemma ReadMoves(N: Capacity, log: seq<Bytes>, flat: Bytes, p: nat, count: nat) returns (b: Bytes)
    requires flat == Contents(N, log) && count > 0
    ensures ReadAt(N, log, p, count, count) == Data(b)
    ensures p <= |flat| ==> p + |b| <= |flat| && b == flat[p..p + |b|]
    ensures b == [] <==> p >= |flat|
  {
    ReadIsFlat(N, log, p, count, count);
    b := ReadAt(N, log, p, count, count).bytes;
  }

  lemma SlicesJoinMore(flat: Bytes, p: nat, b: Bytes, rest: Bytes, q: nat, k: nat)
    requires p + |b| <= q <= |flat| && b == flat[p..p + |b|] && rest == flat[p + |b|..q]
    requires (q == |flat| || q - (p + |b|) >= k) && (b == [] ==> p == |flat|)
    ensures b + rest == flat[p..q] && (q == |flat| || q - p >= k + 1)
  {
    SlicesJoin(flat, p, p + |b|, q);
  }

  /** The bytes and the end of `k` reads from `p`. */
  ghost predicate DrainsTo(flat: Bytes, p: nat, k: nat, out: Bytes, q: nat) {
    p <= q <= |flat| && out == flat[p..q] && (q == |flat| || q - p >= k)
  }

  lemma DrainMore(N: Capacity, log: seq<Bytes>, flat: Bytes, p: nat, counts: seq<nat>, b: Bytes)
    requires counts != [] && ReadAt(N, log, p, counts[0], counts[0]) == Data(b)
    requires p + |b| <= |flat| && b == flat[p..p + |b|] && (b == [] <==> p >= |flat|)
    requires var (rest, q) := ReadsFrom(N, log, p + |b|, counts[1..]);
      DrainsTo(flat, p + |b|, |counts| - 1, rest, q)
    ensures var (out, q) := ReadsFrom(N, log, p, counts); DrainsTo(flat, p, |counts|, out, q)
  {
    var (rest, q) := ReadsFrom(N, log, p + |b|, counts[1..]);
    ReadsFromFirst(N, log, p, counts, b);
    SlicesJoinMore(flat, p, b, rest, q, |counts| - 1);
  }

  lemma {:induction false} DrainIsFlat(N: Capacity, log: seq<Bytes>, flat: Bytes, p: nat, counts: seq<nat>)
    requires flat == Contents(N, log) && p <= |flat|
    requires forall c :: c in counts ==> c > 0
    ensures var (out, q) := ReadsFrom(N, log, p, counts); DrainsTo(flat, p, |counts|, out, q)
    decreases |counts|
  {
    if counts != [] {
      assert counts[0] in counts && forall c :: c in counts[1..] ==> c in counts;
      var b := ReadMoves(N, log, flat, p, counts[0]);
      DrainIsFlat(N, log, flat, p + |b|, counts[1..]);
      DrainMore(N, log, flat, p, counts, b);
    }
  }

  /** Reading with any positive counts until a read returns nothing yields exactly the rest of the
      flat file, and that happens within as many reads as there are bytes left. */
  lemma DrainToEnd(N: Capacity, log: seq<Bytes>, p: nat, counts: seq<nat>, next: nat)
    requires p <= |Contents(N, log)| && next > 0
    requires forall c :: c in counts ==> c > 0
    ensures var flat := Contents(N, log);
      var (out, q) := ReadsFrom(N, log, p, counts);
      && (ReadAt(N, log, q, next, next) == Data([]) <==> out == flat[p..])
      && (|counts| >= |flat| - p ==> out == flat[p..])
  {
    var flat := Contents(N, log);
    DrainIsFlat(N, log, flat, p, counts);
    var (out, q) := ReadsFrom(N, log, p, counts);
    ReadIsFlat(N, log, q, next, next);
    assert q < |flat| ==> |out| < |flat[p..]|;
  }

  // ----- llseek ----------------------------------------------------------------------------------

  /** With every quantity in its 64-bit range, wrap-around never lets a wrong position through: llseek
      accepts exactly the true sums that lie inside the file. */
  lemma SeekExact(total: nat, pos: nat, offset: int, whence: Whence)
    requires total < TWO_63 && pos < TWO_63 && -TWO_63 <= offset < TWO_63
    ensures var target := SeekTarget(total, pos, offset, whence);
      SeekPosition(total, pos, offset, whence) == if 0 <= target <= total then Some(target) else None
  {
    var sum := (if whence.SeekCur? then pos else total) + offset;
    if sum >= TWO_63 {
      assert sum % TWO_64 == sum;
    }
  }

  /** Seeking `k` back from the end and draining yields exactly the last `k` bytes. */
  lemma SeekEndDrainsSuffix(N: Capacity, log: seq<Bytes>, flat: Bytes, pos: nat, k: nat, counts: seq<nat>)
    requires flat == Contents(N, log) && k <= |flat| < TWO_63 && pos < TWO_63 && k <= |counts|
    requires forall c :: c in counts ==> c > 0
    ensures SeekPosition(|flat|, pos, -(k as int), SeekEnd) == Some(|flat| - k)
    ensures ReadsFrom(N, log, |flat| - k, counts) == (flat[|flat| - k..], |flat|)
  {
    SeekExact(|flat|, pos, -(k as int), SeekEnd);
    DrainIsFlat(N, log, flat, |flat| - k, counts);
    assert flat[|flat| - k..|flat|] == flat[|flat| - k..];
  }

  // ----- ioctl -----------------------------------------------------------------------------------

  /** The promised seek and the lookup are inverse: it accepts exactly the (command, offset) pairs the
      lookup can return, and lands on the one position the lookup maps back to that pair. */
  lemma PromisedRoundTrip(N: Capacity, log: seq<Bytes>, cmd: nat, off: nat, p: nat)
    ensures PromisedPosition(N, log, cmd, off) == Some(p) <==>
      p < |Contents(N, log)| && Locate(Window(N, log), p) == (cmd, off)
  {
    var w := Window(N, log);
    if p < |Flatten(w)| {
      LocateBrackets(w, p);
    }
    if cmd < |w| && off < |w[cmd]| {
      LocateUnique(w, cmd, off);
    }
  }

  ghost predicate SeeksAsPromised(N: Capacity, log: seq<Bytes>) {
    forall cmd, off :: CommandPosition(N, log, cmd, off) == PromisedPosition(N, log, cmd, off)
  }

  /** The seeks are exact in a state precisely when each physical slot a seek can name holds a command of
      the same size as the logical command of that number. */
  lemma SeeksAsPromisedHere(N: Capacity, log: seq<Bytes>)
    ensures var w := Window(N, log);
      SeeksAsPromised(N, log) <==> forall c :: 0 <= c < |w| ==> |w[SlotOwner(N, |log|, c)]| == |w[c]|
  {
    var w := Window(N, log);
    if SeeksAsPromised(N, log) {
      forall c | 0 <= c < |w| ensures |w[SlotOwner(N, |log|, c)]| == |w[c]| {
        var a, b := |w[SlotOwner(N, |log|, c)]|, |w[c]|;
        var off := if a < b then a else b;
        assert CommandPosition(N, log, c, off) == PromisedPosition(N, log, c, off);
      }
    }
  }

  /** Every command passes the newline test. */
  ghost predicate Commands(log: seq<Bytes>) {
    forall i :: 0 <= i < |log| ==> HasNewline(log[i])
  }

  /** One write for each command. */
  function WholeWrites(log: seq<Bytes>): (ops: seq<Op>)
    requires Commands(log)
    ensures AllLegal(ops, 1)
  {
    if log == [] then []
    else
      var front, cmd := log[..|log| - 1], log[|log| - 1];
      assert HasNewline(cmd);
      WholeWrites(front) + [Write(cmd, |cmd|, true, [])]
  }

  lemma WholeCommand(N: Capacity, a: Abs, cmd: Bytes)
    requires a.dev.pending == [] && !a.lost && HasNewline(cmd)
    ensures Apply(N, a, Write(cmd, |cmd|, true, [])).0 == a.(dev := Dev(a.dev.log + [cmd], []))
  {
    assert [] + cmd == cmd && cmd[..|cmd|] == cmd;
  }

  lemma WholeWriteMore(N: Capacity, ops: seq<Op>, log: seq<Bytes>, cmd: Bytes)
    requires AllLegal(ops, 1) && Run(N, Fresh(1), ops) == Abs(Dev(log, []), false, [0]) && HasNewline(cmd)
    ensures AllLegal(ops + [Write(cmd, |cmd|, true, [])], 1)
    ensures Run(N, Fresh(1), ops + [Write(cmd, |cmd|, true, [])]) == Abs(Dev(log + [cmd], []), false, [0])
  {
    RunSnoc(N, Fresh(1), ops, Write(cmd, |cmd|, true, []));
    WholeCommand(N, Abs(Dev(log, []), false, [0]), cmd);
  }

  lemma WholeWritesSnoc(front: seq<Bytes>, cmd: Bytes)
    requires Commands(front) && HasNewline(cmd)
    ensures Commands(front + [cmd])
    ensures WholeWrites(front + [cmd]) == WholeWrites(front) + [Write(cmd, |cmd|, true, [])]
  {
    assert (front + [cmd])[..|front|] == front;
  }

  lemma LastCommand(log: seq<Bytes>) returns (front: seq<Bytes>, cmd: Bytes)
    requires log != [] && Commands(log)
    ensures log == front + [cmd] && Commands(front) && HasNewline(cmd)
  {
    front, cmd := log[..|log| - 1], log[|log| - 1];
  }

  lemma {:induction false} WholeWritesRun(N: Capacity, log: seq<Bytes>)
    requires Commands(log)
    ensures Run(N, Fresh(1), WholeWrites(log)) == Abs(Dev(log, []), false, [0])
    decreases |log|
  {
    if log == [] {
      assert Fresh(1).pos == [0];
    } else {
      var front, cmd := LastCommand(log);
      WholeWritesRun(N, front);
      WholeWritesSnoc(front, cmd);
      WholeWriteMore(N, WholeWrites(front), front, cmd);
    }
  }

  /** The logs that runs of calls can reach are those made of commands. */
  lemma ReachableLogs(N: Capacity, log: seq<Bytes>)
    ensures (exists ops {:trigger Run(N, Fresh(1), ops)} :: AllLegal(ops, 1) && Run(N, Fresh(1), ops).dev.log == log)
      <==> Commands(log)
  {
    if Commands(log) {
      WholeWritesRun(N, log);
      assert Run(N, Fresh(1), WholeWrites(log)).dev.log == log;
    }
    forall ops {:trigger Run(N, Fresh(1), ops)} | AllLegal(ops, 1) && Run(N, Fresh(1), ops).dev.log == log
      ensures Commands(log)
    {
      Stream.RunWrites(N, 1, ops);
      Stream.PendingIncomplete(Dev([], []), Stream.Accepted(N, 1, ops));
    }
  }

  /** A log of `k` commands, all one newline except the oldest visible one, which has a second byte. */
  function Lopsided(N: Capacity, k: nat): (log: seq<Bytes>)
    requires k > N
    ensures |log| == k
  {
    seq(k, i => if i == k - N then [1, NEWLINE] else [NEWLINE])
  }

  lemma LopsidedCommands(N: Capacity, k: nat)
    requires k > N
    ensures Commands(Lopsided(N, k))
  {
    assert CString([NEWLINE]) == [NEWLINE];
    assert CString([1, NEWLINE]) == [1] + CString([NEWLINE]) by {
      assert [1, NEWLINE][1..] == [NEWLINE];
    }
  }

  lemma LopsidedSizes(N: Capacity, k: nat)
    requires k > N && OutOffs(N, k) != 0
    ensures var w := Window(N, Lopsided(N, k));
      |w| == N && w[0] == [1, NEWLINE] && w[SlotOwner(N, k, 0)] == [NEWLINE]
  {
  }

  lemma LopsidedPositions(N: Capacity, log: seq<Bytes>)
    requires log != [] && |Window(N, log)[0]| == 2 && |Window(N, log)[SlotOwner(N, |log|, 0)]| == 1
    ensures PromisedPosition(N, log, 0, 1) == Some(1) && CommandPosition(N, log, 0, 1) == None
  {
  }

  lemma SeekRefused(N: Capacity, a: Abs, h: nat, cmd: nat, off: nat)
    requires h < |a.pos| && CommandPosition(N, a.dev.log, cmd, off) == None
    ensures Apply(N, a, SeekTo(h, cmd, off)) == (a, Failed(EINVAL))
  {
  }

  /** After the writes of that log to a new device, a seek to byte 1 of command 0, which exists, is refused:
      slot 0 of the rotated ring holds a command of one byte. */
  lemma LopsidedBreaksSeek(N: Capacity, k: nat) returns (ops: seq<Op>, a: Abs)
    requires k > N && OutOffs(N, k) != 0
    ensures AllLegal(ops, 1) && Run(N, Fresh(1), ops) == a && |a.dev.log| == k && |a.pos| == 1
    ensures PromisedPosition(N, a.dev.log, 0, 1) == Some(1)
    ensures Apply(N, a, SeekTo(0, 0, 1)) == (a, Failed(EINVAL))
  {
    var log := Lopsided(N, k);
    LopsidedCommands(N, k);
    ops, a := WholeWrites(log), Abs(Dev(log, []), false, [0]);
    WholeWritesRun(N, log);
    LopsidedSizes(N, k);
    LopsidedPositions(N, log);
    SeekRefused(N, a, 0, 0, 1);
  }

  lemma UnrotatedSeeks(N: Capacity, log: seq<Bytes>, cmd: nat, off: nat)
    requires OutOffs(N, |log|) == 0
    ensures CommandPosition(N, log, cmd, off) == PromisedPosition(N, log, cmd, off)
  {
    assert cmd < |Window(N, log)| ==> SlotOwner(N, |log|, cmd) == cmd;
  }

  /** Every run with `k` commits, whatever calls it makes on however many files, ends with seeks as
      promised exactly when the ring is then not rotated: `out_offs == 0`, that is, `k <= N` or `k` a
      multiple of `N`. */
  lemma SeeksAsPromisedExactly(N: Capacity, k: nat)
    ensures (forall files: nat, ops: seq<Op> {:trigger Run(N, Fresh(files), ops)} ::
               AllLegal(ops, files) && |Run(N, Fresh(files), ops).dev.log| == k
               ==> SeeksAsPromised(N, Run(N, Fresh(files), ops).dev.log))
            <==> OutOffs(N, k) == 0
    ensures OutOffs(N, k) == 0 <==> k <= N || k % N == 0
  {
    ClosedForm(N, k);
    InOffsPlace(N, k);
    if OutOffs(N, k) == 0 {
      forall log: seq<Bytes>, cmd: nat, off: nat | |log| == k
        ensures CommandPosition(N, log, cmd, off) == PromisedPosition(N, log, cmd, off)
      {
        UnrotatedSeeks(N, log, cmd, off);
      }
    } else {
      var ops, a := LopsidedBreaksSeek(N, k);
      assert |Run(N, Fresh(1), ops).dev.log| == k;
      assert CommandPosition(N, a.dev.log, 0, 1) != PromisedPosition(N, a.dev.log, 0, 1);
    }
  }

  // ----- positions stay inside the file until something is evicted ---------------------------------

  ghost predicate InRange(N: Capacity, a: Abs) {
    forall h :: 0 <= h < |a.pos| ==> a.pos[h] <= |Contents(N, a.dev.log)|
  }

  lemma MoveKeepsRange(N: Capacity, a: Abs, h: nat, p: nat)
    requires InRange(N, a) && h < |a.pos| && p <= |Contents(N, a.dev.log)|
    ensures InRange(N, a.(pos := a.pos[h := p]))
  {
  }

  lemma WriteKeepsRange(N: Capacity, a: Abs, data: Bytes)
    requires InRange(N, a) && |WriteTo(a.dev, data).log| <= N
    ensures InRange(N, a.(dev := WriteTo(a.dev, data)))
  {
    CommitContents(N, a.dev.log, a.dev.pending + data);
  }

  lemma SeekInRange(N: Capacity, log: seq<Bytes>, cmd: nat, off: nat)
    requires |log| <= N && CommandPosition(N, log, cmd, off).Some?
    ensures CommandPosition(N, log, cmd, off).value <= |Contents(N, log)|
  {
    assert SlotOwner(N, |log|, cmd) == cmd;
    PrefixIsLength(log, cmd + 1);
  }

  lemma ApplyKeepsRange(N: Capacity, a: Abs, op: Op)
    requires Legal(op, |a.pos|) && InRange(N, a)
    requires |Apply(N, a, op).0.dev.log| <= N
    ensures InRange(N, Apply(N, a, op).0)
  {
    match op
    case Read(h, count, room) =>
      ReadIsFlat(N, a.dev.log, a.pos[h], count, room);
      MoveKeepsRange(N, a, h, Advance(a.pos[h], ReadAt(N, a.dev.log, a.pos[h], count, room)));
    case Write(data, taken, memory, junk) =>
      if memory {
        WriteKeepsRange(N, Ready(a, junk), data[..taken]);
      }
    case Llseek(h, offset, whence) =>
      var p := SeekPosition(|Contents(N, a.dev.log)|, a.pos[h], offset, whence);
      if p.Some? {
        MoveKeepsRange(N, a, h, p.value);
      }
    case SeekTo(h, cmd, off) =>
      var p := CommandPosition(N, a.dev.log, cmd, off);
      if p.Some? {
        SeekInRange(N, a.dev.log, cmd, off);
        MoveKeepsRange(N, a, h, p.value);
      }
  }

  lemma {:induction false} RunKeepsRange(N: Capacity, a: Abs, ops: seq<Op>)
    requires AllLegal(ops, |a.pos|) && InRange(N, a)
    requires |Run(N, a, ops).dev.log| <= N
    ensures InRange(N, Run(N, a, ops))
  {
    if ops != [] {
      var front, op := ops[..|ops| - 1], ops[|ops| - 1];
      RunKeepsRange(N, a, front);
      ApplyKeepsRange(N, Run(N, a, front), op);
    }
  }

  /** The `i`-th command of a run that fills the ring: a newline, the very first with two bytes more. */
  function Filler(i: nat): (b: Bytes)
    ensures HasNewline(b) && b != []
  {
    if i == 0 then
      assert [1, NEWLINE][1..] == [NEWLINE] && [1, 1, NEWLINE][1..] == [1, NEWLINE];
      assert CString([1, NEWLINE]) == [1] + CString([NEWLINE]);
      [1, 1, NEWLINE]
    else [NEWLINE]
  }

  function Filled(n: nat): (log: seq<Bytes>)
    ensures |log| == n && Commands(log)
  {
    if n == 0 then [] else Filled(n - 1) + [Filler(n - 1)]
  }

  lemma {:induction false} FilledFirst(n: nat)
    requires n > 0
    ensures Filled(n)[0] == Filler(0)
  {
    if n > 1 {
      FilledFirst(n - 1);
    }
  }

  lemma {:induction false} FilledSize(n: nat)
    ensures |Flatten(Filled(n))| == if n == 0 then 0 else n + 2
  {
    if n > 0 {
      FilledSize(n - 1);
      FlattenSnoc(Filled(n - 1), Filler(n - 1));
    }
  }

  lemma SeekToLastByte(N: Capacity) returns (cmd: nat, off: nat)
    ensures CommandPosition(N, Filled(N), cmd, off) == Some(N + 1)
  {
    var log, data := Filled(N), Filler(N - 1);
    cmd, off := N - 1, |data| - 1;
    FilledSize(N);
    assert log[..N - 1] + [data] == log;
    FlattenSnoc(log[..N - 1], data);
    PrefixIsLength(log, N - 1);
  }

  lemma FillerEvicted(N: Capacity)
    ensures |Contents(N, Filled(N) + [[NEWLINE]])| == N
  {
    FilledSize(N);
    CommitContents(N, Filled(N), [NEWLINE]);
    FilledFirst(N);
  }

  lemma RunThen(N: Capacity, ops: seq<Op>, a: Abs, op: Op, b: Abs)
    requires AllLegal(ops, 1) && Run(N, Fresh(1), ops) == a
    requires Legal(op, 1) && Apply(N, a, op).0 == b
    ensures AllLegal(ops + [op], 1) && Run(N, Fresh(1), ops + [op]) == b
  {
    RunSnoc(N, Fresh(1), ops, op);
  }

  lemma SeekLands(N: Capacity, a: Abs, h: nat, cmd: nat, off: nat, p: nat)
    requires h < |a.pos| && CommandPosition(N, a.dev.log, cmd, off) == Some(p)
    ensures Apply(N, a, SeekTo(h, cmd, off)).0 == a.(pos := a.pos[h := p])
  {
  }

  lemma SeekThenEvict(N: Capacity, ops: seq<Op>, log: seq<Bytes>, cmd: nat, off: nat, p: nat) returns (ops': seq<Op>)
    requires AllLegal(ops, 1) && Run(N, Fresh(1), ops) == Abs(Dev(log, []), false, [0])
    requires CommandPosition(N, log, cmd, off) == Some(p) && |Contents(N, log + [[NEWLINE]])| < p
    ensures AllLegal(ops', 1) && |Run(N, Fresh(1), ops').dev.log| == |log| + 1
    ensures !InRange(N, Run(N, Fresh(1), ops'))
  {
    var start, there := Abs(Dev(log, []), false, [0]), Abs(Dev(log, []), false, [p]);
    SeekLands(N, start, 0, cmd, off, p);
    RunThen(N, ops, start, SeekTo(0, cmd, off), there);
    WholeCommand(N, there, [NEWLINE]);
    RunThen(N, ops + [SeekTo(0, cmd, off)], there, Write([NEWLINE], 1, true, []),
            Abs(Dev(log + [[NEWLINE]], []), false, [p]));
    ops' := ops + [SeekTo(0, cmd, off)] + [Write([NEWLINE], 1, true, [])];
    assert Run(N, Fresh(1), ops').pos[0] == p;
  }

  /** Fill the ring, seek to the last byte of the file, and evict the three-byte command: one eviction
      is enough to strand a position past the end. */
  lemma StrandingRun(N: Capacity) returns (ops: seq<Op>)
    ensures AllLegal(ops, 1) && |Run(N, Fresh(1), ops).dev.log| == N + 1
    ensures !InRange(N, Run(N, Fresh(1), ops))
  {
    var log := Filled(N);
    var fill := WholeWrites(log);
    assert AllLegal(fill, 1) && Run(N, Fresh(1), fill) == Abs(Dev(log, []), false, [0]) by {
      WholeWritesRun(N, log);
    }
    var cmd, off := SeekToLastByte(N);
    assert |Contents(N, log + [[NEWLINE]])| == N by { FillerEvicted(N); }
    ops := SeekThenEvict(N, fill, log, cmd, off, N + 1);
  }

  /** Every run with at most `K` commits keeps every position inside the file, whatever calls it makes
      on however many files, exactly when `K` commits evict nothing. */
  lemma PositionsSafeExactly(N: Capacity, K: nat)
    ensures (forall files: nat, ops: seq<Op> {:trigger Run(N, Fresh(files), ops)} ::
               AllLegal(ops, files) && |Run(N, Fresh(files), ops).dev.log| <= K
               ==> InRange(N, Run(N, Fresh(files), ops)))
            <==> K <= N
  {
    if K <= N {
      forall files: nat, ops: seq<Op>
        | AllLegal(ops, files) && |Run(N, Fresh(files), ops).dev.log| <= K
        ensures InRange(N, Run(N, Fresh(files), ops))
      {
        RunKeepsRange(N, Fresh(files), ops);
      }
    } else {
      var ops := StrandingRun(N);
      assert |Run(N, Fresh(1), ops).dev.log| <= K;
    }
  }

  // ----- eviction --------------------------------------------------------------------------------

  lemma {:induction false} LocateAppend(w: seq<Bytes>, cmd: Bytes, p: nat)
    requires p < |Flatten(w)|
    ensures p < |Flatten(w + [cmd])| && Locate(w + [cmd], p) == Locate(w, p)
  {
    FlattenSnoc(w, cmd);
    assert (w + [cmd])[1..] == w[1..] + [cmd];
    if p >= |w[0]| {
      LocateAppend(w[1..], cmd, p - |w[0]|);
    }
  }

  /** A commit into a full ring moves every byte of the file down by the size `s` of the evicted
      command: any read at a position still inside the old bytes has exactly the outcome it would have
      had at the position `s` higher before the commit. */
  lemma EvictionShiftsReads(N: Capacity, log: seq<Bytes>, cmd: Bytes, p: nat, count: nat, room: nat)
    requires |log| >= N
    ensures var s := |log[|log| - N]|;
      p + s < |Contents(N, log)| ==>
        ReadAt(N, log + [cmd], p, count, room) == ReadAt(N, log, p + s, count, room)
  {
    var w, s := Window(N, log), |log[|log| - N]|;
    assert w[0] == log[|log| - N];
    assert Window(N, log + [cmd]) == w[1..] + [cmd];
    assert Flatten(w) == w[0] + Flatten(w[1..]);
    if p + s < |Flatten(w)| {
      LocateAppend(w[1..], cmd, p);
      assert Locate(w, p + s) == (Locate(w[1..], p).0 + 1, Locate(w[1..], p).1);
    }
  }
}
