/** What each call of the driver replies and changes, in terms of command sizes and of the bytes received,
    and what a seek followed by reads delivers. */
module Calls {
  import opened Bytes
  import opened CommandLog
  import opened RingLayout
  import opened DeviceSpec
  import opened Delivery
  import Modular
  import Positions
  import Stream

  // ----- read ------------------------------------------------------------------------------------

  /** How many bytes a read at `p` gets: up to the end of command `c`, in which `p` lies, or `count`. */
  function ReadSize(w: seq<Bytes>, c: nat, p: nat, count: nat): nat
    requires c < |w| && p < Prefix(w, c + 1)
  {
    var left := Prefix(w, c + 1) - p;
    if count < left then count else left
  }

  lemma ReadExact(N: Capacity, log: seq<Bytes>, w: seq<Bytes>, c: nat, p: nat, count: nat, room: nat)
    requires w == Window(N, log) && c < |w| && Prefix(w, c) <= p < Prefix(w, c + 1)
    ensures p + ReadSize(w, c, p, count) <= |Contents(N, log)|
    ensures ReadAt(N, log, p, count, room) ==
      if room < ReadSize(w, c, p, count) then Failed(EFAULT)
      else Data(Contents(N, log)[p..p + ReadSize(w, c, p, count)])
  {
    LocateUnique(w, c, p - Prefix(w, c));
    SliceIsFlat(w, c, p - Prefix(w, c), ReadSize(w, c, p, count));
  }

  /** A read inside command `c` gets everything up to the end of that command or `count` bytes, whichever is
      less, and moves its own file past them; it fails exactly when user memory takes fewer, and then
      changes nothing. */
  lemma ReadCall(N: Capacity, a: Abs, h: nat, count: nat, room: nat, w: seq<Bytes>, c: nat, n: nat)
    requires h < |a.pos| && w == Window(N, a.dev.log)
    requires c < |w| && Prefix(w, c) <= a.pos[h] < Prefix(w, c + 1) && n == ReadSize(w, c, a.pos[h], count)
    ensures a.pos[h] + n <= |Contents(N, a.dev.log)|
    ensures Apply(N, a, Read(h, count, room)) ==
      if room < n then (a, Failed(EFAULT))
      else (a.(pos := a.pos[h := a.pos[h] + n]), Data(Contents(N, a.dev.log)[a.pos[h]..a.pos[h] + n]))
  {
    ReadExact(N, a.dev.log, w, c, a.pos[h], count, room);
    assert a.pos[h := a.pos[h]] == a.pos;
  }

  /** A read at or past the end of the file gets nothing and changes nothing. */
  lemma ReadPastEnd(N: Capacity, a: Abs, h: nat, count: nat, room: nat)
    requires h < |a.pos| && a.pos[h] >= |Contents(N, a.dev.log)|
    ensures Apply(N, a, Read(h, count, room)) == (a, Data([]))
  {
    assert a.pos[h := a.pos[h]] == a.pos;
  }

  // ----- write -----------------------------------------------------------------------------------

  /** A write that finds memory takes the bytes copied, behind all those received before, or behind as many
      others as have been lost; it ends a command exactly when strchr then finds a newline among the pending
      bytes, and leaves all files alone. */
  lemma WriteCall(N: Capacity, a: Abs, data: Bytes, taken: nat, junk: Bytes, a': Abs, reply: Reply)
      returns (base: Dev)
    requires taken <= |data| && Apply(N, a, Write(data, taken, true, junk)) == (a', reply)
    ensures reply == Wrote(taken) && !a'.lost && a'.pos == a.pos
    ensures base.log == a.dev.log && |base.pending| == |a.dev.pending| && (!a.lost ==> base == a.dev)
    ensures Stream.Received(a'.dev) == Stream.Received(base) + data[..taken]
    ensures a'.dev.log == a.dev.log <==> !HasNewline(base.pending + data[..taken])
    ensures HasNewline(base.pending + data[..taken]) ==> |a'.dev.log| == |a.dev.log| + 1 && a'.dev.pending == []
    ensures a.dev.log <= a'.dev.log
  {
    base := Ready(a, junk).dev;
    Stream.WriteConserves(base, data[..taken]);
  }

  /** A write that finds no memory changes nothing if nothing is pending, and otherwise loses the pending
      bytes but not their number. */
  lemma WriteStarves(N: Capacity, a: Abs, data: Bytes, taken: nat, junk: Bytes, a': Abs, reply: Reply)
    requires taken <= |data| && Apply(N, a, Write(data, taken, false, junk)) == (a', reply)
    ensures reply == Failed(ENOMEM) && a'.dev == a.dev && a'.pos == a.pos
    ensures a'.lost <==> a.dev.pending != []
  {
  }

  // ----- llseek ----------------------------------------------------------------------------------

  /** An llseek that replies with a position has moved its own file there, and nothing else; any other
      leaves everything as it was. Within the 64-bit range it accepts exactly the true sums inside the
      file. */
  lemma LlseekCall(N: Capacity, a: Abs, h: nat, offset: int, whence: Whence, a': Abs, reply: Reply)
    requires h < |a.pos| && Apply(N, a, Llseek(h, offset, whence)) == (a', reply)
    ensures if reply.At? then a' == a.(pos := a.pos[h := reply.pos]) else reply == Failed(EINVAL) && a' == a
    ensures reply.At? ==> reply.pos <= |Contents(N, a.dev.log)|
    ensures |Contents(N, a.dev.log)| < TWO_63 && a.pos[h] < TWO_63 && -TWO_63 <= offset < TWO_63 ==>
      && (reply.At? <==> 0 <= SeekTarget(|Contents(N, a.dev.log)|, a.pos[h], offset, whence) <= |Contents(N, a.dev.log)|)
      && (reply.At? ==> reply.pos == SeekTarget(|Contents(N, a.dev.log)|, a.pos[h], offset, whence))
  {
    var total := |Contents(N, a.dev.log)|;
    if total < TWO_63 && a.pos[h] < TWO_63 && -TWO_63 <= offset < TWO_63 {
      Positions.SeekExact(total, a.pos[h], offset, whence);
    }
  }

  // ----- ioctl -----------------------------------------------------------------------------------

  lemma SameResidue(x: nat, y: nat, n: nat)
    requires 0 < n && x % n == y % n && x < y + n && y < x + n
    ensures x == y
  {
    assert x - y == (x / n - y / n) * n;
    Modular.MulAtLeast(x / n - y / n, n);
  }

  /** Physical slot `c` holds that one of the last `N` commands whose number has the remainder `c`. */
  lemma OwnerNumber(N: Capacity, k: nat, c: nat, j: nat)
    requires j < k <= j + N && c == j % N
    ensures c < N && c < k
    ensures j == (if k <= N then 0 else k - N) + SlotOwner(N, k, c)
  {
    if k <= N {
      Modular.ModUnique(j, 0, j, N);
    } else {
      ClosedForm(N, k);
      var out: nat, d := k % N, SlotOwner(N, k, c);
      Modular.ModAdd(k, d, N);
      Modular.ModUnique(out + d, if c >= out then 0 else 1, c, N);
      Modular.ModAddMultiple(k - N + d, 1, N);
      SameResidue(j, k - N + d, N);
    }
  }

  /** The ioctl looks at the size of the command that physical slot `cmd` holds, which is number `j` of all
      commands ever committed, and lands on the sum of the sizes of the `cmd` oldest ones plus the offset. */
  lemma SeekToCall(N: Capacity, a: Abs, h: nat, cmd: nat, off: nat, j: nat)
    requires h < |a.pos| && j < |a.dev.log| <= j + N && j % N == cmd
    ensures cmd < |Window(N, a.dev.log)|
    ensures Apply(N, a, SeekTo(h, cmd, off)) ==
      if off < |a.dev.log[j]| then (a.(pos := a.pos[h := Prefix(Window(N, a.dev.log), cmd) + off]), Done)
      else (a, Failed(EINVAL))
  {
    OwnerNumber(N, |a.dev.log|, cmd, j);
  }

  /** A command number the ring does not hold is refused. */
  lemma SeekToRefused(N: Capacity, a: Abs, h: nat, cmd: nat, off: nat)
    requires h < |a.pos| && (cmd >= |a.dev.log| || cmd >= N)
    ensures Apply(N, a, SeekTo(h, cmd, off)) == (a, Failed(EINVAL))
  {
  }

  // ----- a seek and the reads after it -------------------------------------------------------------

  /** In any run, if all calls from the `k`-th on are reads of one file, they yield the flat file from where
      it stood, without gap or repetition, at least a byte each until its end, and change nothing else. */
  lemma {:induction false} ReadsAfter(N: Capacity, a: Abs, ops: seq<Op>, k: nat, h: nat, b: Abs, rs0: seq<Reply>,
                                      c: Abs, rs: seq<Reply>, flat: Bytes)
      returns (out: Bytes, q: nat)
    requires k <= |ops| && forall i :: k <= i < |ops| ==> ReadsFully(ops[i], h)
    requires RunsTo(N, a, ops[..k], b, rs0) && RunsTo(N, a, ops, c, rs)
    requires h < |b.pos| && flat == Contents(N, b.dev.log)
    ensures ReadsDeliver(b, rs0, h, flat, |ops| - k, c, rs, out, q)
    decreases |ops|
  {
    if |ops| == k {
      assert ops[..k] == ops;
      out, q := [], b.pos[h];
      ReadsDeliverNone(b, rs0, h, flat);
    } else {
      var front, op := ops[..|ops| - 1], ops[|ops| - 1];
      assert front[..k] == ops[..k];
      var c', rs' := LastCall(N, a, ops, c, rs);
      out, q := ReadsAfter(N, a, front, k, h, b, rs0, c', rs', flat);
      out, q := ReadsDeliverMore(N, b, rs0, h, flat, |ops| - k, c', rs', out, q, op, c, rs);
    }
  }

  /** A call that moves file `h` to `p`, with enough reads after it. */
  lemma ThenReads(N: Capacity, a: Abs, ops: seq<Op>, h: nat, op: Op, p: nat, r: Reply, c: Abs, rs: seq<Reply>,
                  flat: Bytes)
    requires ops != [] && ops[0] == op && Legal(op, |a.pos|) && h < |a.pos| && flat == Contents(N, a.dev.log)
    requires Apply(N, a, op) == (a.(pos := a.pos[h := p]), r)
    requires (forall i :: 1 <= i < |ops| ==> ReadsFully(ops[i], h)) && |flat| <= p + |ops| - 1
    requires RunsTo(N, a, ops, c, rs)
    ensures c == a.(pos := a.pos[h := RestFrom(flat, p).1])
    ensures |rs| == |ops| && rs[0] == r && Deliver(rs[1..], RestFrom(flat, p).0)
  {
    var b := a.(pos := a.pos[h := p]);
    RunsToOne(N, a, op, b, r);
    assert ops[..1] == [op];
    var out, q := ReadsAfter(N, a, ops, 1, h, b, [r], c, rs, flat);
    EnoughReads(flat, p, |ops| - 1, out, q);
    assert b.pos[h := q] == a.pos[h := q];
    assert rs[0] == rs[..1][0];
  }

  /** Seeking `k` back from the end and then reading, with at least `k` reads of any positive counts, delivers
      the last `k` bytes of the file in the replies and leaves the file at the end. */
  lemma SeekEndDelivers(N: Capacity, a: Abs, ops: seq<Op>, h: nat, k: nat, c: Abs, rs: seq<Reply>, flat: Bytes)
    requires ops != [] && h < |a.pos| && flat == Contents(N, a.dev.log)
    requires k <= |flat| < TWO_63 && a.pos[h] < TWO_63 && ops[0] == Llseek(h, -(k as int), SeekEnd)
    requires (forall i :: 1 <= i < |ops| ==> ReadsFully(ops[i], h)) && k < |ops|
    requires RunsTo(N, a, ops, c, rs)
    ensures c == a.(pos := a.pos[h := |flat|])
    ensures |rs| == |ops| && rs[0] == At(|flat| - k) && Deliver(rs[1..], flat[|flat| - k..])
  {
    var seek := Llseek(h, -(k as int), SeekEnd);
    LlseekCall(N, a, h, -(k as int), SeekEnd, Apply(N, a, seek).0, Apply(N, a, seek).1);
    ThenReads(N, a, ops, h, seek, |flat| - k, At(|flat| - k), c, rs, flat);
  }

  /** An ioctl for command `cmd` and offset `off`, followed by enough reads, delivers the file from that
      offset behind the `cmd` oldest commands to its end, provided that slot `cmd` holds a command larger
      than the offset. */
  lemma SeekToDelivers(N: Capacity, a: Abs, ops: seq<Op>, h: nat, cmd: nat, off: nat, j: nat, p: nat, c: Abs,
                       rs: seq<Reply>, flat: Bytes)
    requires ops != [] && h < |a.pos| && flat == Contents(N, a.dev.log)
    requires j < |a.dev.log| <= j + N && j % N == cmd < |Window(N, a.dev.log)| && off < |a.dev.log[j]|
    requires p == Prefix(Window(N, a.dev.log), cmd) + off && ops[0] == SeekTo(h, cmd, off)
    requires (forall i :: 1 <= i < |ops| ==> ReadsFully(ops[i], h)) && |flat| < |ops|
    requires RunsTo(N, a, ops, c, rs)
    ensures c == a.(pos := a.pos[h := RestFrom(flat, p).1])
    ensures |rs| == |ops| && rs[0] == Done && Deliver(rs[1..], RestFrom(flat, p).0)
  {
    SeekToCall(N, a, h, cmd, off, j);
    ThenReads(N, a, ops, h, SeekTo(h, cmd, off), p, Done, c, rs, flat);
  }
}
