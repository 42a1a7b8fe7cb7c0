/** The character device: the ring, the entry under construction, and the open files. */
module AesdDevice {
  import opened Bytes
  import opened CommandLog
  import opened RingLayout
  import opened DeviceSpec
  import opened CircularBuffers
  import opened KernelMemory
  import Positions

  /** AESDCHAR_MAX_WRITE_OPERATIONS_SUPPORTED */
  const MAX_WRITE_OPERATIONS: Capacity := 10

  /** An open file, for as much as the driver uses of it. */
  class File {
    var pos: nat

    constructor ()
      ensures pos == 0
    {
      pos := 0;
    }
  }

  /** What is under construction is all there, or all but its size is lost. */
  datatype Condition = Whole(dev: Dev) | Broken(log: seq<Bytes>, size: nat)

  /** A device in condition `c` is in state `d`, for some bytes in place of those it has lost. */
  ghost predicate Stands(c: Condition, d: Dev) {
    match c
    case Whole(e) => d == e
    case Broken(log, size) => d.log == log && |d.pending| == size
  }

  function LogOf(c: Condition): seq<Bytes> {
    match c
    case Whole(d) => d.log
    case Broken(log, _) => log
  }

  datatype Ioctl = IocSeekTo(arg: Option<(nat, nat)>) | OtherIoctl

  /** What copy_to_user leaves in user memory when it is to copy `n` bytes. */
  lemma PartDelivered(before: Bytes, after: Bytes, bytes: Bytes, offset: nat, n: nat, room: nat)
    requires offset + n <= |bytes| && n <= |before| == |after|
    requires var k := if room < n then room else n;
      after[..k] == bytes[offset..offset + k] && after[k..] == before[k..]
    ensures Delivered(before, after, Data(bytes[offset..offset + n]), room)
  {
    var k := if room < n then room else n;
    assert bytes[offset..offset + n][..k] == bytes[offset..offset + k];
    assert after == after[..k] + after[k..];
  }

  class Device {
    const ring: CircularBuffer
    var entry: Entry

    /** What the device held when the history of accepted chunks began, and those chunks, one per
        successful write. The history begins anew after bytes under construction have been lost. */
    ghost var base: Dev
    ghost var accepted: seq<Bytes>

    /** No two slots of the ring share a buffer, and none shares with the entry under construction. */
    ghost predicate Owned()
      reads this, ring, ring.entry
    {
      Distinct(ring.entry[..]) && (entry.buffptr != null ==> entry.buffptr !in ring.buffers)
    }

    ghost function State(): Dev
      requires Sound(entry)
      reads this, ring, entry.buffptr
    {
      Dev(ring.log, BytesOf(entry))
    }

    /** The ring is in order, whatever has become of the entry under construction. */
    ghost predicate RingIntact()
      reads this, ring, ring.entry, ring.buffers
    {
      ring.Valid() && Owned()
    }

    ghost predicate Intact()
      reads this, ring, ring.entry, ring.buffers, entry.buffptr
    {
      RingIntact() && Sound(entry)
    }

    ghost predicate Valid()
      reads this, ring, ring.entry, ring.buffers, entry.buffptr
    {
      Intact() && State() == WriteAll(base, accepted)
    }

    /** A failed reallocation has lost the bytes under construction, but not their count. */
    ghost predicate Lost()
      reads this, ring, ring.entry, ring.buffers
    {
      RingIntact() && entry.buffptr == null && entry.size > 0
    }

    /** As the driver may find its device. */
    ghost predicate Usable()
      reads this, ring, ring.entry, ring.buffers, entry.buffptr
    {
      Valid() || Lost()
    }

    ghost function Condition(): Condition
      reads this, ring, entry.buffptr
    {
      if Sound(entry) then Whole(State()) else Broken(ring.log, entry.size)
    }

    ghost function Capacity(): Capacity
      requires 0 < ring.entry.Length
    {
      ring.entry.Length
    }

    constructor (capacity: nat)
      requires 0 < capacity
      ensures Valid() && State() == base == Dev([], []) && accepted == [] && Capacity() == capacity
      ensures fresh(ring) && fresh(ring.entry)
    {
      ring := new CircularBuffer(capacity);
      entry := Entry(null, 0);
      base, accepted := Dev([], []), [];
    }

    // ----- write -----------------------------------------------------------------------------------

    /** Whether the memory for `count` more bytes cannot be had. */
    ghost predicate Starved(count: nat, mem: Memory)
      reads this
    {
      && !mem.available
      && (entry.size == 0 || entry.buffptr == null || entry.size + count > entry.buffptr.Length)
    }

    /** Makes room for `count` bytes after those under construction. */
    method Reserve(count: nat, mem: Memory) returns (ok: bool)
      requires Intact() || Lost()
      modifies this`entry
      ensures ok <==> !old(Starved(count, mem))
      // With memory to be had it succeeds; without, exactly if the buffer there is large enough.
      ensures mem.available ==> ok
      ensures !mem.available && old(entry.size) == 0 ==> !ok
      ensures !mem.available && old(entry.size) > 0 ==>
        (ok <==> old(entry.buffptr) != null && old(entry.size) + count <= old(entry.buffptr).Length)
      ensures ok ==>
        && Intact() && (old(Intact()) ==> State() == old(State()))
        && entry.size == old(entry.size)
        && entry.buffptr != null && entry.size + count <= entry.buffptr.Length
        && (fresh(entry.buffptr) || entry.buffptr == old(entry.buffptr))
      ensures !ok ==> entry == Entry(null, old(entry.size))
    {
      var p: array?<byte>;
      if entry.size == 0 {
        p := Kzalloc(count, mem);
      } else {
        p := Krealloc(entry.buffptr, entry.size, entry.size + count, mem);
      }
      entry := entry.(buffptr := p);
      return p != null;
    }

    /** Copies `taken` bytes of `data` behind the bytes under construction. */
    method Append(data: Bytes, taken: nat) returns (retval: nat)
      requires Intact() && taken <= |data|
      requires entry.buffptr != null && entry.size + |data| <= entry.buffptr.Length
      modifies this`entry, entry.buffptr
      ensures Intact() && retval == taken && entry.buffptr == old(entry.buffptr)
      ensures State() == Dev(old(ring.log), old(State()).pending + data[..taken])
    {
      var remain := CopyFromUser(entry.buffptr, entry.size, data, taken);
      retval := if remain > 0 then |data| - remain else |data|;
      entry := entry.(size := entry.size + retval);
    }

    /** Moves the bytes under construction into the ring if they hold a newline. */
    method CommitIfComplete()
      requires Intact() && entry.buffptr != null
      modifies this`entry, ring, ring.entry
      ensures Intact()
      ensures old(HasNewline(State().pending)) ==> State() == Dev(old(ring.log) + [old(State()).pending], [])
      ensures !old(HasNewline(State().pending)) ==> State() == old(State())
      ensures entry.buffptr == null || entry.buffptr == old(entry.buffptr)
    {
      var found := StrchrNewline(entry.buffptr, entry.size);
      if found {
        StoreDistinct(ring.entry[..], ring.inOffs, entry);
        ring.AddEntry(entry);
        entry := entry.(buffptr := null, size := 0);
      }
    }

    /** Once there is room: copies, and commits if that completes a command. */
    method TakeIn(data: Bytes, taken: nat) returns (retval: nat)
      requires Intact() && taken <= |data|
      requires entry.buffptr != null && entry.size + |data| <= entry.buffptr.Length
      modifies this`entry, ring, ring.entry, entry.buffptr
      ensures Intact() && retval == taken
      ensures State() == WriteTo(old(State()), data[..taken])
      ensures entry.buffptr == null || entry.buffptr == old(entry.buffptr)
    {
      retval := Append(data, taken);
      CommitIfComplete();
    }

    /** Adds `piece`, accepted in state `before`, to the history. */
    ghost method Record(before: Dev, piece: Bytes, anew: bool)
      requires Intact() && State() == WriteTo(before, piece)
      requires anew || before == WriteAll(base, accepted)
      modifies this`base, this`accepted
      ensures Valid()
      ensures base == if anew then before else old(base)
      ensures accepted == (if anew then [] else old(accepted)) + [piece]
    {
      var start, chunks := if anew then before else base, if anew then [] else accepted;
      assert before == WriteAll(start, chunks);
      assert State() == WriteAll(start, chunks + [piece]) by {
        WriteAllSnoc(start, chunks, piece);
      }
      base, accepted := start, chunks + [piece];
    }

    /** The same with the history: it begins anew if the bytes under construction are not its own. */
    method Accept(data: Bytes, taken: nat, ghost anew: bool) returns (retval: nat)
      requires Intact() && taken <= |data| && (anew || Valid())
      requires entry.buffptr != null && entry.size + |data| <= entry.buffptr.Length
      modifies this, ring, ring.entry, entry.buffptr
      ensures Valid() && retval == taken
      ensures State() == WriteTo(old(State()), data[..taken])
      ensures base == if anew then old(State()) else old(base)
      ensures accepted == (if anew then [] else old(accepted)) + [data[..taken]]
      ensures entry.buffptr == null || entry.buffptr == old(entry.buffptr)
    {
      ghost var before := State();
      retval := TakeIn(data, taken);
      Record(before, data[..taken], anew);
    }

    /** Accepts `taken` bytes of `data`. */
    method Write(data: Bytes, taken: nat, mem: Memory) returns (reply: Reply)
      requires Valid() || Lost()
      requires taken <= |data|
      modifies this, ring, ring.entry, entry.buffptr
      ensures reply == if old(Starved(|data|, mem)) then Failed(ENOMEM) else Wrote(taken)
      // With memory to be had it succeeds; without, exactly if there is a buffer and it is large enough.
      ensures mem.available ==> reply == Wrote(taken)
      ensures !mem.available && old(entry.size) == 0 ==> reply == Failed(ENOMEM)
      ensures !mem.available && old(entry.size) > 0 ==>
        (reply == Wrote(taken) <==> old(entry.buffptr) != null && old(entry.size) + |data| <= old(entry.buffptr).Length)
      // Success: the bytes are accepted, and committed if they complete a command.
      ensures !old(Starved(|data|, mem)) ==> Valid()
      ensures old(Valid() && !Starved(|data|, mem)) ==>
        && State() == WriteTo(old(State()), data[..taken])
        && base == old(base) && accepted == old(accepted) + [data[..taken]]
      // Lost bytes come back as others, as many as there were.
      ensures old(Lost() && !Starved(|data|, mem)) ==>
        && base.log == old(ring.log) && |base.pending| == old(entry.size)
        && accepted == [data[..taken]] && State() == WriteTo(base, data[..taken])
      // A failed first allocation changes nothing; a failed reallocation loses the bytes.
      ensures old(Starved(|data|, mem)) ==>
        unchanged(ring) && unchanged(ring.entry) && base == old(base) && accepted == old(accepted)
      ensures old(Starved(|data|, mem) && entry.size == 0) ==> Valid() && State() == old(State())
      ensures old(Starved(|data|, mem) && entry.size > 0) ==> Lost() && entry.size == old(entry.size)
      ensures entry.buffptr == null || entry.buffptr == old(entry.buffptr) || fresh(entry.buffptr)
      // No buffer of the ring is written to.
      ensures forall b :: b in old(ring.buffers) ==> b[..] == old(b[..])
    {
      ghost var lost := entry.buffptr == null && entry.size > 0;
      var ok := Reserve(|data|, mem);
      if !ok {
        return Failed(ENOMEM);
      }
      var retval := Accept(data, taken, lost);
      return Wrote(retval);
    }

    // ----- read ------------------------------------------------------------------------------------

    /** Once the entry is found: copies from its offset to user memory and advances the position. */
    method CopyOut(f: File, buf: array<byte>, e: Entry, offset: nat, count: nat, room: nat) returns (reply: Reply)
      requires Sound(e) && e.buffptr != null && e.buffptr != buf && offset < e.size && count <= buf.Length
      modifies f, buf
      ensures reply == ReadOne(old(BytesOf(e)), offset, count, room)
      ensures f.pos == Advance(old(f.pos), reply)
      ensures Delivered(old(buf[..]), buf[..], ReadOne(old(BytesOf(e)), offset, count, count), room)
    {
      ghost var bytes := BytesOf(e);
      var retval := if count < e.size - offset then count else e.size - offset;
      var remain := CopyToUser(buf, e.buffptr, offset, retval, room);
      PartDelivered(old(buf[..]), buf[..], bytes, offset, retval, room);
      if remain != 0 {
        return Failed(EFAULT);
      }
      f.pos := f.pos + retval;
      return Data(buf[..retval]);
    }

    /** Copies at most `count` bytes from the file's position to `buf`, of which user memory takes
        `room`, and advances the position. On EFAULT user memory has got as much as it takes of the
        bytes it should have got. */
    method Read(f: File, buf: array<byte>, count: nat, room: nat) returns (reply: Reply)
      requires RingIntact() && count <= buf.Length
      requires buf !in ring.buffers && buf != entry.buffptr
      modifies f, buf
      ensures RingIntact() && (old(Intact()) ==> Intact() && State() == old(State()))
      ensures reply == ReadAt(Capacity(), ring.log, old(f.pos), count, room)
      ensures f.pos == Advance(old(f.pos), reply)
      ensures Delivered(old(buf[..]), buf[..], ReadAt(Capacity(), ring.log, old(f.pos), count, count), room)
    {
      var found := ring.EntryAt(f.pos);
      if found.None? {
        return Data([]);
      }
      ring.ReadsEntry(f.pos, found.value.0, found.value.1, count, room);
      ring.ReadsEntry(f.pos, found.value.0, found.value.1, count, count);
      reply := CopyOut(f, buf, found.value.0, found.value.1, count, room);
    }

    // ----- llseek ----------------------------------------------------------------------------------

    /** The loop of llseek over the commands `w`. It adds the slot at `in_offs` before it stops there;
        in a ring that is not full that slot is empty. */
    method TotalSize(ghost w: seq<Bytes>) returns (total: nat)
      requires ring.Shows(w) && ring.StopsAfter(w)
      ensures total == |Flatten(w)|
    {
      total := 0;
      var i, count := ring.outOffs, 0;
      while count < ring.entry.Length
        invariant OnWalk(ring.entry.Length, ring.outOffs, i, count)
        invariant total == WalkSum(w, count)
        invariant !ring.full ==> count <= |w|
        decreases ring.entry.Length - count
      {
        total := total + ring.entry[i].size;
        if i == ring.inOffs && !ring.full {
          WalkSumAll(w, count + 1);
          return;
        }
        i := NextIndex(ring.entry.Length, i);
        count := count + 1;
      }
      WalkSumAll(w, count);
    }

    method ContentsSize() returns (total: nat)
      requires ring.Valid()
      ensures total == |Contents(ring.entry.Length, ring.log)|
    {
      ring.ValidShows();
      ring.ValidStops();
      total := TotalSize(ring.Visible());
    }

    /** The switch of llseek and the test after it. Wrap-around of the 64-bit sum never lets a wrong
        position through: within the range of its types, exactly the true sums inside the file. */
    static method NewPosition(total: nat, pos: nat, offset: int, whence: Whence) returns (p: Option<nat>)
      ensures p == SeekPosition(total, pos, offset, whence)
      ensures total < TWO_63 && pos < TWO_63 && -TWO_63 <= offset < TWO_63 ==>
        var target := SeekTarget(total, pos, offset, whence);
        p == if 0 <= target <= total then Some(target) else None
    {
      if total < TWO_63 && pos < TWO_63 && -TWO_63 <= offset < TWO_63 {
        Positions.SeekExact(total, pos, offset, whence);
      }
      var newPos := 0;
      match whence {
        case SeekSet => newPos := offset;
        case SeekCur => newPos := ToLoff(pos + offset);
        case SeekEnd => newPos := ToLoff(total + offset);
        case OtherWhence => return None;
      }
      if newPos < 0 || newPos > total {
        return None;
      }
      return Some(newPos);
    }

    /** Moves the file's position. */
    method Llseek(f: File, offset: int, whence: Whence) returns (reply: Reply)
      requires RingIntact()
      modifies f
      ensures RingIntact() && (old(Intact()) ==> Intact() && State() == old(State()))
      ensures match SeekPosition(|Contents(Capacity(), ring.log)|, old(f.pos), offset, whence)
        case None => reply == Failed(EINVAL) && f.pos == old(f.pos)
        case Some(p) => reply == At(p) && f.pos == p
    {
      var total := ContentsSize();
      var p := NewPosition(total, f.pos, offset, whence);
      if p.None? {
        return Failed(EINVAL);
      }
      f.pos := p.value;
      return At(p.value);
    }

    // ----- ioctl -----------------------------------------------------------------------------------

    /** The first loop of the ioctl: how many commands the ring holds. */
    method CountCommands(ghost w: seq<Bytes>) returns (count: nat)
      requires ring.Shows(w) && ring.StopsAfter(w)
      ensures count == |w|
    {
      var i := ring.outOffs;
      count := 0;
      while count < ring.entry.Length
        invariant OnWalk(ring.entry.Length, ring.outOffs, i, count)
        invariant !ring.full ==> count <= |w|
        decreases ring.entry.Length - count
      {
        if i == ring.inOffs && !ring.full {
          return;
        }
        i := NextIndex(ring.entry.Length, i);
        count := count + 1;
      }
    }

    /** The second loop of the ioctl: the total size of the `cmd` oldest commands. */
    method SizeBefore(cmd: nat, ghost w: seq<Bytes>) returns (newPos: nat)
      requires ring.Shows(w) && ring.StopsAfter(w) && cmd < |w|
      ensures newPos == Prefix(w, cmd)
    {
      newPos := 0;
      var i, count := ring.outOffs, 0;
      while count < cmd
        invariant OnWalk(ring.entry.Length, ring.outOffs, i, count)
        invariant newPos == WalkSum(w, count)
        invariant count <= cmd
        decreases cmd - count
      {
        newPos := newPos + ring.entry[i].size;
        if i == ring.inOffs && !ring.full {
          break;
        }
        i := NextIndex(ring.entry.Length, i);
        count := count + 1;
      }
      WalkSumIsPrefix(w, cmd);
    }

    /** The position for command `c`, offset `off`, in a ring that shows the commands `w`. */
    method SeekIn(c: nat, off: nat, ghost w: seq<Bytes>) returns (p: Option<nat>)
      requires ring.Shows(w) && ring.StopsAfter(w)
      ensures p == if c >= |w| || ring.entry[c].size <= off then None else Some(Prefix(w, c) + off)
    {
      var count := CountCommands(w);
      if c >= count || ring.entry[c].size <= off {
        return None;
      }
      var newPos := SizeBefore(c, w);
      return Some(newPos + off);
    }

    method SeekSlot(c: nat, off: nat) returns (p: Option<nat>)
      requires ring.Valid()
      ensures p == CommandPosition(ring.entry.Length, ring.log, c, off)
    {
      ring.ValidShows();
      ring.ValidStops();
      ring.SeeksSlot(c, off);
      p := SeekIn(c, off, ring.Visible());
    }

    /** AESDCHAR_IOCSEEKTO; its argument is None when it cannot be copied from user memory. */
    method UnlockedIoctl(f: File, cmd: Ioctl) returns (reply: Reply)
      requires RingIntact()
      modifies f
      ensures RingIntact() && (old(Intact()) ==> Intact() && State() == old(State()))
      ensures match cmd
        case OtherIoctl => reply == Failed(ENOTTY) && f.pos == old(f.pos)
        case IocSeekTo(None) => reply == Failed(EFAULT) && f.pos == old(f.pos)
        case IocSeekTo(Some((c, off))) =>
          match CommandPosition(Capacity(), ring.log, c, off)
          case None => reply == Failed(EINVAL) && f.pos == old(f.pos)
          case Some(p) => reply == Done && f.pos == p
    {
      if cmd.OtherIoctl? {
        return Failed(ENOTTY);
      }
      if cmd.arg.None? {
        return Failed(EFAULT);
      }
      var p := SeekSlot(cmd.arg.value.0, cmd.arg.value.1);
      if p.None? {
        return Failed(EINVAL);
      }
      f.pos := p.value;
      return Done;
    }
  }

  /** What aesd_init_module leaves behind: the device zeroed, with room for the driver's ten commands. */
  method InitModule() returns (dev: Device)
    ensures fresh(dev) && dev.Valid() && dev.Capacity() == MAX_WRITE_OPERATIONS
    ensures dev.State() == Dev([], []) && Contents(dev.Capacity(), dev.ring.log) == []
  {
    dev := new Device(MAX_WRITE_OPERATIONS);
  }
}
