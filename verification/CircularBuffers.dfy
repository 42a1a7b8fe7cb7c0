/** The ring of command buffers, with its slots and indices updated in place. */
module CircularBuffers {
  import opened Bytes
  import opened CommandLog
  import opened RingLayout
  import opened DeviceSpec

  /** A buffer in kernel memory and the number of its bytes in use. The memory may be larger. */
  datatype Entry = Entry(buffptr: array?<byte>, size: nat)

  ghost predicate Sound(e: Entry) {
    if e.buffptr == null then e.size == 0 else e.size <= e.buffptr.Length
  }

  ghost function BytesOf(e: Entry): (b: Bytes)
    requires Sound(e)
    reads e.buffptr
    ensures |b| == e.size
  {
    if e.buffptr == null then [] else e.buffptr[..e.size]
  }

  /** No two entries share a buffer. */
  ghost predicate Distinct(s: seq<Entry>) {
    forall i, j :: 0 <= i < j < |s| && s[i].buffptr != null ==> s[i].buffptr != s[j].buffptr
  }

  lemma StoreDistinct(s: seq<Entry>, i: nat, e: Entry)
    requires Distinct(s) && i < |s| && forall j :: 0 <= j < |s| ==> s[j].buffptr != e.buffptr
    ensures Distinct(s[i := e])
  {
  }

  class CircularBuffer {
    const entry: array<Entry>
    var inOffs: nat
    var outOffs: nat
    var full: bool

    /** Every command added so far, by its bytes. */
    ghost var log: seq<Bytes>
    /** The bytes each slot holds. */
    ghost var slots: seq<Bytes>
    /** Every buffer ever moved into the ring. */
    ghost var buffers: set<array<byte>>

    ghost predicate Valid()
      reads this, entry, buffers
    {
      && 0 < entry.Length
      && Represents(entry.Length, slots, inOffs, outOffs, full, log)
      && (forall i {:trigger entry[i]} :: 0 <= i < entry.Length ==>
            && (entry[i].buffptr == null || entry[i].buffptr in buffers)
            && Sound(entry[i]) && BytesOf(entry[i]) == slots[i])
    }

    ghost function Visible(): seq<Bytes>
      requires 0 < entry.Length
      reads this
    {
      Window(entry.Length, log)
    }

    /** A ring as memset leaves it. */
    constructor (capacity: nat)
      requires 0 < capacity
      ensures Valid() && fresh(entry)
      ensures entry.Length == capacity && log == [] && buffers == {}
      ensures forall i :: 0 <= i < capacity ==> entry[i] == Entry(null, 0)
    {
      entry := new Entry[capacity](_ => Entry(null, 0));
      inOffs, outOffs, full := 0, 0, false;
      log, slots, buffers := [], seq(capacity, _ => []), {};
    }

    /** Takes the indices and the flag from where they are after `k` adds to where they are after the next
        one. */
    method Advance(ghost k: nat)
      requires 0 < entry.Length
      requires inOffs == InOffs(entry.Length, k) && outOffs == OutOffs(entry.Length, k) && full == Full(entry.Length, k)
      modifies this`inOffs, this`outOffs, this`full
      ensures inOffs == InOffs(entry.Length, k + 1) && outOffs == OutOffs(entry.Length, k + 1)
      ensures full <==> Full(entry.Length, k + 1)
    {
      IndicesAdvance(entry.Length, k);
      inOffs := NextIndex(entry.Length, inOffs);
      if full {
        outOffs := NextIndex(entry.Length, outOffs);
      }
      full := inOffs == outOffs;
    }

    /** Stores `e` as the newest entry, over the oldest one if the ring is full. The buffer itself is
        not copied. */
    method AddEntry(e: Entry)
      requires Valid() && Sound(e) && e.buffptr != null
      modifies this, entry
      ensures Valid()
      ensures log == old(log) + [BytesOf(e)]
      ensures buffers == old(buffers) + {e.buffptr}
      ensures entry[..] == old(entry[..])[old(inOffs) := e]
    {
      StoreHolds(entry.Length, slots, log, BytesOf(e));
      slots := slots[inOffs := BytesOf(e)];
      entry[inOffs] := e;
      Advance(|log|);
      log := log + [BytesOf(e)];
      buffers := buffers + {e.buffptr};
    }

    /** A walk over the ring from the oldest entry meets slots of the sizes of the commands `w`, then
        only empty slots. */
    ghost predicate Shows(w: seq<Bytes>)
      reads this, entry
    {
      && 0 < entry.Length && outOffs < entry.Length && |w| <= entry.Length
      && (forall c {:trigger Wrap(entry.Length, outOffs + c)} :: 0 <= c < entry.Length ==>
            entry[Wrap(entry.Length, outOffs + c)].size == if c < |w| then |w[c]| else 0)
    }

    /** In a ring that is not full such a walk reaches `in_offs` right after the last of `w`. */
    ghost predicate StopsAfter(w: seq<Bytes>)
      requires 0 < entry.Length && outOffs < entry.Length
      reads this
    {
      if full then |w| == entry.Length
      else |w| < entry.Length && inOffs == Wrap(entry.Length, outOffs + |w|)
    }

    lemma ValidStops()
      requires Valid()
      ensures StopsAfter(Visible())
    {
      InOffsPlace(entry.Length, |log|);
    }

    lemma ValidShows()
      requires Valid()
      ensures Shows(Visible())
    {
      forall c | 0 <= c < entry.Length
        ensures entry[Wrap(entry.Length, outOffs + c)].size == if c < |Visible()| then |Visible()[c]| else 0
      {
        SlotAt(entry.Length, slots, log, c);
      }
    }

    /** The slot found by step `c` of such a walk holds the c-th oldest command. */
    lemma SlotHolds(c: nat)
      requires Valid() && c < |Visible()|
      ensures var e := entry[Wrap(entry.Length, outOffs + c)];
        Sound(e) && BytesOf(e) == Visible()[c] && e.buffptr in buffers + {null}
    {
      SlotAt(entry.Length, slots, log, c);
    }

    /** The specified ioctl, in terms of physical slot `c`, which after a wrap is not the c-th oldest. */
    lemma SeeksSlot(c: nat, off: nat)
      requires Valid()
      ensures CommandPosition(entry.Length, log, c, off) ==
        if c >= |Visible()| || entry[c].size <= off then None else Some(Prefix(Visible(), c) + off)
    {
      if c < |Visible()| {
        SlotPhysical(entry.Length, slots, log, c);
      }
    }

    /** The lookup of position `p` found entry `e`, to be read from `offset`. */
    ghost predicate Finds(p: nat, e: Entry, offset: nat)
      requires 0 < entry.Length
      reads this, e.buffptr
    {
      && p < |Flatten(Visible())|
      && Sound(e) && e.buffptr in buffers
      && BytesOf(e) == Visible()[Locate(Visible(), p).0] && offset == Locate(Visible(), p).1
    }

    /** The specified read, in terms of the entry the lookup found. */
    lemma ReadsEntry(p: nat, e: Entry, offset: nat, count: nat, room: nat)
      requires 0 < entry.Length && Finds(p, e, offset)
      ensures offset < e.size
      ensures ReadAt(entry.Length, log, p, count, room) == ReadOne(BytesOf(e), offset, count, room)
    {
    }

    lemma FindsAt(p: nat, i: nat)
      requires Valid() && p < |Flatten(Visible())|
      requires i == Wrap(entry.Length, outOffs + Locate(Visible(), p).0)
      ensures Finds(p, entry[i], Locate(Visible(), p).1)
    {
      SlotHolds(Locate(Visible(), p).0);
    }

    /** The slot and offset of flat position `charOffset`; nothing if that is past the end of the
        commands `w` the ring shows. */
    method FindEntryOffsetForFpos(charOffset: nat, ghost w: seq<Bytes>) returns (found: Option<(nat, nat)>)
      requires Shows(w)
      ensures found.None? <==> charOffset >= |Flatten(w)|
      ensures found.Some? ==>
        var (c, r) := Locate(w, charOffset);
        found == Some((Wrap(entry.Length, outOffs + c), r)) && found.value.0 < entry.Length
    {
      var boffset := 0;
      var i, count := outOffs, 0;
      while count < entry.Length
        invariant OnWalk(entry.Length, outOffs, i, count)
        invariant boffset == WalkSum(w, count) <= charOffset
        decreases entry.Length - count
      {
        if charOffset < boffset + entry[i].size {
          WalkSumFinds(w, count, charOffset);
          return Some((i, charOffset - boffset));
        }
        boffset := boffset + entry[i].size;
        i := NextIndex(entry.Length, i);
        count := count + 1;
      }
      WalkSumAll(w, count);
      return None;
    }

    /** The lookup as a read uses it: the entry to copy from and where to start in it; nothing at the end
        of the file. */
    method EntryAt(p: nat) returns (found: Option<(Entry, nat)>)
      requires Valid()
      ensures found.None? <==> p >= |Contents(entry.Length, log)|
      ensures found.Some? ==> Finds(p, found.value.0, found.value.1)
    {
      ValidShows();
      var at := FindEntryOffsetForFpos(p, Visible());
      if at.None? {
        return None;
      }
      FindsAt(p, at.value.0);
      return Some((entry[at.value.0], at.value.1));
    }
  }
}
