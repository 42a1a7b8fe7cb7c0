/** How the rotating slots and indices of the ring encode the command log. Both the class and the
    micro-step machine are related to the log through the definitions of this module. */
module RingLayout {
  import opened Bytes
  import opened CommandLog
  import Modular

  /** An index that may have run once past the end, brought back into the array. */
  function Wrap(N: Capacity, x: nat): (i: nat)
    requires x < 2 * N
    ensures i < N
  {
    if x < N then x else x - N
  }

  /** The indices after `k` commits: where the next one goes, and where the oldest one is. */
  function InOffs(N: Capacity, k: nat): (i: nat)
    ensures i < N
  {
    if k == 0 then 0 else Wrap(N, InOffs(N, k - 1) + 1)
  }

  function OutOffs(N: Capacity, k: nat): (i: nat)
    ensures i < N
  {
    if k <= N then 0 else InOffs(N, k)
  }

  predicate Full(N: Capacity, k: nat) {
    k >= N
  }

  lemma ModIsWrap(N: Capacity, x: nat)
    requires x < 2 * N
    ensures x % N == Wrap(N, x)
  {
    if x < N {
      Modular.ModUnique(x, 0, x, N);
    } else {
      Modular.ModUnique(x, 1, x - N, N);
    }
  }

  /** While the ring is not full the next write goes right after the last command; in a full ring it
      goes where the oldest command is. */
  lemma {:induction false} InOffsPlace(N: Capacity, k: nat)
    ensures k < N ==> InOffs(N, k) == k
    ensures k >= N ==> InOffs(N, k) == OutOffs(N, k)
    ensures k == N ==> InOffs(N, k) == 0
  {
    if 0 < k <= N {
      InOffsPlace(N, k - 1);
    }
  }

  /** The indices in closed form. */
  lemma {:induction false} ClosedForm(N: Capacity, k: nat)
    ensures InOffs(N, k) == k % N
    ensures OutOffs(N, k) == if k < N then 0 else k % N
  {
    InOffsPlace(N, k);
    if k == 0 {
      ModIsWrap(N, 0);
    } else {
      ClosedForm(N, k - 1);
      Modular.ModAdd(k - 1, 1, N);
      ModIsWrap(N, (k - 1) % N + 1);
    }
  }

  /** The index after `i`, as every loop and every commit of the driver steps it. */
  method NextIndex(N: Capacity, i: nat) returns (j: nat)
    requires i < N
    ensures j == Wrap(N, i + 1)
  {
    ModIsWrap(N, i + 1);
    return (i + 1) % N;
  }

  /** What one call of aesd_circular_buffer_add_entry does to the indices and the flag. */
  lemma IndicesAdvance(N: Capacity, k: nat)
    ensures Wrap(N, InOffs(N, k) + 1) == InOffs(N, k + 1)
    ensures OutOffs(N, k + 1) == if Full(N, k) then Wrap(N, OutOffs(N, k) + 1) else OutOffs(N, k)
    ensures Full(N, k + 1) <==> InOffs(N, k + 1) == OutOffs(N, k + 1)
  {
    InOffsPlace(N, k);
    InOffsPlace(N, k + 1);
  }

  /** Walking from `out_offs` meets the last commands, oldest first; a slot never written is empty. */
  ghost predicate SlotsHold(N: Capacity, slots: seq<Bytes>, log: seq<Bytes>) {
    var w, out := Window(N, log), OutOffs(N, |log|);
    && |slots| == N
    && (forall c {:trigger w[c]} :: 0 <= c < |w| ==> slots[Wrap(N, out + c)] == w[c])
    && (forall i {:trigger slots[i]} :: |log| <= i < N ==> slots[i] == [])
  }

  /** The fields of the ring together represent `log`. */
  ghost predicate Represents(N: Capacity, slots: seq<Bytes>, inOffs: nat, outOffs: nat, full: bool, log: seq<Bytes>) {
    && SlotsHold(N, slots, log)
    && inOffs == InOffs(N, |log|)
    && outOffs == OutOffs(N, |log|)
    && full == Full(N, |log|)
  }

  /** The slot reached after `c` steps of a walk that starts at `out_offs`: the c-th oldest command,
      or an empty slot once the walk has passed the last command. Every loop of the driver rests on
      this, including the two that do not test whether a slot is in use. */
  lemma SlotAt(N: Capacity, slots: seq<Bytes>, log: seq<Bytes>, c: nat)
    requires SlotsHold(N, slots, log) && c < N
    ensures var w := Window(N, log);
      slots[Wrap(N, OutOffs(N, |log|) + c)] == if c < |w| then w[c] else []
  {
  }

  lemma StoreBelowCapacity(N: Capacity, slots: seq<Bytes>, log: seq<Bytes>, cmd: Bytes)
    requires SlotsHold(N, slots, log) && |log| < N
    ensures SlotsHold(N, slots[|log| := cmd], log + [cmd])
  {
    InOffsPlace(N, |log| + 1);
    assert Window(N, log + [cmd]) == log + [cmd];
    forall c | 0 <= c < |log| + 1
      ensures slots[|log| := cmd][Wrap(N, c)] == (log + [cmd])[c]
    {
      SlotAt(N, slots, log, c);
    }
  }

  lemma WindowShifts(N: Capacity, log: seq<Bytes>, cmd: Bytes, c: nat)
    requires |log| >= N && c < N
    ensures Window(N, log + [cmd])[c] == if c + 1 < N then Window(N, log)[c + 1] else cmd
  {
  }

  lemma WalkFromNext(N: Capacity, out: nat, c: nat)
    requires out < N && c < N
    ensures Wrap(N, Wrap(N, out + 1) + c) == if c + 1 < N then Wrap(N, out + (c + 1)) else out
    ensures c + 1 < N ==> Wrap(N, out + (c + 1)) != out
  {
  }

  lemma StoreOverOldestAt(N: Capacity, slots: seq<Bytes>, log: seq<Bytes>, cmd: Bytes, c: nat)
    requires SlotsHold(N, slots, log) && |log| >= N && c < N
    ensures var out := OutOffs(N, |log|);
      slots[out := cmd][Wrap(N, Wrap(N, out + 1) + c)] == Window(N, log + [cmd])[c]
  {
    WalkFromNext(N, OutOffs(N, |log|), c);
    WindowShifts(N, log, cmd, c);
    if c + 1 < N {
      SlotAt(N, slots, log, c + 1);
    }
  }

  lemma StoreOverOldest(N: Capacity, slots: seq<Bytes>, log: seq<Bytes>, cmd: Bytes)
    requires SlotsHold(N, slots, log) && |log| >= N
    ensures SlotsHold(N, slots[OutOffs(N, |log|) := cmd], log + [cmd])
  {
    var out, slots' := OutOffs(N, |log|), slots[OutOffs(N, |log|) := cmd];
    InOffsPlace(N, |log|);
    assert OutOffs(N, |log| + 1) == Wrap(N, out + 1);
    forall c | 0 <= c < N ensures slots'[Wrap(N, Wrap(N, out + 1) + c)] == Window(N, log + [cmd])[c] {
      StoreOverOldestAt(N, slots, log, cmd, c);
    }
    FullSlotsHold(N, slots', log + [cmd], Wrap(N, out + 1));
  }

  lemma FullSlotsHold(N: Capacity, slots: seq<Bytes>, log: seq<Bytes>, out: nat)
    requires |slots| == N <= |log| && out == OutOffs(N, |log|)
    requires forall c {:trigger Window(N, log)[c]} :: 0 <= c < N ==> slots[Wrap(N, out + c)] == Window(N, log)[c]
    ensures SlotsHold(N, slots, log)
  {
  }

  /** Storing at `in_offs` extends the represented log, whichever slot that overwrites. */
  lemma StoreHolds(N: Capacity, slots: seq<Bytes>, log: seq<Bytes>, cmd: Bytes)
    requires SlotsHold(N, slots, log)
    ensures SlotsHold(N, slots[InOffs(N, |log|) := cmd], log + [cmd])
  {
    InOffsPlace(N, |log|);
    if Full(N, |log|) {
      StoreOverOldest(N, slots, log, cmd);
    } else {
      StoreBelowCapacity(N, slots, log, cmd);
    }
  }

  /** Index `i` is where a walk that starts at `out` stands after `c` steps; after a full round it is
      back at the start. */
  predicate OnWalk(N: Capacity, out: nat, i: nat, c: nat) {
    out < N && c <= N && i == if c < N then Wrap(N, out + c) else out
  }

  /** One step of such a walk. */
  lemma WalkStep(N: Capacity, out: nat, i: nat, c: nat)
    requires OnWalk(N, out, i, c) && c < N
    ensures OnWalk(N, out, Wrap(N, i + 1), c + 1)
  {
  }

  /** The whole of aesd_circular_buffer_add_entry: a ring that represents a log comes to represent the
      log with one more command. */
  lemma AddRepresents(N: Capacity, slots: seq<Bytes>, inOffs: nat, outOffs: nat, full: bool, log: seq<Bytes>, cmd: Bytes)
    requires Represents(N, slots, inOffs, outOffs, full, log)
    ensures var inOffs', outOffs' := Wrap(N, inOffs + 1), if full then Wrap(N, outOffs + 1) else outOffs;
      Represents(N, slots[inOffs := cmd], inOffs', outOffs', inOffs' == outOffs', log + [cmd])
  {
    StoreHolds(N, slots, log, cmd);
    IndicesAdvance(N, |log|);
  }

  /** The place in the window of the command that physical slot `c` holds after `k` commits. */
  function SlotOwner(N: Capacity, k: nat, c: nat): (d: nat)
    requires c < N && c < k
    ensures d < N && d < k
  {
    var out := OutOffs(N, k);
    if c >= out then c - out else N + c - out
  }

  lemma SlotPhysical(N: Capacity, slots: seq<Bytes>, log: seq<Bytes>, c: nat)
    requires SlotsHold(N, slots, log) && c < N && c < |log|
    ensures slots[c] == Window(N, log)[SlotOwner(N, |log|, c)]
  {
    var w, d := Window(N, log), SlotOwner(N, |log|, c);
    assert slots[Wrap(N, OutOffs(N, |log|) + d)] == w[d];
  }

  /** Total size over the first `c` steps of a walk, which may run past the last command. */
  function WalkSum(w: seq<Bytes>, c: nat): nat {
    if c == 0 then 0 else WalkSum(w, c - 1) + if c - 1 < |w| then |w[c - 1]| else 0
  }

  lemma {:induction false} WalkSumIsPrefix(w: seq<Bytes>, c: nat)
    ensures WalkSum(w, c) == Prefix(w, if c <= |w| then c else |w|)
  {
    if c > 0 {
      WalkSumIsPrefix(w, c - 1);
    }
  }

  lemma WalkSumAll(w: seq<Bytes>, c: nat)
    requires |w| <= c
    ensures WalkSum(w, c) == |Flatten(w)|
  {
    WalkSumIsPrefix(w, c);
    PrefixIsLength(w, |w|);
  }

  /** A walk that steps over position `p` has found the command holding it. */
  lemma WalkSumFinds(w: seq<Bytes>, c: nat, p: nat)
    requires WalkSum(w, c) <= p < WalkSum(w, c + 1)
    ensures c < |w| && p < |Flatten(w)| && Locate(w, p) == (c, p - WalkSum(w, c))
  {
    WalkSumIsPrefix(w, c);
    LocateUnique(w, c, p - WalkSum(w, c));
  }
}
