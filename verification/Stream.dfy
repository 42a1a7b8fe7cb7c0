/** The byte stream through the device: nothing is lost or reordered, commands are cut where a
    simple splitter cuts them, and how the stream is chunked matters only at newlines. */
module Stream {
  import opened Bytes
  import opened CommandLog
  import opened DeviceSpec

  /** Cuts a sequence of accepted chunks into the groups that make up one command each, and the
      chunks left over. `acc` holds the chunks of the command under construction. */
  function Groups(acc: seq<Bytes>, chunks: seq<Bytes>): (seq<seq<Bytes>>, seq<Bytes>)
    decreases |chunks|
  {
    if chunks == [] then ([], acc)
    else
      var g := acc + [chunks[0]];
      if HasNewline(Flatten(g)) then
        var rest := Groups([], chunks[1..]);
        ([g] + rest.0, rest.1)
      else Groups(g, chunks[1..])
  }

  function FlattenEach(gs: seq<seq<Bytes>>): (cmds: seq<Bytes>)
    ensures |cmds| == |gs| && forall i :: 0 <= i < |gs| ==> cmds[i] == Flatten(gs[i])
  {
    seq(|gs|, i requires 0 <= i < |gs| => Flatten(gs[i]))
  }

  lemma {:induction false} WriteAllConcat(d: Dev, a: seq<Bytes>, b: seq<Bytes>)
    ensures WriteAll(d, a + b) == WriteAll(WriteAll(d, a), b)
  {
    if b == [] {
      assert a + b == a;
    } else {
      var b' := b[..|b| - 1];
      assert (a + b)[..|a + b| - 1] == a + b';
      WriteAllConcat(d, a, b');
    }
  }

  lemma WriteAllFirst(d: Dev, chunks: seq<Bytes>)
    requires chunks != []
    ensures WriteAll(d, chunks) == WriteAll(WriteTo(d, chunks[0]), chunks[1..])
  {
    assert chunks == [chunks[0]] + chunks[1..];
    WriteAllConcat(d, [chunks[0]], chunks[1..]);
    assert [chunks[0]][..0] == [];
    assert WriteAll(d, [chunks[0]]) == WriteTo(WriteAll(d, []), chunks[0]);
  }

  lemma FlattenEachCons(log: seq<Bytes>, g: seq<Bytes>, gs: seq<seq<Bytes>>)
    ensures log + [Flatten(g)] + FlattenEach(gs) == log + FlattenEach([g] + gs)
  {
    assert [Flatten(g)] + FlattenEach(gs) == FlattenEach([g] + gs);
  }

  /** A run of writes commits exactly the groups of the splitter and leaves its remainder pending. */
  lemma {:induction false} WritesFollowSplitter(d: Dev, acc: seq<Bytes>, chunks: seq<Bytes>)
    requires d.pending == Flatten(acc)
    ensures var (gs, rest) := Groups(acc, chunks);
      WriteAll(d, chunks) == Dev(d.log + FlattenEach(gs), Flatten(rest))
    decreases |chunks|
  {
    if chunks == [] {
      assert d.log + FlattenEach([]) == d.log;
    } else {
      var g, d' := acc + [chunks[0]], WriteTo(d, chunks[0]);
      FlattenSnoc(acc, chunks[0]);
      WriteAllFirst(d, chunks);
      if HasNewline(Flatten(g)) {
        WritesFollowSplitter(d', [], chunks[1..]);
        FlattenEachCons(d.log, g, Groups([], chunks[1..]).0);
      } else {
        WritesFollowSplitter(d', g, chunks[1..]);
      }
    }
  }

  /** Every byte accepted so far, in order. */
  function Received(d: Dev): Bytes {
    Flatten(d.log) + d.pending
  }

  lemma WriteConserves(d: Dev, data: Bytes)
    ensures Received(WriteTo(d, data)) == Received(d) + data
  {
    FlattenSnoc(d.log, d.pending + data);
    ConcatAssoc(Flatten(d.log), d.pending, data);
  }

  lemma {:induction false} WritesConserve(d: Dev, chunks: seq<Bytes>)
    ensures Received(WriteAll(d, chunks)) == Received(d) + Flatten(chunks)
  {
    if chunks == [] {
      assert Received(d) + [] == Received(d);
    } else {
      var front, data := chunks[..|chunks| - 1], chunks[|chunks| - 1];
      WritesConserve(d, front);
      WriteConserves(WriteAll(d, front), data);
      assert chunks == front + [data];
      FlattenSnoc(front, data);
      ConcatAssoc(Received(d), Flatten(front), data);
    }
  }

  // ----- where newlines can be -------------------------------------------------------------------

  /** A command cut at the first chance: strchr finds a newline once the last chunk is there, and
      not before. */
  ghost predicate CutAtFirstNewline(g: seq<Bytes>) {
    g != [] && HasNewline(Flatten(g)) && !HasNewline(Flatten(g[..|g| - 1]))
  }

  /** The groups and the remainder are the chunks, in order. */
  lemma {:induction false} GroupsCover(acc: seq<Bytes>, chunks: seq<Bytes>)
    ensures var (gs, rest) := Groups(acc, chunks); Flatten(gs) + rest == acc + chunks
    decreases |chunks|
  {
    if chunks != [] {
      var g := acc + [chunks[0]];
      assert g + chunks[1..] == acc + chunks;
      if HasNewline(Flatten(g)) {
        GroupsCover([], chunks[1..]);
        var (gs, rest) := Groups([], chunks[1..]);
        assert ([g] + gs)[1..] == gs;
        assert g + Flatten(gs) + rest == g + (Flatten(gs) + rest) == g + ([] + chunks[1..]);
      } else {
        GroupsCover(g, chunks[1..]);
      }
    }
  }

  /** Every group is cut at the first chance, and the remainder not at all. */
  lemma {:induction false} GroupsCut(acc: seq<Bytes>, chunks: seq<Bytes>)
    requires !HasNewline(Flatten(acc))
    ensures var (gs, rest) := Groups(acc, chunks);
      !HasNewline(Flatten(rest)) && forall g :: g in gs ==> CutAtFirstNewline(g)
    decreases |chunks|
  {
    if chunks != [] {
      var g := acc + [chunks[0]];
      if HasNewline(Flatten(g)) {
        GroupsCut([], chunks[1..]);
        assert g[..|g| - 1] == acc;
      } else {
        GroupsCut(g, chunks[1..]);
      }
    }
  }

  lemma {:induction false} FlattenMembers<T>(ss: seq<seq<T>>, x: T)
    ensures x in Flatten(ss) <==> exists s :: s in ss && x in s
  {
    if ss != [] {
      FlattenMembers(ss[1..], x);
      assert forall s :: s in ss <==> s == ss[0] || s in ss[1..];
    }
  }

  /** Without NULs, a command cut at the first chance has its newlines in its last chunk only. */
  lemma NewlineInLastChunk(g: seq<Bytes>)
    requires CutAtFirstNewline(g) && forall c :: c in g ==> NUL !in c
    ensures NEWLINE in g[|g| - 1] && NEWLINE !in Flatten(g[..|g| - 1])
  {
    var front := g[..|g| - 1];
    assert g == front + [g[|g| - 1]];
    FlattenSnoc(front, g[|g| - 1]);
    FlattenMembers(front, NUL);
    FlattenMembers(g, NUL);
  }

  lemma NewlinesInLastChunks(gs: seq<seq<Bytes>>, rest: seq<Bytes>)
    requires forall c :: c in Flatten(gs) + rest ==> NUL !in c
    requires forall g :: g in gs ==> CutAtFirstNewline(g)
    ensures forall g :: g in gs ==>
      g != [] && NEWLINE in g[|g| - 1] && NEWLINE !in Flatten(g[..|g| - 1])
  {
    forall g | g in gs
      ensures g != [] && NEWLINE in g[|g| - 1] && NEWLINE !in Flatten(g[..|g| - 1])
    {
      forall c | c in g ensures NUL !in c {
        FlattenMembers(gs, c);
      }
      NewlineInLastChunk(g);
    }
  }

  /** When no chunk holds a NUL, as for every chunk the server sends, the pending bytes hold neither
      newline nor NUL, and each stored command is a group of chunks whose newlines all lie in the
      last chunk, which has at least one. */
  lemma NewlinesOnlyInLastChunk(chunks: seq<Bytes>) returns (gs: seq<seq<Bytes>>, rest: seq<Bytes>)
    requires forall c :: c in chunks ==> NUL !in c
    ensures WriteAll(Dev([], []), chunks) == Dev(FlattenEach(gs), Flatten(rest))
    ensures Flatten(gs) + rest == chunks
    ensures NEWLINE !in Flatten(rest) && NUL !in Flatten(rest)
    ensures forall g :: g in gs ==>
      g != [] && NEWLINE in g[|g| - 1] && NEWLINE !in Flatten(g[..|g| - 1])
  {
    gs, rest := Groups([], chunks).0, Groups([], chunks).1;
    assert WriteAll(Dev([], []), chunks) == Dev(FlattenEach(gs), Flatten(rest)) by {
      WritesFollowSplitter(Dev([], []), [], chunks);
      assert [] + FlattenEach(gs) == FlattenEach(gs);
    }
    assert Flatten(gs) + rest == chunks by {
      GroupsCover([], chunks);
      assert [] + chunks == chunks;
    }
    GroupsCut([], chunks);
    FlattenMembers(rest, NUL);
    NewlinesInLastChunks(gs, rest);
  }

  // ----- whole runs ------------------------------------------------------------------------------

  /** The chunks that make up what the device holds after a run on a new device: the copied part of every
      write that did not fail. Chunks whose bytes have been lost are replaced by what stood in for them. */
  ghost function Accepted(N: Capacity, files: nat, ops: seq<Op>): seq<Bytes>
    requires AllLegal(ops, files)
  {
    if ops == [] then []
    else
      var front, op := ops[..|ops| - 1], ops[|ops| - 1];
      var a, acc := Run(N, Fresh(files), front), Accepted(N, files, front);
      if !Apply(N, a, op).1.Wrote? then acc
      else if a.lost then Committed(acc) + [Ready(a, op.junk).dev.pending + op.data[..op.taken]]
      else acc + [op.data[..op.taken]]
  }

  /** The chunks of the commands that are complete. */
  function Committed(chunks: seq<Bytes>): seq<Bytes> {
    Flatten(Groups([], chunks).0)
  }

  /** A group that is complete with its last chunk, and not before, is what the splitter cuts off first. */
  lemma {:induction false} GroupsFirst(acc: seq<Bytes>, g: seq<Bytes>, more: seq<Bytes>)
    requires g != [] && HasNewline(Flatten(acc + g)) && !HasNewline(Flatten(acc + g[..|g| - 1]))
    ensures var (gs, rest) := Groups([], more);
      Groups(acc, g + more) == ([acc + g] + gs, rest)
    decreases |g|
  {
    var h := [g[0]];
    assert g + more == h + (g[1..] + more) && acc + g == (acc + h) + g[1..];
    assert (g + more)[1..] == g[1..] + more;
    if |g| == 1 {
      assert acc + h == acc + g && g[1..] + more == more;
    } else {
      assert g[1..][..|g[1..]| - 1] == g[..|g| - 1][1..];
      assert acc + g[..|g| - 1] == (acc + h) + g[..|g| - 1][1..];
      FlattenConcat(acc + h, g[..|g| - 1][1..]);
      HasNewlineConcat(Flatten(acc + h), Flatten(g[..|g| - 1][1..]));
      GroupsFirst(acc + h, g[1..], more);
    }
  }

  lemma GroupsFirstCut(g: seq<Bytes>, more: seq<Bytes>)
    requires CutAtFirstNewline(g)
    ensures Groups([], g + more) == ([g] + Groups([], more).0, Groups([], more).1)
  {
    assert [] + g == g && [] + g[..|g| - 1] == g[..|g| - 1];
    GroupsFirst([], g, more);
  }

  /** Splitting the chunks of complete commands again gives the same commands, and nothing is left. */
  lemma {:induction false} GroupsAgain(gs: seq<seq<Bytes>>)
    requires forall g :: g in gs ==> CutAtFirstNewline(g)
    ensures Groups([], Flatten(gs)) == (gs, [])
  {
    if gs != [] {
      var g, more := gs[0], gs[1..];
      assert g in gs && forall h :: h in more ==> h in gs;
      GroupsAgain(more);
      GroupsFirstCut(g, Flatten(more));
      assert gs == [g] + more;
    }
  }

  /** Writing the complete commands again leaves the same commands and nothing pending. */
  lemma CommittedWrites(chunks: seq<Bytes>)
    ensures WriteAll(Dev([], []), Committed(chunks)) == Dev(WriteAll(Dev([], []), chunks).log, [])
  {
    var gs := Groups([], chunks).0;
    GroupsCut([], chunks);
    GroupsAgain(gs);
    WritesFollowSplitter(Dev([], []), [], chunks);
    WritesFollowSplitter(Dev([], []), [], Flatten(gs));
  }

  lemma RunWritesMore(N: Capacity, a: Abs, op: Op, acc: seq<Bytes>)
    requires Legal(op, |a.pos|) && Apply(N, a, op).1.Wrote?
    requires a.dev == WriteAll(Dev([], []), acc)
    ensures Apply(N, a, op).0.dev == WriteAll(Dev([], []),
      if a.lost then Committed(acc) + [Ready(a, op.junk).dev.pending + op.data[..op.taken]]
      else acc + [op.data[..op.taken]])
  {
    var b, w := Ready(a, op.junk), op.data[..op.taken];
    if a.lost {
      CommittedWrites(acc);
      WriteAllSnoc(Dev([], []), Committed(acc), b.dev.pending + w);
      assert [] + (b.dev.pending + w) == b.dev.pending + w;
    } else {
      WriteAllSnoc(Dev([], []), acc, w);
    }
  }

  /** Nothing but accepted chunks changes the device. */
  lemma {:induction false} RunWrites(N: Capacity, files: nat, ops: seq<Op>)
    requires AllLegal(ops, files)
    ensures Run(N, Fresh(files), ops).dev == WriteAll(Dev([], []), Accepted(N, files, ops))
  {
    if ops != [] {
      var front, op := ops[..|ops| - 1], ops[|ops| - 1];
      var a := Run(N, Fresh(files), front);
      RunWrites(N, files, front);
      if Apply(N, a, op).1.Wrote? {
        RunWritesMore(N, a, op, Accepted(N, files, front));
      }
    }
  }

  /** After any sequence of calls of any kind, the accepted bytes are the evicted commands, the flat
      file and the pending bytes, in that order. */
  lemma StreamConserved(N: Capacity, files: nat, ops: seq<Op>, d: Dev)
    requires AllLegal(ops, files) && Run(N, Fresh(files), ops).dev == d
    ensures Flatten(Evicted(N, d.log)) + Contents(N, d.log) + d.pending == Flatten(Accepted(N, files, ops))
  {
    RunWrites(N, files, ops);
    WritesConserve(Dev([], []), Accepted(N, files, ops));
    WindowConserves(N, d.log);
  }

  /** After any sequence of calls of any kind, the flat file is made of the last `N` commands of the
      splitter, and its remainder is pending. */
  lemma CommandsAreSplit(N: Capacity, files: nat, ops: seq<Op>)
    requires AllLegal(ops, files)
    ensures var d := Run(N, Fresh(files), ops).dev;
      var (gs, rest) := Groups([], Accepted(N, files, ops));
      Window(N, d.log) == Window(N, FlattenEach(gs)) && d.pending == Flatten(rest)
  {
    var chunks := Accepted(N, files, ops);
    RunWrites(N, files, ops);
    WritesFollowSplitter(Dev([], []), [], chunks);
    var gs := Groups([], chunks).0;
    assert [] + FlattenEach(gs) == FlattenEach(gs);
  }

  // ----- chunking --------------------------------------------------------------------------------

  /** Two writes amount to one write of both pieces exactly when the first does not complete a
      command, or the second is empty. */
  lemma ChunkingExact(d: Dev, a: Bytes, b: Bytes)
    ensures WriteTo(WriteTo(d, a), b) == WriteTo(d, a + b) <==> !HasNewline(d.pending + a) || b == []
  {
    assert d.pending + a + b == d.pending + (a + b);
    if HasNewline(d.pending + a) {
      HasNewlineConcat(d.pending + a, b);
      assert [] + b == b;
      if b != [] {
        assert WriteTo(WriteTo(d, a), b).log[|d.log|] == d.pending + a;
        assert WriteTo(d, a + b).log[|d.log|] == d.pending + a + b;
      } else {
        assert a + b == a;
      }
    }
  }

  /** However a command is split, if nothing before its final chunk completes it the device ends in
      the state one write of the whole would have reached. */
  lemma {:induction false} AnySplitIsOneWrite(d: Dev, chunks: seq<Bytes>)
    requires chunks != []
    requires !HasNewline(d.pending + Flatten(chunks[..|chunks| - 1]))
    ensures WriteAll(d, chunks) == WriteTo(d, Flatten(chunks))
  {
    var front, last := chunks[..|chunks| - 1], chunks[|chunks| - 1];
    assert chunks == front + [last];
    FlattenSnoc(front, last);
    if front == [] {
      assert Flatten(chunks) == last;
    } else {
      var front', b := front[..|front| - 1], front[|front| - 1];
      assert front == front' + [b];
      FlattenSnoc(front', b);
      ConcatAssoc(d.pending, Flatten(front'), b);
      HasNewlineConcat(d.pending + Flatten(front'), b);
      AnySplitIsOneWrite(d, front);
      ChunkingExact(d, Flatten(front), last);
    }
  }

  // ----- a NUL in the pending bytes ----------------------------------------------------------------

  lemma {:induction false} NulJams(d: Dev, chunks: seq<Bytes>)
    requires !HasNewline(d.pending) && NUL in d.pending
    ensures WriteAll(d, chunks) == Dev(d.log, d.pending + Flatten(chunks))
  {
    if chunks != [] {
      var front, last := chunks[..|chunks| - 1], chunks[|chunks| - 1];
      NulJams(d, front);
      assert chunks == front + [last];
      FlattenSnoc(front, last);
      ConcatAssoc(d.pending, Flatten(front), last);
      HasNewlineConcat(d.pending, Flatten(chunks));
    }
  }

  /** A device between calls (its pending bytes pass no newline test) can ever commit another command
      exactly when no NUL is pending: strchr stops at the NUL for good. */
  lemma CommitsAgainIffNoNul(d: Dev)
    requires !HasNewline(d.pending)
    ensures (exists chunks :: |WriteAll(d, chunks).log| > |d.log|) <==> NUL !in d.pending
  {
    if NUL in d.pending {
      forall chunks ensures |WriteAll(d, chunks).log| == |d.log| {
        NulJams(d, chunks);
      }
    } else {
      HasNewlineConcat(d.pending, [NEWLINE]);
      assert CString([NEWLINE]) == [NEWLINE];
      var chunks := [[NEWLINE]];
      assert chunks[..0] == [];
      assert WriteAll(d, chunks) == WriteTo(WriteAll(d, []), [NEWLINE]);
      assert |WriteAll(d, chunks).log| > |d.log|;
    }
  }

  /** Between calls the pending bytes never pass the newline test, and every stored command does. */
  lemma {:induction false} PendingIncomplete(d: Dev, chunks: seq<Bytes>)
    requires !HasNewline(d.pending) && forall i :: 0 <= i < |d.log| ==> HasNewline(d.log[i])
    ensures var d' := WriteAll(d, chunks);
      !HasNewline(d'.pending) && forall i :: 0 <= i < |d'.log| ==> HasNewline(d'.log[i])
  {
    if chunks != [] {
      PendingIncomplete(d, chunks[..|chunks| - 1]);
    }
  }
}
