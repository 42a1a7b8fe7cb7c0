/** The kernel services the driver calls, with their outcomes as parameters. */
module KernelMemory {
  import opened Bytes

  /** Whether memory can be had, and how much more than asked for the allocator hands out. */
  datatype Memory = Memory(available: bool, slack: nat)

  method Kzalloc(count: nat, mem: Memory) returns (p: array?<byte>)
    ensures p == null <==> !mem.available
    ensures p != null ==> fresh(p) && p.Length == count + mem.slack
  {
    if !mem.available {
      return null;
    }
    p := new byte[count + mem.slack](_ => 0);
  }

  /** Grows in place when the memory behind `p` is large enough, and moves otherwise. Without a buffer to
      grow it hands out a new one, with anything in it. */
  method Krealloc(p: array?<byte>, used: nat, n: nat, mem: Memory) returns (q: array?<byte>)
    requires used <= n && (p != null ==> used <= p.Length)
    ensures p != null && n <= p.Length ==> q == p
    ensures p == null || n > p.Length ==>
      && (q == null <==> !mem.available)
      && (q != null ==> fresh(q) && q.Length == n + mem.slack && (p != null ==> q[..used] == p[..used]))
  {
    if p != null && n <= p.Length {
      return p;
    }
    if !mem.available {
      return null;
    }
    if p == null {
      q := new byte[n + mem.slack];
    } else {
      q := new byte[n + mem.slack](i reads p => if 0 <= i < used && i < p.Length then p[i] else 0);
    }
  }

  /** Copies `taken` bytes of `src` to `dst` from index `at` on, with zeros for those it cannot copy;
      returns how many those are. */
  method CopyFromUser(dst: array<byte>, at: nat, src: seq<byte>, taken: nat) returns (remain: nat)
    requires taken <= |src| && at + |src| <= dst.Length
    modifies dst
    ensures remain == |src| - taken
    ensures dst[..at + taken] == old(dst[..at]) + src[..taken]
    ensures forall i :: at + taken <= i < at + |src| ==> dst[i] == 0
    ensures dst[at + |src|..] == old(dst[at + |src|..])
  {
    forall i | 0 <= i < |src| {
      dst[at + i] := if i < taken then src[i] else 0;
    }
    return |src| - taken;
  }

  /** Copies `n` bytes of `src` from index `at` on to user memory that takes only `room` of them;
      returns how many were not copied. */
  method CopyToUser(dst: array<byte>, src: array<byte>, at: nat, n: nat, room: nat) returns (remain: nat)
    requires dst != src && at + n <= src.Length && n <= dst.Length
    modifies dst
    ensures var k := if room < n then room else n;
      && remain == n - k
      && dst[..k] == src[at..at + k]
      && dst[k..] == old(dst[k..])
  {
    var k := if room < n then room else n;
    forall i | 0 <= i < k {
      dst[i] := src[at + i];
    }
    return n - k;
  }

  lemma NewlineFirst(b: Bytes, i: nat)
    requires i <= |b| && NUL !in b[..i] && NEWLINE !in b[..i]
    requires i == |b| || b[i] == NUL || b[i] == NEWLINE
    ensures HasNewline(b) <==> i < |b| && b[i] == NEWLINE
  {
    assert b == b[..i] + b[i..];
    HasNewlineConcat(b[..i], b[i..]);
  }

  /** strchr(p, '\n') != NULL over the first `size` bytes. */
  method StrchrNewline(p: array<byte>, size: nat) returns (found: bool)
    requires size <= p.Length
    ensures found <==> HasNewline(p[..size])
  {
    var i := 0;
    while i < size && p[i] != NUL && p[i] != NEWLINE
      invariant 0 <= i <= size
      invariant NUL !in p[..i] && NEWLINE !in p[..i]
    {
      i := i + 1;
    }
    assert p[..size][..i] == p[..i];
    NewlineFirst(p[..size], i);
    return i < size && p[i] == NEWLINE;
  }
}
