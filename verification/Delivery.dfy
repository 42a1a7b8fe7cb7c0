/** Runs of reads: what their replies deliver together. */
module Delivery {
  import opened Bytes
  import opened CommandLog
  import opened DeviceSpec
  import Positions

  /** A read of at least a byte by file `h`, which user memory takes in full. */
  predicate ReadsFully(op: Op, h: nat) {
    op.Read? && op.h == h && 0 < op.count <= op.room
  }

  /** The replies all deliver bytes, together `out`. */
  ghost predicate Deliver(rs: seq<Reply>, out: Bytes) {
    && (forall i :: 0 <= i < |rs| ==> rs[i].Data?)
    && out == Flatten(seq(|rs|, i requires 0 <= i < |rs| => if rs[i].Data? then rs[i].bytes else []))
  }

  lemma DeliverMore(rs: seq<Reply>, out: Bytes, b: Bytes)
    requires Deliver(rs, out)
    ensures Deliver(rs + [Data(b)], out + b)
  {
    var bs := seq(|rs|, i requires 0 <= i < |rs| => if rs[i].Data? then rs[i].bytes else []);
    var rs' := rs + [Data(b)];
    FlattenSnoc(bs, b);
    assert seq(|rs'|, i requires 0 <= i < |rs'| => if rs'[i].Data? then rs'[i].bytes else []) == bs + [b];
  }

  /** `n` reads that start at `p` yield `out` and end at `q`: they get at least a byte each until the end. */
  ghost predicate ReadsYield(flat: Bytes, p: nat, n: nat, out: Bytes, q: nat) {
    if p > |flat| then out == [] && q == p
    else p <= q <= |flat| && out == flat[p..q] && (q == |flat| || q - p >= n)
  }

  lemma ReadsYieldMore(flat: Bytes, p: nat, n: nat, out: Bytes, q: nat, b: Bytes)
    requires ReadsYield(flat, p, n, out, q)
    requires q <= |flat| ==> q + |b| <= |flat| && b == flat[q..q + |b|]
    requires b == [] <==> q >= |flat|
    ensures ReadsYield(flat, p, n + 1, out + b, q + |b|)
  {
    if p <= |flat| {
      Positions.SlicesJoin(flat, p, q, q + |b|);
    }
  }

  /** The rest of the file from `p`, and where a file that has read it stands. */
  function RestFrom(flat: Bytes, p: nat): (Bytes, nat) {
    if p <= |flat| then (flat[p..], |flat|) else ([], p)
  }

  lemma EnoughReads(flat: Bytes, p: nat, n: nat, out: Bytes, q: nat)
    requires ReadsYield(flat, p, n, out, q) && |flat| <= p + n
    ensures RestFrom(flat, p) == (out, q)
  {
    assert p <= |flat| ==> flat[p..|flat|] == flat[p..];
  }

  /** From state `b`, after replies `rs0`, `n` reads of file `h` have led to `c`, moving nothing but that file,
      and the replies are then `rs`. */
  ghost predicate ReadsDeliver(b: Abs, rs0: seq<Reply>, h: nat, flat: Bytes, n: nat, c: Abs, rs: seq<Reply>,
                               out: Bytes, q: nat)
  {
    && h < |b.pos| && c == b.(pos := b.pos[h := q])
    && |rs| == |rs0| + n && rs[..|rs0|] == rs0 && Deliver(rs[|rs0|..], out)
    && ReadsYield(flat, b.pos[h], n, out, q)
  }

  lemma ReadsDeliverNone(b: Abs, rs0: seq<Reply>, h: nat, flat: Bytes)
    requires h < |b.pos|
    ensures ReadsDeliver(b, rs0, h, flat, 0, b, rs0, [], b.pos[h])
  {
    assert b.pos[h := b.pos[h]] == b.pos && rs0[..|rs0|] == rs0 && rs0[|rs0|..] == [];
  }

  /** A read by a file that has moved to `q`. */
  lemma ReadNext(N: Capacity, b: Abs, h: nat, q: nat, op: Op, flat: Bytes) returns (piece: Bytes)
    requires h < |b.pos| && ReadsFully(op, h) && flat == Contents(N, b.dev.log)
    ensures Apply(N, b.(pos := b.pos[h := q]), op) == (b.(pos := b.pos[h := q + |piece|]), Data(piece))
    ensures q <= |flat| ==> q + |piece| <= |flat| && piece == flat[q..q + |piece|]
    ensures piece == [] <==> q >= |flat|
  {
    Positions.ReadIsFlat(N, b.dev.log, q, op.count, op.room);
    piece := ReadAt(N, b.dev.log, q, op.count, op.room).bytes;
    assert b.pos[h := q][h := q + |piece|] == b.pos[h := q + |piece|];
  }

  lemma ReadsDeliverMore(N: Capacity, b: Abs, rs0: seq<Reply>, h: nat, flat: Bytes, n: nat, c: Abs, rs: seq<Reply>,
                         out: Bytes, q: nat, op: Op, c': Abs, rs': seq<Reply>)
      returns (out': Bytes, q': nat)
    requires n > 0 && ReadsDeliver(b, rs0, h, flat, n - 1, c, rs, out, q)
    requires ReadsFully(op, h) && flat == Contents(N, b.dev.log)
    requires c' == Apply(N, c, op).0 && rs' == rs + [Apply(N, c, op).1]
    ensures ReadsDeliver(b, rs0, h, flat, n, c', rs', out', q')
  {
    var piece := ReadNext(N, b, h, q, op, flat);
    assert rs'[|rs0|..] == rs[|rs0|..] + [Data(piece)];
    assert rs'[..|rs0|] == rs[..|rs0|];
    DeliverMore(rs[|rs0|..], out, piece);
    ReadsYieldMore(flat, b.pos[h], n - 1, out, q, piece);
    out', q' := out + piece, q + |piece|;
  }

  /** The calls `ops` take the device and its files from `a` to `b`, with replies `rs`. */
  ghost predicate RunsTo(N: Capacity, a: Abs, ops: seq<Op>, b: Abs, rs: seq<Reply>) {
    AllLegal(ops, |a.pos|) && Run(N, a, ops) == b && Replies(N, a, ops) == rs
  }

  lemma LastCall(N: Capacity, a: Abs, ops: seq<Op>, b: Abs, rs: seq<Reply>) returns (b': Abs, rs': seq<Reply>)
    requires RunsTo(N, a, ops, b, rs) && ops != []
    ensures RunsTo(N, a, ops[..|ops| - 1], b', rs') && Legal(ops[|ops| - 1], |b'.pos|)
    ensures b == Apply(N, b', ops[|ops| - 1]).0 && rs == rs' + [Apply(N, b', ops[|ops| - 1]).1]
  {
    var front := ops[..|ops| - 1];
    b', rs' := Run(N, a, front), Replies(N, a, front);
  }

  lemma RunsToOne(N: Capacity, a: Abs, op: Op, b: Abs, r: Reply)
    requires Legal(op, |a.pos|) && Apply(N, a, op) == (b, r)
    ensures RunsTo(N, a, [op], b, [r])
  {
    RunSnoc(N, a, [], op);
    assert [] + [op] == [op];
  }
}
