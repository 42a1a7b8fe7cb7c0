/** The connection handler of the server as it runs on the device when it has the device to itself,
    which the session mutex gives it as far as writing goes. */
module Connection {
  import opened Bytes
  import opened CommandLog
  import opened DeviceSpec
  import opened Sessions
  import opened KernelMemory
  import opened AesdDevice
  import Positions
  import Stream

  // ----- saving ----------------------------------------------------------------------------------

  /** One write system call for the first `n` bytes of what is left to save; `d` is the state it found the
      device in. It fails only if memory cannot be had. */
  method WritePiece(dev: Device, rest: Bytes, n: nat, mem: Memory) returns (ok: bool, ghost d: Dev)
    requires dev.Usable() && 0 < n <= |rest|
    modifies dev, dev.ring, dev.ring.entry, dev.entry.buffptr
    ensures dev.Usable() && Stands(old(dev.Condition()), d)
    ensures if ok then dev.Condition() == Whole(WriteTo(d, rest[..n])) else Stands(dev.Condition(), d)
    ensures mem.available ==> ok
    ensures dev.entry.buffptr == null || dev.entry.buffptr == old(dev.entry.buffptr) || fresh(dev.entry.buffptr)
  {
    ghost var lost := dev.Lost();
    d := if lost then Dev(dev.ring.log, Junk([], dev.entry.size)) else dev.State();
    var reply := dev.Write(rest, n, mem);
    ok := reply.Wrote?;
    if lost && ok {
      d := dev.base;
    }
  }

  lemma PieceMoves(all: Bytes, done: seq<Bytes>, rest: Bytes, n: nat)
    requires n <= |rest| && Flatten(done) + rest == all
    ensures Flatten(done + [rest[..n]]) + rest[n..] == all
  {
    FlattenSnoc(done, rest[..n]);
    assert rest[..n] + rest[n..] == rest;
    ConcatAssoc(Flatten(done), rest[..n], rest[n..]);
  }

  /** The pieces so far, all delivered, have taken the device from condition `c0`, in state `d`, to `c`. */
  ghost predicate SavedSoFar(c0: Condition, d: Dev, pieces: seq<Bytes>, c: Condition) {
    && Stands(c0, d) && Stands(c, WriteAll(d, pieces))
    && (pieces == [] ==> c == c0) && (pieces != [] ==> c.Whole?)
  }

  /** One more piece, delivered or not, to a device found in state `e`. */
  lemma SavedOneMore(c0: Condition, d: Dev, pieces: seq<Bytes>, c: Condition,
                     e: Dev, piece: Bytes, ok: bool, c': Condition)
    requires SavedSoFar(c0, d, pieces, c) && Stands(c, e)
    requires if ok then c' == Whole(WriteTo(e, piece)) else Stands(c', e)
    ensures var d' := if pieces == [] then e else d;
      if ok then SavedSoFar(c0, d', pieces + [piece], c')
      else Stands(c0, d') && Stands(c', WriteAll(d', pieces))
  {
    var d' := if pieces == [] then e else d;
    assert e == WriteAll(d', pieces);
    WriteAllSnoc(d', pieces, piece);
  }

  /** savetofile: fputs and fflush deliver the string in pieces of the stream's own choosing, until one of
      them fails. What memory there is for the `i`-th piece, `memory(i)` says. */
  method SaveToFile(dev: Device, s: Bytes, memory: nat -> Memory)
      returns (saved: bool, ghost pieces: seq<Bytes>, ghost d: Dev)
    requires dev.Usable()
    modifies dev, dev.ring, dev.ring.entry, dev.entry.buffptr
    ensures dev.Usable() && Stands(old(dev.Condition()), d) && Stands(dev.Condition(), WriteAll(d, pieces))
    ensures Flatten(pieces) <= s && (saved ==> Flatten(pieces) == s)
    ensures saved || !memory(|pieces|).available
    ensures saved && old(dev.Condition()).Whole? ==> dev.Condition().Whole?
    ensures dev.entry.buffptr == null || dev.entry.buffptr == old(dev.entry.buffptr) || fresh(dev.entry.buffptr)
  {
    var rest := s;
    saved, pieces := true, [];
    d := if dev.Lost() then Dev(dev.ring.log, Junk([], dev.entry.size)) else dev.State();
    var k := 0;
    while rest != []
      invariant k == |pieces|
      invariant dev.Usable() && SavedSoFar(old(dev.Condition()), d, pieces, dev.Condition())
      invariant Flatten(pieces) + rest == s && saved
      invariant dev.entry.buffptr == null || dev.entry.buffptr == old(dev.entry.buffptr) || fresh(dev.entry.buffptr)
      decreases |rest|
    {
      var n: nat :| 0 < n <= |rest|;
      ghost var e, c := d, dev.Condition();
      saved, e := WritePiece(dev, rest, n, memory(k));
      SavedOneMore(old(dev.Condition()), d, pieces, c, e, rest[..n], saved, dev.Condition());
      d := if pieces == [] then e else d;
      if !saved {
        return;
      }
      PieceMoves(s, pieces, rest, n);
      pieces, rest, k := pieces + [rest[..n]], rest[n..], k + 1;
    }
  }

  // ----- seeking and draining --------------------------------------------------------------------

  /** A read system call from position `from` yields `got`, and nothing only at the end. */
  ghost predicate Got(flat: Bytes, got: Bytes, from: nat, pos: nat) {
    && pos == from + |got| && (got == [] <==> from >= |flat|)
    && (from < |flat| ==> pos <= |flat| && got == flat[from..pos])
  }

  /** One read system call for a bufferful. */
  method ReadNext(dev: Device, f: File, buf: array<byte>, ghost flat: Bytes) returns (got: Bytes)
    requires dev.Usable() && buf.Length == MAXBUFFER && flat == Contents(dev.Capacity(), dev.ring.log)
    requires buf !in dev.ring.buffers && buf != dev.entry.buffptr
    modifies f, buf
    ensures dev.Usable() && dev.Condition() == old(dev.Condition())
    ensures Got(flat, got, old(f.pos), f.pos)
  {
    Positions.ReadIsFlat(dev.Capacity(), dev.ring.log, f.pos, MAXBUFFER, MAXBUFFER);
    var reply := dev.Read(f, buf, MAXBUFFER, MAXBUFFER);
    return reply.bytes;
  }

  /** The drain loop has sent `sent` since position `p`, and holds `got`, which ends at `pos`. */
  ghost predicate DrainStands(flat: Bytes, p: nat, sent: Bytes, got: Bytes, pos: nat) {
    && (p > |flat| ==> sent == [] && got == [])
    && (p <= |flat| ==>
          p + |sent| + |got| == pos <= |flat| && sent == flat[p..p + |sent|] && got == flat[p + |sent|..pos])
    && (got == [] ==> pos >= |flat|)
  }

  lemma DrainStarts(flat: Bytes, p: nat, got: Bytes, pos: nat)
    requires Got(flat, got, p, pos)
    ensures DrainStands(flat, p, [], got, pos)
  {
  }

  lemma DrainGoesOn(flat: Bytes, p: nat, sent: Bytes, got: Bytes, pos: nat, next: Bytes, pos': nat)
    requires DrainStands(flat, p, sent, got, pos) && got != [] && Got(flat, next, pos, pos')
    ensures DrainStands(flat, p, sent + got, next, pos')
  {
    Positions.SlicesJoin(flat, p, p + |sent|, pos);
  }

  lemma DrainHasSent(flat: Bytes, p: nat, sent: Bytes, got: Bytes, pos: nat)
    requires DrainStands(flat, p, sent, got, pos)
    ensures sent <= From(flat, p)
    ensures got == [] <==> sent == From(flat, p)
  {
    assert p <= |flat| ==> |From(flat, p)| == |flat| - p;
  }

  /** Of `sends` sends, the `i`-th succeeding if `sendOk(i)`, all have succeeded, or all but the last. */
  ghost predicate SendsWent(sendOk: nat -> bool, sends: nat, allSent: bool) {
    if allSent then forall i :: 0 <= i < sends ==> sendOk(i)
    else sends > 0 && !sendOk(sends - 1) && forall i :: 0 <= i < sends - 1 ==> sendOk(i)
  }

  lemma OneMoreSent(sendOk: nat -> bool, sends: nat)
    requires SendsWent(sendOk, sends, true)
    ensures SendsWent(sendOk, sends + 1, sendOk(sends))
  {
  }

  /** The drain loop: reads and sends until a read returns nothing or a send fails. What has been sent
      is always a first part of the rest of the flat file, and all of it exactly if no send failed. */
  method DrainFile(dev: Device, f: File, sendOk: nat -> bool) returns (sent: Bytes, sends: nat, allSent: bool)
    requires dev.Usable()
    modifies f
    ensures dev.Usable() && dev.Condition() == old(dev.Condition())
    ensures sent <= From(Contents(dev.Capacity(), dev.ring.log), old(f.pos))
    ensures allSent <==> sent == From(Contents(dev.Capacity(), dev.ring.log), old(f.pos))
    ensures SendsWent(sendOk, sends, allSent)
  {
    sent, sends, allSent := [], 0, true;
    ghost var flat, p := Contents(dev.Capacity(), dev.ring.log), f.pos;
    var buf := new byte[MAXBUFFER](_ => 0);
    var got := ReadNext(dev, f, buf, flat);
    DrainStarts(flat, p, got, f.pos);
    while got != []
      invariant dev.Usable() && dev.Condition() == old(dev.Condition())
      invariant DrainStands(flat, p, sent, got, f.pos)
      invariant allSent && SendsWent(sendOk, sends, true)
      decreases |flat| - f.pos, |got|
    {
      OneMoreSent(sendOk, sends);
      allSent, sends := sendOk(sends), sends + 1;
      if !allSent {
        DrainHasSent(flat, p, sent, got, f.pos);
        return;
      }
      ghost var was := f.pos;
      var next := ReadNext(dev, f, buf, flat);
      DrainGoesOn(flat, p, sent, got, was, next, f.pos);
      sent, got := sent + got, next;
    }
    DrainHasSent(flat, p, sent, got, f.pos);
  }

  /** How a seek command is answered on a device with this log: with nothing if the device cannot be
      opened or refuses the seek, and otherwise with the rest of the file or, exactly if a send fails, a
      first part of it. */
  ghost predicate Answered(N: Capacity, log: seq<Bytes>, cmd: nat, off: nat, isOpen: bool, sendOk: nat -> bool,
                           sent: Bytes, sends: nat, allSent: bool)
  {
    match if isOpen then CommandPosition(N, log, cmd, off) else None
    case None => sent == [] && sends == 0 && allSent
    case Some(p) =>
      var rest := From(Contents(N, log), p);
      sent <= rest && (allSent <==> sent == rest) && SendsWent(sendOk, sends, allSent)
  }

  /** Serves a seek command on a newly opened file, if the device can be opened. */
  method SeekAndDrain(dev: Device, cmd: nat, off: nat, isOpen: bool, sendOk: nat -> bool)
      returns (sent: Bytes, sends: nat, allSent: bool)
    requires dev.Usable()
    ensures dev.Usable() && dev.Condition() == old(dev.Condition())
    ensures Answered(dev.Capacity(), dev.ring.log, cmd, off, isOpen, sendOk, sent, sends, allSent)
  {
    if !isOpen {
      return [], 0, true;
    }
    var f := new File();
    var reply := dev.UnlockedIoctl(f, IocSeekTo(Some((cmd, off))));
    if reply != Done {
      return [], 0, true;
    }
    sent, sends, allSent := DrainFile(dev, f, sendOk);
  }

  // ----- sending the file back -------------------------------------------------------------------

  /** A stdio stream for reading: the bytes it has read but not yet handed out, where its file stands, and
      whether a read has ever found the end. */
  datatype StreamAt = StreamAt(held: Bytes, pos: nat, eof: bool)

  class InStream {
    const file: File
    var held: Bytes
    var eof: bool

    constructor ()
      ensures held == [] && file.pos == 0 && !eof && fresh(file)
    {
      file := new File();
      held, eof := [], false;
    }

    ghost function At(): StreamAt
      reads this, file
    {
      StreamAt(held, file.pos, eof)
    }
  }

  /** What a stream reads when its file moves from `from` to `to`. */
  function ReadBetween(flat: Bytes, from: nat, to: nat): Bytes {
    if from <= to <= |flat| then flat[from..to] else []
  }

  /** The bytes handed out and those then held are those held before and the next part of the file, in order.
      The end-of-file flag is set only at the end; a stream that heeds it (`sticky`) never reads again. */
  ghost predicate Accounts(flat: Bytes, sticky: bool, s: StreamAt, out: Bytes, s': StreamAt) {
    && s.pos <= s'.pos && (s.pos > |flat| ==> s'.pos == s.pos) && (s.pos <= |flat| ==> s'.pos <= |flat|)
    && out + s'.held == s.held + ReadBetween(flat, s.pos, s'.pos)
    && (s.eof ==> s'.eof) && (s'.eof && !s.eof ==> s'.pos >= |flat|)
    && (sticky && s.eof ==> s'.pos == s.pos)
  }

  lemma AccountsNone(flat: Bytes, sticky: bool, s: StreamAt)
    ensures Accounts(flat, sticky, s, [], s)
  {
    assert [] + s.held == s.held && s.held + [] == s.held;
  }

  /** The stream reads from its file, having nothing to hand out. */
  lemma AccountsRead(flat: Bytes, sticky: bool, s: StreamAt, out: Bytes, s': StreamAt, got: Bytes, next: nat)
    requires Accounts(flat, sticky, s, out, s') && s'.held == [] && !(sticky && s'.eof)
    requires Got(flat, got, s'.pos, next)
    ensures Accounts(flat, sticky, s, out, StreamAt(got, next, s'.eof || got == []))
  {
    if s.pos <= |flat| && got != [] {
      Positions.SlicesJoin(flat, s.pos, s'.pos, next);
      ConcatAssoc(s.held, flat[s.pos..s'.pos], got);
    }
    assert out + [] == out;
  }

  /** The stream hands out some of the bytes it holds. */
  lemma AccountsTake(flat: Bytes, sticky: bool, s: StreamAt, out: Bytes, s': StreamAt, n: nat)
    requires Accounts(flat, sticky, s, out, s') && n <= |s'.held|
    ensures Accounts(flat, sticky, s, out + s'.held[..n], s'.(held := s'.held[n..]))
  {
    assert s'.held == s'.held[..n] + s'.held[n..];
    ConcatAssoc(out, s'.held[..n], s'.held[n..]);
  }

  lemma AccountsJoin(flat: Bytes, sticky: bool, s: StreamAt, a: Bytes, s': StreamAt, b: Bytes, s'': StreamAt)
    requires Accounts(flat, sticky, s, a, s') && Accounts(flat, sticky, s', b, s'')
    ensures Accounts(flat, sticky, s, a + b, s'')
  {
    var x, y := ReadBetween(flat, s.pos, s'.pos), ReadBetween(flat, s'.pos, s''.pos);
    if s.pos <= |flat| {
      Positions.SlicesJoin(flat, s.pos, s'.pos, s''.pos);
    }
    ConcatAssoc(a, b, s''.held);
    ConcatAssoc(a, s'.held, y);
    ConcatAssoc(s.held, x, y);
  }

  function Unread(flat: Bytes, pos: nat): nat {
    if pos < |flat| then |flat| - pos else 0
  }

  /** The stream, having nothing to hand out, makes one device read. */
  method Refill(dev: Device, f: InStream, buf: array<byte>, sticky: bool, ghost flat: Bytes,
                ghost s: StreamAt, ghost out: Bytes)
      returns (more: bool)
    requires dev.Usable() && buf.Length == MAXBUFFER && flat == Contents(dev.Capacity(), dev.ring.log)
    requires buf !in dev.ring.buffers && buf != dev.entry.buffptr
    requires Accounts(flat, sticky, s, out, f.At()) && f.held == [] && !(sticky && f.eof)
    modifies f, f.file, buf
    ensures dev.Usable() && dev.Condition() == old(dev.Condition())
    ensures Accounts(flat, sticky, s, out, f.At())
    ensures more ==> Unread(flat, f.file.pos) < Unread(flat, old(f.file.pos))
    ensures !more ==> f.held == [] && f.eof && f.file.pos >= |flat|
  {
    ghost var was := f.At();
    var got := ReadNext(dev, f.file, buf, flat);
    AccountsRead(flat, sticky, s, out, was, got, f.file.pos);
    f.held, f.eof := got, f.eof || got == [];
    more := got != [];
  }

  /** fread for a bufferful: bytes the stream holds, and device reads for more, until it has enough or a read
      finds the end. */
  method Fread(dev: Device, f: InStream, buf: array<byte>, sticky: bool, ghost flat: Bytes) returns (out: Bytes)
    requires dev.Usable() && buf.Length == MAXBUFFER && flat == Contents(dev.Capacity(), dev.ring.log)
    requires buf !in dev.ring.buffers && buf != dev.entry.buffptr
    modifies f, f.file, buf
    ensures dev.Usable() && dev.Condition() == old(dev.Condition())
    ensures Accounts(flat, sticky, old(f.At()), out, f.At()) && |out| <= MAXBUFFER
    ensures |out| < MAXBUFFER ==> f.held == [] && f.eof && (f.file.pos >= |flat| || (sticky && old(f.eof)))
  {
    out := [];
    var more := true;
    AccountsNone(flat, sticky, f.At());
    while more && |out| < MAXBUFFER
      invariant dev.Usable() && dev.Condition() == old(dev.Condition())
      invariant Accounts(flat, sticky, old(f.At()), out, f.At()) && |out| <= MAXBUFFER
      invariant !more ==> f.held == [] && f.eof && (f.file.pos >= |flat| || (sticky && old(f.eof)))
      decreases more, Unread(flat, f.file.pos), |f.held|
    {
      if f.held != [] {
        ghost var was := f.At();
        var n := if |f.held| < MAXBUFFER - |out| then |f.held| else MAXBUFFER - |out|;
        AccountsTake(flat, sticky, old(f.At()), out, was, n);
        out, f.held := out + f.held[..n], f.held[n..];
      } else if sticky && f.eof {
        more := false;
      } else {
        more := Refill(dev, f, buf, sticky, flat, old(f.At()), out);
      }
    }
  }

  /** Everything the stream can still hand out. */
  function Sendable(flat: Bytes, sticky: bool, s: StreamAt): Bytes {
    s.held + if sticky && s.eof then [] else From(flat, s.pos)
  }

  lemma AccountsSendable(flat: Bytes, sticky: bool, s: StreamAt, out: Bytes, s': StreamAt)
    requires Accounts(flat, sticky, s, out, s')
    ensures out <= Sendable(flat, sticky, s)
    ensures s'.held == [] && (s'.pos >= |flat| || (sticky && s.eof)) ==> out == Sendable(flat, sticky, s)
  {
    if s.pos <= |flat| && !(sticky && s.eof) {
      assert From(flat, s.pos) == ReadBetween(flat, s.pos, s'.pos) + flat[s'.pos..];
      ConcatAssoc(s.held, ReadBetween(flat, s.pos, s'.pos), flat[s'.pos..]);
      ConcatAssoc(out, s'.held, flat[s'.pos..]);
    } else {
      assert ReadBetween(flat, s.pos, s'.pos) == [];
    }
    assert s'.held == [] ==> out + s'.held == out;
  }

  /** The file has been sent back: everything the stream could hand out, which then has nothing left; or a first
      part of it, because the send of the next piece failed, and that piece is lost. */
  ghost predicate Echoed(flat: Bytes, sticky: bool, s: StreamAt, sendOk: nat -> bool,
                         sent: Bytes, lost: Bytes, sends: nat, s': StreamAt)
  {
    && Accounts(flat, sticky, s, sent + lost, s') && sent + lost <= Sendable(flat, sticky, s)
    && SendsWent(sendOk, sends, lost == [])
    && (lost == [] ==> sent == Sendable(flat, sticky, s) && s'.held == [] && s'.eof)
  }

  lemma EchoEnds(flat: Bytes, sticky: bool, s: StreamAt, sendOk: nat -> bool,
                 sent: Bytes, lost: Bytes, sends: nat, s': StreamAt)
    requires Accounts(flat, sticky, s, sent + lost, s') && SendsWent(sendOk, sends, lost == [])
    requires lost == [] ==> s'.held == [] && s'.eof && (s'.pos >= |flat| || (sticky && s.eof))
    ensures Echoed(flat, sticky, s, sendOk, sent, lost, sends, s')
  {
    AccountsSendable(flat, sticky, s, sent + lost, s');
    assert lost == [] ==> sent + lost == sent;
  }

  /** After the file has been sent back once in full, sending it back again on the same stream yields what has
      come to the file since; and nothing at all, ever, if the stream heeds its end-of-file flag. */
  lemma SecondEcho(sticky: bool, flat: Bytes, s: StreamAt, ok: nat -> bool, sent: Bytes, sends: nat, s': StreamAt,
                   flat': Bytes, ok': nat -> bool, sent': Bytes, lost': Bytes, sends': nat, s'': StreamAt)
    requires Echoed(flat, sticky, s, ok, sent, [], sends, s')
    requires Echoed(flat', sticky, s', ok', sent', lost', sends', s'')
    ensures sticky ==> sent' == [] && s''== s'
    ensures !sticky && lost' == [] ==> sent' == From(flat', s'.pos)
  {
    assert [] + From(flat', s'.pos) == From(flat', s'.pos);
  }

  /** sendfile: fread and send, until fread hands out nothing or a send fails. */
  method SendFile(dev: Device, f: InStream, sticky: bool, sendOk: nat -> bool)
      returns (sent: Bytes, lost: Bytes, sends: nat)
    requires dev.Usable()
    modifies f, f.file
    ensures dev.Usable() && dev.Condition() == old(dev.Condition())
    ensures Echoed(Contents(dev.Capacity(), dev.ring.log), sticky, old(f.At()), sendOk, sent, lost, sends, f.At())
  {
    sent, lost, sends := [], [], 0;
    ghost var flat := Contents(dev.Capacity(), dev.ring.log);
    var buf := new byte[MAXBUFFER](_ => 0);
    var out := Fread(dev, f, buf, sticky, flat);
    assert [] + out == out;
    while out != []
      invariant dev.Usable() && dev.Condition() == old(dev.Condition())
      invariant Accounts(flat, sticky, old(f.At()), sent + out, f.At())
      invariant out == [] ==> f.held == [] && f.eof && (f.file.pos >= |flat| || (sticky && old(f.eof)))
      invariant SendsWent(sendOk, sends, true)
      decreases Unread(flat, f.file.pos), |f.held|, |out|
    {
      OneMoreSent(sendOk, sends);
      sends := sends + 1;
      if !sendOk(sends - 1) {
        lost := out;
        EchoEnds(flat, sticky, old(f.At()), sendOk, sent, lost, sends, f.At());
        return;
      }
      ghost var was := f.At();
      var next := Fread(dev, f, buf, sticky, flat);
      AccountsJoin(flat, sticky, old(f.At()), sent + out, was, next, f.At());
      sent, out := sent + out, next;
    }
    EchoEnds(flat, sticky, old(f.At()), sendOk, sent, [], sends, f.At());
  }

  // ----- the conversation ------------------------------------------------------------------------

  /** Where a conversation stands: the device, and the stream that the file is sent back through. */
  datatype Stand = Stand(device: Condition, stream: StreamAt)

  ghost function StandOf(dev: Device, f: InStream): Stand
    reads dev, dev.ring, dev.entry.buffptr, f, f.file
  {
    Stand(dev.Condition(), f.At())
  }

  /** What the environment holds for one chunk: whether the device can be opened for a seek, what memory there
      is for each piece written, and which sends succeed. */
  datatype Env = Env(isOpen: bool, memory: nat -> Memory, sendOk: nat -> bool)

  /** Nothing fails. */
  ghost predicate Kind(env: Env) {
    env.isOpen && forall i: nat :: env.memory(i).available && env.sendOk(i)
  }

  /** What came of one chunk: the state it found the device in, the pieces written for it and whether they
      are all of it, the bytes sent for it, the number of sends and whether all succeeded, the bytes that a
      failed send has lost, and where the conversation then stands. */
  datatype Outcome = Outcome(found: Dev, pieces: seq<Bytes>, saved: bool,
                             sent: Bytes, sends: nat, allSent: bool, lost: Bytes, after: Stand)

  function Pieces(os: seq<Outcome>): seq<Bytes> {
    if os == [] then [] else os[0].pieces + Pieces(os[1..])
  }

  /** `data` up to its first NUL has been saved: all of it, unless memory failed for the next piece. */
  ghost predicate SavedFrom(data: Bytes, env: Env, before: Stand, o: Outcome) {
    && Stands(before.device, o.found) && Stands(o.after.device, WriteAll(o.found, o.pieces))
    && Flatten(o.pieces) <= CString(data)
    && (o.saved || !env.memory(|o.pieces|).available)
    && (o.saved ==> Flatten(o.pieces) == CString(data) && (before.device.Whole? ==> o.after.device.Whole?))
  }

  /** A chunk that is no seek command: saved, and answered with the file if it holds a newline. */
  ghost predicate Kept(N: Capacity, sticky: bool, env: Env, before: Stand, data: Bytes, o: Outcome) {
    && SavedFrom(data, env, before, o)
    && if HasNewline(data) then
         && (o.allSent <==> o.lost == [])
         && Echoed(Contents(N, LogOf(o.after.device)), sticky, before.stream, env.sendOk, o.sent, o.lost, o.sends,
                   o.after.stream)
       else
         o.sent == [] && o.sends == 0 && o.allSent && o.lost == [] && o.after.stream == before.stream
  }

  /** The outcome `o` of a chunk in a conversation that stands at `before`. */
  ghost predicate Handled(N: Capacity, parse: Parse, sticky: bool, env: Env, before: Stand, data: Bytes, o: Outcome) {
    match parse(CString(data))
    case None => Kept(N, sticky, env, before, data, o)
    case Some((cmd, off)) =>
      && o.after == before && o.pieces == [] && o.saved && o.lost == []
      && Answered(N, LogOf(before.device), cmd, off, env.isOpen, env.sendOk, o.sent, o.sends, o.allSent)
  }

  /** Nothing fails unless the environment fails. */
  lemma KindSucceeds(N: Capacity, parse: Parse, sticky: bool, env: Env, before: Stand, data: Bytes, o: Outcome)
    requires Kind(env) && Handled(N, parse, sticky, env, before, data, o)
    ensures o.saved && o.allSent
  {
  }

  /** Saves a chunk, and sends the file back if it holds a newline. */
  method KeepChunk(dev: Device, f: InStream, sticky: bool, env: Env, data: Bytes) returns (ghost o: Outcome)
    requires dev.Usable()
    modifies dev, dev.ring, dev.ring.entry, dev.entry.buffptr, f, f.file
    ensures dev.Usable() && o.after == StandOf(dev, f)
    ensures Kept(dev.Capacity(), sticky, env, old(StandOf(dev, f)), data, o)
    ensures dev.entry.buffptr == null || dev.entry.buffptr == old(dev.entry.buffptr) || fresh(dev.entry.buffptr)
  {
    var saved, sent: Bytes, sends, lost: Bytes := true, [], 0, [];
    ghost var pieces, found;
    saved, pieces, found := SaveToFile(dev, CString(data), env.memory);
    if HasNewline(data) {
      sent, lost, sends := SendFile(dev, f, sticky, env.sendOk);
    }
    o := Outcome(found, pieces, saved, sent, sends, lost == [], lost, StandOf(dev, f));
  }

  /** The loop body of recieve_text. */
  method HandleChunk(dev: Device, f: InStream, parse: Parse, sticky: bool, env: Env, data: Bytes)
      returns (ghost o: Outcome)
    requires dev.Usable()
    modifies dev, dev.ring, dev.ring.entry, dev.entry.buffptr, f, f.file
    ensures dev.Usable() && o.after == StandOf(dev, f)
    ensures Handled(dev.Capacity(), parse, sticky, env, old(StandOf(dev, f)), data, o)
    ensures dev.entry.buffptr == null || dev.entry.buffptr == old(dev.entry.buffptr) || fresh(dev.entry.buffptr)
  {
    var seekto := parse(CString(data));
    if seekto.Some? {
      var sent, sends, allSent := SeekAndDrain(dev, seekto.value.0, seekto.value.1, env.isOpen, env.sendOk);
      o := Outcome(Dev([], []), [], true, sent, sends, allSent, [], StandOf(dev, f));
    } else {
      o := KeepChunk(dev, f, sticky, env, data);
    }
  }

  /** Where a conversation stands after these outcomes. */
  function End(before: Stand, os: seq<Outcome>): Stand
    decreases |os|
  {
    if os == [] then before else End(os[0].after, os[1..])
  }

  /** The handler of one connection: its parse, and whether its stream heeds the end-of-file flag. */
  datatype Handler = Handler(parse: Parse, sticky: bool)

  /** Every chunk was handled where the chunks before it left the conversation. */
  ghost predicate AllHandled(N: Capacity, hd: Handler, before: Stand, envs: seq<Env>, datas: seq<Bytes>,
                             os: seq<Outcome>)
    decreases |datas|
  {
    if datas == [] || os == [] || envs == [] then datas == [] && os == [] && envs == []
    else
      && Handled(N, hd.parse, hd.sticky, envs[0], before, datas[0], os[0])
      && AllHandled(N, hd, os[0].after, envs[1..], datas[1..], os[1..])
  }

  lemma {:induction false} AllHandledSnoc(N: Capacity, hd: Handler, before: Stand, envs: seq<Env>, datas: seq<Bytes>,
                                          os: seq<Outcome>, env: Env, data: Bytes, o: Outcome)
    requires AllHandled(N, hd, before, envs, datas, os)
    requires Handled(N, hd.parse, hd.sticky, env, End(before, os), data, o)
    ensures AllHandled(N, hd, before, envs + [env], datas + [data], os + [o]) && End(before, os + [o]) == o.after
    decreases |datas|
  {
    TailOfSnoc(datas, data);
    TailOfSnoc(envs, env);
    TailOfSnoc(os, o);
    if datas != [] {
      AllHandledSnoc(N, hd, os[0].after, envs[1..], datas[1..], os[1..], env, data, o);
    }
  }

  ghost predicate AllSaved(os: seq<Outcome>) {
    forall i :: 0 <= i < |os| ==> os[i].saved
  }

  /** If nothing fails in the environment, every chunk is saved and every send succeeds. */
  lemma {:induction false} AllKind(N: Capacity, hd: Handler, before: Stand, envs: seq<Env>, datas: seq<Bytes>,
                                   os: seq<Outcome>)
    requires AllHandled(N, hd, before, envs, datas, os) && forall i :: 0 <= i < |envs| ==> Kind(envs[i])
    ensures |os| == |datas| && AllSaved(os) && forall i :: 0 <= i < |os| ==> os[i].allSent
    decreases |datas|
  {
    if datas != [] {
      KindSucceeds(N, hd.parse, hd.sticky, envs[0], before, datas[0], os[0]);
      AllKind(N, hd, os[0].after, envs[1..], datas[1..], os[1..]);
    }
  }

  lemma SavedKeepsWhole(N: Capacity, hd: Handler, before: Stand, env: Env, data: Bytes, o: Outcome, d: Dev, kept: Bytes)
    requires Handled(N, hd.parse, hd.sticky, env, before, data, o) && o.saved && before.device == Whole(d)
    requires KeepsChunk(hd.parse, data, kept)
    ensures o.after.device == Whole(WriteAll(d, o.pieces)) && Flatten(o.pieces) == kept
  {
    SavedKeeps(hd.parse, Chunk(data, 0), kept);
  }

  /** A conversation on a device in state `d`, fully handled with every save successful, has written what it
      keeps of the received chunks. */
  lemma {:induction false} HandledWritesPayload(N: Capacity, hd: Handler, before: Stand, envs: seq<Env>,
                                                datas: seq<Bytes>, os: seq<Outcome>, d: Dev, kept: seq<Bytes>)
    requires AllHandled(N, hd, before, envs, datas, os) && AllSaved(os) && before.device == Whole(d)
    requires KeepsAll(hd.parse, datas, kept)
    ensures End(before, os).device == Whole(WriteAll(d, Pieces(os)))
    ensures Flatten(Pieces(os)) == Flatten(kept)
    decreases |datas|
  {
    if datas != [] {
      var o, more := os[0], os[1..];
      assert o.saved;
      SavedKeepsWhole(N, hd, before, envs[0], datas[0], o, d, kept[0]);
      HandledWritesPayload(N, hd, o.after, envs[1..], datas[1..], more, WriteAll(d, o.pieces), kept[1..]);
      Stream.WriteAllConcat(d, o.pieces, Pieces(more));
      FlattenConcat(o.pieces, Pieces(more));
    }
  }

  /** The first `i` chunks have been handled, and the conversation stands at `now`. */
  ghost predicate HandledUpTo(N: Capacity, hd: Handler, before: Stand, envs: seq<Env>, datas: seq<Bytes>, i: nat,
                              os: seq<Outcome>, now: Stand)
    requires i <= |datas| == |envs|
  {
    AllHandled(N, hd, before, envs[..i], datas[..i], os) && now == End(before, os)
  }

  lemma HandledOneMore(N: Capacity, hd: Handler, before: Stand, envs: seq<Env>, datas: seq<Bytes>, i: nat,
                       os: seq<Outcome>, now: Stand, o: Outcome)
    requires i < |datas| == |envs| && HandledUpTo(N, hd, before, envs, datas, i, os, now)
    requires Handled(N, hd.parse, hd.sticky, envs[i], now, datas[i], o)
    ensures HandledUpTo(N, hd, before, envs, datas, i + 1, os + [o], o.after)
  {
    AllHandledSnoc(N, hd, before, envs[..i], datas[..i], os, envs[i], datas[i], o);
    TakeOneMore(datas, i);
    TakeOneMore(envs, i);
  }

  /** On a device that had lost nothing, with every save successful, exactly what is kept of the received data
      has been written. */
  ghost predicate WritesKept(hd: Handler, before: Stand, datas: seq<Bytes>, os: seq<Outcome>, now: Stand) {
    AllSaved(os) && before.device.Whole? ==>
      && now.device == Whole(WriteAll(before.device.dev, Pieces(os)))
      && forall kept :: KeepsAll(hd.parse, datas, kept) ==> Flatten(Pieces(os)) == Flatten(kept)
  }

  ghost predicate FailsOnlyIfUnkind(envs: seq<Env>, os: seq<Outcome>) {
    (forall i :: 0 <= i < |envs| ==> Kind(envs[i])) ==> AllSaved(os) && forall i :: 0 <= i < |os| ==> os[i].allSent
  }

  /** What is kept of received data is determined by it. */
  lemma SomethingKept(parse: Parse, datas: seq<Bytes>) returns (kept: seq<Bytes>)
    ensures KeepsAll(parse, datas, kept)
  {
    kept := seq(|datas|, i requires 0 <= i < |datas| => Saved(parse, Chunk(datas[i], 0)));
    forall i | 0 <= i < |datas| ensures KeepsChunk(parse, datas[i], kept[i]) {
      SavedKeeps(parse, Chunk(datas[i], 0), kept[i]);
    }
  }

  lemma AllChunksHandled(N: Capacity, hd: Handler, before: Stand, envs: seq<Env>, datas: seq<Bytes>,
                         os: seq<Outcome>, now: Stand)
    requires |datas| == |envs| && HandledUpTo(N, hd, before, envs, datas, |datas|, os, now)
    ensures AllHandled(N, hd, before, envs, datas, os) && now == End(before, os)
    ensures WritesKept(hd, before, datas, os, now) && FailsOnlyIfUnkind(envs, os)
  {
    assert datas[..|datas|] == datas && envs[..|datas|] == envs;
    if AllSaved(os) && before.device.Whole? {
      var some := SomethingKept(hd.parse, datas);
      HandledWritesPayload(N, hd, before, envs, datas, os, before.device.dev, some);
      forall kept | KeepsAll(hd.parse, datas, kept) ensures Flatten(Pieces(os)) == Flatten(kept) {
        HandledWritesPayload(N, hd, before, envs, datas, os, before.device.dev, kept);
      }
    }
    if forall i :: 0 <= i < |envs| ==> Kind(envs[i]) {
      AllKind(N, hd, before, envs, datas, os);
    }
  }

  /** recieve_text between taking and releasing the session mutex. Each seek command is answered from the
      device as the chunks before it left it, every other chunk is saved and answered with the file if it
      holds a newline. If every save succeeds on a device that had lost nothing, it receives of each chunk what
      comes before its first NUL, and nothing of a seek command. Nothing fails unless the environment does. */
  method ReceiveText(dev: Device, f: InStream, hd: Handler, envs: seq<Env>, datas: seq<Bytes>)
      returns (ghost os: seq<Outcome>)
    requires dev.Usable() && |envs| == |datas|
    requires datas != [] && forall i :: 0 <= i < |datas| ==> (datas[i] == [] <==> i == |datas| - 1)
    modifies dev, dev.ring, dev.ring.entry, dev.entry.buffptr, f, f.file
    ensures dev.Usable() && AllHandled(dev.Capacity(), hd, old(StandOf(dev, f)), envs, datas, os)
    ensures StandOf(dev, f) == End(old(StandOf(dev, f)), os)
    ensures WritesKept(hd, old(StandOf(dev, f)), datas, os, StandOf(dev, f))
    ensures FailsOnlyIfUnkind(envs, os)
  {
    var i, more := 0, true;
    os := [];
    ghost var before := StandOf(dev, f);
    while more
      invariant dev.Usable()
      invariant dev.entry.buffptr == null || dev.entry.buffptr == old(dev.entry.buffptr) || fresh(dev.entry.buffptr)
      invariant i <= |datas| && (more <==> i < |datas|)
      invariant HandledUpTo(dev.Capacity(), hd, before, envs, datas, i, os, StandOf(dev, f))
      decreases |datas| - i
    {
      ghost var now := StandOf(dev, f);
      ghost var o := HandleChunk(dev, f, hd.parse, hd.sticky, envs[i], datas[i]);
      HandledOneMore(dev.Capacity(), hd, before, envs, datas, i, os, now, o);
      os := os + [o];
      more := datas[i] != [];
      i := i + 1;
    }
    AllChunksHandled(dev.Capacity(), hd, before, envs, datas, os, StandOf(dev, f));
  }
}
