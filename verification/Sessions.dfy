/** What one conversation of the socket server means, apart from who else is connected. */
module Sessions {
  import opened Bytes
  import opened CommandLog
  import opened DeviceSpec

  /** MAXBUFFER of the server. */
  const MAXBUFFER: nat := 4096

  /** sscanf(buffer, "AESDCHAR_IOCSEEKTO:%u,%u"): the two numbers when both are there. */
  type Parse = Bytes -> Option<(nat, nat)>

  /** One received chunk, and how many device reads and sends sendfile makes for it if it holds a newline. */
  datatype Chunk = Chunk(data: Bytes, steps: nat)

  /** The bytes the server appends to the device for one chunk: the chunk up to its first NUL, unless it
      is a seek command. */
  function Saved(parse: Parse, c: Chunk): Bytes {
    if parse(CString(c.data)).Some? then [] else CString(c.data)
  }

  function Payload(parse: Parse, chunks: seq<Chunk>): Bytes {
    if chunks == [] then [] else Saved(parse, chunks[0]) + Payload(parse, chunks[1..])
  }

  /** `kept` is the received data before its first NUL, or nothing if that is a seek command. */
  ghost predicate KeepsChunk(parse: Parse, data: Bytes, kept: Bytes) {
    exists n: nat :: n <= |data| && NUL !in data[..n] && (n == |data| || data[n] == NUL)
                     && kept == if parse(data[..n]).None? then data[..n] else []
  }

  ghost predicate KeepsAll(parse: Parse, datas: seq<Bytes>, kept: seq<Bytes>) {
    |kept| == |datas| && forall i :: 0 <= i < |datas| ==> KeepsChunk(parse, datas[i], kept[i])
  }

  ghost predicate Keeps(parse: Parse, chunks: seq<Chunk>, kept: seq<Bytes>) {
    |kept| == |chunks| && forall i :: 0 <= i < |chunks| ==> KeepsChunk(parse, chunks[i].data, kept[i])
  }

  lemma CutAtNul(b: Bytes, n: nat)
    requires n <= |b| && NUL !in b[..n] && (n == |b| || b[n] == NUL)
    ensures CString(b) == b[..n]
  {
    assert b == b[..n] + b[n..];
    CStringConcat(b[..n], b[n..]);
  }

  lemma SavedKeeps(parse: Parse, c: Chunk, kept: Bytes)
    ensures KeepsChunk(parse, c.data, kept) <==> kept == Saved(parse, c)
  {
    var s := CString(c.data);
    assert c.data[..|s|] == s;
    if KeepsChunk(parse, c.data, kept) {
      var n: nat :| n <= |c.data| && NUL !in c.data[..n] && (n == |c.data| || c.data[n] == NUL)
                    && kept == if parse(c.data[..n]).None? then c.data[..n] else [];
      CutAtNul(c.data, n);
    }
  }

  /** The payload of a conversation is what it keeps of the chunks, one after another. */
  lemma {:induction false} PayloadKept(parse: Parse, chunks: seq<Chunk>, kept: seq<Bytes>)
    requires Keeps(parse, chunks, kept)
    ensures Payload(parse, chunks) == Flatten(kept)
    decreases |chunks|
  {
    if chunks != [] {
      assert Keeps(parse, chunks[1..], kept[1..]);
      SavedKeeps(parse, chunks[0], kept[0]);
      PayloadKept(parse, chunks[1..], kept[1..]);
    }
  }

  /** If no chunk holds a NUL and none is a seek command, the payload is all that was received. */
  lemma PlainPayload(parse: Parse, chunks: seq<Chunk>, datas: seq<Bytes>)
    requires |datas| == |chunks|
    requires forall i :: 0 <= i < |chunks| ==>
      chunks[i].data == datas[i] && NUL !in datas[i] && parse(datas[i]).None?
    ensures Payload(parse, chunks) == Flatten(datas)
  {
    forall i | 0 <= i < |chunks| ensures KeepsChunk(parse, chunks[i].data, datas[i]) {
      assert datas[i][..|datas[i]|] == datas[i];
    }
    PayloadKept(parse, chunks, datas);
  }

  /** What recv delivers on one connection: chunks, then one of length zero. */
  ghost predicate Conversation(chunks: seq<Chunk>) {
    chunks != [] && forall i :: 0 <= i < |chunks| ==> (chunks[i].data == [] <==> i == |chunks| - 1)
  }

  /** The rest of a flat file from a position that may lie past its end. */
  function From(flat: Bytes, p: nat): Bytes {
    if p <= |flat| then flat[p..] else []
  }
}
