/** Bytes, C strings, and the newline test that decides when a command is complete. */
module Bytes {
  newtype byte = x: int | 0 <= x < 256
  type Bytes = seq<byte>

  const NUL: byte := 0
  const NEWLINE: byte := 10

  /** What a C string function sees of `b`: everything before the first NUL. */
  function CString(b: Bytes): (s: Bytes)
    ensures s <= b && NUL !in s
    ensures s == b || b[|s|] == NUL
    ensures NUL !in b ==> s == b
  {
    if b == [] || b[0] == NUL then [] else [b[0]] + CString(b[1..])
  }

  /** `strchr(b, '\n') != NULL`, looking at the bytes of `b` only. */
  predicate HasNewline(b: Bytes) {
    NEWLINE in CString(b)
  }

  lemma ConcatAssoc<T>(a: seq<T>, b: seq<T>, c: seq<T>)
    ensures (a + b) + c == a + (b + c)
  {
  }

  lemma TailOfSnoc<T>(s: seq<T>, x: T)
    ensures s == [] ==> (s + [x])[0] == x && (s + [x])[1..] == []
    ensures s != [] ==> (s + [x])[0] == s[0] && (s + [x])[1..] == s[1..] + [x]
  {
  }

  lemma TakeOneMore<T>(s: seq<T>, i: nat)
    requires i < |s|
    ensures s[..i] + [s[i]] == s[..i + 1]
  {
  }

  lemma CStringCons(h: byte, t: Bytes)
    ensures CString([h] + t) == if h == NUL then [] else [h] + CString(t)
  {
    assert ([h] + t)[1..] == t;
  }

  lemma {:induction false} CStringConcat(a: Bytes, b: Bytes)
    ensures CString(a + b) == if NUL in a then CString(a) else a + CString(b)
  {
    if a == [] {
      assert a + b == b;
    } else {
      var h, t := a[0], a[1..];
      assert a == [h] + t;
      ConcatAssoc([h], t, b);
      CStringCons(h, t);
      CStringCons(h, t + b);
      if h != NUL {
        CStringConcat(t, b);
        ConcatAssoc([h], t, CString(b));
      }
    }
  }

  /** The newline test over two pieces: a NUL in the first piece hides the second. */
  lemma HasNewlineConcat(a: Bytes, b: Bytes)
    ensures HasNewline(a + b) <==> HasNewline(a) || (NUL !in a && HasNewline(b))
  {
    CStringConcat(a, b);
  }

  /** The buffer need not be terminated, so strchr may read past its logical end. What lies there
      is irrelevant exactly when the logical bytes already hold a newline or a NUL. */
  lemma StrchrPastTheEnd(b: Bytes)
    ensures (forall tail: Bytes :: HasNewline(b + tail) == HasNewline(b)) <==> NUL in b || NEWLINE in b
  {
    forall tail: Bytes | NUL in b || NEWLINE in b
      ensures HasNewline(b + tail) == HasNewline(b)
    {
      HasNewlineConcat(b, tail);
    }
    if NUL !in b && NEWLINE !in b {
      HasNewlineConcat(b, [NEWLINE]);
      assert HasNewline([NEWLINE]) by {
        assert CString([NEWLINE]) == [NEWLINE];
      }
      assert HasNewline(b + [NEWLINE]) != HasNewline(b);
    }
  }
}
