/** The specification of the driver's storage: a log of every command ever committed, of which
    the last `N` are visible as one flat file. */
module CommandLog {
  import opened Bytes

  /** Number of commands kept; AESDCHAR_MAX_WRITE_OPERATIONS_SUPPORTED in the driver. */
  type Capacity = n: nat | 0 < n witness 1

  function Flatten<T>(ss: seq<seq<T>>): seq<T> {
    if ss == [] then [] else ss[0] + Flatten(ss[1..])
  }

  lemma {:induction false} FlattenConcat<T>(a: seq<seq<T>>, b: seq<seq<T>>)
    ensures Flatten(a + b) == Flatten(a) + Flatten(b)
  {
    if a == [] {
      assert a + b == b;
    } else {
      assert (a + b)[1..] == a[1..] + b;
      FlattenConcat(a[1..], b);
    }
  }

  lemma FlattenSnoc<T>(a: seq<seq<T>>, s: seq<T>)
    ensures Flatten(a + [s]) == Flatten(a) + s
  {
    FlattenConcat(a, [s]);
    assert Flatten([s]) == s;
  }

  /** The commands still readable: the last `N` of the log, oldest first. */
  function Window(N: Capacity, log: seq<Bytes>): (w: seq<Bytes>)
    ensures |w| == if |log| < N then |log| else N
  {
    if |log| <= N then log else log[|log| - N..]
  }

  function Evicted(N: Capacity, log: seq<Bytes>): seq<Bytes> {
    log[..|log| - |Window(N, log)|]
  }

  /** The flat file a reader sees. */
  function Contents(N: Capacity, log: seq<Bytes>): Bytes {
    Flatten(Window(N, log))
  }

  /** Total size of the first `c` commands. */
  function Prefix(w: seq<Bytes>, c: nat): nat
    requires c <= |w|
  {
    if c == 0 then 0 else Prefix(w, c - 1) + |w[c - 1]|
  }

  lemma {:induction false} PrefixIsLength(w: seq<Bytes>, c: nat)
    requires c <= |w|
    ensures Prefix(w, c) == |Flatten(w[..c])| <= |Flatten(w)|
    ensures c == |w| ==> Prefix(w, c) == |Flatten(w)|
  {
    if c > 0 {
      PrefixIsLength(w, c - 1);
      assert w[..c] == w[..c - 1] + [w[c - 1]];
      FlattenSnoc(w[..c - 1], w[c - 1]);
    }
    assert w == w[..c] + w[c..];
    FlattenConcat(w[..c], w[c..]);
  }

  /** The command that holds flat position `p`, and the offset inside it. */
  function Locate(w: seq<Bytes>, p: nat): (at: (nat, nat))
    requires p < |Flatten(w)|
    ensures at.0 < |w| && at.1 < |w[at.0]|
  {
    if p < |w[0]| then (0, p)
    else
      var at := Locate(w[1..], p - |w[0]|);
      (at.0 + 1, at.1)
  }

  lemma {:induction false} PrefixShift(w: seq<Bytes>, c: nat)
    requires w != [] && c < |w|
    ensures Prefix(w, c + 1) == |w[0]| + Prefix(w[1..], c)
  {
    if c > 0 {
      PrefixShift(w, c - 1);
    }
  }

  /** Lookup inverts the prefix sums: the located command brackets the position. */
  lemma {:induction false} LocateBrackets(w: seq<Bytes>, p: nat)
    requires p < |Flatten(w)|
    ensures var (c, r) := Locate(w, p); Prefix(w, c) + r == p < Prefix(w, c + 1)
  {
    if p >= |w[0]| {
      LocateBrackets(w[1..], p - |w[0]|);
      var (c, r) := Locate(w[1..], p - |w[0]|);
      PrefixShift(w, c);
      PrefixShift(w, c + 1);
    }
  }

  /** Prefix sums invert lookup. With LocateBrackets this makes (command, offset) pairs and the
      positions below the total size one and the same thing. */
  lemma {:induction false} LocateUnique(w: seq<Bytes>, c: nat, r: nat)
    requires c < |w| && r < |w[c]|
    ensures Prefix(w, c) + r < |Flatten(w)|
    ensures Locate(w, Prefix(w, c) + r) == (c, r)
  {
    assert Flatten(w) == w[0] + Flatten(w[1..]);
    if c > 0 {
      LocateUnique(w[1..], c - 1, r);
      PrefixShift(w, c - 1);
    }
  }

  lemma SliceAfter<T>(a: seq<T>, b: seq<T>, p: nat, n: nat)
    requires p + n <= |b|
    ensures (a + b)[|a| + p..|a| + p + n] == b[p..p + n]
  {
  }

  /** A slice inside one command is a slice of the flat file. */
  lemma {:induction false} SliceIsFlat(w: seq<Bytes>, c: nat, r: nat, n: nat)
    requires c < |w| && r + n <= |w[c]|
    ensures Prefix(w, c) + r + n <= |Flatten(w)|
    ensures w[c][r..r + n] == Flatten(w)[Prefix(w, c) + r..Prefix(w, c) + r + n]
  {
    assert Flatten(w) == w[0] + Flatten(w[1..]);
    if c > 0 {
      SliceIsFlat(w[1..], c - 1, r, n);
      PrefixShift(w, c - 1);
      SliceAfter(w[0], Flatten(w[1..]), Prefix(w[1..], c - 1) + r, n);
    }
  }

  /** Nothing is lost by the window: evicted commands and the flat file make up the whole log. */
  lemma WindowConserves(N: Capacity, log: seq<Bytes>)
    ensures Flatten(Evicted(N, log)) + Contents(N, log) == Flatten(log)
  {
    FlattenConcat(Evicted(N, log), Window(N, log));
    assert Evicted(N, log) + Window(N, log) == log;
  }

  /** Committing below capacity appends to the flat file; committing into a full ring first drops
      the oldest command from its front. */
  lemma CommitContents(N: Capacity, log: seq<Bytes>, cmd: Bytes)
    ensures |log| < N ==> Contents(N, log + [cmd]) == Contents(N, log) + cmd
    ensures |log| >= N ==>
      |log[|log| - N]| <= |Contents(N, log)| &&
      Contents(N, log + [cmd]) == Contents(N, log)[|log[|log| - N]|..] + cmd
  {
    var w := Window(N, log);
    if |log| < N {
      assert Window(N, log + [cmd]) == w + [cmd];
      FlattenSnoc(w, cmd);
    } else {
      assert Window(N, log + [cmd]) == w[1..] + [cmd];
      assert w[0] == log[|log| - N];
      FlattenSnoc(w[1..], cmd);
      assert Flatten(w) == w[0] + Flatten(w[1..]);
    }
  }
}
