/** The audit log's circular byte buffer: entries laid end to end, each found only through the size word
    of the one before it. */
module AuditRing {
  import opened Words

  type byte = x: int | 0 <= x < 256
  type Entry = seq<byte>

  const LOG_SIZE: nat := 1024
  const LOG_FIXED_FIELD_SIZE: nat := 20
  const LOG_MAC_SIZE: nat := 4
  const LOG_OVERHEAD: nat := 24
  const SIZE_OFFSET: nat := 16
  const DUMMY_PARTITION_ID: u32 := 1234

  // ---- Little-endian words

  function Le32(x: u32): (s: seq<byte>)
    ensures |s| == 4
  {
    var q1 := x / 0x100;
    var q2 := q1 / 0x100;
    var q3 := q2 / 0x100;
    [x % 0x100, q1 % 0x100, q2 % 0x100, q3]
  }

  function FromBytes(b0: int, b1: int, b2: int, b3: int): int {
    b0 + 0x100 * (b1 + 0x100 * (b2 + 0x100 * b3))
  }

  function ReadLe32(s: seq<byte>, p: nat): u32
    requires p + 4 <= |s|
  {
    FromBytes(s[p], s[p + 1], s[p + 2], s[p + 3])
  }

  lemma Le32RoundTrip(x: u32)
    ensures ReadLe32(Le32(x), 0) == x
  {
    var q1 := x / 0x100;
    var q2 := q1 / 0x100;
    var q3 := q2 / 0x100;
    assert x == 0x100 * q1 + x % 0x100 && q1 == 0x100 * q2 + q1 % 0x100 && q2 == 0x100 * q3 + q2 % 0x100;
  }

  const TWO64: int := 0x1_0000_0000_0000_0000

  function Le64(x: nat): (s: seq<byte>)
    requires x < TWO64
    ensures |s| == 8
  {
    Le32(x % 0x1_0000_0000) + Le32(x / 0x1_0000_0000)
  }

  // ---- Entries

  /** A caller's line: `size` and the `size` bytes after it (function id, arguments, payload). */
  datatype LineData = LineData(size: u32, data: seq<byte>)

  type Line = l: LineData | |l.data| == l.size witness LineData(0, [])

  predicate LineFits(line: Line) {
    line.size % 4 == 0 && line.size + LOG_OVERHEAD <= LOG_SIZE
  }

  const MAC: seq<byte> := [0, 1, 2, 3]

  /** [TIMESTAMP][IV_COUNTER][PARTITION_ID][SIZE] line [MAC] */
  function Format(timestamp: nat, line: Line): Entry
    requires timestamp < TWO64
  {
    Le64(timestamp) + Le32(0) + Le32(DUMMY_PARTITION_ID) + (Le32(line.size) + line.data) + MAC
  }

  predicate WellFormed(e: Entry) {
    && LOG_OVERHEAD <= |e| <= LOG_SIZE && |e| % 4 == 0
    && ReadLe32(e, SIZE_OFFSET) == |e| - LOG_OVERHEAD
  }

  lemma FormatWellFormed(timestamp: nat, line: Line)
    requires timestamp < TWO64 && LineFits(line)
    ensures WellFormed(Format(timestamp, line)) && |Format(timestamp, line)| == line.size + LOG_OVERHEAD
  {
    var e := Format(timestamp, line);
    var w := Le32(line.size);
    assert e[16] == w[0] && e[17] == w[1] && e[18] == w[2] && e[19] == w[3];
    Le32RoundTrip(line.size);
  }

  /** The stored entries as one run of bytes. */
  function Flat(q: seq<Entry>): seq<byte> {
    if q == [] then [] else q[0] + Flat(q[1..])
  }

  function Total(q: seq<Entry>): nat { |Flat(q)| }

  lemma {:induction false} FlatConcat(a: seq<Entry>, b: seq<Entry>)
    ensures Flat(a + b) == Flat(a) + Flat(b)
  {
    if a == [] {
      assert a + b == b;
    } else {
      FlatConcat(a[1..], b);
      assert (a + b)[1..] == a[1..] + b && (a + b)[0] == a[0];
      assert a[0] + (Flat(a[1..]) + Flat(b)) == (a[0] + Flat(a[1..])) + Flat(b);
    }
  }

  lemma FlatSplit(q: seq<Entry>, k: nat)
    requires k <= |q|
    ensures Flat(q) == Flat(q[..k]) + Flat(q[k..])
  {
    var a, b := q[..k], q[k..];
    assert a + b == q;
    FlatConcat(a, b);
  }

  lemma FlatLast(q: seq<Entry>, e: Entry)
    ensures Flat(q + [e]) == Flat(q) + e
  {
    FlatConcat(q, [e]);
    assert Flat([e]) == e + Flat([]);
  }

  // ---- Positions on the ring

  function At(first: nat, j: nat): (i: nat)
    requires first < LOG_SIZE && j <= LOG_SIZE
    ensures i < LOG_SIZE && i == (first + j) % LOG_SIZE
  {
    if first + j < LOG_SIZE then first + j else first + j - LOG_SIZE
  }

  /** How far `i` lies ahead of `at`. */
  function Offset(at: nat, i: nat): (d: nat)
    requires at < LOG_SIZE && i < LOG_SIZE
    ensures d < LOG_SIZE
  {
    if i >= at then i - at else i - at + LOG_SIZE
  }

  lemma AtAt(first: nat, m: nat, j: nat)
    requires first < LOG_SIZE && m + j <= LOG_SIZE
    ensures At(At(first, m), j) == At(first, m + j)
  {
  }

  lemma OffsetAt(first: nat, t: nat, j: nat)
    requires first < LOG_SIZE && t <= LOG_SIZE && j < LOG_SIZE
    ensures Offset(At(first, t), At(first, j)) ==
            if t == LOG_SIZE then j else if j >= t then j - t else j - t + LOG_SIZE
  {
  }

  /** The `n` bytes from `first` on, around the end of the buffer. */
  function Arc(buf: seq<byte>, first: nat, n: nat): (s: seq<byte>)
    requires |buf| == LOG_SIZE && first < LOG_SIZE && n <= LOG_SIZE
    ensures |s| == n
  {
    seq(n, j requires 0 <= j < n => buf[At(first, j)])
  }

  lemma ArcTail(buf: seq<byte>, first: nat, n: nat, m: nat)
    requires |buf| == LOG_SIZE && first < LOG_SIZE && m <= n <= LOG_SIZE
    ensures Arc(buf, At(first, m), n - m) == Arc(buf, first, n)[m..]
  {
    var tail, rest := Arc(buf, At(first, m), n - m), Arc(buf, first, n)[m..];
    forall j | 0 <= j < n - m
      ensures tail[j] == rest[j]
    {
      AtAt(first, m, j);
    }
  }

  /** The buffer after `e` is copied in from `at` on, wrapping at the end. */
  function Written(buf: seq<byte>, at: nat, e: seq<byte>): (buf': seq<byte>)
    requires |buf| == LOG_SIZE && at < LOG_SIZE
    ensures |buf'| == LOG_SIZE
  {
    seq(LOG_SIZE, i requires 0 <= i < LOG_SIZE => if Offset(at, i) < |e| then e[Offset(at, i)] else buf[i])
  }

  // ---- Walking by size words

  /** The 32-bit word read through `GET_SIZE_FIELD_POINTER`; alignment keeps it inside the buffer. */
  function SizeWord(buf: seq<byte>, idx: nat): u32
    requires |buf| == LOG_SIZE && idx < LOG_SIZE && idx % 4 == 0
  {
    ReadLe32(buf, (idx + SIZE_OFFSET) % LOG_SIZE)
  }

  function EntrySize(size: u32): u32 { Add32(LOG_OVERHEAD, size) }

  function NextIndex(buf: seq<byte>, idx: nat): (i: nat)
    requires |buf| == LOG_SIZE && idx < LOG_SIZE && idx % 4 == 0
    ensures i < LOG_SIZE
  {
    Add32(idx, EntrySize(SizeWord(buf, idx))) % LOG_SIZE
  }

  /** The buffer holds the entries `q`, oldest first, from `first` on. */
  ghost predicate Holds(buf: seq<byte>, first: nat, q: seq<Entry>) {
    && |buf| == LOG_SIZE && first < LOG_SIZE && first % 4 == 0
    && (forall k :: 0 <= k < |q| ==> WellFormed(q[k]))
    && Total(q) <= LOG_SIZE
    && Arc(buf, first, Total(q)) == Flat(q)
  }

  lemma SizeWordOnRing(buf: seq<byte>, first: nat)
    requires |buf| == LOG_SIZE && first < LOG_SIZE && first % 4 == 0
    ensures SizeWord(buf, first) == ReadLe32(Arc(buf, first, LOG_OVERHEAD), SIZE_OFFSET)
  {
    var p := At(first, SIZE_OFFSET);
    WordInside(first);
    var arc := Arc(buf, first, LOG_OVERHEAD);
    assert arc[16] == buf[p] && arc[17] == buf[p + 1] && arc[18] == buf[p + 2] && arc[19] == buf[p + 3];
  }

  /** The four bytes of a size word lie together. */
  lemma WordInside(first: nat)
    requires first < LOG_SIZE && first % 4 == 0
    ensures var p := At(first, SIZE_OFFSET);
            && p + 4 <= LOG_SIZE
            && At(first, 17) == p + 1 && At(first, 18) == p + 2 && At(first, 19) == p + 3
  {
    var q := first / 4;
    assert first == 4 * q;
  }

  lemma HeadSizeWord(buf: seq<byte>, first: nat, q: seq<Entry>)
    requires Holds(buf, first, q) && q != []
    ensures SizeWord(buf, first) == |q[0]| - LOG_OVERHEAD
  {
    var e, t := q[0], Total(q);
    assert WellFormed(e);
    SizeWordOnRing(buf, first);
    var arc := Arc(buf, first, LOG_OVERHEAD);
    forall j | SIZE_OFFSET <= j < SIZE_OFFSET + 4
      ensures arc[j] == e[j]
    {
      assert arc[j] == Arc(buf, first, t)[j] && Flat(q)[j] == e[j];
    }
  }

  lemma StepOfSize(buf: seq<byte>, idx: nat, n: nat)
    requires |buf| == LOG_SIZE && idx < LOG_SIZE && idx % 4 == 0
    requires LOG_OVERHEAD <= n <= LOG_SIZE && SizeWord(buf, idx) == n - LOG_OVERHEAD
    ensures EntrySize(SizeWord(buf, idx)) == n && NextIndex(buf, idx) == At(idx, n)
  {
    IndexAfter(idx, n, SizeWord(buf, idx));
  }

  lemma IndexAfter(idx: nat, n: nat, word: u32)
    requires idx < LOG_SIZE && LOG_OVERHEAD <= n <= LOG_SIZE && word == n - LOG_OVERHEAD
    ensures EntrySize(word) == n && Add32(idx, EntrySize(word)) % LOG_SIZE == At(idx, n)
  {
  }

  lemma AtAligned(first: nat, n: nat)
    requires first < LOG_SIZE && n <= LOG_SIZE && first % 4 == 0 && n % 4 == 0
    ensures At(first, n) % 4 == 0
  {
  }

  /** The size word of the oldest entry leads to the next one, where the rest is stored. */
  lemma HoldsTail(buf: seq<byte>, first: nat, q: seq<Entry>)
    requires Holds(buf, first, q) && q != []
    ensures SizeWord(buf, first) == |q[0]| - LOG_OVERHEAD
    ensures EntrySize(SizeWord(buf, first)) == |q[0]|
    ensures NextIndex(buf, first) == At(first, |q[0]|)
    ensures Holds(buf, At(first, |q[0]|), q[1..])
  {
    HeadSizeWord(buf, first, q);
    assert WellFormed(q[0]);
    StepOfSize(buf, first, |q[0]|);
    AtAligned(first, |q[0]|);
    ArcTail(buf, first, Total(q), |q[0]|);
    assert Flat(q)[|q[0]|..] == Flat(q[1..]);
  }

  /** `k` steps along the size words. */
  function Walk(buf: seq<byte>, idx: nat, k: nat): (i: nat)
    requires |buf| == LOG_SIZE && idx < LOG_SIZE && idx % 4 == 0
    ensures i < LOG_SIZE
    decreases k
  {
    if k == 0 then idx
    else
      var next := NextIndex(buf, idx);
      if next % 4 != 0 then next else Walk(buf, next, k - 1)
  }

  /** Walking `k` steps reaches the `k`-th entry: its arc starts right after the arcs of the entries before
      it, and holds its bytes. */
  lemma {:induction false} WalkFindsEntry(buf: seq<byte>, first: nat, q: seq<Entry>, k: nat)
    requires Holds(buf, first, q) && k <= |q|
    ensures Total(q[..k]) <= Total(q)
    ensures Walk(buf, first, k) == At(first, Total(q[..k]))
    ensures Holds(buf, At(first, Total(q[..k])), q[k..])
    decreases k
  {
    if k == 0 {
      assert q[..0] == [] && q[0..] == q;
    } else {
      HoldsTail(buf, first, q);
      WalkFindsEntry(buf, At(first, |q[0]|), q[1..], k - 1);
      TailPrefix(q, k);
      AtAt(first, |q[0]|, Total(q[1..][..k - 1]));
    }
  }

  lemma TailPrefix(q: seq<Entry>, k: nat)
    requires 1 <= k <= |q|
    ensures q[1..][k - 1..] == q[k..]
    ensures Total(q[..k]) == |q[0]| + Total(q[1..][..k - 1]) && Total(q) == |q[0]| + Total(q[1..])
  {
    assert q[..k][1..] == q[1..][..k - 1] && q[..k][0] == q[0];
  }

  /** The newest entry is written right after the others and disturbs none of them. */
  lemma AppendHolds(buf: seq<byte>, first: nat, q: seq<Entry>, e: Entry)
    requires Holds(buf, first, q) && WellFormed(e) && Total(q) + |e| <= LOG_SIZE
    ensures Holds(Written(buf, At(first, Total(q)), e), first, q + [e])
  {
    var at, t := At(first, Total(q)), Total(q);
    var buf' := Written(buf, at, e);
    FlatLast(q, e);
    forall j | 0 <= j < t + |e|
      ensures Arc(buf', first, t + |e|)[j] == Flat(q + [e])[j]
    {
      OffsetAt(first, t, j);
      if j < t {
        assert buf'[At(first, j)] == buf[At(first, j)];
        assert Arc(buf, first, t)[j] == Flat(q)[j];
      } else {
        assert buf'[At(first, j)] == e[j - t];
      }
    }
  }

  /** Copying one more byte, at the wrapped position. */
  lemma WrittenNext(buf: seq<byte>, at: nat, e: seq<byte>, b: byte)
    requires |buf| == LOG_SIZE && at < LOG_SIZE && |e| < LOG_SIZE
    ensures Written(buf, at, e + [b]) == Written(buf, at, e)[(at + |e|) % LOG_SIZE := b]
  {
    var i0 := At(at, |e|);
    assert Offset(at, i0) == |e|;
    forall i | 0 <= i < LOG_SIZE
      ensures Written(buf, at, e + [b])[i] == Written(buf, at, e)[i0 := b][i]
    {
      assert Offset(at, i) == |e| ==> i == i0;
    }
  }

  lemma PrefixTotal(q: seq<Entry>, m: nat)
    requires m < |q|
    ensures Total(q[..m + 1]) == Total(q[..m]) + |q[m]| <= Total(q)
  {
    assert q[..m + 1] == q[..m] + [q[m]];
    FlatLast(q[..m], q[m]);
    FlatSplit(q, m + 1);
  }

  lemma PrefixFits(q: seq<Entry>, m: nat, n: nat)
    requires m <= n <= |q|
    ensures Total(q[..m]) <= Total(q[..n])
  {
    FlatSplit(q[..n], m);
    assert q[..n][..m] == q[..m];
  }

  /** Two different entries lie on disjoint arcs of the buffer. */
  lemma ArcsDisjoint(first: nat, q: seq<Entry>, i: nat, j: nat, a: nat, b: nat)
    requires first < LOG_SIZE && Total(q) <= LOG_SIZE && i < j < |q| && a < |q[i]| && b < |q[j]|
    ensures Total(q[..i]) + a < LOG_SIZE && Total(q[..j]) + b < LOG_SIZE
    ensures At(first, Total(q[..i]) + a) != At(first, Total(q[..j]) + b)
  {
    PrefixTotal(q, i);
    PrefixFits(q, i + 1, j);
    PrefixTotal(q, j);
  }
}
