/** The loop that retrieves from an index: how it counts by the size words it meets, where it stays among the
    stored entries, and when it ends. */
module AuditForward {
  import opened Words
  import opened Distinct
  import opened AuditRing
  import opened AuditQueue

  /** The size the loop has counted after `n` rounds, as it reads it from the buffer. */
  function ForwardSize(buf: seq<byte>, idx: nat, n: nat): u32
    requires |buf| == LOG_SIZE && idx < LOG_SIZE && idx % 4 == 0
  {
    if n == 0 then EntrySize(SizeWord(buf, idx))
    else if Walk(buf, idx, n) % 4 != 0 then 0
    else Add32(ForwardSize(buf, idx, n - 1), EntrySize(SizeWord(buf, Walk(buf, idx, n))))
  }

  /** Round `n + 1` is taken: the entry its size word announces still fits. */
  predicate ForwardGuard(buf: seq<byte>, idx: nat, n: nat, room: nat)
    requires |buf| == LOG_SIZE && idx < LOG_SIZE && idx % 4 == 0
  {
    Walk(buf, idx, n + 1) % 4 == 0 && ForwardSize(buf, idx, n + 1) <= room
  }

  /** What keeps the loop inside the entries `q` stored from `idx` on: it runs out of room among them, or the
      stale word behind the newest one does not fit either. */
  ghost predicate ForwardStops(buf: seq<byte>, idx: nat, q: seq<Entry>, room: nat)
    requires Holds(buf, idx, q)
  {
    || room < Total(q)
    || Add32(Total(q), EntrySize(EndWord(buf, idx, q))) > room
  }

  ghost function EndWord(buf: seq<byte>, idx: nat, q: seq<Entry>): u32
    requires Holds(buf, idx, q)
  {
    EndAligned(buf, idx, q);
    SizeWord(buf, At(idx, Total(q)))
  }

  lemma EndAligned(buf: seq<byte>, idx: nat, q: seq<Entry>)
    requires Holds(buf, idx, q)
    ensures At(idx, Total(q)) % 4 == 0
  {
    WalkFindsEntry(buf, idx, q, |q|);
    assert q[..|q|] == q;
  }

  /** The rounds over stored entries count those entries. */
  lemma {:induction false} ForwardCounts(buf: seq<byte>, idx: nat, q: seq<Entry>, n: nat)
    requires Holds(buf, idx, q) && n < |q|
    ensures Walk(buf, idx, n) % 4 == 0
    ensures ForwardSize(buf, idx, n) == Total(q[..n + 1])
  {
    SizeAt(buf, idx, q, n);
    PrefixTotal(q, n);
    if n == 0 {
      assert q[..0] == [];
    } else {
      ForwardCounts(buf, idx, q, n - 1);
    }
  }

  /** The size word met after `n` steps is that of entry `n`. */
  lemma SizeAt(buf: seq<byte>, idx: nat, q: seq<Entry>, n: nat)
    requires Holds(buf, idx, q) && n < |q|
    ensures Walk(buf, idx, n) % 4 == 0 && EntrySize(SizeWord(buf, Walk(buf, idx, n))) == |q[n]|
  {
    WalkFindsEntry(buf, idx, q, n);
    HoldsTail(buf, Walk(buf, idx, n), q[n..]);
  }

  /** A round onto a stored entry is taken exactly when that entry fits too. */
  lemma GuardOnEntry(buf: seq<byte>, idx: nat, q: seq<Entry>, room: nat, n: nat)
    requires Holds(buf, idx, q) && n + 1 < |q|
    ensures ForwardGuard(buf, idx, n, room) <==> Total(q[..n + 2]) <= room
  {
    ForwardCounts(buf, idx, q, n + 1);
  }

  /** The round onto the word behind the newest entry is taken exactly when what it announces fits too. */
  lemma GuardBehind(buf: seq<byte>, idx: nat, q: seq<Entry>, room: nat)
    requires Holds(buf, idx, q) && q != []
    ensures ForwardGuard(buf, idx, |q| - 1, room) <==> Add32(Total(q), EntrySize(EndWord(buf, idx, q))) <= room
  {
    ForwardCounts(buf, idx, q, |q| - 1);
    WalkFindsEntry(buf, idx, q, |q|);
    EndAligned(buf, idx, q);
    assert q[..|q|] == q;
  }

  /** The loop counts past the newest entry exactly when room is left and the stale word there fits it. */
  lemma ForwardOverrunsExactly(buf: seq<byte>, idx: nat, q: seq<Entry>, room: nat)
    requires Holds(buf, idx, q) && q != [] && |q[0]| <= room
    ensures (forall n :: 0 <= n < |q| ==> ForwardGuard(buf, idx, n, room)) <==> !ForwardStops(buf, idx, q, room)
  {
    var last := |q| - 1;
    GuardBehind(buf, idx, q, room);
    assert q[..|q|] == q;
    if room >= Total(q) {
      forall n | 0 <= n < last
        ensures ForwardGuard(buf, idx, n, room)
      {
        GuardOnEntry(buf, idx, q, room, n);
        PrefixTotal(q, n + 1);
      }
    } else if last > 0 {
      GuardOnEntry(buf, idx, q, room, last - 1);
      assert !ForwardGuard(buf, idx, last - 1, room);
    } else {
      SingleRun(q);
    }
  }

  lemma SingleRun(q: seq<Entry>)
    requires |q| == 1
    ensures Total(q) == |q[0]|
  {
    assert q == [q[0]];
    SingleTotal(q[0]);
  }

  /** Where the loop stays among the stored entries, its rounds are exactly those of the longest run. */
  lemma GuardsOfRun(buf: seq<byte>, idx: nat, q: seq<Entry>, room: nat)
    requires Holds(buf, idx, q) && q != [] && |q[0]| <= room && ForwardStops(buf, idx, q, room)
    ensures forall m :: 0 <= m < LongestRun(q, room) - 1 ==> ForwardGuard(buf, idx, m, room)
    ensures LongestRun(q, room) > 0 && !ForwardGuard(buf, idx, LongestRun(q, room) - 1, room)
  {
    var items := LongestRun(q, room);
    LongestRunIsLongest(q, room);
    forall m | 0 <= m < items - 1
      ensures ForwardGuard(buf, idx, m, room)
    {
      GuardOnEntry(buf, idx, q, room, m);
      PrefixFits(q, m + 2, items);
    }
    if items < |q| {
      GuardOnEntry(buf, idx, q, room, items - 1);
    } else {
      GuardBehind(buf, idx, q, room);
      assert q[..items] == q;
    }
  }

  /** Two lines of no content on a fresh log, and a request for 48 bytes from the second: the zero word behind
      it passes for the size word of a third entry, and the loop counts it. */
  lemma ForwardOverrunExample(line: Line, e0: Entry, e1: Entry)
    requires line.size == 0 && e0 == Format(0, line) && e1 == Format(1, line)
    ensures |e0| == |e1| == LOG_OVERHEAD
    ensures var zeros: seq<byte> := seq(LOG_SIZE, _ => 0);
            var buf := Written(Written(zeros, 0, e0), LOG_OVERHEAD, e1);
            var l := Run(EMPTY_LOG, [Add(line, true), Add(line, true)]);
            && l.entries == [e0, e1] && l.stored == 48 && Holds(buf, 0, l.entries)
            && Holds(buf, LOG_OVERHEAD, [e1]) && !ForwardStops(buf, LOG_OVERHEAD, [e1], 48)
  {
    TwoAdds(EMPTY_LOG, line, 0, 1, e0, e1);
    TwoEntriesHeld(e0, e1);
  }

  lemma TwoEntriesHeld(e0: Entry, e1: Entry)
    requires WellFormed(e0) && WellFormed(e1) && |e0| == |e1| == LOG_OVERHEAD
    ensures var zeros: seq<byte> := seq(LOG_SIZE, _ => 0);
            var buf := Written(Written(zeros, 0, e0), LOG_OVERHEAD, e1);
            && Holds(buf, 0, [e0, e1])
            && Holds(buf, LOG_OVERHEAD, [e1]) && !ForwardStops(buf, LOG_OVERHEAD, [e1], 48)
  {
    var zeros: seq<byte> := seq(LOG_SIZE, _ => 0);
    var buf0 := Written(zeros, 0, e0);
    var buf := Written(buf0, LOG_OVERHEAD, e1);
    assert Holds(zeros, 0, []) by {
      assert Arc(zeros, 0, 0) == [];
    }
    AppendHolds(zeros, 0, [], e0);
    assert [] + [e0] == [e0];
    SingleTotal(e0);
    AppendHolds(buf0, 0, [e0], e1);
    assert [e0] + [e1] == [e0, e1];
    HoldsTail(buf, 0, [e0, e1]);
    assert [e0, e1][1..] == [e1];
    SingleTotal(e1);
    ZeroWord(zeros, e0, e1);
  }

  lemma ZeroWord(zeros: seq<byte>, e0: Entry, e1: Entry)
    requires |zeros| == LOG_SIZE && (forall i :: 0 <= i < LOG_SIZE ==> zeros[i] == 0)
    requires |e0| == |e1| == LOG_OVERHEAD
    ensures SizeWord(Written(Written(zeros, 0, e0), LOG_OVERHEAD, e1), 48) == 0
  {
    var buf := Written(Written(zeros, 0, e0), LOG_OVERHEAD, e1);
    assert buf[64] == 0 && buf[65] == 0 && buf[66] == 0 && buf[67] == 0;
  }

  // ---- When the loop ends

  predicate Starts(buf: seq<byte>, idx: nat, room: nat) {
    && |buf| == LOG_SIZE && idx < LOG_SIZE && idx % 4 == 0 && room <= LOG_SIZE
    && ForwardSize(buf, idx, 0) <= room
  }

  ghost predicate GuardsBefore(buf: seq<byte>, idx: nat, room: nat, n: nat)
    requires Starts(buf, idx, room)
  {
    forall m: nat :: m < n ==> ForwardGuard(buf, idx, m, room)
  }

  /** Round `n + 1` is the first one not taken, because the entry announced there does not fit. */
  ghost predicate EndsAt(buf: seq<byte>, idx: nat, room: nat, n: nat)
    requires Starts(buf, idx, room)
  {
    && GuardsBefore(buf, idx, room, n)
    && Walk(buf, idx, n + 1) % 4 == 0 && ForwardSize(buf, idx, n + 1) > room
  }

  /** The size words led to an index that is not a multiple of four. */
  ghost predicate StraysAt(buf: seq<byte>, idx: nat, room: nat, n: nat)
    requires Starts(buf, idx, room)
  {
    GuardsBefore(buf, idx, room, n) && Walk(buf, idx, n + 1) % 4 != 0
  }

  ghost predicate LoopEnds(buf: seq<byte>, idx: nat, room: nat)
    requires Starts(buf, idx, room)
  {
    exists n: nat :: EndsAt(buf, idx, room, n)
  }

  ghost predicate RunsForever(buf: seq<byte>, idx: nat, room: nat)
    requires Starts(buf, idx, room)
  {
    forall n: nat :: ForwardGuard(buf, idx, n, room)
  }

  /** The loop ends at most once. */
  lemma EndUnique(buf: seq<byte>, idx: nat, room: nat, m: nat, n: nat)
    requires Starts(buf, idx, room) && EndsAt(buf, idx, room, m) && EndsAt(buf, idx, room, n)
    ensures m == n
  {
    assert !ForwardGuard(buf, idx, m, room) && !ForwardGuard(buf, idx, n, room);
  }

  /** Among stored entries the loop ends with the longest run. */
  lemma LiveLoopEnds(buf: seq<byte>, idx: nat, q: seq<Entry>, room: nat)
    requires Holds(buf, idx, q) && q != [] && |q[0]| <= room <= LOG_SIZE && ForwardStops(buf, idx, q, room)
    ensures Starts(buf, idx, room) && LongestRun(q, room) > 0 && EndsAt(buf, idx, room, LongestRun(q, room) - 1)
  {
    FirstSize(buf, idx, q);
    GuardsOfRun(buf, idx, q, room);
    RunEndAligned(buf, idx, q, room);
  }

  lemma FirstSize(buf: seq<byte>, idx: nat, q: seq<Entry>)
    requires Holds(buf, idx, q) && q != []
    ensures ForwardSize(buf, idx, 0) == |q[0]| == Total(q[..1])
  {
    ForwardCounts(buf, idx, q, 0);
    PrefixTotal(q, 0);
    assert q[..0] == [];
  }

  lemma RunEndAligned(buf: seq<byte>, idx: nat, q: seq<Entry>, room: nat)
    requires Holds(buf, idx, q)
    ensures Walk(buf, idx, LongestRun(q, room)) % 4 == 0
  {
    LongestRunIsLongest(q, room);
    WalkFindsEntry(buf, idx, q, LongestRun(q, room));
  }

  /** One more step of the walk; an index that is not a multiple of four is never left. */
  lemma {:induction false} WalkLast(buf: seq<byte>, idx: nat, k: nat)
    requires |buf| == LOG_SIZE && idx < LOG_SIZE && idx % 4 == 0
    ensures var i := Walk(buf, idx, k);
            Walk(buf, idx, k + 1) == if i % 4 != 0 then i else NextIndex(buf, i)
    decreases k
  {
    var next := NextIndex(buf, idx);
    if k == 0 {
      assert Walk(buf, idx, 1) == next;
    } else if next % 4 == 0 {
      WalkLast(buf, next, k - 1);
    }
  }

  lemma WrapKeepsIndex(a: u32, b: u32)
    ensures Add32(a, b) % LOG_SIZE == (a + b) % LOG_SIZE
  {
    assert WORD_SPAN == LOG_SIZE * 0x40_0000;
  }

  lemma SumIndex(idx: nat, a: nat, b: nat)
    ensures ((idx + a) % LOG_SIZE + b) % LOG_SIZE == (idx + a + b) % LOG_SIZE
  {
  }

  lemma SizesIndex(idx: nat, s: u32, e: u32, at: nat)
    requires at == (idx + s) % LOG_SIZE
    ensures Add32(at, e) % LOG_SIZE == (idx + Add32(s, e)) % LOG_SIZE
  {
    WrapKeepsIndex(at, e);
    SumIndex(idx, s, e);
    WrappedSum(idx, s, e);
  }

  lemma WrappedSum(idx: nat, s: u32, e: u32)
    ensures (idx + Add32(s, e)) % LOG_SIZE == (idx + s + e) % LOG_SIZE
  {
    if s + e >= WORD_SPAN {
      assert idx + s + e == idx + Add32(s, e) + LOG_SIZE * 0x40_0000;
    }
  }

  /** The counted size tells where the loop is: it is the whole state of the loop. */
  lemma {:induction false} IndexOfSize(buf: seq<byte>, idx: nat, n: nat)
    requires |buf| == LOG_SIZE && idx < LOG_SIZE && idx % 4 == 0 && Walk(buf, idx, n) % 4 == 0
    ensures Walk(buf, idx, n + 1) == (idx + ForwardSize(buf, idx, n)) % LOG_SIZE
    decreases n
  {
    WalkLast(buf, idx, n);
    var e := EntrySize(SizeWord(buf, Walk(buf, idx, n)));
    if n == 0 {
      WrapKeepsIndex(idx, e);
    } else {
      WalkLast(buf, idx, n - 1);
      IndexOfSize(buf, idx, n - 1);
      SizesIndex(idx, ForwardSize(buf, idx, n - 1), e, Walk(buf, idx, n));
    }
  }

  /** Two rounds that stand at the same counted size, and so at the same index. */
  predicate Alike(buf: seq<byte>, idx: nat, m: nat, n: nat)
    requires |buf| == LOG_SIZE && idx < LOG_SIZE && idx % 4 == 0
  {
    && Walk(buf, idx, m) % 4 == 0 && Walk(buf, idx, n) % 4 == 0
    && ForwardSize(buf, idx, m) == ForwardSize(buf, idx, n)
  }

  /** Equal counted sizes lead to the same next round. */
  lemma SameNext(buf: seq<byte>, idx: nat, room: nat, m: nat, n: nat)
    requires |buf| == LOG_SIZE && idx < LOG_SIZE && idx % 4 == 0 && Alike(buf, idx, m, n)
    ensures ForwardGuard(buf, idx, m, room) == ForwardGuard(buf, idx, n, room)
    ensures ForwardGuard(buf, idx, m, room) ==> Alike(buf, idx, m + 1, n + 1)
  {
    IndexOfSize(buf, idx, m);
    IndexOfSize(buf, idx, n);
  }

  lemma StepAligned(buf: seq<byte>, idx: nat, n: nat)
    requires |buf| == LOG_SIZE && idx < LOG_SIZE && idx % 4 == 0 && Walk(buf, idx, n + 1) % 4 == 0
    ensures Walk(buf, idx, n) % 4 == 0
  {
    WalkLast(buf, idx, n);
  }

  /** A counted size comes again, with every round up to there taken. */
  ghost predicate Repeats(buf: seq<byte>, idx: nat, room: nat, i: nat, j: nat)
    requires Starts(buf, idx, room)
  {
    i < j && ForwardSize(buf, idx, i) == ForwardSize(buf, idx, j) && GuardsBefore(buf, idx, room, j)
  }

  lemma GuardIsAligned(buf: seq<byte>, idx: nat, room: nat, n: nat)
    requires Starts(buf, idx, room) && ForwardGuard(buf, idx, n, room)
    ensures Alike(buf, idx, n, n) && Walk(buf, idx, n + 1) % 4 == 0
  {
    StepAligned(buf, idx, n);
  }

  lemma AlikeJoins(buf: seq<byte>, idx: nat, i: nat, j: nat, n: nat)
    requires |buf| == LOG_SIZE && idx < LOG_SIZE && idx % 4 == 0 && Alike(buf, idx, i, j) && Alike(buf, idx, j, n)
    ensures Alike(buf, idx, i, n)
  {
  }

  lemma RepeatIsAlike(buf: seq<byte>, idx: nat, room: nat, i: nat, j: nat)
    requires Starts(buf, idx, room) && Repeats(buf, idx, room, i, j)
    ensures Alike(buf, idx, i, j)
  {
    assert ForwardGuard(buf, idx, i, room) && ForwardGuard(buf, idx, j - 1, room);
    GuardIsAligned(buf, idx, room, i);
    GuardIsAligned(buf, idx, room, j - 1);
  }

  /** Some round before `j` is like round `n`. */
  ghost predicate LikeEarlier(buf: seq<byte>, idx: nat, j: nat, n: nat)
    requires |buf| == LOG_SIZE && idx < LOG_SIZE && idx % 4 == 0
  {
    exists m: nat :: m < j && Alike(buf, idx, m, n)
  }

  /** After a repetition every round is like one of those before it. */
  lemma {:induction false} RepeatGoesOn(buf: seq<byte>, idx: nat, room: nat, i: nat, j: nat, n: nat)
    requires Starts(buf, idx, room) && i < j && Alike(buf, idx, i, j) && GuardsBefore(buf, idx, room, j)
    ensures LikeEarlier(buf, idx, j, n)
    decreases n
  {
    if n < j {
      assert ForwardGuard(buf, idx, n, room);
      GuardIsAligned(buf, idx, room, n);
    } else {
      RepeatGoesOn(buf, idx, room, i, j, n - 1);
      var m: nat :| m < j && Alike(buf, idx, m, n - 1);
      NextIsLikeEarlier(buf, idx, room, i, j, m, n - 1);
    }
  }

  lemma NextIsLikeEarlier(buf: seq<byte>, idx: nat, room: nat, i: nat, j: nat, m: nat, n: nat)
    requires Starts(buf, idx, room) && i < j && Alike(buf, idx, i, j) && GuardsBefore(buf, idx, room, j)
    requires m < j && Alike(buf, idx, m, n)
    ensures LikeEarlier(buf, idx, j, n + 1)
  {
    assert ForwardGuard(buf, idx, m, room);
    SameNext(buf, idx, room, m, n);
    if m + 1 < j {
      assert Alike(buf, idx, m + 1, n + 1);
    } else {
      AlikeJoins(buf, idx, i, j, n + 1);
    }
  }

  lemma RepeatRunsForever(buf: seq<byte>, idx: nat, room: nat, i: nat, j: nat, n: nat)
    requires Starts(buf, idx, room) && Repeats(buf, idx, room, i, j)
    ensures ForwardGuard(buf, idx, n, room)
  {
    RepeatIsAlike(buf, idx, room, i, j);
    RepeatGoesOn(buf, idx, room, i, j, n);
    var m: nat :| m < j && Alike(buf, idx, m, n);
    SameNext(buf, idx, room, m, n);
    assert ForwardGuard(buf, idx, m, room);
  }

  /** There are as many counted sizes as multiples of four up to the buffer's size. */
  const SIZES: nat := 257

  /** Taken rounds count multiples of four that fit the room. */
  lemma TakenSize(buf: seq<byte>, idx: nat, room: nat, k: nat)
    requires Starts(buf, idx, room) && GuardsBefore(buf, idx, room, k) && Walk(buf, idx, k + 1) % 4 == 0
    ensures ForwardSize(buf, idx, k) <= room && ForwardSize(buf, idx, k) % 4 == 0
  {
    StepAligned(buf, idx, k);
    IndexOfSize(buf, idx, k);
    MultipleOfFour(idx, ForwardSize(buf, idx, k));
    if k > 0 {
      assert ForwardGuard(buf, idx, k - 1, room);
    }
  }

  lemma MultipleOfFour(idx: nat, x: nat)
    requires idx % 4 == 0 && (idx + x) % LOG_SIZE % 4 == 0
    ensures x % 4 == 0
  {
    var i, k := idx / 4, (idx + x) / LOG_SIZE;
    var r := (idx + x) % LOG_SIZE / 4;
    assert idx == 4 * i && idx + x == LOG_SIZE * k + 4 * r;
    assert x == 4 * (256 * k + r - i);
  }

  /** More rounds than there are sizes repeat one. */
  lemma SizesRepeat(buf: seq<byte>, idx: nat, room: nat) returns (i: nat, j: nat)
    requires Starts(buf, idx, room) && GuardsBefore(buf, idx, room, SIZES)
    requires Walk(buf, idx, SIZES + 1) % 4 == 0
    ensures j <= SIZES && Repeats(buf, idx, room, i, j)
  {
    var quarters: seq<u32> := seq(SIZES + 1, k requires 0 <= k <= SIZES => ForwardSize(buf, idx, k) / 4);
    forall k: nat | k <= SIZES
      ensures ForwardSize(buf, idx, k) <= LOG_SIZE && ForwardSize(buf, idx, k) % 4 == 0
    {
      if k < SIZES {
        assert ForwardGuard(buf, idx, k, room);
      }
      TakenSize(buf, idx, room, k);
    }
    if NoDuplicates(quarters) {
      DistinctIndicesFit(quarters, SIZES);
    }
    i, j :| 0 <= i < j < |quarters| && quarters[i] == quarters[j];
  }

  /** The loop never ends if and only if a counted size comes again among the first 257 rounds, all of them
      taken. */
  lemma NeverEndsExactly(buf: seq<byte>, idx: nat, room: nat)
    requires Starts(buf, idx, room)
    ensures RunsForever(buf, idx, room) <==> exists i: nat, j: nat :: j <= SIZES && Repeats(buf, idx, room, i, j)
  {
    if RunsForever(buf, idx, room) {
      assert ForwardGuard(buf, idx, SIZES, room);
      var i, j := SizesRepeat(buf, idx, room);
    }
    forall i: nat, j: nat, n: nat | Repeats(buf, idx, room, i, j)
      ensures ForwardGuard(buf, idx, n, room)
    {
      RepeatRunsForever(buf, idx, room, i, j, n);
    }
  }

  /** A loop that ends takes at most 256 rounds. */
  lemma EndsSoon(buf: seq<byte>, idx: nat, room: nat, n: nat)
    requires Starts(buf, idx, room) && EndsAt(buf, idx, room, n)
    ensures n < SIZES
  {
    if n >= SIZES {
      if n > SIZES {
        assert ForwardGuard(buf, idx, SIZES, room);
      }
      var i, j := SizesRepeat(buf, idx, room);
      RepeatRunsForever(buf, idx, room, i, j, n);
      assert false;
    }
  }

  /** The three fates of the loop exclude each other, and one of them comes true. */
  lemma OneFate(buf: seq<byte>, idx: nat, room: nat)
    requires Starts(buf, idx, room)
    ensures LoopEnds(buf, idx, room) || RunsForever(buf, idx, room) || exists n: nat :: StraysAt(buf, idx, room, n)
    ensures RunsForever(buf, idx, room) ==> !LoopEnds(buf, idx, room) && !exists n: nat :: StraysAt(buf, idx, room, n)
    ensures LoopEnds(buf, idx, room) ==> !exists n: nat :: StraysAt(buf, idx, room, n)
  {
    forall n: nat | EndsAt(buf, idx, room, n) || StraysAt(buf, idx, room, n)
      ensures !ForwardGuard(buf, idx, n, room)
    {
    }
    if !RunsForever(buf, idx, room) {
      var n: nat :| !ForwardGuard(buf, idx, n, room);
      var first := FirstRefused(buf, idx, room, n);
      assert EndsAt(buf, idx, room, first) || StraysAt(buf, idx, room, first);
    }
    forall m: nat, n: nat | EndsAt(buf, idx, room, m) && StraysAt(buf, idx, room, n)
      ensures m == n
    {
      assert !ForwardGuard(buf, idx, m, room) && !ForwardGuard(buf, idx, n, room);
    }
  }

  lemma {:induction false} FirstRefused(buf: seq<byte>, idx: nat, room: nat, n: nat) returns (first: nat)
    requires Starts(buf, idx, room) && !ForwardGuard(buf, idx, n, room)
    ensures !ForwardGuard(buf, idx, first, room) && GuardsBefore(buf, idx, room, first)
    decreases n
  {
    if earlier: nat :| earlier < n && !ForwardGuard(buf, idx, earlier, room) {
      first := FirstRefused(buf, idx, room, earlier);
    } else {
      first := n;
    }
  }

  /** The size announced for round `n + 1` is not 0 and does not wrap around. */
  predicate Grows(buf: seq<byte>, idx: nat, n: nat)
    requires |buf| == LOG_SIZE && idx < LOG_SIZE && idx % 4 == 0
  {
    Walk(buf, idx, n + 1) % 4 == 0 ==>
      0 < EntrySize(SizeWord(buf, Walk(buf, idx, n + 1))) < WORD_SPAN - ForwardSize(buf, idx, n)
  }

  lemma {:induction false} SizesGrow(buf: seq<byte>, idx: nat, room: nat, i: nat, j: nat)
    requires Starts(buf, idx, room) && i < j && GuardsBefore(buf, idx, room, j)
    requires forall n: nat :: n < j ==> Grows(buf, idx, n)
    ensures ForwardSize(buf, idx, i) < ForwardSize(buf, idx, j)
    decreases j
  {
    assert ForwardGuard(buf, idx, j - 1, room) && Grows(buf, idx, j - 1);
    if i == j - 1 {
    } else {
      SizesGrow(buf, idx, room, i, j - 1);
    }
  }

  /** The loop does not run forever when no size it is announced is 0 or wraps around. */
  lemma GrowingLoopEnds(buf: seq<byte>, idx: nat, room: nat)
    requires Starts(buf, idx, room) && forall n: nat :: GuardsBefore(buf, idx, room, n) ==> Grows(buf, idx, n)
    ensures !RunsForever(buf, idx, room)
  {
    if RunsForever(buf, idx, room) {
      NeverEndsExactly(buf, idx, room);
      var i: nat, j: nat :| j <= SIZES && Repeats(buf, idx, room, i, j);
      forall n: nat
        ensures Grows(buf, idx, n)
      {
        assert GuardsBefore(buf, idx, room, n);
      }
      SizesGrow(buf, idx, room, i, j);
      assert false;
    }
  }

  // ---- A log on which it never ends

  /** The stale bytes of an erased line can announce an entry of size 0. A line `a` of 24 bytes that ends with
      0xFFFF_FFE8 is added to a fresh log, everything is deleted, and a line of no content is added: a request
      for 24 bytes or more from the first entry is counted forever. */
  lemma NeverEndsExample(a: Line, z: Line, e0: Entry, e1: Entry)
    requires a.size == 24 && a.data[20..24] == [0xE8, 0xFF, 0xFF, 0xFF] && z.size == 0
    requires e0 == Format(0, a) && e1 == Format(1, z)
    ensures |e0| == 48 && |e1| == LOG_OVERHEAD
    ensures var zeros: seq<byte> := seq(LOG_SIZE, _ => 0);
            var buf := Written(Written(zeros, 0, e0), 0, e1);
            var l := Run(EMPTY_LOG, [Add(a, true), Delete(1)] + [Add(z, true)]);
            && l.entries == [e1] && l.stored == 24 && Holds(buf, 0, l.entries)
            && Starts(buf, 0, 24) && RunsForever(buf, 0, 24)
  {
    ErasedRun(EMPTY_LOG, a, z, 0, e0, e1);
    var zeros: seq<byte> := seq(LOG_SIZE, _ => 0);
    var buf0 := Written(zeros, 0, e0);
    var buf := Written(buf0, 0, e1);
    OneEntryHeld(buf0, e1);
    LineBytes(0, a, e0);
    StaleWord(zeros, a.data, e0, e1);
    ZeroSizeRepeats(buf, e1);
  }

  lemma ErasedRun(l: Log, a: Line, z: Line, t: nat, e0: Entry, e1: Entry)
    requires Accounted(l) && l.entries == [] && |l.history| == t && t + 1 < TWO64
    requires a.size == 24 && z.size == 0 && e0 == Format(t, a) && e1 == Format(t + 1, z)
    ensures |e0| == 48 && |e1| == LOG_OVERHEAD && WellFormed(e1)
    ensures var l' := Run(l, [Add(a, true), Delete(1)] + [Add(z, true)]);
            l'.entries == [e1] && l'.stored == 24
  {
    FirstAdd(l, a, t, e0);
    var l1 := Apply(l, Add(a, true));
    Erased(l1);
    FirstAdd(Apply(l1, Delete(1)), z, t + 1, e1);
    RunTwo(l, Add(a, true), Delete(1));
    RunLast(l, [Add(a, true), Delete(1)], Add(z, true));
  }

  lemma Erased(l: Log)
    requires Accounted(l) && |l.entries| == 1
    ensures Apply(l, Delete(1)) == Log([], 0, l.history)
  {
  }

  lemma OneEntryHeld(buf0: seq<byte>, e: Entry)
    requires |buf0| == LOG_SIZE && WellFormed(e)
    ensures Holds(Written(buf0, 0, e), 0, [e])
  {
    assert Arc(buf0, 0, 0) == [];
    AppendHolds(buf0, 0, [], e);
    assert [] + [e] == [e];
  }

  lemma StaleWord(zeros: seq<byte>, data: seq<byte>, e0: Entry, e1: Entry)
    requires |zeros| == LOG_SIZE && |e0| == 48 && |e1| == LOG_OVERHEAD
    requires |data| == 24 && e0[20..44] == data && data[20..24] == [0xE8, 0xFF, 0xFF, 0xFF]
    ensures SizeWord(Written(Written(zeros, 0, e0), 0, e1), LOG_OVERHEAD) == 0xFFFF_FFE8
  {
    var buf := Written(Written(zeros, 0, e0), 0, e1);
    SliceOfSlice(e0, data);
    StaleBytes(zeros, e0, e1, buf);
    WordOfBytes(buf, 40);
  }

  lemma SliceOfSlice(e: Entry, data: seq<byte>)
    requires |e| == 48 && |data| == 24 && e[20..44] == data
    ensures e[40..44] == data[20..24]
  {
    assert forall i :: 0 <= i < 24 ==> e[20..44][i] == e[20 + i];
  }

  lemma WordOfBytes(s: seq<byte>, p: nat)
    requires p + 4 <= |s| && s[p..p + 4] == [0xE8, 0xFF, 0xFF, 0xFF]
    ensures ReadLe32(s, p) == 0xFFFF_FFE8
  {
    var w := s[p..p + 4];
    assert s[p] == w[0] && s[p + 1] == w[1] && s[p + 2] == w[2] && s[p + 3] == w[3];
  }

  /** The bytes of a line follow the 20 bytes of fixed fields. */
  lemma LineBytes(t: nat, a: Line, e: Entry)
    requires t < TWO64 && e == Format(t, a)
    ensures |e| == a.size + LOG_OVERHEAD && e[LOG_FIXED_FIELD_SIZE..LOG_FIXED_FIELD_SIZE + a.size] == a.data
  {
    var head, tail := Le64(t) + Le32(0) + Le32(DUMMY_PARTITION_ID) + Le32(a.size), a.data + MAC;
    assert |head| == 20;
    assert e == head + tail by {
      Associates(Le64(t) + Le32(0) + Le32(DUMMY_PARTITION_ID), Le32(a.size), a.data, MAC);
    }
    Middle(head, a.data, MAC);
  }

  lemma Associates(p: seq<byte>, q: seq<byte>, r: seq<byte>, s: seq<byte>)
    ensures p + (q + r) + s == (p + q) + (r + s)
  {
  }

  lemma Middle(p: seq<byte>, q: seq<byte>, r: seq<byte>)
    ensures (p + (q + r))[|p|..|p| + |q|] == q
  {
  }

  lemma StaleBytes(zeros: seq<byte>, e0: Entry, e1: Entry, buf: seq<byte>)
    requires |zeros| == LOG_SIZE && |e0| == 48 && |e1| == LOG_OVERHEAD
    requires buf == Written(Written(zeros, 0, e0), 0, e1)
    ensures buf[40..44] == e0[40..44]
  {
    assert forall i :: 40 <= i < 44 ==> buf[i] == e0[i];
  }

  /** One entry, and behind it a word that announces an entry of size 0. */
  lemma ZeroSizeRepeats(buf: seq<byte>, e: Entry)
    requires Holds(buf, 0, [e]) && |e| == LOG_OVERHEAD && SizeWord(buf, LOG_OVERHEAD) == 0xFFFF_FFE8
    ensures Starts(buf, 0, 24) && RunsForever(buf, 0, 24)
  {
    HoldsTail(buf, 0, [e]);
    assert Walk(buf, 0, 1) == LOG_OVERHEAD;
    assert ForwardSize(buf, 0, 0) == 24 && ForwardSize(buf, 0, 1) == 24;
    assert ForwardGuard(buf, 0, 0, 24);
    assert Repeats(buf, 0, 24, 0, 1);
    NeverEndsExactly(buf, 0, 24);
  }
}
