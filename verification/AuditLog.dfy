/** The audit log service: state variables and byte buffers updated in place. */
module AuditLog {
  import opened Words
  import opened AuditRing
  import opened AuditQueue
  import opened AuditForward

  datatype LogErr = LogSuccess | LogFailure

  const TFM_LOG_READ_RECENT: int := -1

  /** Stores `bytes` in `dst` from `off` on. */
  method StoreBytes(dst: array<byte>, off: nat, bytes: seq<byte>)
    requires off + |bytes| <= dst.Length
    modifies dst
    ensures dst[..off + |bytes|] == old(dst[..off]) + bytes
  {
    var i := 0;
    while i < |bytes|
      invariant 0 <= i <= |bytes|
      invariant dst[..off + i] == old(dst[..off]) + bytes[..i]
    {
      dst[off + i] := bytes[i];
      i := i + 1;
    }
    assert bytes[..i] == bytes;
  }

  /** `last` is where the newest of the entries stored from `first` on starts. */
  ghost predicate IsLast(first: nat, last: nat, q: seq<Entry>)
    requires q != []
  {
    && first < LOG_SIZE && Total(q[..|q| - 1]) <= LOG_SIZE
    && last == At(first, Total(q[..|q| - 1]))
  }

  lemma LastAfterDrop(first: nat, last: nat, q: seq<Entry>)
    requires |q| >= 2 && IsLast(first, last, q) && |q[0]| <= LOG_SIZE
    ensures IsLast(At(first, |q[0]|), last, q[1..])
  {
    var n := |q| - 1;
    assert q[..n] == [q[0]] + q[1..][..n - 1];
    assert Total(q[..n]) == |q[0]| + Total(q[1..][..n - 1]) by {
      assert q[..n][1..] == q[1..][..n - 1];
    }
    AtAt(first, |q[0]|, Total(q[1..][..n - 1]));
  }

  /** The entry after the newest one starts where the stored bytes end. */
  lemma NextOfLast(buf: seq<byte>, first: nat, last: nat, q: seq<Entry>)
    requires Holds(buf, first, q) && q != [] && IsLast(first, last, q)
    ensures last < LOG_SIZE && last % 4 == 0
    ensures NextIndex(buf, last) == At(first, Total(q))
  {
    var n := |q| - 1;
    WalkFindsEntry(buf, first, q, n);
    HoldsTail(buf, last, q[n..]);
    PrefixTotal(q, n);
    assert q[..n + 1] == q;
    AtAt(first, Total(q[..n]), |q[n]|);
  }

  lemma NextStamp(n: nat)
    ensures (n % TWO64 + 1) % TWO64 == (n + 1) % TWO64
  {
    var q, r := n / TWO64, n % TWO64;
    assert n == q * TWO64 + r;
    if r + 1 < TWO64 {
      assert (n + 1) / TWO64 == q;
    } else {
      assert n + 1 == (q + 1) * TWO64;
    }
  }

  lemma RunFits(q: seq<Entry>, size: nat)
    ensures LongestRun(q, size) <= |q| && Total(q[..LongestRun(q, size)]) <= size
  {
    LongestRunIsLongest(q, size);
  }

  /** The first entries stored from `from` on are the bytes from there. */
  lemma ArcOfRun(buf: seq<byte>, from: nat, q: seq<Entry>, m: nat)
    requires Holds(buf, from, q) && m <= |q|
    ensures Total(q[..m]) <= LOG_SIZE && Arc(buf, from, Total(q[..m])) == Flat(q[..m])
  {
    FlatSplit(q, m);
    assert Arc(buf, from, Total(q))[..Total(q[..m])] == Arc(buf, from, Total(q[..m]));
  }

  lemma ArcPrefix(buf: seq<byte>, from: nat, m: nat, n: nat)
    requires |buf| == LOG_SIZE && from < LOG_SIZE && m <= n <= LOG_SIZE
    ensures Arc(buf, from, m) <= Arc(buf, from, n)
  {
  }

  /** Where the size words of a walk over `tail` are read: at the starts of its entries, in order, and at most
      once behind the last. */
  ghost predicate EntryStarts(probed: seq<nat>, from: nat, tail: seq<Entry>) {
    && from < LOG_SIZE && |probed| <= |tail| + 1
    && forall k :: 0 <= k < |probed| ==> StartsEntry(probed[k], from, tail, k)
  }

  ghost predicate StartsEntry(idx: nat, from: nat, tail: seq<Entry>, k: nat)
    requires from < LOG_SIZE
  {
    k <= |tail| && Total(tail[..k]) <= LOG_SIZE && idx == At(from, Total(tail[..k]))
  }

  /** The indices of a walk by size words, in order. */
  ghost predicate Probed(buf: seq<byte>, from: nat, probed: seq<nat>)
    requires |buf| == LOG_SIZE && from < LOG_SIZE && from % 4 == 0
  {
    forall k: nat {:trigger ProbedAt(buf, from, probed, k)} :: k < |probed| ==> ProbedAt(buf, from, probed, k)
  }

  ghost predicate ProbedAt(buf: seq<byte>, from: nat, probed: seq<nat>, k: nat)
    requires |buf| == LOG_SIZE && from < LOG_SIZE && from % 4 == 0
  {
    k < |probed| && probed[k] == Walk(buf, from, k)
  }

  lemma FirstProbes(buf: seq<byte>, from: nat, idx: nat)
    requires |buf| == LOG_SIZE && from < LOG_SIZE && from % 4 == 0 && idx == Walk(buf, from, 1)
    ensures Probed(buf, from, [from] + [idx])
  {
  }

  lemma ProbeMore(buf: seq<byte>, from: nat, probed: seq<nat>, idx: nat)
    requires |buf| == LOG_SIZE && from < LOG_SIZE && from % 4 == 0
    requires Probed(buf, from, probed) && idx == Walk(buf, from, |probed|)
    ensures Probed(buf, from, probed + [idx])
  {
    forall k: nat | k < |probed| + 1
      ensures ProbedAt(buf, from, probed + [idx], k)
    {
      if k < |probed| {
        assert ProbedAt(buf, from, probed, k);
      }
    }
  }

  /** What the loop from an index counts: nothing if the first entry does not fit, otherwise all it takes until
      the first entry announced that does not. */
  ghost predicate Tally(buf: seq<byte>, from: nat, room: nat, n: nat, items: nat)
    requires |buf| == LOG_SIZE && from < LOG_SIZE && from % 4 == 0 && room <= LOG_SIZE
  {
    if ForwardSize(buf, from, 0) > room then n == 0 && items == 0
    else items > 0 && EndsAt(buf, from, room, items - 1) && n == ForwardSize(buf, from, items - 1) <= room
  }

  /** The same, with where it reads size words. */
  ghost predicate Counted(buf: seq<byte>, from: nat, room: nat, n: nat, items: nat, probed: seq<nat>)
    requires |buf| == LOG_SIZE && from < LOG_SIZE && from % 4 == 0 && room <= LOG_SIZE
  {
    Tally(buf, from, room, n, items) && |probed| == items + 1 && Probed(buf, from, probed)
  }

  /** Where the loop stays among stored entries, it counts the longest run that fits. */
  lemma TallyLive(buf: seq<byte>, from: nat, tail: seq<Entry>, room: nat, n: nat, items: nat)
    requires Holds(buf, from, tail) && tail != [] && room <= LOG_SIZE && Tally(buf, from, room, n, items)
    requires |tail[0]| <= room ==> ForwardStops(buf, from, tail, room)
    ensures items == LongestRun(tail, room) <= |tail| && n == Total(tail[..items])
  {
    FirstSize(buf, from, tail);
    RunFits(tail, room);
    if |tail[0]| <= room {
      LiveTally(buf, from, tail, room, items);
      ForwardCounts(buf, from, tail, items - 1);
    } else {
      assert tail[..0] == [];
    }
  }

  lemma LiveTally(buf: seq<byte>, from: nat, tail: seq<Entry>, room: nat, items: nat)
    requires Holds(buf, from, tail) && tail != [] && |tail[0]| <= room <= LOG_SIZE && ForwardStops(buf, from, tail, room)
    requires Starts(buf, from, room) && items > 0 && EndsAt(buf, from, room, items - 1)
    ensures items == LongestRun(tail, room)
  {
    LiveLoopEnds(buf, from, tail, room);
    EndUnique(buf, from, room, items - 1, LongestRun(tail, room) - 1);
  }

  /** The size words it reads there are those of the entries, and of the one behind; a room smaller than what is
      stored keeps it to live ones. */
  lemma ProbedLive(buf: seq<byte>, from: nat, tail: seq<Entry>, room: nat, items: nat, probed: seq<nat>)
    requires Holds(buf, from, tail) && items == LongestRun(tail, room) <= |tail|
    requires |probed| == items + 1 && Probed(buf, from, probed)
    ensures EntryStarts(probed, from, tail) && (room < Total(tail) ==> |probed| <= |tail|)
  {
    RunFits(tail, room);
    assert tail[..|tail|] == tail;
    forall k | 0 <= k < |probed|
      ensures StartsEntry(probed[k], from, tail, k)
    {
      assert ProbedAt(buf, from, probed, k);
      WalkFindsEntry(buf, from, tail, k);
    }
  }

  /** The loop stands before round `n + 1`, not past the last one. */
  ghost predicate AtRound(buf: seq<byte>, from: nat, room: nat, last: nat, n: nat, idx: nat, stored: u32, next: u32,
                          probed: seq<nat>) {
    && Starts(buf, from, room) && EndsAt(buf, from, room, last) && n <= last
    && idx == Walk(buf, from, n + 1) && idx % 4 == 0
    && stored == ForwardSize(buf, from, n) <= room && next == EntrySize(SizeWord(buf, idx))
    && |probed| == n + 2 && Probed(buf, from, probed)
  }

  lemma FirstStep(buf: seq<byte>, from: nat, room: nat, last: nat)
    requires Starts(buf, from, room) && EndsAt(buf, from, room, last)
    ensures var idx := NextIndex(buf, from);
            && idx % 4 == 0
            && AtRound(buf, from, room, last, 0, idx, ForwardSize(buf, from, 0), EntrySize(SizeWord(buf, idx)),
                       [from] + [idx])
  {
    if last > 0 {
      assert ForwardGuard(buf, from, 0, room);
    }
    assert Walk(buf, from, 1) == NextIndex(buf, from);
    FirstProbes(buf, from, NextIndex(buf, from));
  }

  /** A round that is taken is not the last one, and leads to the next. */
  lemma NextRound(buf: seq<byte>, from: nat, room: nat, last: nat, n: nat, idx: nat, stored: u32, next: u32,
                  probed: seq<nat>)
    requires AtRound(buf, from, room, last, n, idx, stored, next, probed) && Add32(stored, next) <= room
    ensures n < last && NextIndex(buf, idx) % 4 == 0
    ensures AtRound(buf, from, room, last, n + 1, NextIndex(buf, idx), Add32(stored, next),
                    EntrySize(SizeWord(buf, NextIndex(buf, idx))), probed + [NextIndex(buf, idx)])
  {
    assert ForwardSize(buf, from, n + 1) == Add32(stored, next);
    NextAligned(buf, from, room, last, n);
    ProbeMore(buf, from, probed, NextIndex(buf, idx));
  }

  lemma NextAligned(buf: seq<byte>, from: nat, room: nat, last: nat, n: nat)
    requires Starts(buf, from, room) && EndsAt(buf, from, room, last) && n <= last
    requires Walk(buf, from, n + 1) % 4 == 0 && ForwardSize(buf, from, n + 1) <= room
    ensures n < last && Walk(buf, from, n + 2) == NextIndex(buf, Walk(buf, from, n + 1))
    ensures Walk(buf, from, n + 2) % 4 == 0
  {
    WalkLast(buf, from, n + 1);
    if n + 1 < last {
      assert ForwardGuard(buf, from, n + 1, room);
    }
  }

  /** The round that is not taken is the last one. */
  lemma LastRound(buf: seq<byte>, from: nat, room: nat, last: nat, n: nat, idx: nat, stored: u32, next: u32,
                  probed: seq<nat>)
    requires AtRound(buf, from, room, last, n, idx, stored, next, probed) && Add32(stored, next) > room
    ensures Counted(buf, from, room, stored, n + 1, probed)
  {
    assert !ForwardGuard(buf, from, n, room);
  }

  /** Where the loop of `READ_RECENT` stands after `k` rounds: `rest` is left, of recorded size `stored`. */
  ghost predicate Skipping(l: Log, size: nat, k: nat, rest: seq<Entry>, stored: nat, retrieved: nat) {
    && l.entries != [] && k <= |l.entries| && rest == l.entries[k..] && Total(l.entries) <= l.stored
    && stored == (if k == 0 then l.stored else Total(rest))
    && retrieved == (if size < stored then size else stored)
    && (k > 0 ==> size < l.stored && RecentSkip(l, size) == k + LongestSuffix(rest, size))
  }

  lemma SkipNext(l: Log, size: nat, k: nat, rest: seq<Entry>, stored: nat, retrieved: nat)
    requires Skipping(l, size, k, rest, stored, retrieved) && retrieved < stored
    ensures rest != []
    ensures var left := Total(rest[1..]);
            Skipping(l, size, k + 1, rest[1..], left, if left < retrieved then left else retrieved)
  {
  }

  /** When the loop ends, it has skipped what it should and kept the size of the rest. */
  lemma SkipEnds(l: Log, size: nat, k: nat, rest: seq<Entry>, stored: nat, retrieved: nat)
    requires Skipping(l, size, k, rest, stored, retrieved) && retrieved >= stored
    ensures RecentSkip(l, size) == k && retrieved == RecentSize(l, size) <= size
  {
  }

  /** Where the evicting loop stands: the entries `rest` are left, of recorded size `stored`. */
  ghost predicate Evicting(buf: seq<byte>, first: nat, last: nat, items: nat, stored: nat, rest: seq<Entry>,
                           need: nat, goal: (seq<Entry>, nat)) {
    && Holds(buf, first, rest) && items == |rest| && Total(rest) <= stored <= LOG_SIZE
    && (rest != [] ==> IsLast(first, last, rest))
    && Evicted(rest, stored, need) == goal
  }

  lemma EvictNext(buf: seq<byte>, first: nat, next: nat, last: nat, items: nat, stored: nat, rest: seq<Entry>,
                  need: nat, goal: (seq<Entry>, nat))
    requires Evicting(buf, first, last, items, stored, rest, need, goal) && rest != [] && need > LOG_SIZE - stored
    requires Holds(buf, next, rest[1..]) && (|rest| >= 2 ==> IsLast(next, last, rest[1..]))
    ensures |rest[0]| <= stored
    ensures Evicting(buf, next, last, items - 1, stored - |rest[0]|, rest[1..], need, goal)
  {
  }

  lemma StartOver(buf: seq<byte>, need: nat, goal: (seq<Entry>, nat))
    requires |buf| == LOG_SIZE && need <= LOG_SIZE && goal == ([], 0)
    ensures Evicting(buf, 0, 0, 0, 0, [], need, goal)
  {
    assert Arc(buf, 0, 0) == [];
  }

  /** Capping the request at the recorded size loses nothing: everything stored fits that. */
  lemma SameRun(q: seq<Entry>, size: nat, stored: nat)
    requires Total(q) <= stored
    ensures LongestRun(q, if size < stored then size else stored) == LongestRun(q, size)
  {
    if size >= stored {
      LongestRunIsLongest(q, stored);
      LongestRunIsLongest(q, size);
      var m := LongestRun(q, stored);
      if m < |q| {
        PrefixTotal(q, m);
      }
      LongestRunUnique(q, size, m);
    }
  }

  class Audit {
    const logBuffer: array<byte>
    const scratchBuffer: array<byte>
    var firstElIdx: nat
    var lastElIdx: nat
    var numItems: nat
    var storedSize: nat
    var globalTimestamp: nat
    /** What the buffer stands for, and every line accepted so far. */
    ghost var entries: seq<Entry>
    ghost var history: seq<Line>
    /** Every operation so far. */
    ghost var ops: seq<Op>

    /** The buffer holds the entries from the first index on, and the last index is where the newest starts. */
    ghost predicate Stores()
      reads this, logBuffer
    {
      && Holds(logBuffer[..], firstElIdx, entries)
      && numItems == |entries|
      && Total(entries) <= storedSize <= LOG_SIZE
      && (entries != [] ==> IsLast(firstElIdx, lastElIdx, entries))
    }

    ghost predicate Sound()
      reads this, logBuffer
    {
      && logBuffer.Length == LOG_SIZE && scratchBuffer.Length == LOG_SIZE && logBuffer != scratchBuffer
      && Stores()
      && (numItems == 0 ==> firstElIdx == 0 && storedSize == 0)
      && globalTimestamp == |history| % TWO64
      && IsWindow(Model())
    }

    /** The log is what its operations, one after the other, make of the empty one. */
    ghost predicate Valid()
      reads this, logBuffer
    {
      Sound() && Model() == Run(EMPTY_LOG, ops)
    }

    ghost function Model(): Log
      reads this
    {
      Log(entries, storedSize, history)
    }

    // ---- Index helpers

    method GetNextLogIndex(idx: nat) returns (i: nat)
      requires logBuffer.Length == LOG_SIZE && idx < LOG_SIZE && idx % 4 == 0
      ensures i == NextIndex(logBuffer[..], idx)
    {
      var size := GetEntrySize(idx);
      i := Add32(idx, size) % LOG_SIZE;
    }

    method GetEntrySize(idx: nat) returns (n: u32)
      requires logBuffer.Length == LOG_SIZE && idx < LOG_SIZE && idx % 4 == 0
      ensures n == EntrySize(SizeWord(logBuffer[..], idx))
    {
      var p := (idx + SIZE_OFFSET) % LOG_SIZE;
      assert p % 4 == 0 && p + 4 <= LOG_SIZE;
      var size := FromBytes(logBuffer[p], logBuffer[p + 1], logBuffer[p + 2], logBuffer[p + 3]);
      assert size == SizeWord(logBuffer[..], idx);
      n := EntrySize(size);
    }

    // ---- Initialisation, deletion, information

    constructor ()
      ensures Valid() && Model() == EMPTY_LOG && ops == []
    {
      logBuffer := new byte[LOG_SIZE](_ => 0);
      scratchBuffer := new byte[LOG_SIZE](_ => 0);
      firstElIdx, lastElIdx, numItems, storedSize, globalTimestamp := 0, 0, 0, 0, 0;
      entries, history, ops := [], [], [];
      new;
      assert Arc(logBuffer[..], 0, 0) == [];
    }

    /** `log_update_state(0, 0, 0, 0)` */
    method ClearState()
      requires Sound()
      modifies this`firstElIdx, this`lastElIdx, this`numItems, this`storedSize, this`entries
      ensures Sound() && Model() == Log([], 0, old(history))
    {
      DropKeepsWindow(Model(), |entries|, 0);
      assert entries[|entries|..] == [];
      firstElIdx, lastElIdx, storedSize, numItems := 0, 0, 0, 0;
      entries := [];
      assert Arc(logBuffer[..], 0, 0) == [];
    }

    method Init()
      requires Valid()
      modifies this`firstElIdx, this`lastElIdx, this`numItems, this`storedSize, this`entries, this`ops
      ensures Valid() && ops == old(ops) + [Op.Init]
      ensures Model() == Apply(old(Model()), Op.Init)
    {
      RunLast(EMPTY_LOG, ops, Op.Init);
      ClearState();
      ops := ops + [Op.Init];
    }

    /** The count is true; the size is too large by what partial deletes removed since the last reset. */
    method GetInfo() returns (size: nat, items: nat)
      requires Valid()
      ensures items == |entries| && size == Total(entries) + Excess(EMPTY_LOG, ops)
      ensures size == Total(entries) <==> PartialDeletesSettled(EMPTY_LOG, ops)
    {
      SlackIsExcess(EMPTY_LOG, ops);
      ExactIffSettled(EMPTY_LOG, ops);
      size := storedSize;
      items := numItems;
    }

    /** One step of the size words drops the oldest of the entries `q` stored from `idx` on. */
    method DropOldest(idx: nat, ghost last: nat, ghost q: seq<Entry>) returns (next: nat, size: u32)
      requires logBuffer.Length == LOG_SIZE && Holds(logBuffer[..], idx, q) && q != []
      requires IsLast(idx, last, q)
      ensures size == |q[0]| && Holds(logBuffer[..], next, q[1..])
      ensures |q| >= 2 ==> IsLast(next, last, q[1..])
    {
      HoldsTail(logBuffer[..], idx, q);
      size := GetEntrySize(idx);
      next := GetNextLogIndex(idx);
      if |q| >= 2 {
        LastAfterDrop(idx, last, q);
      }
    }

    method DeleteItems(num: nat, remGiven: bool) returns (err: LogErr, rem: nat)
      requires Valid()
      modifies this`firstElIdx, this`lastElIdx, this`numItems, this`storedSize, this`entries, this`ops
      ensures Valid()
      ensures !remGiven ==> err == LogFailure && Model() == old(Model()) && ops == old(ops)
      ensures remGiven ==>
                && err == LogSuccess && Model() == Apply(old(Model()), Op.Delete(num))
                && ops == old(ops) + [Op.Delete(num)]
                && rem == (if num < |old(entries)| then num else |old(entries)|) && entries == old(entries)[rem..]
                && storedSize == (if num < |old(entries)| then old(storedSize) else 0) && history == old(history)
    {
      rem := 0;
      if !remGiven {
        return LogFailure, rem;
      }
      RunLast(EMPTY_LOG, ops, Op.Delete(num));
      if num >= numItems {
        rem := numItems;
        ClearState();
      } else {
        DropItems(num);
        rem := num;
      }
      ops := ops + [Op.Delete(num)];
      return LogSuccess, rem;
    }

    /** Moves the head past the `num` oldest entries; the recorded size stays. */
    method DropItems(num: nat)
      requires Sound() && num < numItems
      modifies this`firstElIdx, this`numItems, this`entries
      ensures Sound() && entries == old(entries)[num..]
    {
      DropKeepsWindow(Model(), num, storedSize);
      var first := WalkPast(num);
      MoveHead(first, num);
    }

    method MoveHead(first: nat, num: nat)
      requires logBuffer.Length == LOG_SIZE && Stores() && num < numItems
      requires Holds(logBuffer[..], first, entries[num..]) && IsLast(first, lastElIdx, entries[num..])
      modifies this`firstElIdx, this`numItems, this`entries
      ensures Stores() && entries == old(entries)[num..] && numItems > 0
    {
      FlatSplit(entries, num);
      firstElIdx := first;
      numItems := numItems - num;
      entries := entries[num..];
    }

    method WalkPast(num: nat) returns (first: nat)
      requires logBuffer.Length == LOG_SIZE && Stores() && num < numItems
      ensures Holds(logBuffer[..], first, entries[num..]) && IsLast(first, lastElIdx, entries[num..])
    {
      first := firstElIdx;
      var idx := 0;
      ghost var rest := entries;
      while idx < num
        invariant 0 <= idx <= num < |entries|
        invariant rest == entries[idx..]
        invariant Holds(logBuffer[..], first, rest) && IsLast(first, lastElIdx, rest)
      {
        var next, _ := DropOldest(first, lastElIdx, rest);
        first := next;
        rest := rest[1..];
        idx := idx + 1;
      }
    }

    // ---- Adding a line

    /** `log_replace_item`: makes room for `need` bytes and returns where they go. */
    method ReplaceItem(need: nat) returns (start: nat)
      requires logBuffer.Length == LOG_SIZE && Stores() && numItems > 0 && need <= LOG_SIZE
      modifies this`firstElIdx, this`lastElIdx, this`numItems, this`storedSize, this`entries
      ensures Stores() && (entries, storedSize) == Evicted(old(entries), old(storedSize), need)
      ensures storedSize + need <= LOG_SIZE && start == At(firstElIdx, Total(entries))
    {
      var first, last, items, stored;
      ghost var rest;
      first, last, items, stored, rest := EvictOldest(need);
      if items == 0 {
        start := first;
      } else {
        NextOfLast(logBuffer[..], first, last, rest);
        start := GetNextLogIndex(last);
      }
      firstElIdx, lastElIdx, storedSize, numItems, entries := first, last, stored, items, rest;
    }

    /** The loop of `log_replace_item`: drops the oldest entries, or starts over, until there is room. */
    method EvictOldest(need: nat) returns (first: nat, last: nat, items: nat, stored: nat, ghost rest: seq<Entry>)
      requires logBuffer.Length == LOG_SIZE && Stores() && numItems > 0 && need <= LOG_SIZE
      ensures Holds(logBuffer[..], first, rest) && items == |rest| && Total(rest) <= stored && stored + need <= LOG_SIZE
      ensures rest != [] ==> IsLast(first, last, rest)
      ensures (rest, stored) == Evicted(entries, storedSize, need)
    {
      ghost var buf, goal := logBuffer[..], Evicted(entries, storedSize, need);
      first, last, items, stored, rest := firstElIdx, lastElIdx, numItems, storedSize, entries;
      while need > LOG_SIZE - stored
        invariant Evicting(buf, first, last, items, stored, rest, need, goal)
        decreases items
      {
        if items == 0 {
          first, last, items, stored := 0, 0, 0, 0;
          StartOver(buf, need, goal);
          break;
        }
        var next, size := DropOldest(first, last, rest);
        EvictNext(buf, first, next, last, items, stored, rest, need, goal);
        stored := stored - size;
        items := items - 1;
        first := next;
        rest := rest[1..];
      }
    }

    /** `log_format_buffer`: the complete entry in the scratch buffer. */
    method FormatBuffer(line: Line) returns (ghost e: Entry)
      requires scratchBuffer.Length == LOG_SIZE && LineFits(line) && globalTimestamp < TWO64
      modifies this`globalTimestamp, scratchBuffer
      ensures globalTimestamp == (old(globalTimestamp) + 1) % TWO64
      ensures e == Format(old(globalTimestamp), line) && |e| == line.size + LOG_OVERHEAD
      ensures WellFormed(e) && scratchBuffer[..|e|] == e
    {
      var stamp := globalTimestamp;
      FormatWellFormed(stamp, line);
      globalTimestamp := (globalTimestamp + 1) % TWO64;
      StoreHeader(stamp);
      StoreLine(line);
      e := Format(stamp, line);
    }

    method StoreHeader(stamp: nat)
      requires scratchBuffer.Length == LOG_SIZE && stamp < TWO64
      modifies scratchBuffer
      ensures scratchBuffer[..SIZE_OFFSET] == Le64(stamp) + Le32(0) + Le32(DUMMY_PARTITION_ID)
    {
      StoreBytes(scratchBuffer, 0, Le64(stamp));
      StoreBytes(scratchBuffer, 8, Le32(0));
      StoreBytes(scratchBuffer, 12, Le32(DUMMY_PARTITION_ID));
    }

    method StoreLine(line: Line)
      requires scratchBuffer.Length == LOG_SIZE && LineFits(line)
      modifies scratchBuffer
      ensures scratchBuffer[..line.size + LOG_OVERHEAD] ==
              old(scratchBuffer[..SIZE_OFFSET]) + (Le32(line.size) + line.data) + MAC
    {
      StoreBytes(scratchBuffer, SIZE_OFFSET, Le32(line.size) + line.data);
      StoreBytes(scratchBuffer, LOG_FIXED_FIELD_SIZE + line.size, MAC);
    }

    /** `log_buffer_copy`: the first `n` scratch bytes into the log, wrapping at its end. */
    method BufferCopy(dest: nat, n: nat)
      requires logBuffer.Length == LOG_SIZE == scratchBuffer.Length && logBuffer != scratchBuffer
      requires dest < LOG_SIZE && n <= LOG_SIZE
      modifies logBuffer
      ensures logBuffer[..] == Written(old(logBuffer[..]), dest, scratchBuffer[..n])
    {
      var idx := 0;
      assert logBuffer[..] == Written(logBuffer[..], dest, scratchBuffer[..0]);
      while idx < n
        invariant 0 <= idx <= n
        invariant logBuffer[..] == Written(old(logBuffer[..]), dest, scratchBuffer[..idx])
      {
        WrittenNext(old(logBuffer[..]), dest, scratchBuffer[..idx], scratchBuffer[idx]);
        assert scratchBuffer[..idx + 1] == scratchBuffer[..idx] + [scratchBuffer[idx]];
        logBuffer[(dest + idx) % LOG_SIZE] := scratchBuffer[idx];
        idx := idx + 1;
      }
    }

    method AddLine(line: Line, secureCaller: bool) returns (err: LogErr)
      requires Valid()
      modifies this, logBuffer, scratchBuffer
      ensures Valid() && ops == old(ops) + [Op.Add(line, secureCaller)]
      ensures Model() == Apply(old(Model()), Op.Add(line, secureCaller))
      ensures err == LogSuccess <==> secureCaller && line.size % 4 == 0 && line.size <= 1000
      ensures err != LogSuccess ==> Model() == old(Model())
      ensures err == LogSuccess ==>
                entries != [] && Shows(entries[|entries| - 1], |old(history)| % TWO64, line)
    {
      RunLast(EMPTY_LOG, ops, Op.Add(line, secureCaller));
      ops := ops + [Op.Add(line, secureCaller)];
      if !secureCaller {
        return LogFailure;
      }
      if line.size % 4 != 0 {
        return LogFailure;
      }
      if line.size > LOG_SIZE - (LOG_FIXED_FIELD_SIZE + LOG_MAC_SIZE) {
        return LogFailure;
      }
      FormatShows(|history| % TWO64, line);
      AddAccepted(line);
      return LogSuccess;
    }

    method AddAccepted(line: Line)
      requires Sound() && LineFits(line)
      modifies this`firstElIdx, this`lastElIdx, this`numItems, this`storedSize, this`globalTimestamp,
               this`entries, this`history, logBuffer, scratchBuffer
      ensures Sound() && Model() == AuditQueue.AddLine(old(Model()), line)
    {
      ghost var l := Model();
      ApplyKeepsWindow(l, Op.Add(line, true));
      FormatWellFormed(|history| % TWO64, line);
      var start := MakeRoom(line.size + LOG_OVERHEAD);
      InsertAt(start, line);
      assert Model() == AuditQueue.AddLine(l, line);
    }

    /** Where the next entry of `need` bytes goes: the start of an empty log, or behind the newest survivor. */
    method MakeRoom(need: nat) returns (start: nat)
      requires logBuffer.Length == LOG_SIZE && Stores() && LOG_OVERHEAD <= need <= LOG_SIZE
      requires numItems == 0 ==> firstElIdx == 0 && storedSize == 0
      modifies this`firstElIdx, this`lastElIdx, this`numItems, this`storedSize, this`entries
      ensures Stores() && (entries, storedSize) == Evicted(old(entries), old(storedSize), need)
      ensures storedSize + need <= LOG_SIZE && start == At(firstElIdx, Total(entries))
    {
      start := 0;
      if numItems != 0 {
        start := ReplaceItem(need);
      }
    }

    /** Formats the line, copies it into the room made for it and updates the state. */
    method InsertAt(start: nat, line: Line)
      requires logBuffer.Length == LOG_SIZE == scratchBuffer.Length && logBuffer != scratchBuffer
      requires Stores() && LineFits(line) && globalTimestamp == |history| % TWO64
      requires storedSize + line.size + LOG_OVERHEAD <= LOG_SIZE && start == At(firstElIdx, Total(entries))
      modifies this`lastElIdx, this`numItems, this`storedSize, this`globalTimestamp, this`entries, this`history,
               logBuffer, scratchBuffer
      ensures Stores() && globalTimestamp == |history| % TWO64
      ensures entries == old(entries) + [Format(|old(history)| % TWO64, line)]
      ensures storedSize == old(storedSize) + line.size + LOG_OVERHEAD
      ensures history == old(history) + [line]
    {
      ghost var e := FormatBuffer(line);
      NextStamp(|history|);
      InsertEntry(start, line.size + LOG_OVERHEAD, e);
      history := history + [line];
    }

    method InsertEntry(start: nat, n: nat, ghost e: Entry)
      requires logBuffer.Length == LOG_SIZE == scratchBuffer.Length && logBuffer != scratchBuffer
      requires Stores() && WellFormed(e) && n == |e| && scratchBuffer[..n] == e
      requires storedSize + n <= LOG_SIZE && start == At(firstElIdx, Total(entries))
      modifies this`lastElIdx, this`numItems, this`storedSize, this`entries, logBuffer
      ensures Stores() && entries == old(entries) + [e] && storedSize == old(storedSize) + n
    {
      AppendHolds(logBuffer[..], firstElIdx, entries, e);
      BufferCopy(start, n);
      FlatLast(entries, e);
      assert (entries + [e])[..|entries|] == entries;
      lastElIdx := start;
      numItems := numItems + 1;
      storedSize := storedSize + n;
      entries := entries + [e];
    }

    // ---- Retrieval

    method CopyOut(from: nat, n: nat, out: array<byte>)
      requires logBuffer.Length == LOG_SIZE && from < LOG_SIZE && n <= LOG_SIZE && n <= out.Length && out != logBuffer
      modifies out
      ensures out[..n] == Arc(logBuffer[..], from, n) && out[n..] == old(out[n..])
    {
      var idx := 0;
      while idx < n
        invariant 0 <= idx <= n
        invariant out[..idx] == Arc(logBuffer[..], from, idx) && out[n..] == old(out[n..])
        invariant logBuffer[..] == old(logBuffer[..])
      {
        assert (from + idx) % LOG_SIZE == At(from, idx);
        out[idx] := logBuffer[(from + idx) % LOG_SIZE];
        idx := idx + 1;
      }
    }

    /** The loop of `READ_RECENT`: skips the oldest entries until the rest fits. */
    method SkipToRecent(size: nat) returns (from: nat, n: nat, items: nat)
      requires logBuffer.Length == LOG_SIZE && Stores() && entries != []
      ensures RecentSkip(Model(), size) <= |entries|
      ensures items == |entries| - RecentSkip(Model(), size) && n == RecentSize(Model(), size)
      ensures n <= size && n <= LOG_SIZE
      ensures Holds(logBuffer[..], from, entries[RecentSkip(Model(), size)..])
    {
      ghost var l := Model();
      var stored: nat := storedSize;
      var retrieved: nat := if size < stored then size else stored;
      from, items := firstElIdx, numItems;
      NextOfLast(logBuffer[..], firstElIdx, lastElIdx, entries);
      var firstEmpty := GetNextLogIndex(lastElIdx);
      ghost var rest: seq<Entry>, k: nat := entries, 0;
      assert entries[0..] == entries;
      while retrieved < stored
        invariant Skipping(l, size, k, rest, stored, retrieved) && items == |rest| && stored <= LOG_SIZE
        invariant Holds(logBuffer[..], from, rest) && firstEmpty == At(from, Total(rest))
        decreases |rest|
      {
        SkipNext(l, size, k, rest, stored, retrieved);
        SkipOne(from, rest);
        from := GetNextLogIndex(from);
        items := items - 1;
        rest, k := rest[1..], k + 1;
        stored := if firstEmpty >= from then firstEmpty - from else (LOG_SIZE - from) + firstEmpty;
        if stored < retrieved {
          retrieved := stored;
        }
      }
      n := retrieved;
      SkipEnds(l, size, k, rest, stored, retrieved);
    }

    /** After one skip the circular distance to the end is the size of what is left. */
    lemma SkipOne(from: nat, rest: seq<Entry>)
      requires logBuffer.Length == LOG_SIZE && Holds(logBuffer[..], from, rest) && rest != []
      ensures var next := NextIndex(logBuffer[..], from);
              && Holds(logBuffer[..], next, rest[1..])
              && At(from, Total(rest)) == At(next, Total(rest[1..]))
              && Offset(next, At(from, Total(rest))) == Total(rest[1..])
    {
      HoldsTail(logBuffer[..], from, rest);
      assert WellFormed(rest[0]);
      AtAt(from, |rest[0]|, Total(rest[1..]));
      OffsetAt(At(from, |rest[0]|), 0, Total(rest[1..]));
    }

    /** The walk to entry `start`. */
    method SkipTo(start: nat) returns (from: nat)
      requires logBuffer.Length == LOG_SIZE && Stores() && start <= |entries|
      ensures Total(entries[..start]) <= LOG_SIZE && from == At(firstElIdx, Total(entries[..start]))
      ensures Holds(logBuffer[..], from, entries[start..])
    {
      from := firstElIdx;
      var idx := 0;
      assert entries[..0] == [] && entries[0..] == entries;
      while idx < start
        invariant 0 <= idx <= start
        invariant Total(entries[..idx]) <= LOG_SIZE && from == At(firstElIdx, Total(entries[..idx]))
        invariant Holds(logBuffer[..], from, entries[idx..])
      {
        HoldsTail(logBuffer[..], from, entries[idx..]);
        PrefixTotal(entries, idx);
        AtAt(firstElIdx, Total(entries[..idx]), |entries[idx]|);
        from := GetNextLogIndex(from);
        idx := idx + 1;
      }
    }

    /** The loop from an index: counts entries while the next one announced still fits `room`. */
    method CountForward(from: nat, room: nat) returns (n: nat, items: nat, ghost probed: seq<nat>)
      requires logBuffer.Length == LOG_SIZE && from < LOG_SIZE && from % 4 == 0 && room <= LOG_SIZE
      requires ForwardSize(logBuffer[..], from, 0) <= room ==> LoopEnds(logBuffer[..], from, room)
      ensures Tally(logBuffer[..], from, room, n, items)
      ensures |probed| == items + 1 && Probed(logBuffer[..], from, probed)
    {
      var stored := GetEntrySize(from);
      probed := [from];
      if stored > room {
        return 0, 0, probed;
      }
      ghost var last: nat :| EndsAt(logBuffer[..], from, room, last);
      n, items, probed := CountOn(from, stored, room, last);
    }

    /** The next index, and the size announced there. */
    method NextEntry(idx: nat) returns (next: nat, size: u32)
      requires logBuffer.Length == LOG_SIZE && idx < LOG_SIZE && idx % 4 == 0 && NextIndex(logBuffer[..], idx) % 4 == 0
      ensures next == NextIndex(logBuffer[..], idx) && size == EntrySize(SizeWord(logBuffer[..], next))
    {
      next := GetNextLogIndex(idx);
      size := GetEntrySize(next);
    }

    method CountOn(from: nat, size: u32, room: nat, ghost last: nat)
      returns (n: nat, items: nat, ghost probed: seq<nat>)
      requires logBuffer.Length == LOG_SIZE && Starts(logBuffer[..], from, room)
      requires EndsAt(logBuffer[..], from, room, last)
      requires size == ForwardSize(logBuffer[..], from, 0)
      ensures Tally(logBuffer[..], from, room, n, items)
      ensures |probed| == items + 1 && Probed(logBuffer[..], from, probed)
    {
      ghost var buf := logBuffer[..];
      items := 1;
      var stored: u32 := size;
      FirstStep(buf, from, room, last);
      var idx: nat, next: u32 := NextEntry(from);
      probed := [from] + [idx];
      while Add32(stored, next) <= room
        invariant 1 <= items <= last + 1
        invariant AtRound(buf, from, room, last, items - 1, idx, stored, next, probed)
        decreases last + 1 - items
      {
        idx, stored, next, probed := TakeRound(from, room, last, items - 1, idx, stored, next, probed);
        items := items + 1;
      }
      n := stored;
      LastRound(buf, from, room, last, items - 1, idx, stored, next, probed);
    }

    /** One round: the announced entry is counted, and the next one looked at. */
    method TakeRound(ghost from: nat, ghost room: nat, ghost last: nat, ghost n: nat, idx: nat, stored: u32, next: u32,
                     ghost probed: seq<nat>)
      returns (idx': nat, stored': u32, next': u32, ghost probed': seq<nat>)
      requires logBuffer.Length == LOG_SIZE && Add32(stored, next) <= room
      requires AtRound(logBuffer[..], from, room, last, n, idx, stored, next, probed)
      ensures n < last && AtRound(logBuffer[..], from, room, last, n + 1, idx', stored', next', probed')
    {
      NextRound(logBuffer[..], from, room, last, n, idx, stored, next, probed);
      stored' := Add32(stored, next);
      idx', next' := NextEntry(idx);
      probed' := probed + [idx'];
    }

    ghost function Room(size: nat): nat
      reads this
    {
      if size < storedSize then size else storedSize
    }

    /** The stale word behind the newest entry does not lead the loop from `start` past it. */
    ghost predicate StaysLive(size: nat, start: int)
      reads this, logBuffer
      requires logBuffer.Length == LOG_SIZE && Stores()
    {
      0 <= start < |entries| && |entries[start]| <= Room(size) ==>
        && Holds(logBuffer[..], Walk(logBuffer[..], firstElIdx, start), entries[start..])
        && ForwardStops(logBuffer[..], Walk(logBuffer[..], firstElIdx, start), entries[start..], Room(size))
    }

    /** A request smaller than what is stored from `start` on always stays live. */
    lemma SmallRequestStaysLive(size: nat, start: nat)
      requires logBuffer.Length == LOG_SIZE && Stores() && start < |entries| && size < Total(entries[start..])
      ensures StaysLive(size, start)
    {
      WalkFindsEntry(logBuffer[..], firstElIdx, entries, start);
    }

    /** The loop from `start` comes to an end. */
    ghost predicate Ends(size: nat, start: int)
      reads this, logBuffer
      requires logBuffer.Length == LOG_SIZE && Stores()
    {
      0 <= start < |entries| ==>
        var from := Walk(logBuffer[..], firstElIdx, start);
        from % 4 == 0 && ForwardSize(logBuffer[..], from, 0) <= Room(size) ==> LoopEnds(logBuffer[..], from, Room(size))
    }

    /** A loop that stays live comes to an end. */
    lemma LiveRequestEnds(size: nat, start: int)
      requires logBuffer.Length == LOG_SIZE && Stores() && StaysLive(size, start)
      ensures Ends(size, start)
    {
      if 0 <= start < |entries| {
        var from := Walk(logBuffer[..], firstElIdx, start);
        WalkFindsEntry(logBuffer[..], firstElIdx, entries, start);
        FirstSize(logBuffer[..], from, entries[start..]);
        if |entries[start]| <= Room(size) {
          LiveLoopEnds(logBuffer[..], from, entries[start..], Room(size));
        }
      }
    }

    /** The newest entries that `READ_RECENT` stops at, counted and copied. */
    ghost predicate RecentResult(size: nat, bytes: seq<byte>, n: nat, items: nat)
      reads this
      requires entries != []
    {
      var k := RecentSkip(Model(), size);
      && k <= |entries| && items == |entries| - k && n == RecentSize(Model(), size) <= |bytes|
      && Flat(entries[k..]) <= bytes[..n]
    }

    /** The longest run of whole entries from `start` that fits, counted and copied. */
    ghost predicate RunResult(size: nat, start: nat, bytes: seq<byte>, n: nat, items: nat)
      reads this
      requires start < |entries|
    {
      && items == LongestRun(entries[start..], size) && start + items <= |entries|
      && n == Total(entries[start..start + items]) <= |bytes|
      && bytes[..n] == Flat(entries[start..start + items])
    }

    /** What the loop from `start` counts, copied from the buffer. */
    ghost predicate CountResult(size: nat, start: nat, bytes: seq<byte>, n: nat, items: nat, probed: seq<nat>)
      reads this, logBuffer
      requires logBuffer.Length == LOG_SIZE && Stores() && start < |entries|
    {
      var from := Walk(logBuffer[..], firstElIdx, start);
      && from % 4 == 0 && Counted(logBuffer[..], from, Room(size), n, items, probed)
      && n <= |bytes| && n <= LOG_SIZE && bytes[..n] == Arc(logBuffer[..], from, n)
    }

    method Retrieve(size: u32, start: int, out: array<byte>)
      returns (err: LogErr, infoSize: nat, infoItems: nat, ghost probed: seq<nat>)
      requires Valid() && out != logBuffer && out.Length >= size && -0x8000_0000 <= start < 0x8000_0000
      requires Ends(size, start)
      modifies out
      ensures infoSize <= out.Length && out[infoSize..] == old(out[infoSize..])
      ensures size == 0 || (entries != [] && start != -1 && !(0 <= start < |entries|)) ==>
                err == LogFailure && infoSize == 0 && infoItems == 0
      ensures size > 0 && entries == [] ==> err == LogSuccess && infoSize == 0 && infoItems == 0
      ensures size > 0 && entries != [] && start == -1 ==>
                err == LogSuccess && RecentResult(size, out[..], infoSize, infoItems)
      ensures size > 0 && 0 <= start < |entries| ==>
                err == LogSuccess && CountResult(size, start, out[..], infoSize, infoItems, probed)
      ensures size > 0 && 0 <= start < |entries| && StaysLive(size, start) ==>
                RunResult(size, start, out[..], infoSize, infoItems) && ProbesFrom(probed, start, size)
    {
      probed := [];
      if size == 0 {
        return LogFailure, 0, 0, probed;
      }
      if numItems == 0 {
        return LogSuccess, 0, 0, probed;
      }
      if start == TFM_LOG_READ_RECENT {
        infoSize, infoItems := RetrieveRecent(size, out);
        return LogSuccess, infoSize, infoItems, probed;
      } else if 0 <= start < numItems {
        infoSize, infoItems, probed := RetrieveFrom(size, start, out);
        return LogSuccess, infoSize, infoItems, probed;
      } else {
        return LogFailure, 0, 0, probed;
      }
    }

    method RetrieveRecent(size: nat, out: array<byte>) returns (n: nat, items: nat)
      requires logBuffer.Length == LOG_SIZE && Stores() && entries != [] && out != logBuffer && out.Length >= size
      modifies out
      ensures n <= out.Length && out[n..] == old(out[n..])
      ensures RecentResult(size, out[..], n, items)
    {
      var from;
      from, n, items := SkipToRecent(size);
      CopyOut(from, n, out);
      ghost var rest := entries[RecentSkip(Model(), size)..];
      ArcPrefix(logBuffer[..], from, Total(rest), n);
      assert out[..][..n] == out[..n];
    }

    /** The size words read while counting from entry `start` belong to entries from there on, and those of a
        request smaller than what is stored there to live ones only. */
    ghost predicate ProbesFrom(probed: seq<nat>, start: nat, size: nat)
      reads this, logBuffer
      requires logBuffer.Length == LOG_SIZE && firstElIdx < LOG_SIZE && firstElIdx % 4 == 0 && start < |entries|
    {
      && EntryStarts(probed, Walk(logBuffer[..], firstElIdx, start), entries[start..])
      && (size < Total(entries[start..]) ==> |probed| <= |entries| - start)
    }

    method RetrieveFrom(size: nat, start: nat, out: array<byte>) returns (n: nat, items: nat, ghost probed: seq<nat>)
      requires logBuffer.Length == LOG_SIZE && Stores() && start < |entries|
      requires out != logBuffer && out.Length >= size && Ends(size, start)
      modifies out
      ensures n <= out.Length && out[n..] == old(out[n..])
      ensures CountResult(size, start, out[..], n, items, probed)
      ensures StaysLive(size, start) ==> RunResult(size, start, out[..], n, items) && ProbesFrom(probed, start, size)
    {
      WalkFindsEntry(logBuffer[..], firstElIdx, entries, start);
      var from := SkipTo(start);
      n, items, probed := CountForward(from, if size < storedSize then size else storedSize);
      CopyOut(from, n, out);
      assert out[..][..n] == out[..n];
      if StaysLive(size, start) {
        LiveResult(size, start, out[..], n, items, probed);
      }
    }

    lemma LiveResult(size: nat, start: nat, bytes: seq<byte>, n: nat, items: nat, probed: seq<nat>)
      requires logBuffer.Length == LOG_SIZE && Stores() && start < |entries| && StaysLive(size, start)
      requires CountResult(size, start, bytes, n, items, probed)
      ensures RunResult(size, start, bytes, n, items) && ProbesFrom(probed, start, size)
    {
      var from, tail := Walk(logBuffer[..], firstElIdx, start), entries[start..];
      WalkFindsEntry(logBuffer[..], firstElIdx, entries, start);
      FlatSplit(entries, start);
      TallyLive(logBuffer[..], from, tail, Room(size), n, items);
      ProbedLive(logBuffer[..], from, tail, Room(size), items, probed);
      SameRun(tail, size, storedSize);
      ArcOfRun(logBuffer[..], from, tail, items);
      assert tail[..items] == entries[start..start + items];
    }
  }
}
